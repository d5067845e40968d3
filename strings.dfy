/**
 * The parts of Python's `str` that the pipeline relies on: whitespace,
 * `strip`, `find`/`in`, `split`, `join`, slicing with negative indices,
 * and the `{:0Nd}` / `{:.Nf}` format specifications.
 */
module Strings {

  /** Python's `str.isspace` for one character (also what `\s` matches in a `str` regex). */
  predicate IsSpace(c: char) {
    var u := c as int;
    (9 <= u <= 13) || (28 <= u <= 32) || u == 0x85 || u == 0xA0 || u == 0x1680
    || (0x2000 <= u <= 0x200A) || u == 0x2028 || u == 0x2029 || u == 0x202F
    || u == 0x205F || u == 0x3000
  }

  /** `s.lstrip()` */
  function LStrip(s: string): (r: string)
    ensures |r| <= |s| && r == s[|s| - |r|..]
    ensures r == [] || !IsSpace(r[0])
    ensures forall i :: 0 <= i < |s| - |r| ==> IsSpace(s[i])
  {
    if s == [] || !IsSpace(s[0]) then s else LStrip(s[1..])
  }

  /** `s.rstrip()` */
  function RStrip(s: string): (r: string)
    ensures |r| <= |s| && r == s[..|r|]
    ensures r == [] || !IsSpace(r[|r| - 1])
    ensures forall i :: |r| <= i < |s| ==> IsSpace(s[i])
  {
    if s == [] || !IsSpace(s[|s| - 1]) then s else RStrip(s[..|s| - 1])
  }

  /** `s.strip()` */
  function Strip(s: string): string {
    RStrip(LStrip(s))
  }

  /** A string that `strip()` leaves alone. */
  predicate IsStripped(s: string) {
    s == [] || (!IsSpace(s[0]) && !IsSpace(s[|s| - 1]))
  }

  lemma StripStripped(s: string)
    ensures IsStripped(Strip(s))
  {
    var l := LStrip(s);
    var r := RStrip(l);
    if r != [] {
      assert r[0] == l[0];
    }
  }

  lemma StripOfStripped(s: string)
    requires IsStripped(s)
    ensures Strip(s) == s
  {
  }

  lemma StripIdempotent(s: string)
    ensures Strip(Strip(s)) == Strip(s)
  {
    StripStripped(s);
    StripOfStripped(Strip(s));
  }

  /** `sub` occurs in `s` at position `k`. */
  predicate OccursAt(s: string, sub: string, k: int) {
    0 <= k && k + |sub| <= |s| && s[k..k + |sub|] == sub
  }

  /** `s.find(sub, start)`: the first position at or after `start` where `sub` occurs, or -1. */
  function Find(s: string, sub: string, start: nat): (r: int)
    ensures r == -1 || (start <= r && OccursAt(s, sub, r))
    ensures forall k :: start <= k && (r == -1 || k < r) ==> !OccursAt(s, sub, k)
    decreases |s| - start
  {
    if start + |sub| > |s| then -1
    else if s[start..start + |sub|] == sub then start
    else Find(s, sub, start + 1)
  }

  /** `sub in s` */
  predicate Contains(s: string, sub: string) {
    Find(s, sub, 0) >= 0
  }

  lemma ContainsIff(s: string, sub: string)
    ensures Contains(s, sub) <==> exists k :: OccursAt(s, sub, k)
  {
  }

  lemma SliceOfSlice<T>(s: seq<T>, a: nat, b: nat, i: nat, j: nat)
    requires a <= b <= |s| && i <= j <= b - a
    ensures s[a..b][i..j] == s[a + i..a + j]
  {
    assert |s[a..b][i..j]| == |s[a + i..a + j]|;
    forall x | 0 <= x < j - i
      ensures s[a..b][i..j][x] == s[a + i..a + j][x]
    {
    }
  }

  lemma ContainsWithin(s: string, sub: string, a: nat, b: nat)
    requires a <= b <= |s| && Contains(s[a..b], sub)
    ensures Contains(s, sub)
  {
    var t := s[a..b];
    var k := Find(t, sub, 0);
    assert 0 <= k && k + |sub| <= |t| && t[k..k + |sub|] == sub;
    assert a + k + |sub| <= b;
    SliceOfSlice(s, a, b, k, k + |sub|);
    assert OccursAt(s, sub, a + k);
    var r := Find(s, sub, 0);
    assert r != -1 by {
      assert 0 <= a + k && (r == -1 || a + k < r) ==> !OccursAt(s, sub, a + k);
    }
  }

  /** `find` gives the first occurrence at or after `start`. */
  lemma FindIs(s: string, sub: string, start: nat, p: nat)
    requires start <= p && OccursAt(s, sub, p)
    requires forall k :: start <= k < p ==> !OccursAt(s, sub, k)
    ensures Find(s, sub, start) == p
  {
  }

  /** One differing character rules an occurrence out. */
  lemma Mismatch(s: string, sub: string, k: nat, i: nat)
    requires i < |sub| && k + i < |s| && s[k + i] != sub[i]
    ensures !OccursAt(s, sub, k)
  {
    if k + |sub| <= |s| {
      assert s[k..k + |sub|][i] == s[k + i];
    }
  }

  /** `sub` cannot start where `s` lacks its first character. */
  lemma NoOccurrence(s: string, sub: string, lo: nat, hi: nat)
    requires |sub| > 0 && hi <= |s|
    requires forall k :: lo <= k < hi ==> s[k] != sub[0]
    ensures forall k :: lo <= k < hi ==> !OccursAt(s, sub, k)
  {
    forall k | lo <= k < hi
      ensures !OccursAt(s, sub, k)
    {
      Mismatch(s, sub, k, 0);
    }
  }

  /** The length of the whitespace run of `s` from `k` on (what a greedy `\s*` takes). */
  function SpaceRun(s: string, k: nat): (n: nat)
    requires k <= |s|
    ensures k + n <= |s|
    ensures forall i :: k <= i < k + n ==> IsSpace(s[i])
    ensures k + n == |s| || !IsSpace(s[k + n])
    decreases |s| - k
  {
    if k < |s| && IsSpace(s[k]) then 1 + SpaceRun(s, k + 1) else 0
  }

  /** No character of `s` is `c`. */
  predicate Avoids(s: string, c: char) {
    forall i :: 0 <= i < |s| ==> s[i] != c
  }

  lemma {:induction false} JoinAvoids(sep: string, parts: seq<string>, c: char)
    requires Avoids(sep, c) && forall j :: 0 <= j < |parts| ==> Avoids(parts[j], c)
    ensures Avoids(Join(sep, parts), c)
    decreases |parts|
  {
    if |parts| > 1 {
      JoinAvoids(sep, parts[1..], c);
    }
  }

  lemma CharFree(s: string, c: char)
    requires !Contains(s, [c])
    ensures Avoids(s, c)
  {
    ContainsIff(s, [c]);
    forall i | 0 <= i < |s|
      ensures s[i] != c
    {
      assert !OccursAt(s, [c], i);
      assert s[i..i + 1] == [s[i]];
    }
  }

  lemma CharAbsent(s: string, c: char)
    requires Avoids(s, c)
    ensures !Contains(s, [c])
  {
    ContainsIff(s, [c]);
    forall k | 0 <= k < |s|
      ensures !OccursAt(s, [c], k)
    {
      Mismatch(s, [c], k, 0);
    }
  }

  /** `any(w in s for w in words)` */
  predicate ContainsAny(s: string, words: seq<string>) {
    exists i :: 0 <= i < |words| && Contains(s, words[i])
  }

  /** `s.startswith(p)` */
  predicate StartsWith(s: string, p: string) {
    |p| <= |s| && s[..|p|] == p
  }

  /** A string starts with whatever is put in front of it. */
  lemma StartsWithConcat(p: string, rest: string)
    ensures StartsWith(p + rest, p)
  {
    assert (p + rest)[..|p|] == p;
  }

  /** `s.endswith(p)` */
  predicate EndsWith(s: string, p: string) {
    |p| <= |s| && s[|s| - |p|..] == p
  }

  /** `sep.join(parts)` */
  function Join(sep: string, parts: seq<string>): string
    decreases |parts|
  {
    if parts == [] then ""
    else if |parts| == 1 then parts[0]
    else parts[0] + sep + Join(sep, parts[1..])
  }

  lemma JoinCons(sep: string, head: string, parts: seq<string>)
    requires parts != []
    ensures Join(sep, [head] + parts) == head + sep + Join(sep, parts)
  {
    assert ([head] + parts)[1..] == parts;
  }

  lemma JoinAppend(sep: string, parts: seq<string>, p: string)
    requires parts != []
    ensures Join(sep, parts + [p]) == Join(sep, parts) + sep + p
    decreases |parts|
  {
    if |parts| > 1 {
      assert (parts + [p])[1..] == parts[1..] + [p];
      JoinAppend(sep, parts[1..], p);
    }
  }

  /** `"".join(parts)`, written left to right as a file receives it. */
  function Concat(parts: seq<string>): string {
    if parts == [] then "" else Concat(parts[..|parts| - 1]) + parts[|parts| - 1]
  }

  /** Part `i` sits right after the parts before it. */
  lemma ConcatPair(a: string, b: string)
    ensures Concat([a, b]) == a + b
  {
    assert [a][..0] == [];
    assert Concat([a]) == "" + a == a;
    assert [a, b][..1] == [a];
  }

  lemma {:induction false} ConcatLayout(parts: seq<string>, i: nat)
    requires i < |parts|
    ensures |Concat(parts[..i])| + |parts[i]| <= |Concat(parts)|
    ensures Concat(parts)[|Concat(parts[..i])|..|Concat(parts[..i])| + |parts[i]|] == parts[i]
    decreases |parts|
  {
    var n := |parts| - 1;
    var pre := parts[..n];
    if i == n {
      assert parts[..i] == pre;
    } else {
      ConcatLayout(pre, i);
      assert pre[..i] == parts[..i];
      var off := |Concat(parts[..i])|;
      assert Concat(parts)[off..off + |parts[i]|] == Concat(pre)[off..off + |parts[i]|];
    }
  }

  /** `s.split(sep)` for a non-empty separator (an empty one raises `ValueError` in Python). */
  function Split(s: string, sep: string): (r: seq<string>)
    requires sep != []
    ensures |r| >= 1
    decreases |s|
  {
    var i := Find(s, sep, 0);
    if i < 0 then [s] else [s[..i]] + Split(s[i + |sep|..], sep)
  }

  /** With a first occurrence at `i`, the split is the text before it and the split of the rest. */
  lemma SplitFound(s: string, sep: string)
    requires sep != [] && Find(s, sep, 0) >= 0
    ensures Split(s, sep) == [s[..Find(s, sep, 0)]] + Split(s[Find(s, sep, 0) + |sep|..], sep)
    ensures s[Find(s, sep, 0)..Find(s, sep, 0) + |sep|] == sep
  {
    var i := Find(s, sep, 0);
    assert OccursAt(s, sep, i);
  }

  lemma OuterSlices(p: string, sep: string, rest: string)
    ensures (p + sep + rest)[..|p|] == p && (p + sep + rest)[|p| + |sep|..] == rest
  {
  }

  lemma Pieces3(s: string, i: nat, j: nat)
    requires i <= j <= |s|
    ensures s == s[..i] + s[i..j] + s[j..]
  {
  }

  /** No piece of `s.split(sep)` contains the separator. */
  lemma SplitPiecesFree(s: string, sep: string)
    requires sep != []
    ensures forall j :: 0 <= j < |Split(s, sep)| ==> !Contains(Split(s, sep)[j], sep)
    decreases |s|
  {
    var i := Find(s, sep, 0);
    if i >= 0 {
      SplitPiecesFree(s[i + |sep|..], sep);
      if Contains(s[..i], sep) {
        var k := Find(s[..i], sep, 0);
        assert s[..i][k..k + |sep|] == s[k..k + |sep|];
        assert OccursAt(s, sep, k);
      }
    }
  }

  /** Splitting and re-joining with the same separator gives back the string. */
  lemma {:induction false} JoinSplit(s: string, sep: string)
    requires sep != []
    ensures Join(sep, Split(s, sep)) == s
    decreases |s|
  {
    var i := Find(s, sep, 0);
    if i >= 0 {
      var head := s[..i];
      var rest := s[i + |sep|..];
      var pieces := Split(rest, sep);
      JoinSplit(rest, sep);
      SplitFound(s, sep);
      JoinCons(sep, head, pieces);
      Pieces3(s, i, i + |sep|);
    }
  }

  /** Joining pieces free of the separator and splitting again gives back the pieces. */
  lemma {:induction false} SplitJoin(parts: seq<string>, sep: string)
    requires sep != [] && parts != []
    requires forall j :: 0 <= j < |parts| ==> !Contains(parts[j], sep)
    requires forall j :: 0 <= j < |parts| - 1 ==> !StraddlesJoint(parts[j], sep)
    ensures Split(Join(sep, parts), sep) == parts
    decreases |parts|
  {
    if |parts| == 1 {
      assert Find(parts[0], sep, 0) == -1;
    } else {
      var p := parts[0];
      var tail := parts[1..];
      var s := Join(sep, parts);
      var rest := Join(sep, tail);
      assert parts == [p] + tail;
      JoinCons(sep, p, tail);
      FindAfterFreePrefix(p, sep, rest);
      SplitFound(s, sep);
      OuterSlices(p, sep, rest);
      assert forall j :: 0 <= j < |tail| ==> tail[j] == parts[j + 1];
      SplitJoin(tail, sep);
    }
  }

  /**
   * An occurrence of `sep` that begins inside `p` and runs past its end, in
   * `p + sep + anything`: for a one-character separator this cannot happen.
   */
  predicate StraddlesJoint(p: string, sep: string) {
    exists k :: |p| - |sep| < k < |p| && 0 <= k && OccursAt(p + sep, sep, k)
  }

  lemma FindAfterFreePrefix(p: string, sep: string, rest: string)
    requires sep != [] && !Contains(p, sep) && !StraddlesJoint(p, sep)
    ensures Find(p + sep + rest, sep, 0) == |p|
  {
    var s := p + sep + rest;
    assert OccursAt(s, sep, |p|) by {
      assert s[|p|..|p| + |sep|] == sep;
    }
    forall k | 0 <= k < |p|
      ensures !OccursAt(s, sep, k)
    {
      if k + |sep| <= |p| {
        assert !OccursAt(p, sep, k);
        assert s[k..k + |sep|] == p[k..k + |sep|];
      } else {
        assert !OccursAt(p + sep, sep, k);
        assert s[k..k + |sep|] == (p + sep)[k..k + |sep|];
      }
    }
  }

  lemma NoStraddleSingle(p: string, c: char)
    ensures !StraddlesJoint(p, [c])
  {
  }

  /** The maximal prefix of `s` free of whitespace. */
  function Word(s: string): (r: string)
    ensures |r| <= |s| && r == s[..|r|]
    ensures forall i :: 0 <= i < |r| ==> !IsSpace(r[i])
    ensures |r| == |s| || IsSpace(s[|r|])
  {
    if s == [] || IsSpace(s[0]) then [] else [s[0]] + Word(s[1..])
  }

  /** `s.split()`: the maximal runs of non-whitespace characters. */
  function SplitWhitespace(s: string): seq<string>
    decreases |s|
  {
    var t := LStrip(s);
    if t == [] then []
    else
      var w := Word(t);
      assert w != [] by {
        assert !IsSpace(t[0]);
      }
      [w] + SplitWhitespace(t[|w|..])
  }

  /** No word of `s.split()` is empty. */
  lemma {:induction false} SplitWhitespaceWords(s: string)
    ensures forall j :: 0 <= j < |SplitWhitespace(s)| ==> SplitWhitespace(s)[j] != []
    decreases |s|
  {
    var t := LStrip(s);
    if t != [] {
      var w := Word(t);
      assert w != [] by {
        assert !IsSpace(t[0]);
      }
      var rest := SplitWhitespace(t[|w|..]);
      SplitWhitespaceWords(t[|w|..]);
      assert SplitWhitespace(s) == [w] + rest;
      forall j | 0 <= j < |SplitWhitespace(s)|
        ensures SplitWhitespace(s)[j] != []
      {
        if j > 0 {
          assert SplitWhitespace(s)[j] == rest[j - 1];
        }
      }
    }
  }

  lemma SplitWhitespaceEmpty(s: string)
    ensures SplitWhitespace(s) == [] <==> Strip(s) == []
  {
    var t := LStrip(s);
    if t != [] {
      assert RStrip(t) != [] by {
        assert !IsSpace(t[0]);
      }
    }
  }

  /** Python's `s[a:b]`: negative bounds count from the end, out-of-range bounds are clamped. */
  function Slice(s: string, a: int, b: int): (r: string)
    ensures |r| <= |s|
  {
    var i := Clamp(if a < 0 then a + |s| else a, |s|);
    var j := Clamp(if b < 0 then b + |s| else b, |s|);
    if i >= j then "" else s[i..j]
  }

  function Clamp(i: int, n: nat): (r: nat)
    ensures r <= n
  {
    if i < 0 then 0 else if i > n then n else i
  }

  /** `s[:n]` for `n >= 0`. */
  function Take(s: string, n: nat): (r: string)
    ensures r == (if n < |s| then s[..n] else s)
  {
    Slice(s, 0, n)
  }

  /** `s.replace(pat, repl)` for a non-empty `pat`. */
  function ReplaceAll(s: string, pat: string, repl: string): string
    requires pat != []
  {
    Join(repl, Split(s, pat))
  }

  // ---------------------------------------------------------------------
  // Decimal numerals

  function DigitChar(d: nat): (c: char)
    requires d < 10
    ensures '0' <= c <= '9'
  {
    (48 + d) as char
  }

  function DigitValue(c: char): nat
    requires '0' <= c <= '9'
  {
    c as int - 48
  }

  predicate IsDigit(c: char) {
    '0' <= c <= '9'
  }

  predicate AllDigits(s: string) {
    forall i :: 0 <= i < |s| ==> IsDigit(s[i])
  }

  /** The number a string of decimal digits denotes (Python's `int(s)`). */
  function DigitsValue(s: string): nat
    requires AllDigits(s)
    decreases |s|
  {
    if s == [] then 0 else DigitsValue(s[..|s| - 1]) * 10 + DigitValue(s[|s| - 1])
  }

  /** `str(n)` for a natural number. */
  function NatText(n: nat): (r: string)
    ensures r != [] && AllDigits(r)
    decreases n
  {
    if n < 10 then [DigitChar(n)] else NatText(n / 10) + [DigitChar(n % 10)]
  }

  lemma {:induction false} NatTextValue(n: nat)
    ensures DigitsValue(NatText(n)) == n
    decreases n
  {
    if n >= 10 {
      NatTextValue(n / 10);
      var t := NatText(n);
      assert t[..|t| - 1] == NatText(n / 10);
    }
  }

  function Pow10(k: nat): (r: nat)
    ensures r >= 1
  {
    if k == 0 then 1 else 10 * Pow10(k - 1)
  }

  lemma {:induction false} NatTextLength(n: nat, w: nat)
    ensures |NatText(n)| <= w <==> (w >= 1 && n < Pow10(w))
    decreases n
  {
    if n >= 10 {
      if w >= 1 {
        NatTextLength(n / 10, w - 1);
      } else {
        NatTextLength(n / 10, 0);
      }
    } else if w >= 1 {
      MonotonePow10(1, w);
    }
  }

  lemma MonotonePow10(a: nat, b: nat)
    requires a <= b
    ensures Pow10(a) <= Pow10(b)
    decreases b
  {
    if a < b {
      MonotonePow10(a, b - 1);
    }
  }

  function Zeros(k: nat): (r: string)
    ensures |r| == k && AllDigits(r)
  {
    if k == 0 then "" else "0" + Zeros(k - 1)
  }

  lemma {:induction false} ZerosValue(k: nat, t: string)
    requires AllDigits(t)
    ensures DigitsValue(Zeros(k) + t) == DigitsValue(t)
    decreases |t|
  {
    if t == [] {
      ZerosOnly(k);
      assert Zeros(k) + t == Zeros(k);
    } else {
      var u := Zeros(k) + t;
      assert u[..|u| - 1] == Zeros(k) + t[..|t| - 1];
      ZerosValue(k, t[..|t| - 1]);
    }
  }

  lemma {:induction false} ZerosOnly(k: nat)
    ensures DigitsValue(Zeros(k)) == 0
  {
    if k > 0 {
      var z := Zeros(k);
      assert z[..|z| - 1] == Zeros(k - 1) by {
        ZerosShift(k);
      }
      ZerosOnly(k - 1);
    }
  }

  lemma {:induction false} ZerosShift(k: nat)
    requires k > 0
    ensures Zeros(k) == Zeros(k - 1) + "0"
  {
    if k > 1 {
      ZerosShift(k - 1);
    }
  }

  /** `f"{n:0{w}d}"` for `n >= 0`: at least `w` digits, padded with leading zeros. */
  function PadNat(n: nat, w: nat): (r: string)
    ensures AllDigits(r)
  {
    var t := NatText(n);
    if |t| >= w then t else Zeros(w - |t|) + t
  }

  /** A number below `10^w` prints in exactly `w` digits that read back as the number. */
  lemma PadNatExact(n: nat, w: nat)
    requires w >= 1 && n < Pow10(w)
    ensures |PadNat(n, w)| == w
    ensures DigitsValue(PadNat(n, w)) == n
  {
    var t := NatText(n);
    NatTextLength(n, w);
    NatTextValue(n);
    if |t| < w {
      var z := Zeros(w - |t|);
      assert PadNat(n, w) == z + t;
      ZerosValue(w - |t|, t);
    } else {
      assert PadNat(n, w) == t;
    }
  }

  /** `f"{i:0{w}d}"` for any integer: Python puts the sign before the zero padding. */
  function PadInt(i: int, w: nat): string {
    if i >= 0 then PadNat(i, w) else "-" + PadNat(-i, if w > 0 then w - 1 else 0)
  }

  /** `str(i)` / `f"{i}"` for an integer. */
  function IntText(i: int): string {
    if i >= 0 then NatText(i) else "-" + NatText(-i)
  }

  /** Python's `round` to an integer: halves go to the even neighbour. */
  function RoundHalfEven(x: real): int {
    var n := x.Floor;
    var frac := x - n as real;
    if frac > 0.5 || (frac == 0.5 && n % 2 == 1) then n + 1 else n
  }

  lemma RoundHalfEvenClose(x: real)
    ensures -0.5 <= RoundHalfEven(x) as real - x <= 0.5
  {
  }

  /**
   * `f"{x:.{d}f}"` on the exact value `x`: rounded half to even at `d`
   * decimals, a point and `d` digits when `d > 0`, a leading "-" for negatives.
   */
  function Fixed(x: real, d: nat): string {
    if x < 0.0 then "-" + FixedNonNeg(-x, d) else FixedNonNeg(x, d)
  }

  function FixedNonNeg(x: real, d: nat): string
    requires x >= 0.0
  {
    UnitsText(ScaledUnits(x, d), d)
  }

  /** `x` counted in units of `10^-d`, rounded half to even. */
  function ScaledUnits(x: real, d: nat): (n: nat)
    requires x >= 0.0
    ensures -0.5 <= n as real - x * Pow10(d) as real <= 0.5
  {
    var y := x * Pow10(d) as real;
    RoundHalfEvenClose(y);
    var n := RoundHalfEven(y);
    if n < 0 then 0 else n
  }

  /** `n` units of `10^-d` written with `d` decimals. */
  function UnitsText(n: nat, d: nat): string {
    if d == 0 then NatText(n) else NatText(WholeUnits(n, d)) + "." + PadNat(FracUnits(n, d), d)
  }

  /** `n / 10^d` */
  function WholeUnits(n: nat, d: nat): nat {
    if d == 0 then n else WholeUnits(n / 10, d - 1)
  }

  /** `n % 10^d`: the last `d` decimal digits of `n`. */
  function FracUnits(n: nat, d: nat): (r: nat)
    ensures r < Pow10(d)
    ensures WholeUnits(n, d) * Pow10(d) + r == n
  {
    if d == 0 then 0
    else
      var r0 := FracUnits(n / 10, d - 1);
      DigitStep(WholeUnits(n / 10, d - 1), Pow10(d - 1), r0, n / 10, n % 10);
      r0 * 10 + n % 10
  }

  /** Shifting a quotient-remainder pair one decimal place up and putting digit `m` below. */
  lemma DigitStep(w: int, p: int, r0: int, q: int, m: int)
    requires w * p + r0 == q && 0 <= r0 < p && 0 <= m < 10
    ensures w * (p * 10) + (r0 * 10 + m) == q * 10 + m
    ensures r0 * 10 + m < p * 10
  {
    assert w * (p * 10) == (w * p) * 10;
    assert (w * p + r0) * 10 == (w * p) * 10 + r0 * 10;
  }

  /** The integer and decimal digits of a fixed-point text read back as the number of units. */
  lemma UnitsTextDigits(n: nat, d: nat)
    requires d > 0
    ensures |PadNat(FracUnits(n, d), d)| == d
    ensures DigitsValue(NatText(WholeUnits(n, d))) * Pow10(d) + DigitsValue(PadNat(FracUnits(n, d), d)) == n
  {
    PadNatExact(FracUnits(n, d), d);
    NatTextValue(WholeUnits(n, d));
  }

  // ---------------------------------------------------------------------
  // File names (`pathlib` on POSIX paths)

  /** `Path.name` of a path without a trailing "/": the part after the last "/". */
  function BaseName(path: string): (r: string)
    ensures |r| <= |path|
    decreases |path|
  {
    if path == [] then []
    else if path[|path| - 1] == '/' then []
    else BaseName(path[..|path| - 1]) + [path[|path| - 1]]
  }

  /** A name without "/" in a folder is the folder's entry of that name. */
  lemma {:induction false} BaseNameOfJoin(dir: string, name: string)
    requires forall i :: 0 <= i < |name| ==> name[i] != '/'
    ensures BaseName(dir + "/" + name) == name
    decreases |name|
  {
    if name == [] {
      assert dir + "/" + name == dir + "/";
    } else {
      var init := name[..|name| - 1];
      assert (dir + "/" + name)[..|dir + "/" + name| - 1] == dir + "/" + init;
      BaseNameOfJoin(dir, init);
      assert init + [name[|name| - 1]] == name;
    }
  }

  /** The position of the last "." in `s`, or -1. */
  function LastDot(s: string): (r: int)
    ensures -1 <= r < |s|
    ensures r >= 0 ==> s[r] == '.' && forall i :: r < i < |s| ==> s[i] != '.'
    ensures r < 0 ==> forall i :: 0 <= i < |s| ==> s[i] != '.'
  {
    if s == [] then -1
    else if s[|s| - 1] == '.' then |s| - 1
    else LastDot(s[..|s| - 1])
  }

  /** `Path.stem`: the name without its last suffix; a leading or trailing dot is no suffix. */
  function Stem(name: string): string {
    var i := LastDot(name);
    if 0 < i < |name| - 1 then name[..i] else name
  }
}
