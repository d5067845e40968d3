/**
 * Prompt files (src/video2markdown/prompts.py): a prompt is a Markdown file
 * with an optional YAML frontmatter, chosen among model-specific versions
 * of the same path, and rendered into chat messages.
 *
 * The file system is a value (the files with their text, and the folders);
 * `yaml.safe_load` and `str.format` are parameters, the first one free to fail.
 */
module Prompts {
  import opened Wrappers
  import opened Strings
  import opened Seqs
  import opened Json

  // =====================================================================
  // `Prompt`

  /** One chat message, `{"role": role, "content": content}`. */
  datatype Message = Message(role: string, content: string)

  /** A loaded prompt; its name is whatever the frontmatter's `name` holds, or a string from the file name. */
  datatype Prompt = Prompt(name: Json, content: string, metadata: seq<(string, Json)>)

  /** `Prompt.render`: the content, filled in by `str.format(**kwargs)`, as the one system message. */
  function Render(p: Prompt, fill: string -> string): seq<Message> {
    [Message("system", fill(p.content))]
  }

  /** `Prompt.get_api_params`: the metadata's `parameters`, else an empty mapping. */
  function GetApiParams(p: Prompt): (r: Json)
    ensures r == Obj([]) || exists i :: 0 <= i < |p.metadata| && p.metadata[i] == ("parameters", r)
    ensures Has(p.metadata, "parameters") ==> exists i :: 0 <= i < |p.metadata| && p.metadata[i] == ("parameters", r)
    ensures (forall i :: 0 <= i < |p.metadata| ==> p.metadata[i].0 != "parameters") ==> r == Obj([])
  {
    Get(p.metadata, "parameters", Obj([]))
  }

  /** `Prompt.get_user_template` */
  function UserTemplate(p: Prompt): Option<Json> {
    Lookup(p.metadata, "user_template")
  }

  /** The system message of `render_messages`: only for non-empty content. */
  function SystemPart(p: Prompt, fill: string -> string): seq<Message> {
    if p.content != "" then [Message("system", fill(p.content))] else []
  }

  /**
   * What `render_messages` returns: the system part, then the user content
   * when it is truthy, else the filled-in template when it is truthy (a
   * template that is not a string has no `format`).
   */
  function Messages(p: Prompt, userContent: Option<string>, fill: string -> string): Result<seq<Message>> {
    var template := UserTemplate(p);
    if userContent.Some? && userContent.value != "" then
      Success(SystemPart(p, fill) + [Message("user", userContent.value)])
    else if template.Some? && Truthy(template.value) then
      if template.value.Str? then Success(SystemPart(p, fill) + [Message("user", fill(template.value.s))])
      else Failure("AttributeError: user_template has no format")
    else Success(SystemPart(p, fill))
  }

  /** `Prompt.render_messages` */
  method RenderMessages(p: Prompt, userContent: Option<string>, fill: string -> string) returns (r: Result<seq<Message>>)
    ensures r == Messages(p, userContent, fill)
  {
    var messages: seq<Message> := [];
    if p.content != "" {
      messages := messages + [Message("system", fill(p.content))];
    }
    assert messages == SystemPart(p, fill);
    var template := UserTemplate(p);
    if userContent.Some? && userContent.value != "" {
      messages := messages + [Message("user", userContent.value)];
    } else if template.Some? && Truthy(template.value) {
      if !template.value.Str? {
        return Failure("AttributeError: user_template has no format");
      }
      messages := messages + [Message("user", fill(template.value.s))];
    }
    return Success(messages);
  }

  /**
   * At most two messages; a system message comes first exactly when the
   * content is not empty; truthy user content wins over the template; without
   * either there is no user message; only a template that is not a string fails.
   */
  lemma MessagesSpec(p: Prompt, userContent: Option<string>, fill: string -> string)
    ensures var r := Messages(p, userContent, fill);
            var given := userContent.Some? && userContent.value != "";
            var template := UserTemplate(p);
            (r.Failure? <==> !given && template.Some? && Truthy(template.value) && !template.value.Str?) &&
            (r.Success? ==>
               |r.value| <= 2 &&
               (p.content != "" <==> r.value != [] && r.value[0].role == "system") &&
               (p.content != "" ==> r.value[0] == Message("system", fill(p.content))) &&
               (forall i :: 1 <= i < |r.value| ==> r.value[i].role == "user")) &&
            (given ==> r.Success? && r.value[|r.value| - 1] == Message("user", userContent.value)) &&
            (!given && template.Some? && template.value.Str? && template.value.s != "" ==>
               r.Success? && r.value[|r.value| - 1] == Message("user", fill(template.value.s))) &&
            (!given && (template.None? || !Truthy(template.value)) ==>
               r.Success? && forall i :: 0 <= i < |r.value| ==> r.value[i].role == "system")
  {
  }

  /** `render` is the system part of `render_messages` for a prompt with content and no user message. */
  lemma RenderIsSystemPart(p: Prompt, fill: string -> string)
    ensures |Render(p, fill)| == 1 && Render(p, fill)[0] == Message("system", fill(p.content))
    ensures p.content != "" && (UserTemplate(p).None? || !Truthy(UserTemplate(p).value)) ==>
              Messages(p, None, fill) == Success(Render(p, fill))
  {
  }

  // =====================================================================
  // `PromptLoader.load`

  /** The files under the working folder, with their text, and the folders. */
  datatype Tree = Tree(files: map<string, string>, dirs: set<string>)

  /** `Path(path).exists()` */
  predicate Exists(t: Tree, path: string) {
    path in t.files || path in t.dirs
  }

  /** `read_text`: a folder cannot be read. */
  function ReadText(t: Tree, path: string): Result<string> {
    if path in t.files then Success(t.files[path]) else Failure("IsADirectoryError: " + path)
  }

  /** `path.replace(".", "/")`: the dot notation of prompt paths. */
  function SlashPath(path: string): string {
    ReplaceAll(path, ".", "/")
  }

  /** `prompts_dir / path` */
  function BasePath(dir: string, path: string): string {
    dir + "/" + SlashPath(path)
  }

  /** `model.split("-")[0]` */
  function ModelPrefix(model: string): string {
    Split(model, "-")[0]
  }

  /** The versions `load` tries, in order: the exact model, its prefix before "-", the default. */
  function Candidates(base: string, model: Option<string>): (r: seq<string>)
    ensures |r| >= 1 && r[|r| - 1] == base + ".md"
    ensures model.Some? && model.value != "" ==> |r| >= 2 && r[0] == base + "." + model.value + ".md"
    ensures |r| == 3 <==> model.Some? && model.value != "" && Contains(model.value, "-")
    ensures |r| == 3 ==> r[1] == base + "." + ModelPrefix(model.value) + ".md"
    ensures model.None? || model.value == "" ==> |r| == 1
  {
    (if model.Some? && model.value != "" then
       [base + "." + model.value + ".md"] +
       (if Contains(model.value, "-") then [base + "." + ModelPrefix(model.value) + ".md"] else [])
     else []) + [base + ".md"]
  }

  /** The candidates of `load(path, model)` under `dir`. */
  function Tried(dir: string, path: string, model: Option<string>): seq<string> {
    Candidates(BasePath(dir, path), model)
  }

  /** `candidate.replace(".md", "/index.md")`: every ".md" in the path is replaced, not only the last. */
  function IndexPath(candidate: string): string {
    ReplaceAll(candidate, ".md", "/index.md")
  }

  /** The first path from `i` on that exists. */
  function FirstFrom(t: Tree, paths: seq<string>, i: nat): (r: Option<nat>)
    requires i <= |paths|
    ensures r.Some? ==> i <= r.value < |paths| && Exists(t, paths[r.value]) &&
                        forall j :: i <= j < r.value ==> !Exists(t, paths[j])
    ensures r.None? ==> forall j :: i <= j < |paths| ==> !Exists(t, paths[j])
    decreases |paths| - i
  {
    if i == |paths| then None
    else if Exists(t, paths[i]) then Some(i)
    else FirstFrom(t, paths, i + 1)
  }

  /** The message of the `FileNotFoundError` that `load` raises. */
  function NotFound(path: string, candidates: seq<string>): string {
    "Prompt not found: " + path + "\nTried: " + Join(", ", candidates)
  }

  /** `_parse_file` on a path that exists. */
  function LoadAt(t: Tree, path: string, yaml: string -> Result<Json>): Result<Prompt> {
    match ReadText(t, path)
    case Failure(e) => Failure(e)
    case Success(content) => ParseFile(path, content, yaml)
  }

  /**
   * What `load` returns: the first candidate that exists, else the first
   * candidate's index file that exists, else `FileNotFoundError`.
   */
  function Loaded(dir: string, t: Tree, path: string, model: Option<string>, yaml: string -> Result<Json>): Result<Prompt> {
    var candidates := Tried(dir, path, model);
    var indexes := Map(candidates, IndexPath);
    match FirstFrom(t, candidates, 0)
    case Some(i) => LoadAt(t, candidates[i], yaml)
    case None =>
      match FirstFrom(t, indexes, 0)
      case Some(i) => LoadAt(t, indexes[i], yaml)
      case None => Failure(NotFound(SlashPath(path), candidates))
  }

  /** The prefix of a model name stops before its first "-". */
  lemma ModelPrefixSpec(model: string)
    ensures StartsWith(model, ModelPrefix(model)) && !Contains(ModelPrefix(model), "-")
    ensures Contains(model, "-") ==> |ModelPrefix(model)| < |model| && model[|ModelPrefix(model)|] == '-'
    ensures !Contains(model, "-") ==> ModelPrefix(model) == model
  {
    SplitPiecesFree(model, "-");
    if Find(model, "-", 0) >= 0 {
      SplitFound(model, "-");
    }
  }

  /** The first existing candidate is loaded, whatever exists after it. */
  lemma LoadFirstWins(dir: string, t: Tree, path: string, model: Option<string>, yaml: string -> Result<Json>, i: nat)
    requires i < |Tried(dir, path, model)| && Exists(t, Tried(dir, path, model)[i])
    requires forall j :: 0 <= j < i ==> !Exists(t, Tried(dir, path, model)[j])
    ensures Loaded(dir, t, path, model, yaml) == LoadAt(t, Tried(dir, path, model)[i], yaml)
  {
    var r := FirstFrom(t, Tried(dir, path, model), 0);
    assert r.Some? && r.value == i by {
      assert !(r.None?);
      assert !(r.value < i);
    }
  }

  /** With no candidate present, the first index file present is loaded. */
  lemma LoadIndexFallback(dir: string, t: Tree, path: string, model: Option<string>, yaml: string -> Result<Json>, i: nat)
    requires forall j :: 0 <= j < |Tried(dir, path, model)| ==> !Exists(t, Tried(dir, path, model)[j])
    requires i < |Tried(dir, path, model)| && Exists(t, IndexPath(Tried(dir, path, model)[i]))
    requires forall j :: 0 <= j < i ==> !Exists(t, IndexPath(Tried(dir, path, model)[j]))
    ensures Loaded(dir, t, path, model, yaml) == LoadAt(t, IndexPath(Tried(dir, path, model)[i]), yaml)
  {
    var indexes := Map(Tried(dir, path, model), IndexPath);
    var r := FirstFrom(t, indexes, 0);
    assert indexes[i] == IndexPath(Tried(dir, path, model)[i]);
    assert r.Some? && r.value == i by {
      assert !(r.None?);
      assert !(r.value < i);
    }
  }

  /** With neither a candidate nor an index file, `load` raises `FileNotFoundError` listing the candidates. */
  lemma LoadNotFound(dir: string, t: Tree, path: string, model: Option<string>, yaml: string -> Result<Json>)
    requires forall j :: 0 <= j < |Tried(dir, path, model)| ==>
               !Exists(t, Tried(dir, path, model)[j]) && !Exists(t, IndexPath(Tried(dir, path, model)[j]))
    ensures Loaded(dir, t, path, model, yaml) == Failure(NotFound(SlashPath(path), Tried(dir, path, model)))
  {
    var indexes := Map(Tried(dir, path, model), IndexPath);
    assert forall j :: 0 <= j < |indexes| ==> !Exists(t, indexes[j]);
  }

  /**
   * The version order for a model such as "kimi-k2.5": `{base}.kimi-k2.5.md`
   * if present, else `{base}.kimi.md` if present, else `{base}.md`.
   */
  lemma LoadPriority(dir: string, t: Tree, path: string, model: string, yaml: string -> Result<Json>)
    requires Contains(model, "-")
    ensures var base := BasePath(dir, path);
            var exact := base + "." + model + ".md";
            var prefixed := base + "." + ModelPrefix(model) + ".md";
            var default := base + ".md";
            var loaded := Loaded(dir, t, path, Some(model), yaml);
            (Exists(t, exact) ==> loaded == LoadAt(t, exact, yaml)) &&
            (!Exists(t, exact) && Exists(t, prefixed) ==> loaded == LoadAt(t, prefixed, yaml)) &&
            (!Exists(t, exact) && !Exists(t, prefixed) && Exists(t, default) ==> loaded == LoadAt(t, default, yaml))
  {
    var c := Tried(dir, path, Some(model));
    assert model != "";
    assert |c| == 3;
    if Exists(t, c[0]) {
      LoadFirstWins(dir, t, path, Some(model), yaml, 0);
    } else if Exists(t, c[1]) {
      LoadFirstWins(dir, t, path, Some(model), yaml, 1);
    } else if Exists(t, c[2]) {
      LoadFirstWins(dir, t, path, Some(model), yaml, 2);
    }
  }

  /** The dot notation is gone: no "." is left, and a path without dots is kept as it is. */
  lemma SlashPathSpec(path: string)
    ensures Avoids(SlashPath(path), '.')
    ensures Avoids(path, '.') ==> SlashPath(path) == path
  {
    var pieces := Split(path, ".");
    SplitPiecesFree(path, ".");
    forall j | 0 <= j < |pieces|
      ensures Avoids(pieces[j], '.')
    {
      CharFree(pieces[j], '.');
    }
    JoinAvoids("/", pieces, '.');
    if Avoids(path, '.') {
      assert Find(path, ".", 0) == -1 by {
        forall k | 0 <= k < |path|
          ensures !OccursAt(path, ".", k)
        {
          Mismatch(path, ".", k, 0);
        }
      }
    }
  }

  // =====================================================================
  // `PromptLoader._parse_file`

  /**
   * Where group 1 of `^---\s*\n(.*?)\n---` starts: the greedy `\s*` backs off
   * from position `q` of the whitespace run after "---" to the last newline
   * that a closing "\n---" still follows.
   */
  function OpeningEnd(s: string, q: int): (r: Option<nat>)
    requires q < |s|
    ensures r.Some? ==> 4 <= r.value <= |s| && Find(s, "\n---", r.value) >= 0
    decreases q
  {
    if q < 3 then None
    else if s[q] == '\n' && Find(s, "\n---", q + 1) >= 0 then Some(q + 1)
    else OpeningEnd(s, q - 1)
  }

  /**
   * `re.match(r'^---\s*\n(.*?)\n---\s*\n?(.*)$', s, re.DOTALL)`: groups 1
   * and 2 when it matches. Group 1 ends at the first "\n---" after its start
   * (the lazy `.*?`); group 2 is the rest without its leading whitespace.
   */
  function Frontmatter(s: string): (r: Option<(string, string)>)
    ensures r.Some? ==> StartsWith(s, "---") && Contains(s, "\n---")
  {
    if !StartsWith(s, "---") then None
    else
      match OpeningEnd(s, 3 + SpaceRun(s, 3) - 1)
      case None => None
      case Some(b) =>
        var k := Find(s, "\n---", b);
        ContainsIff(s, "\n---");
        Some((s[b..k], AfterClosing(s, k)))
  }

  /** The text after a closing "---" at `k`, leading whitespace dropped. */
  function AfterClosing(s: string, k: nat): string
    requires k + 4 <= |s|
  {
    LStrip(s[k + 4..])
  }

  /** `file_path.stem.split(".")[0]` */
  function StemName(filePath: string): string {
    Split(Stem(BaseName(filePath)), ".")[0]
  }

  /** `yaml.safe_load(...) or {}` used as a dict: falsy is `{}`, and only a mapping has `get`. */
  function MetadataOf(v: Json): Result<seq<(string, Json)>> {
    if !Truthy(v) then Success([])
    else if v.Obj? then Success(v.fields)
    else Failure("AttributeError: metadata has no get")
  }

  /** `PromptLoader._parse_file` on the text of `filePath`. */
  function ParseFile(filePath: string, content: string, yaml: string -> Result<Json>): Result<Prompt> {
    PromptOf(Str(StemName(filePath)), content, Frontmatter(content), yaml)
  }

  /** The prompt made of the file's text and its frontmatter groups, named `fallback` unless the metadata names it. */
  function PromptOf(fallback: Json, content: string, groups: Option<(string, string)>, yaml: string -> Result<Json>): Result<Prompt> {
    match groups
    case None => Success(Prompt(fallback, Strip(content), []))
    case Some(g) =>
      match yaml(g.0)
      case Failure(e) => Failure(e)
      case Success(v) =>
        match MetadataOf(v)
        case Failure(e) => Failure(e)
        case Success(metadata) => Success(Prompt(Get(metadata, "name", fallback), Strip(g.1), metadata))
  }

  /** The closing "\n---" is found right after a frontmatter that holds none. */
  lemma ClosingFound(f: string, b: string)
    requires !Contains(f, "\n---")
    ensures Find("---\n" + f + "\n---" + b, "\n---", 4) == 4 + |f|
  {
    var s := "---\n" + f + "\n---" + b;
    var n := |f|;
    assert s[4..4 + n] == f;
    assert s[4 + n..8 + n] == "\n---";
    ContainsIff(f, "\n---");
    forall k | 4 <= k < 4 + n
      ensures !OccursAt(s, "\n---", k)
    {
      if k + 4 <= 4 + n {
        assert !OccursAt(f, "\n---", k - 4);
        assert s[k..k + 4] == f[k - 4..k];
      } else {
        assert s[4 + n] == '\n';
        Mismatch(s, "\n---", k, 4 + n - k);
      }
    }
    FindIs(s, "\n---", 4, 4 + n);
  }

  /**
   * A file "---\n{f}\n---{b}" whose frontmatter `f` starts with a
   * non-space and holds no "\n---" is split into `f` and `b` without its
   * leading whitespace.
   */
  lemma FrontmatterSplit(f: string, b: string)
    requires f != [] && !IsSpace(f[0]) && !Contains(f, "\n---")
    ensures Frontmatter("---\n" + f + "\n---" + b) == Some((f, LStrip(b)))
  {
    var s := "---\n" + f + "\n---" + b;
    assert s[..3] == "---";
    assert s[3] == '\n' && s[4] == f[0];
    assert SpaceRun(s, 4) == 0;
    assert SpaceRun(s, 3) == 1;
    ClosingFound(f, b);
    assert OpeningEnd(s, 3) == Some(4);
    assert s[4..4 + |f|] == f;
    assert s[4 + |f| + 4..] == b;
    assert AfterClosing(s, 4 + |f|) == LStrip(b);
  }

  lemma StripLStrip(s: string)
    ensures Strip(LStrip(s)) == Strip(s)
  {
    var l := LStrip(s);
    assert LStrip(l) == l;
  }

  /**
   * A file with frontmatter: the metadata is the decoded mapping, the
   * content is the stripped text after the closing "---", and the name is
   * the metadata's `name`, else the file's stem before its first ".".
   */
  lemma ParseWithFrontmatter(filePath: string, f: string, b: string, yaml: string -> Result<Json>, fields: seq<(string, Json)>)
    requires f != [] && !IsSpace(f[0]) && !Contains(f, "\n---")
    requires yaml(f) == Success(Obj(fields)) && fields != []
    ensures var r := ParseFile(filePath, "---\n" + f + "\n---" + b, yaml);
            r.Success? && r.value.content == Strip(b) && r.value.metadata == fields &&
            (Has(fields, "name") ==> r.value.name == Lookup(fields, "name").value) &&
            (!Has(fields, "name") ==> r.value.name == Str(StemName(filePath)))
  {
    var s := "---\n" + f + "\n---" + b;
    FrontmatterSplit(f, b);
    StripLStrip(b);
    ParseFromGroups(filePath, s, yaml, f, LStrip(b), fields);
    NameOrFallback(fields, Str(StemName(filePath)));
  }

  lemma NameOrFallback(fields: seq<(string, Json)>, fallback: Json)
    ensures Has(fields, "name") ==> Get(fields, "name", fallback) == Lookup(fields, "name").value
    ensures !Has(fields, "name") ==> Get(fields, "name", fallback) == fallback
  {
  }

  /** Once the frontmatter is cut out and reads as a non-empty mapping, that mapping is the metadata. */
  lemma ParseFromGroups(filePath: string, s: string, yaml: string -> Result<Json>, f: string, body: string,
                        fields: seq<(string, Json)>)
    requires Frontmatter(s) == Some((f, body)) && yaml(f) == Success(Obj(fields)) && fields != []
    ensures ParseFile(filePath, s, yaml) == Success(Prompt(Get(fields, "name", Str(StemName(filePath))), Strip(body), fields))
  {
    PromptOfGroups(Str(StemName(filePath)), s, f, body, yaml, fields);
  }

  /** The prompt built from frontmatter groups whose first part decodes to a non-empty mapping. */
  lemma PromptOfGroups(fallback: Json, content: string, f: string, body: string, yaml: string -> Result<Json>,
                       fields: seq<(string, Json)>)
    requires yaml(f) == Success(Obj(fields)) && fields != []
    ensures PromptOf(fallback, content, Some((f, body)), yaml) == Success(Prompt(Get(fields, "name", fallback), Strip(body), fields))
  {
    MetadataOfMapping(fields);
  }

  lemma MetadataOfMapping(fields: seq<(string, Json)>)
    requires fields != []
    ensures MetadataOf(Obj(fields)) == Success(fields)
  {
  }

  /**
   * A file without frontmatter, or whose "---" is never closed, has no
   * metadata: its content is the whole text stripped and its name the stem.
   */
  lemma ParseWithoutFrontmatter(filePath: string, content: string, yaml: string -> Result<Json>)
    requires !StartsWith(content, "---") || !Contains(content, "\n---")
    ensures ParseFile(filePath, content, yaml) == Success(Prompt(Str(StemName(filePath)), Strip(content), []))
  {
  }

  /** A folder's "{n}{v}.md" with `n` free of "." and "/" is named `n`: the version part is dropped. */
  lemma StemNameOf(dir: string, n: string, v: string)
    requires n != [] && Avoids(n, '.') && Avoids(n, '/') && Avoids(v, '/')
    requires v == [] || v[0] == '.'
    ensures StemName(dir + "/" + n + v + ".md") == n
  {
    var name := n + v + ".md";
    assert Avoids(name, '/');
    BaseNameOfJoin(dir, name);
    assert dir + "/" + name == dir + "/" + n + v + ".md";
    var d := |n + v|;
    assert name[d] == '.' && name[d + 1] == 'm' && name[d + 2] == 'd';
    assert LastDot(name) == d;
    assert Stem(name) == n + v;
    var nv := n + v;
    if v == [] {
      assert nv == n;
      assert Find(nv, ".", 0) == -1 by {
        forall k | 0 <= k < |nv|
          ensures !OccursAt(nv, ".", k)
        {
          Mismatch(nv, ".", k, 0);
        }
      }
    } else {
      assert OccursAt(nv, ".", |n|) by {
        assert nv[|n|..|n| + 1] == [v[0]];
      }
      forall k | 0 <= k < |n|
        ensures !OccursAt(nv, ".", k)
      {
        Mismatch(nv, ".", k, 0);
      }
      FindIs(nv, ".", 0, |n|);
      assert nv[..|n|] == n;
    }
  }

  // =====================================================================
  // `PromptLoader.list_prompts`

  /** Python's `<` on strings: code point by code point, a proper prefix first. */
  predicate StrLt(a: string, b: string)
    decreases |a|
  {
    if a == [] then b != []
    else b != [] && (a[0] < b[0] || (a[0] == b[0] && StrLt(a[1..], b[1..])))
  }

  /** `<` on lists of strings, as on a path's parts. */
  predicate PartsLt(a: seq<string>, b: seq<string>)
    decreases |a|
  {
    if a == [] then b != []
    else b != [] && (StrLt(a[0], b[0]) || (a[0] == b[0] && PartsLt(a[1..], b[1..])))
  }

  /** `<` on relative paths: their parts compared in turn. */
  predicate PathLt(a: string, b: string) {
    PartsLt(Split(a, "/"), Split(b, "/"))
  }

  lemma {:induction false} StrLtAsymmetric(a: string, b: string)
    ensures StrLt(a, b) ==> !StrLt(b, a)
    decreases |a|
  {
    if a != [] && b != [] && a[0] == b[0] {
      StrLtAsymmetric(a[1..], b[1..]);
    }
  }

  lemma {:induction false} StrLtTotal(a: string, b: string)
    ensures a == b || StrLt(a, b) || StrLt(b, a)
    decreases |a|
  {
    if a != [] && b != [] && a[0] == b[0] {
      StrLtTotal(a[1..], b[1..]);
      if a[1..] == b[1..] {
        assert a == [a[0]] + a[1..] && b == [b[0]] + b[1..];
      }
    }
  }

  lemma {:induction false} PartsLtAsymmetric(a: seq<string>, b: seq<string>)
    ensures PartsLt(a, b) ==> !PartsLt(b, a)
    decreases |a|
  {
    if a != [] && b != [] {
      StrLtAsymmetric(a[0], b[0]);
      if a[0] == b[0] {
        PartsLtAsymmetric(a[1..], b[1..]);
      }
    }
  }

  lemma {:induction false} PartsLtTotal(a: seq<string>, b: seq<string>)
    ensures a == b || PartsLt(a, b) || PartsLt(b, a)
    decreases |a|
  {
    if a != [] && b != [] {
      StrLtTotal(a[0], b[0]);
      if a[0] == b[0] {
        PartsLtTotal(a[1..], b[1..]);
        if a[1..] == b[1..] {
          assert a == [a[0]] + a[1..] && b == [b[0]] + b[1..];
        }
      }
    }
  }

  /** The path order is strict and total: of two different paths exactly one comes first. */
  lemma PathOrder(a: string, b: string)
    ensures Asymmetric(PathLt)
    ensures a != b ==> PathLt(a, b) || PathLt(b, a)
  {
    forall x: string, y: string
      ensures PathLt(x, y) ==> !PathLt(y, x)
    {
      PartsLtAsymmetric(Split(x, "/"), Split(y, "/"));
    }
    PartsLtTotal(Split(a, "/"), Split(b, "/"));
    JoinSplit(a, "/");
    JoinSplit(b, "/");
  }

  /** `file_path.name != "README.md"` */
  predicate NotReadme(path: string) {
    BaseName(path) != "README.md"
  }

  /** What `list_prompts` returns for the relative paths `rglob("*.md")` finds. */
  function Listed(found: seq<string>): seq<string> {
    SortWith(Filter(found, NotReadme), PathLt)
  }

  /**
   * `list_prompts` lists each found file but the READMEs, each as often as
   * found, in ascending path order.
   */
  lemma ListedSpec(found: seq<string>)
    ensures var r := Listed(found);
            multiset(r) == multiset(Filter(found, NotReadme)) &&
            (forall p :: p in r <==> p in found && BaseName(p) != "README.md") &&
            AscendingWith(r, PathLt)
  {
    var kept := Filter(found, NotReadme);
    SortWithMultiset(kept, PathLt);
    FilterComplete(found, NotReadme);
    PathOrder("", "");
    SortWithAscending(kept, PathLt);
    forall p
      ensures p in Listed(found) <==> p in kept
    {
      assert p in Listed(found) <==> p in multiset(Listed(found));
      assert p in kept <==> p in multiset(kept);
    }
  }

  // =====================================================================
  // `PromptLoader` and `get_loader`

  class PromptLoader {
    const promptsDir: string

    constructor(dir: string)
      ensures promptsDir == dir
    {
      promptsDir := dir;
    }

    /** `PromptLoader.load` */
    method Load(t: Tree, path: string, model: Option<string>, yaml: string -> Result<Json>) returns (r: Result<Prompt>)
      ensures r == Loaded(promptsDir, t, path, model, yaml)
    {
      var slashed := ReplaceAll(path, ".", "/");
      var base := promptsDir + "/" + slashed;
      var candidates: seq<string> := [];
      if model.Some? && model.value != "" {
        candidates := candidates + [base + "." + model.value + ".md"];
        if Contains(model.value, "-") {
          var prefix := Split(model.value, "-")[0];
          candidates := candidates + [base + "." + prefix + ".md"];
        }
      }
      candidates := candidates + [base + ".md"];
      assert candidates == Tried(promptsDir, path, model);
      var i := 0;
      while i < |candidates|
        invariant 0 <= i <= |candidates|
        invariant FirstFrom(t, candidates, i) == FirstFrom(t, candidates, 0)
      {
        if Exists(t, candidates[i]) {
          return LoadAt(t, candidates[i], yaml);
        }
        i := i + 1;
      }
      ghost var indexes := Map(candidates, IndexPath);
      i := 0;
      while i < |candidates|
        invariant 0 <= i <= |candidates|
        invariant FirstFrom(t, indexes, i) == FirstFrom(t, indexes, 0)
      {
        var indexPath := ReplaceAll(candidates[i], ".md", "/index.md");
        assert indexPath == indexes[i];
        if Exists(t, indexPath) {
          return LoadAt(t, indexPath, yaml);
        }
        i := i + 1;
      }
      return Failure(NotFound(slashed, candidates));
    }

    /** `PromptLoader.list_prompts` over the relative paths found under the folder. */
    method ListPrompts(found: seq<string>) returns (r: seq<string>)
      ensures r == Listed(found)
    {
      var prompts: seq<string> := [];
      var i := 0;
      while i < |found|
        invariant 0 <= i <= |found|
        invariant prompts == Filter(found[..i], NotReadme)
      {
        FilterSnoc(found[..i], found[i], NotReadme);
        assert found[..i + 1] == found[..i] + [found[i]];
        if BaseName(found[i]) != "README.md" {
          prompts := prompts + [found[i]];
        }
        i := i + 1;
      }
      assert found[..i] == found;
      r := SortWith(prompts, PathLt);
    }
  }

  /** `PromptLoader(dir)`: refused with `FileNotFoundError` when the folder does not exist. */
  method NewLoader(t: Tree, dir: string) returns (r: Result<PromptLoader>)
    ensures r.Success? <==> Exists(t, dir)
    ensures r.Success? ==> fresh(r.value) && r.value.promptsDir == dir
    ensures r.Failure? ==> r.error == "Prompts directory not found: " + dir
  {
    if !Exists(t, dir) {
      return Failure("Prompts directory not found: " + dir);
    }
    var loader := new PromptLoader(dir);
    return Success(loader);
  }

  /** The module-level `_loader` slot, `null` until first use. */
  class LoaderRegistry {
    var loader: PromptLoader?

    constructor()
      ensures loader == null
    {
      loader := null;
    }

    /** `get_loader`: the cached loader, created for "prompts" on the first call that finds the folder. */
    method GetLoader(t: Tree) returns (r: Result<PromptLoader>)
      modifies this
      ensures old(loader) != null ==> r == Success(old(loader)) && loader == old(loader)
      ensures old(loader) == null && Exists(t, "prompts") ==>
                r.Success? && fresh(r.value) && r.value.promptsDir == "prompts" && loader == r.value
      ensures old(loader) == null && !Exists(t, "prompts") ==>
                r == Failure("Prompts directory not found: prompts") && loader == null
    {
      if loader == null {
        var created := NewLoader(t, "prompts");
        if created.Failure? {
          return created;
        }
        loader := created.value;
      }
      return Success(loader);
    }
  }

  /** Two calls of `get_loader` in a row hand out the same loader. */
  method GetLoaderTwice(reg: LoaderRegistry, t: Tree) returns (a: Result<PromptLoader>, b: Result<PromptLoader>)
    modifies reg
    ensures a.Success? ==> b == a && reg.loader == a.value
  {
    a := reg.GetLoader(t);
    b := reg.GetLoader(t);
  }
}
