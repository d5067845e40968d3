/**
 * Decoded pictures. The pipeline only ever passes frames to OpenCV metrics
 * (mean absolute difference, Canny edge ratio, Laplacian variance, ...);
 * here a frame is known only by its identity, and every metric over frames
 * is a parameter of the operation that uses it.
 */
module Media {

  datatype Frame = Frame(id: nat)
}
