/** Values shared by the recognition worker and the enrollment runner: optional values,
    face regions, annotated frames and the resize rule both pipelines apply to a face crop. */
module Common {

  datatype Option<+T> = None | Some(value: T)

  /** Where frames are captured from: a camera device index or a stream URL / device path. */
  datatype Source = CameraIndex(index: int) | StreamUrl(url: string)

  /** A detected face region `(x, y, w, h)` in frame coordinates. */
  datatype Region = Region(x: int, y: int, w: nat, h: nat)

  /** A BGR colour as OpenCV takes it. */
  datatype Color = Color(b: int, g: int, r: int)

  /** Rectangle drawn around a face while enrollment has paused actuation. */
  const PAUSED_COLOR: Color := Color(255, 165, 0)
  /** Rectangle drawn around a face that went through recognition. */
  const RECOGNISED_COLOR: Color := Color(0, 255, 0)

  datatype Box = Box(region: Region, color: Color)

  /** A captured frame: its pixels (never interpreted here) and the rectangles drawn on it. */
  datatype Frame = Frame(pixels: seq<int>, boxes: seq<Box>)

  /** Side of the square every face crop is resized to. */
  const FACE_SIZE: nat := 200

  datatype Interp = InterArea | InterCubic

  /** The interpolation chosen for resizing a `w` x `h` crop to FACE_SIZE x FACE_SIZE:
      area averaging when the crop has to shrink in some dimension, bicubic when it is
      enlarged (or kept) in both. */
  function Interpolation(w: nat, h: nat): (i: Interp)
    ensures i == InterArea <==> (FACE_SIZE < w || FACE_SIZE < h)
    ensures i == InterCubic <==> (w <= FACE_SIZE && h <= FACE_SIZE)
  {
    if w > 200 || h > 200 then InterArea else InterCubic
  }

  function Min(a: int, b: int): (m: int)
    ensures m <= a && m <= b && (m == a || m == b)
  {
    if a <= b then a else b
  }
}
