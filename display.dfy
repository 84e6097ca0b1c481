/** The event-frame display: a res_x × res_y × 3 buffer allocated once as
    zeros, whose channel 1 is overwritten in place by every frame read from
    the event stream, then transposed to res_y × res_x × 3 and handed to the
    resize-and-show call with the scaled output size. The UDP stream and the
    OpenCV window are outside the model: the frames read are a parameter and
    the loop returns the calls it would make to show them. */
module Display {

  /** Command-line defaults: image scale, X and Y resolution. */
  const DefaultScale: int := 1
  const DefaultResX: int := 1280
  const DefaultResY: int := 720

  // ---------------------------------------------------------------------------
  // Output size

  /** `math.ceil`: the least integer not below `x`. */
  function Ceil(x: real): (r: int)
    ensures (r - 1) as real < x <= r as real
  {
    var f := x.Floor;
    if f as real == x then f else f + 1
  }

  /** The ceiling of a value that is already an integer is that integer. */
  lemma CeilOfInteger(n: int)
    ensures Ceil(n as real) == n
  {
  }

  /** `(new_l, new_w)`: the ceilings of the scaled resolutions. */
  function OutputSize(resX: int, resY: int, scale: int): (int, int)
  {
    (Ceil((resX * scale) as real), Ceil((resY * scale) as real))
  }

  /** Both factors are integers, so the ceiling does nothing: the output is
      exactly the resolution times the scale. */
  lemma OutputSizeIsProduct(resX: int, resY: int, scale: int)
    ensures OutputSize(resX, resY, scale) == (resX * scale, resY * scale)
  {
  }

  /** With the defaults the output keeps the 1280 × 720 resolution. */
  lemma DefaultOutputSize()
    ensures OutputSize(DefaultResX, DefaultResY, DefaultScale) == (1280, 720)
  {
  }

  // ---------------------------------------------------------------------------
  // Values: frames read from the stream and three-dimensional images

  /** A frame read from the stream, indexed `[x][y]`. */
  type Grid = seq<seq<real>>

  /** A three-dimensional image, indexed `[i][j][c]`. */
  type Tensor3 = seq<seq<seq<real>>>

  predicate IsGrid(g: Grid, d0: nat, d1: nat)
  {
    |g| == d0 && forall i :: 0 <= i < d0 ==> |g[i]| == d1
  }

  predicate HasShape(t: Tensor3, d0: nat, d1: nat, d2: nat)
  {
    |t| == d0 &&
    forall i :: 0 <= i < d0 ==>
      |t[i]| == d1 && forall j :: 0 <= j < d1 ==> |t[i][j]| == d2
  }

  /** `transpose(1, 0, 2)`: swaps the first two axes. */
  function Transpose(t: Tensor3, d0: nat, d1: nat, d2: nat): (r: Tensor3)
    requires HasShape(t, d0, d1, d2)
    ensures HasShape(r, d1, d0, d2)
    ensures forall j, i, c :: 0 <= j < d1 && 0 <= i < d0 && 0 <= c < d2 ==>
      r[j][i][c] == t[i][j][c]
  {
    seq(d1, j requires 0 <= j < d1 => seq(d0, i requires 0 <= i < d0 => t[i][j]))
  }

  /** Swapping the first two axes twice gives the image back. */
  lemma TransposeInvolution(t: Tensor3, d0: nat, d1: nat, d2: nat)
    requires HasShape(t, d0, d1, d2)
    ensures Transpose(Transpose(t, d0, d1, d2), d1, d0, d2) == t
  {
    var r := Transpose(Transpose(t, d0, d1, d2), d1, d0, d2);
    forall i | 0 <= i < d0
      ensures r[i] == t[i]
    {
      forall j | 0 <= j < d1
        ensures r[i][j] == t[i][j]
      {
        assert |r[i][j]| == |t[i][j]| == d2;
      }
    }
  }

  /** The buffer after a frame has been written: channel 1 holds the frame,
      channels 0 and 2 hold the zeros they were allocated with. */
  function Composed(g: Grid, resX: nat, resY: nat): (t: Tensor3)
    requires IsGrid(g, resX, resY)
    ensures HasShape(t, resX, resY, 3)
  {
    seq(resX, x requires 0 <= x < resX =>
      seq(resY, y requires 0 <= y < resY => [0.0, g[x][y], 0.0]))
  }

  /** The image handed to the resize-and-show call for one frame read. */
  function ImageOf(g: Grid, resX: nat, resY: nat): (t: Tensor3)
    requires IsGrid(g, resX, resY)
    ensures HasShape(t, resY, resX, 3)
  {
    Transpose(Composed(g, resX, resY), resX, resY, 3)
  }

  /** Pixel `(y, x)` of the shown image is green with the intensity the
      frame has at `(x, y)`; red and blue are zero everywhere. */
  lemma ImageOfPixels(g: Grid, resX: nat, resY: nat)
    requires IsGrid(g, resX, resY)
    ensures forall y, x :: 0 <= y < resY && 0 <= x < resX ==>
      ImageOf(g, resX, resY)[y][x] == [0.0, g[x][y], 0.0]
  {
  }

  /** Transposing the image back recovers the composed buffer. */
  lemma ImageOfTransposesBack(g: Grid, resX: nat, resY: nat)
    requires IsGrid(g, resX, resY)
    ensures Transpose(ImageOf(g, resX, resY), resY, resX, 3) == Composed(g, resX, resY)
  {
    TransposeInvolution(Composed(g, resX, resY), resX, resY, 3);
  }

  /** The shown image determines the frame read: two frames that give the
      same image are the same frame. */
  lemma ImageOfInjective(g: Grid, h: Grid, resX: nat, resY: nat)
    requires IsGrid(g, resX, resY) && IsGrid(h, resX, resY)
    requires ImageOf(g, resX, resY) == ImageOf(h, resX, resY)
    ensures g == h
  {
    ImageOfPixels(g, resX, resY);
    ImageOfPixels(h, resX, resY);
    forall x | 0 <= x < resX
      ensures g[x] == h[x]
    {
      forall y | 0 <= y < resY
        ensures g[x][y] == h[x][y]
      {
        assert ImageOf(g, resX, resY)[y][x][1] == g[x][y];
        assert ImageOf(h, resX, resY)[y][x][1] == h[x][y];
      }
    }
  }

  // ---------------------------------------------------------------------------
  // The buffer and the display loop

  /** One `cv2.resize(image, (new_l, new_w))` followed by `imshow`: the image
      before resizing and the requested output size. */
  datatype ShowCall = ShowCall(image: Tensor3, width: int, height: int)

  /** The call made for frame `g`. */
  function ExpectedShow(g: Grid, resX: nat, resY: nat, scale: int): ShowCall
    requires IsGrid(g, resX, resY)
  {
    var size := OutputSize(resX, resY, scale);
    ShowCall(ImageOf(g, resX, resY), size.0, size.1)
  }

  /** The buffer's contents as an image. */
  function Snapshot(frame: array3<real>): (t: Tensor3)
    reads frame
    ensures HasShape(t, frame.Length0, frame.Length1, frame.Length2)
  {
    seq(frame.Length0, x requires 0 <= x < frame.Length0 reads frame =>
      seq(frame.Length1, y requires 0 <= y < frame.Length1 reads frame =>
        seq(frame.Length2, c requires 0 <= c < frame.Length2 reads frame => frame[x, y, c])))
  }

  /** `np.zeros((res_x, res_y, 3))`. */
  method Zeros(resX: nat, resY: nat) returns (frame: array3<real>)
    ensures fresh(frame)
    ensures frame.Length0 == resX && frame.Length1 == resY && frame.Length2 == 3
    ensures forall x, y, c :: 0 <= x < resX && 0 <= y < resY && 0 <= c < 3 ==>
      frame[x, y, c] == 0.0
  {
    frame := new real[resX, resY, 3]((x, y, c) => 0.0);
  }

  /** `frame[0:res_x, 0:res_y, 1] = g`: overwrites channel 1 in place and
      leaves channels 0 and 2 as they were. */
  method WriteChannel1(frame: array3<real>, g: Grid)
    requires frame.Length2 == 3
    requires IsGrid(g, frame.Length0, frame.Length1)
    modifies frame
    ensures forall x, y, c :: 0 <= x < frame.Length0 && 0 <= y < frame.Length1 && 0 <= c < 3 ==>
      frame[x, y, c] == if c == 1 then g[x][y] else old(frame[x, y, c])
  {
    forall x, y | 0 <= x < frame.Length0 && 0 <= y < frame.Length1 {
      frame[x, y, 1] := g[x][y];
    }
  }

  /** A buffer whose channels 0 and 2 are zero and whose channel 1 holds
      `g` is the composed buffer for `g`. */
  lemma SnapshotIsComposed(frame: array3<real>, g: Grid)
    requires frame.Length2 == 3
    requires IsGrid(g, frame.Length0, frame.Length1)
    requires forall x, y :: 0 <= x < frame.Length0 && 0 <= y < frame.Length1 ==>
      frame[x, y, 0] == 0.0 && frame[x, y, 1] == g[x][y] && frame[x, y, 2] == 0.0
    ensures Snapshot(frame) == Composed(g, frame.Length0, frame.Length1)
  {
    var s := Snapshot(frame);
    var t := Composed(g, frame.Length0, frame.Length1);
    forall x | 0 <= x < frame.Length0
      ensures s[x] == t[x]
    {
      forall y | 0 <= y < frame.Length1
        ensures s[x][y] == t[x][y]
      {
        assert s[x][y] == [frame[x, y, 0], frame[x, y, 1], frame[x, y, 2]];
      }
    }
  }

  /** The first `|frames|` passes of the display loop, with `frames[k]` the
      frame read on pass `k`. Returns the calls made to show each image and
      the buffer as the last pass left it. */
  method DisplayLoop(resX: nat, resY: nat, scale: int, frames: seq<Grid>)
    returns (shown: seq<ShowCall>, frame: array3<real>)
    requires forall k :: 0 <= k < |frames| ==> IsGrid(frames[k], resX, resY)
    ensures fresh(frame)
    ensures frame.Length0 == resX && frame.Length1 == resY && frame.Length2 == 3
    ensures |shown| == |frames|
    ensures forall k :: 0 <= k < |frames| ==> shown[k] == ExpectedShow(frames[k], resX, resY, scale)
    ensures forall x, y :: 0 <= x < resX && 0 <= y < resY ==>
      frame[x, y, 0] == 0.0 && frame[x, y, 2] == 0.0
    ensures frames != [] ==> Snapshot(frame) == Composed(frames[|frames| - 1], resX, resY)
  {
    var size := OutputSize(resX, resY, scale);
    frame := Zeros(resX, resY);
    shown := [];
    for k := 0 to |frames|
      invariant |shown| == k
      invariant forall j :: 0 <= j < k ==> shown[j] == ExpectedShow(frames[j], resX, resY, scale)
      invariant forall x, y :: 0 <= x < resX && 0 <= y < resY ==>
        frame[x, y, 0] == 0.0 && frame[x, y, 2] == 0.0
      invariant k > 0 ==> Snapshot(frame) == Composed(frames[k - 1], resX, resY)
    {
      WriteChannel1(frame, frames[k]);
      SnapshotIsComposed(frame, frames[k]);
      var image := Transpose(Snapshot(frame), resX, resY, 3);
      shown := shown + [ShowCall(image, size.0, size.1)];
    }
  }
}
