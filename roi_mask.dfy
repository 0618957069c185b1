/**
 * The binary region-of-interest mask returned by
 * `load_exbaboon_512_retrospection` (data.py): the first channel of an
 * 8-bit PNG is complemented bit by bit, every nonzero entry is set to 1 in
 * place, and the result is returned as `np.rot90(np.fliplr(mask))`.
 */
module RoiMask {

  /** An entry of a numpy `uint8` array: eight bits, read as 0..255. */
  type uint8 = bv8

  /** `~p` on a `uint8`: the complement of its eight bits. */
  function Invert(p: uint8): uint8
  {
    !p
  }

  /** The bitwise complement of an 8-bit pixel is 255 minus the pixel; it is 0 only for 255. */
  lemma InvertIsComplement(p: uint8)
    ensures Invert(p) == 255 - p
    ensures Invert(p) == 0 <==> p == 255
  {
  }

  /** A row-major matrix of pixels, `g[row][column]`. */
  type Grid = seq<seq<uint8>>

  /** A non-empty rectangular matrix. */
  predicate IsGrid(g: Grid)
  {
    |g| > 0 && |g[0]| > 0 && forall i :: 0 <= i < |g| ==> |g[i]| == |g[0]|
  }

  /**
   * An image as the PNG reader returns it, `img[row][column][channel]`:
   * PNG images have at least one row and one column, and every pixel has
   * at least one channel.
   */
  predicate IsImage(img: seq<seq<seq<uint8>>>)
  {
    |img| > 0 && |img[0]| > 0 &&
    forall i :: 0 <= i < |img| ==>
      |img[i]| == |img[0]| && forall j :: 0 <= j < |img[i]| ==> |img[i][j]| > 0
  }

  /** `np.fliplr(g)`: every row reversed. */
  function FlipLR(g: Grid): (r: Grid)
    requires IsGrid(g)
    ensures IsGrid(r) && |r| == |g| && |r[0]| == |g[0]|
  {
    var w := |g[0]|;
    seq(|g|, i requires 0 <= i < |g| => seq(w, j requires 0 <= j < w => g[i][w - 1 - j]))
  }

  /**
   * `np.rot90(g)`: a quarter turn counter-clockwise; row i of the result is
   * column (width - 1 - i) of g, read from top to bottom.
   */
  function Rot90(g: Grid): (r: Grid)
    requires IsGrid(g)
    ensures IsGrid(r) && |r| == |g[0]| && |r[0]| == |g|
  {
    var h, w := |g|, |g[0]|;
    seq(w, i requires 0 <= i < w => seq(h, j requires 0 <= j < h => g[j][w - 1 - i]))
  }

  /** The transpose: entry (i, j) of the result is entry (j, i) of g. */
  function Transpose(g: Grid): (r: Grid)
    requires IsGrid(g)
    ensures IsGrid(r) && |r| == |g[0]| && |r[0]| == |g|
  {
    var h, w := |g|, |g[0]|;
    seq(w, i requires 0 <= i < w => seq(h, j requires 0 <= j < h => g[j][i]))
  }

  /** Mirroring left to right and then turning a quarter counter-clockwise transposes. */
  lemma Rot90FlipLRIsTranspose(g: Grid)
    requires IsGrid(g)
    ensures Rot90(FlipLR(g)) == Transpose(g)
  {
    var f, r, t := FlipLR(g), Rot90(FlipLR(g)), Transpose(g);
    var h, w := |g|, |g[0]|;
    forall i | 0 <= i < w
      ensures r[i] == t[i]
    {
      forall j | 0 <= j < h
        ensures r[i][j] == t[i][j]
      {
        calc {
          r[i][j];
          f[j][w - 1 - i];
          g[j][w - 1 - (w - 1 - i)];
          g[j][i];
        }
      }
    }
  }

  /** `~img[:, :, 0]`: the complemented first channel. */
  function InvertedFirstChannel(img: seq<seq<seq<uint8>>>): (g: Grid)
    requires IsImage(img)
    ensures IsGrid(g) && |g| == |img| && |g[0]| == |img[0]|
  {
    var h, w := |img|, |img[0]|;
    seq(h, i requires 0 <= i < h => seq(w, j requires 0 <= j < w => Invert(img[i][j][0])))
  }

  /** `mask[mask != 0] = 1` as a value: every nonzero entry becomes 1. */
  function Binarized(g: Grid): (b: Grid)
    requires IsGrid(g)
    ensures IsGrid(b) && |b| == |g| && |b[0]| == |g[0]|
  {
    var h, w := |g|, |g[0]|;
    seq(h, i requires 0 <= i < h => seq(w, j requires 0 <= j < w => if g[i][j] != 0 then 1 else 0))
  }

  /** The returned ROI mask, as the composition of the source's four steps. */
  function RoiMaskOf(img: seq<seq<seq<uint8>>>): Grid
    requires IsImage(img)
  {
    Rot90(FlipLR(Binarized(InvertedFirstChannel(img))))
  }

  /**
   * The returned mask has the PNG's dimensions swapped, holds only 0 and 1,
   * and is 0 at (i, j) exactly when the first channel at (j, i) was 255.
   */
  lemma {:induction false} RoiMaskEntries(img: seq<seq<seq<uint8>>>)
    requires IsImage(img)
    ensures |RoiMaskOf(img)| == |img[0]|
    ensures forall i :: 0 <= i < |img[0]| ==> |RoiMaskOf(img)[i]| == |img|
    ensures forall i, j :: 0 <= i < |img[0]| && 0 <= j < |img| ==>
      (RoiMaskOf(img)[i][j] == 0 || RoiMaskOf(img)[i][j] == 1) &&
      (RoiMaskOf(img)[i][j] == 0 <==> img[j][i][0] == 255)
  {
    var b := Binarized(InvertedFirstChannel(img));
    Rot90FlipLRIsTranspose(b);
    var r := RoiMaskOf(img);
    assert r == Transpose(b);
    forall i, j | 0 <= i < |img[0]| && 0 <= j < |img|
      ensures (r[i][j] == 0 || r[i][j] == 1) && (r[i][j] == 0 <==> img[j][i][0] == 255)
    {
      InvertIsComplement(img[j][i][0]);
    }
  }

  /** Two matrices with the same rows, entry by entry, are equal. */
  lemma SameEntries(a: Grid, b: Grid)
    requires |a| == |b|
    requires forall i :: 0 <= i < |a| ==> |a[i]| == |b[i]|
    requires forall i, j :: 0 <= i < |a| && 0 <= j < |a[i]| ==> a[i][j] == b[i][j]
    ensures a == b
  {
    forall i | 0 <= i < |a|
      ensures a[i] == b[i]
    {
    }
  }

  /** The entries of a two-dimensional array, row by row. */
  function Contents(m: array2<uint8>): Grid
    reads m
  {
    seq(m.Length0, i requires 0 <= i < m.Length0 reads m =>
      seq(m.Length1, j requires 0 <= j < m.Length1 reads m => m[i, j]))
  }

  /** `~img[:, :, 0]`: a new array holding the complemented first channel. */
  method ComplementFirstChannel(img: seq<seq<seq<uint8>>>) returns (m: array2<uint8>)
    requires IsImage(img)
    ensures fresh(m)
    ensures Contents(m) == InvertedFirstChannel(img)
  {
    var h, w := |img|, |img[0]|;
    m := new uint8[h, w];
    var i := 0;
    while i < h
      invariant 0 <= i <= h
      invariant forall r, c :: 0 <= r < i && 0 <= c < w ==> m[r, c] == Invert(img[r][c][0])
    {
      var j := 0;
      while j < w
        invariant 0 <= j <= w
        invariant forall r, c :: 0 <= r < i && 0 <= c < w ==> m[r, c] == Invert(img[r][c][0])
        invariant forall c :: 0 <= c < j ==> m[i, c] == Invert(img[i][c][0])
      {
        m[i, j] := Invert(img[i][j][0]);
        j := j + 1;
      }
      i := i + 1;
    }
    SameEntries(Contents(m), InvertedFirstChannel(img));
  }

  /** `mask[mask != 0] = 1`: sets every nonzero entry to 1, in place. */
  method Binarize(m: array2<uint8>)
    modifies m
    ensures forall r, c :: 0 <= r < m.Length0 && 0 <= c < m.Length1 ==>
      m[r, c] == if old(m[r, c]) != 0 then 1 else 0
  {
    var i := 0;
    while i < m.Length0
      invariant 0 <= i <= m.Length0
      invariant forall r, c :: 0 <= r < i && 0 <= c < m.Length1 ==>
        m[r, c] == if old(m[r, c]) != 0 then 1 else 0
      invariant forall r, c :: i <= r < m.Length0 && 0 <= c < m.Length1 ==> m[r, c] == old(m[r, c])
    {
      var j := 0;
      while j < m.Length1
        invariant 0 <= j <= m.Length1
        invariant forall r, c :: 0 <= r < i && 0 <= c < m.Length1 ==>
          m[r, c] == if old(m[r, c]) != 0 then 1 else 0
        invariant forall c :: 0 <= c < j ==> m[i, c] == if old(m[i, c]) != 0 then 1 else 0
        invariant forall r, c :: i <= r < m.Length0 && 0 <= c < m.Length1 && (r > i || c >= j) ==>
          m[r, c] == old(m[r, c])
      {
        if m[i, j] != 0 {
          m[i, j] := 1;
        }
        j := j + 1;
      }
      i := i + 1;
    }
  }

  /**
   * The ROI-mask steps of the loader on the PNG's pixels: complement the
   * first channel, binarise it in place, return `rot90(fliplr(mask))`.
   */
  method BinaryRoiMask(img: seq<seq<seq<uint8>>>) returns (roi: Grid)
    requires IsImage(img)
    ensures roi == RoiMaskOf(img)
    ensures |roi| == |img[0]| && forall i :: 0 <= i < |roi| ==> |roi[i]| == |img|
    ensures forall i, j :: 0 <= i < |roi| && 0 <= j < |img| ==>
      (roi[i][j] == 0 || roi[i][j] == 1) && (roi[i][j] == 0 <==> img[j][i][0] == 255)
  {
    var mask := ComplementFirstChannel(img);
    Binarize(mask);
    SameEntries(Contents(mask), Binarized(InvertedFirstChannel(img)));
    roi := Rot90(FlipLR(Contents(mask)));
    RoiMaskEntries(img);
  }
}
