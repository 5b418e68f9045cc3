/**
  What both pixel filters compute: a walk over a row-major RGBA buffer, four bytes per
  pixel, that keeps the pixels a policy accepts, in buffer order, each with its flat
  index, its position in the image shifted by an offset, and its colour.
 */
module PixelExtraction {
  import opened Common

  /** A filter policy: given r, g, b and alpha, keep the pixel or not. */
  type Policy = (byte, byte, byte, byte) -> bool

  /** The buffer is a whole number of RGBA pixels and has a positive row width if it is not empty. */
  predicate Shaped(data: seq<byte>, width: nat)
  {
    |data| % 4 == 0 && (|data| > 0 ==> width > 0)
  }

  lemma ImageIsShaped(img: Image)
    requires img.Valid()
    ensures Shaped(img.data, img.width)
  {
    assert |img.data| == 4 * (img.width * img.height);
    if img.width == 0 {
      assert img.width * img.height == 0;
    }
  }

  /** Whether the policy keeps pixel j of the buffer. */
  predicate Kept(data: seq<byte>, keep: Policy, j: nat)
    requires 4 * j + 3 < |data|
  {
    keep(data[4 * j], data[4 * j + 1], data[4 * j + 2], data[4 * j + 3])
  }

  /**
    The record emitted for pixel j: index j, column `j mod width` and row
    `floor(j / width)` shifted by (offX, offY), and the pixel's r, g, b.
   */
  function PixelAt(data: seq<byte>, width: nat, offX: real, offY: real, j: nat): Pixel
    requires 4 * j + 3 < |data| && width > 0
  {
    Pixel(j, (j % width) as real + offX, (j / width) as real + offY,
          data[4 * j], data[4 * j + 1], data[4 * j + 2])
  }

  /**
    The pixels among the first n that the policy keeps, in buffer order. The
    contract says every emitted record is the one for a kept pixel and that indices
    strictly increase; ExtractComplete gives the converse.
   */
  function Extract(data: seq<byte>, width: nat, offX: real, offY: real, keep: Policy, n: nat): (ps: seq<Pixel>)
    requires 4 * n <= |data| && (n > 0 ==> width > 0)
    ensures |ps| <= n
    ensures forall i :: 0 <= i < |ps| ==>
      ps[i].index < n && Kept(data, keep, ps[i].index) && ps[i] == PixelAt(data, width, offX, offY, ps[i].index)
    ensures forall i, k :: 0 <= i < k < |ps| ==> ps[i].index < ps[k].index
  {
    if n == 0 then []
    else
      var prefix := Extract(data, width, offX, offY, keep, n - 1);
      if Kept(data, keep, n - 1) then prefix + [PixelAt(data, width, offX, offY, n - 1)] else prefix
  }

  /**
    One step of the walk, at byte offset i of pixel j: the pixel's record, with index
    `i / 4`, is appended exactly when the policy keeps its four bytes.
   */
  lemma ExtractStep(data: seq<byte>, width: nat, offX: real, offY: real, keep: Policy, i: nat, j: nat)
    requires i == 4 * j && i + 4 <= |data| && width > 0
    ensures Extract(data, width, offX, offY, keep, j + 1) ==
      Extract(data, width, offX, offY, keep, j) +
      (if keep(data[i], data[i + 1], data[i + 2], data[i + 3])
       then [Pixel(i / 4, ((i / 4) % width) as real + offX, ((i / 4) / width) as real + offY, data[i], data[i + 1], data[i + 2])]
       else [])
  {
    assert i / 4 == j;
  }

  /** Every kept pixel among the first n is emitted. */
  lemma {:induction false} ExtractComplete(data: seq<byte>, width: nat, offX: real, offY: real, keep: Policy, n: nat, j: nat)
    requires 4 * n <= |data| && (n > 0 ==> width > 0)
    requires j < n && Kept(data, keep, j)
    ensures exists i :: (0 <= i < |Extract(data, width, offX, offY, keep, n)| &&
                         Extract(data, width, offX, offY, keep, n)[i].index == j)
  {
    var ps := Extract(data, width, offX, offY, keep, n);
    if j == n - 1 {
      assert ps[|ps| - 1].index == j;
    } else {
      ExtractComplete(data, width, offX, offY, keep, n - 1, j);
      var prefix := Extract(data, width, offX, offY, keep, n - 1);
      var i :| 0 <= i < |prefix| && prefix[i].index == j;
      assert ps[i] == prefix[i];
    }
  }

  /** A pixel is emitted exactly when the policy keeps it, with its record as PixelAt gives it. */
  lemma ExtractExactly(data: seq<byte>, width: nat, offX: real, offY: real, keep: Policy, n: nat, j: nat)
    requires 4 * n <= |data| && (n > 0 ==> width > 0)
    requires j < n
    ensures PixelAt(data, width, offX, offY, j) in Extract(data, width, offX, offY, keep, n) <==> Kept(data, keep, j)
  {
    var ps := Extract(data, width, offX, offY, keep, n);
    if Kept(data, keep, j) {
      ExtractComplete(data, width, offX, offY, keep, n, j);
    }
  }
}
