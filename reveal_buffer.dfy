/**
  The reveal buffers both animations paint into: a flat RGBA byte array, four bytes per
  pixel. A write names a pixel slot and its four channel values; a write whose byte
  offset `slot * 4` lies outside the buffer changes nothing, which is both the explicit
  bounds check of the morph animation and what a typed array does with an
  out-of-range store.
 */
module RevealBuffer {
  import opened Common

  /** One pixel store: bytes slot*4 .. slot*4+3 receive r, g, b and a. */
  datatype Write = Write(slot: int, r: byte, g: byte, b: byte, a: byte)

  /** The byte offset of the slot is a valid index of a buffer of n bytes. */
  predicate InBounds(n: nat, slot: int)
  {
    0 <= slot * 4 < n
  }

  /**
    The byte a clamped byte array holds after an integer is stored into it: values
    below 0 become 0 and values above 255 become 255.
   */
  function Clamped(v: int): (b: byte)
    ensures 0 <= v < 256 ==> b == v
    ensures v < 0 ==> b == 0
    ensures v > 255 ==> b == 255
  {
    if v < 0 then 0 else if v > 255 then 255 else v
  }

  /** The value a write stores into channel c (0 = r, 1 = g, 2 = b, 3 = alpha). */
  function Channel(w: Write, c: int): byte
  {
    if c == 0 then w.r else if c == 1 then w.g else if c == 2 then w.b else w.a
  }

  /** Whether the write stores into byte j of a buffer of n bytes. */
  predicate Hits(n: nat, w: Write, j: int)
  {
    InBounds(n, w.slot) && j / 4 == w.slot
  }

  /** The buffer after one write. */
  function ApplyOne(buf: seq<byte>, w: Write): (out: seq<byte>)
    requires |buf| % 4 == 0
    ensures |out| == |buf|
    ensures forall j :: 0 <= j < |buf| ==>
      out[j] == (if Hits(|buf|, w, j) then Channel(w, j % 4) else buf[j])
  {
    if InBounds(|buf|, w.slot) then
      var o := w.slot * 4;
      buf[o := w.r][o + 1 := w.g][o + 2 := w.b][o + 3 := w.a]
    else
      buf
  }

  /** The buffer after the writes, applied in order. */
  function Apply(buf: seq<byte>, ws: seq<Write>): (out: seq<byte>)
    requires |buf| % 4 == 0
    ensures |out| == |buf|
  {
    if ws == [] then buf else ApplyOne(Apply(buf, ws[..|ws| - 1]), ws[|ws| - 1])
  }

  /** A byte that no write hits keeps its value. */
  lemma {:induction false} ApplyUntouched(buf: seq<byte>, ws: seq<Write>, j: nat)
    requires |buf| % 4 == 0 && j < |buf|
    requires forall i :: 0 <= i < |ws| ==> !Hits(|buf|, ws[i], j)
    ensures Apply(buf, ws)[j] == buf[j]
  {
    if ws != [] {
      ApplyUntouched(buf, ws[..|ws| - 1], j);
    }
  }

  /** A byte hit by some write holds the channel of the last write that hits it. */
  lemma {:induction false} ApplyLastWins(buf: seq<byte>, ws: seq<Write>, i: nat, j: nat)
    requires |buf| % 4 == 0 && j < |buf| && i < |ws|
    requires Hits(|buf|, ws[i], j)
    requires forall k :: i < k < |ws| ==> !Hits(|buf|, ws[k], j)
    ensures Apply(buf, ws)[j] == Channel(ws[i], j % 4)
  {
    if i < |ws| - 1 {
      ApplyLastWins(buf, ws[..|ws| - 1], i, j);
    }
  }

  /** Applying two batches of writes one after the other is applying their concatenation. */
  lemma {:induction false} ApplyConcat(buf: seq<byte>, ws: seq<Write>, vs: seq<Write>)
    requires |buf| % 4 == 0
    ensures Apply(buf, ws + vs) == Apply(Apply(buf, ws), vs)
  {
    if vs == [] {
      assert ws + vs == ws;
    } else {
      assert (ws + vs)[..|ws + vs| - 1] == ws + vs[..|vs| - 1];
      ApplyConcat(buf, ws, vs[..|vs| - 1]);
    }
  }

  /** An all-zero buffer of n bytes. */
  function Zeros(n: nat): (z: seq<byte>)
    ensures |z| == n && forall j :: 0 <= j < n ==> z[j] == 0
  {
    seq(n, _ => 0)
  }

  /** A new buffer of n bytes, all zero, as a fresh `ImageData` starts out. */
  method NewZeroed(n: nat) returns (buf: array<byte>)
    ensures fresh(buf) && buf.Length == n && buf[..] == Zeros(n)
  {
    buf := new byte[n](_ => 0);
    assert buf[..] == Zeros(n);
  }

  /** The buffer with the alpha byte of every pixel set to zero. */
  function AlphaCleared(buf: seq<byte>): (out: seq<byte>)
    ensures |out| == |buf|
    ensures forall j :: 0 <= j < |buf| ==> out[j] == (if j % 4 == 3 then 0 else buf[j])
  {
    seq(|buf|, j requires 0 <= j < |buf| => if j % 4 == 3 then 0 else buf[j])
  }

  /** Clearing the alpha bytes of a zeroed buffer leaves it zeroed. */
  lemma ClearedZeros(n: nat)
    ensures AlphaCleared(Zeros(n)) == Zeros(n)
  {
  }

  /** Sets every byte to zero (`fill(0)`). */
  method Fill(buf: array<byte>)
    modifies buf
    ensures buf[..] == Zeros(buf.Length)
  {
    for j := 0 to buf.Length
      invariant buf[..j] == Zeros(j)
      invariant buf[j..] == old(buf[j..])
    {
      buf[j] := 0;
      assert buf[..j + 1] == buf[..j] + [0];
    }
    assert buf[..] == buf[..buf.Length];
  }

  /** Zeroes the alpha byte of every pixel, stepping four bytes at a time. */
  method ClearAlpha(buf: array<byte>)
    requires buf.Length % 4 == 0
    modifies buf
    ensures buf[..] == AlphaCleared(old(buf[..]))
  {
    var i := 0;
    while i < buf.Length
      invariant 0 <= i <= buf.Length && i % 4 == 0
      invariant forall j :: 0 <= j < buf.Length ==>
        buf[j] == (if j < i && j % 4 == 3 then 0 else old(buf[j]))
    {
      buf[i + 3] := 0;
      i := i + 4;
    }
  }

  /** Performs one write in place when its byte offset is inside the buffer. */
  method Paint(buf: array<byte>, w: Write)
    requires buf.Length % 4 == 0
    modifies buf
    ensures buf[..] == ApplyOne(old(buf[..]), w)
  {
    var idx := w.slot * 4;
    if idx >= 0 && idx < buf.Length {
      buf[idx] := w.r;
      buf[idx + 1] := w.g;
      buf[idx + 2] := w.b;
      buf[idx + 3] := w.a;
    }
  }

  /** Performs the writes in place, in order. */
  method PaintAll(buf: array<byte>, ws: seq<Write>)
    requires buf.Length % 4 == 0
    modifies buf
    ensures buf[..] == Apply(old(buf[..]), ws)
  {
    for i := 0 to |ws|
      invariant buf[..] == Apply(old(buf[..]), ws[..i])
    {
      Paint(buf, ws[i]);
      assert ws[..i + 1][..i] == ws[..i];
    }
    assert ws[..|ws|] == ws;
  }
}
