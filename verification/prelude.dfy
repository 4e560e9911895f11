/** Shared vocabulary: optional results, bytes, big-endian numbers and the
    in-place writes that Node's Buffer offers. */
module Prelude {

  datatype Option<+T> = None | Some(value: T)

  type Byte = b: int | 0 <= b < 256
  type Bytes = seq<Byte>

  function Min(a: int, b: int): int {
    if a < b then a else b
  }

  function Power(base: nat, exponent: nat): (p: nat)
    ensures base > 0 ==> p > 0
  {
    if exponent == 0 then 1 else base * Power(base, exponent - 1)
  }

  lemma PowerSmall()
    ensures Power(256, 0) == 1
    ensures Power(256, 1) == 0x100
    ensures Power(256, 2) == 0x1_0000
    ensures Power(256, 4) == 0x1_0000_0000
  {
    assert Power(256, 3) == 0x100_0000;
  }

  // ---- big-endian numbers ----

  function BigEndian(n: nat, width: nat): (b: Bytes)
    ensures |b| == width
  {
    if width == 0 then [] else BigEndian(n / 256, width - 1) + [n % 256]
  }

  function Number(b: Bytes): (n: nat)
    ensures n < Power(256, |b|)
  {
    if b == [] then 0 else
      var high := Number(b[..|b| - 1]);
      assert (high + 1) * 256 <= Power(256, |b| - 1) * 256;
      high * 256 + b[|b| - 1]
  }

  lemma {:induction false} NumberOfBigEndian(n: nat, width: nat)
    requires n < Power(256, width)
    ensures Number(BigEndian(n, width)) == n
  {
    if width > 0 {
      var b := BigEndian(n, width);
      assert b[..width - 1] == BigEndian(n / 256, width - 1);
      NumberOfBigEndian(n / 256, width - 1);
    }
  }

  lemma {:induction false} BigEndianOfNumber(b: Bytes)
    ensures BigEndian(Number(b), |b|) == b
  {
    if b != [] {
      BigEndianOfNumber(b[..|b| - 1]);
      var high := Number(b[..|b| - 1]);
      assert Number(b) == high * 256 + b[|b| - 1];
      assert Number(b) / 256 == high && Number(b) % 256 == b[|b| - 1];
      assert b == b[..|b| - 1] + [b[|b| - 1]];
    }
  }

  // ---- sequences ----

  lemma Pieces<T>(a: seq<T>, b: seq<T>, c: seq<T>)
    ensures (a + b + c)[..|a|] == a
    ensures (a + b + c)[|a|..|a| + |b|] == b
    ensures (a + b + c)[|a| + |b|..] == c
  {
  }

  lemma Associative<T>(a: seq<T>, b: seq<T>, c: seq<T>)
    ensures a + (b + c) == a + b + c
  {
  }

  lemma Regroup<T>(a: seq<T>, b: seq<T>, c: seq<T>, d: seq<T>)
    ensures a + (b + c) + d == a + b + c + d
  {
  }

  /** slice(0, n). */
  function Take<T>(s: seq<T>, n: nat): seq<T> {
    if |s| > n then s[..n] else s
  }

  function Zeros(n: nat): (z: Bytes)
    ensures |z| == n
  {
    seq(n, _ => 0)
  }

  // ---- buffers ----

  /** The contents of a buffer after `piece` is written over it at `offset`. */
  function Overwrite(buffer: Bytes, offset: nat, piece: Bytes): (r: Bytes)
    requires offset + |piece| <= |buffer|
    ensures |r| == |buffer|
  {
    buffer[..offset] + piece + buffer[offset + |piece|..]
  }

  /** Filling the front of a blank remainder. */
  lemma OverwriteBlank(done: Bytes, piece: Bytes, blank: nat)
    requires |piece| <= blank
    ensures Overwrite(done + Zeros(blank), |done|, piece) == done + piece + Zeros(blank - |piece|)
  {
  }

  lemma Spliced(before: Bytes, after: Bytes, offset: nat, piece: Bytes)
    requires |before| == |after| && offset + |piece| <= |before|
    requires after[offset..offset + |piece|] == piece
    requires forall k :: 0 <= k < offset || offset + |piece| <= k < |before| ==> after[k] == before[k]
    ensures after == Overwrite(before, offset, piece)
  {
  }

  /** Buffer.writeUInt8, writeUInt16BE and writeUInt32BE: a value or a position out
      of range throws and leaves the buffer as it was. */
  method WriteUIntBE(buffer: array<Byte>, value: int, offset: nat, width: nat) returns (ok: bool)
    modifies buffer
    ensures ok <==> 0 <= value < Power(256, width) && offset + width <= buffer.Length
    ensures ok ==> buffer[..] == Overwrite(old(buffer[..]), offset, BigEndian(value, width))
    ensures !ok ==> buffer[..] == old(buffer[..])
  {
    ok := 0 <= value < Power(256, width) && offset + width <= buffer.Length;
    if ok {
      ghost var before := buffer[..];
      var rest, i := value, width;
      while i > 0
        invariant 0 <= i <= width && 0 <= rest
        invariant BigEndian(value, width) == BigEndian(rest, i) + buffer[offset + i..offset + width]
        invariant forall k :: 0 <= k < offset + i || offset + width <= k < buffer.Length ==> buffer[k] == before[k]
      {
        ghost var written := buffer[offset + i..offset + width];
        buffer[offset + i - 1] := rest % 256;
        assert buffer[offset + i - 1..offset + width] == [rest % 256] + written;
        rest, i := rest / 256, i - 1;
      }
      Spliced(before, buffer[..], offset, BigEndian(value, width));
    }
  }

  /** Buffer.copy and Buffer.write of a whole piece. */
  method WriteBytes(buffer: array<Byte>, offset: nat, piece: Bytes)
    requires offset + |piece| <= buffer.Length
    modifies buffer
    ensures buffer[..] == Overwrite(old(buffer[..]), offset, piece)
  {
    ghost var before := buffer[..];
    for i := 0 to |piece|
      invariant buffer[..] == Overwrite(before, offset, piece[..i])
    {
      buffer[offset + i] := piece[i];
      assert piece[..i + 1] == piece[..i] + [piece[i]];
    }
    assert piece[..|piece|] == piece;
  }
}
