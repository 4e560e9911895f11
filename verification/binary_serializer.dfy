/** BinarySerializer: a record laid out field after field in a buffer, and read back. */
module BinarySerializer {
  import opened Prelude
  import opened SerializerFields

  type Record = map<string, Value>

  function ValueOf(data: Record, name: string): Value {
    if name in data then data[name] else Absent
  }

  function TotalSize(fields: seq<Field>): nat {
    if fields == [] then 0 else fields[0].length + TotalSize(fields[1..])
  }

  // ---- the meaning of the two loops, for any lengths ----

  /** One write into a buffer; a numeric field that does not fit throws. */
  ghost function Written(buffer: Bytes, offset: nat, f: Field, v: Value,
                         numberOfText: string -> int): (r: Option<Bytes>)
    ensures r.Some? ==> |r.value| == |buffer|
  {
    match Encoding(f, v, numberOfText)
    case None => None
    case Some(piece) => if offset + |piece| <= |buffer| then Some(Overwrite(buffer, offset, piece)) else None
  }

  ghost function SerializedFrom(buffer: Bytes, offset: nat, fields: seq<Field>, data: Record,
                                numberOfText: string -> int): Option<Bytes>
    decreases |fields|
  {
    if fields == [] then Some(buffer)
    else
      match Written(buffer, offset, fields[0], ValueOf(data, fields[0].name), numberOfText)
      case None => None
      case Some(next) => SerializedFrom(next, offset + fields[0].length, fields[1..], data, numberOfText)
  }

  ghost function Serialized(fields: seq<Field>, data: Record, numberOfText: string -> int): Option<Bytes> {
    SerializedFrom(Zeros(TotalSize(fields)), 0, fields, data, numberOfText)
  }

  /** subarray: a slice that stops at the end of the buffer. */
  function Slice(buffer: Bytes, from: nat, to: nat): Bytes {
    if from >= |buffer| || from >= to then []
    else if to > |buffer| then buffer[from..]
    else buffer[from..to]
  }

  /** What the BCD loop has read after n bytes; nothing was looked at before the first. */
  ghost function BcdPrefix(buffer: Bytes, offset: nat, n: nat): string
    requires n == 0 || offset + n <= |buffer|
  {
    if n == 0 then "" else BcdText(buffer[offset..offset + n])
  }

  lemma OneByteMore(buffer: Bytes, offset: nat, n: nat)
    requires offset + n < |buffer|
    ensures BcdPrefix(buffer, offset, n + 1)
         == BcdPrefix(buffer, offset, n) + (NibbleText(buffer[offset + n] / 16) + NibbleText(buffer[offset + n] % 16))
  {
    assert buffer[offset..offset + n + 1][..n] == buffer[offset..offset + n];
  }

  /** One read; numbers and packed decimals need all their bytes. */
  ghost function ReadValue(buffer: Bytes, offset: nat, f: Field): Option<Value> {
    var n := if IsNumeric(f.kind) then Width(f.kind) else f.length;
    if NeedsAllBytes(f) && offset + n > |buffer| then None
    else Some(Decoding(f, Slice(buffer, offset, offset + n)))
  }

  predicate NeedsAllBytes(f: Field) {
    IsNumeric(f.kind) || (f.kind.Bcd? && f.length > 0)
  }

  /** The record in a buffer from `offset` on; the last field of a name wins. */
  ghost function DeserializedFrom(buffer: Bytes, offset: nat, fields: seq<Field>): Option<Record>
    decreases |fields|
  {
    if fields == [] then Some(map[])
    else
      match ReadValue(buffer, offset, fields[0])
      case None => None
      case Some(v) =>
        match DeserializedFrom(buffer, offset + fields[0].length, fields[1..])
        case None => None
        case Some(later) => Some(map[fields[0].name := v] + later)
  }

  /** The outcome of reading on from here, when `result` was read before. */
  ghost predicate LeadsTo(whole: Option<Record>, result: Record, later: Option<Record>) {
    whole == if later.Some? then Some(result + later.value) else None
  }

  lemma ReadStep(buffer: Bytes, offset: nat, fields: seq<Field>, i: nat, result: Record, whole: Option<Record>)
    requires i < |fields| && LeadsTo(whole, result, DeserializedFrom(buffer, offset, fields[i..]))
    ensures var v, f := ReadValue(buffer, offset, fields[i]), fields[i];
      if v == None then whole == None
      else LeadsTo(whole, result[f.name := v.value], DeserializedFrom(buffer, offset + f.length, fields[i + 1..]))
  {
    assert fields[i..][0] == fields[i] && fields[i..][1..] == fields[i + 1..];
    var v, name := ReadValue(buffer, offset, fields[i]), fields[i].name;
    var later := DeserializedFrom(buffer, offset + fields[i].length, fields[i + 1..]);
    if v.Some? && later.Some? {
      assert result + (map[name := v.value] + later.value) == result[name := v.value] + later.value;
    }
  }

  lemma WriteStep(buffer: Bytes, offset: nat, fields: seq<Field>, i: nat, data: Record, numberOfText: string -> int)
    requires i < |fields|
    ensures var next := Written(buffer, offset, fields[i], ValueOf(data, fields[i].name), numberOfText);
      SerializedFrom(buffer, offset, fields[i..], data, numberOfText)
      == if next == None then None
         else SerializedFrom(next.value, offset + fields[i].length, fields[i + 1..], data, numberOfText)
    ensures TotalSize(fields[i..]) == fields[i].length + TotalSize(fields[i + 1..])
  {
    assert fields[i..][0] == fields[i] && fields[i..][1..] == fields[i + 1..];
  }

  lemma BcdIsDecoded(buffer: Bytes, offset: nat, f: Field, digits: string)
    requires f.kind == Bcd && (f.length == 0 || offset + f.length <= |buffer|)
    requires digits == BcdPrefix(buffer, offset, f.length)
    ensures ReadValue(buffer, offset, f) == Some(Num(Parsed(digits)))
  {
    BcdIsRead(buffer, offset, f);
    SliceIsDecoded(buffer, offset, f, digits);
  }

  lemma BcdIsRead(buffer: Bytes, offset: nat, f: Field)
    requires f.kind == Bcd && (f.length == 0 || offset + f.length <= |buffer|)
    ensures ReadValue(buffer, offset, f) == Some(Decoding(f, Slice(buffer, offset, offset + f.length)))
  {
  }

  lemma SliceIsDecoded(buffer: Bytes, offset: nat, f: Field, digits: string)
    requires f.kind == Bcd && (f.length == 0 || offset + f.length <= |buffer|)
    requires digits == BcdPrefix(buffer, offset, f.length)
    ensures Decoding(f, Slice(buffer, offset, offset + f.length)) == Num(Parsed(digits))
  {
    PrefixIsSlice(buffer, offset, f.length);
    DecodingOfBcd(f, Slice(buffer, offset, offset + f.length), digits);
  }

  lemma PrefixIsSlice(buffer: Bytes, offset: nat, n: nat)
    requires n == 0 || offset + n <= |buffer|
    ensures BcdPrefix(buffer, offset, n) == BcdText(Slice(buffer, offset, offset + n))
  {
    if n > 0 {
      assert Slice(buffer, offset, offset + n) == buffer[offset..offset + n];
    }
  }

  lemma DecodingOfBcd(f: Field, b: Bytes, digits: string)
    requires f.kind == Bcd && digits == BcdText(b)
    ensures Decoding(f, b) == Num(Parsed(digits))
  {
    DecodingIsDecode(f, b);
  }

  class BinarySerializer {
    const fields: seq<Field>
    /** Number() of a text, as the runtime computes it; NaN counts as zero. */
    const numberOfText: string -> int

    constructor (fields: seq<Field>, numberOfText: string -> int)
      ensures this.fields == fields && this.numberOfText == numberOfText
    {
      this.fields, this.numberOfText := fields, numberOfText;
    }

    method GetTotalSize() returns (sum: nat)
      ensures sum == TotalSize(fields)
    {
      sum := 0;
      assert fields[0..] == fields;
      for i := 0 to |fields|
        invariant sum + TotalSize(fields[i..]) == TotalSize(fields)
      {
        sum := sum + fields[i].length;
        assert fields[i..][1..] == fields[i + 1..];
      }
    }

    method Serialize(data: Record) returns (r: Option<Bytes>)
      ensures r == Serialized(fields, data, numberOfText)
    {
      var size := GetTotalSize();
      var buffer := new Byte[size](_ => 0);
      assert buffer[..] == Zeros(size);
      var offset: nat := 0;
      assert fields[0..] == fields;
      for i := 0 to |fields|
        invariant offset + TotalSize(fields[i..]) == buffer.Length == TotalSize(fields)
        invariant SerializedFrom(buffer[..], offset, fields[i..], data, numberOfText)
            == Serialized(fields, data, numberOfText)
      {
        WriteStep(buffer[..], offset, fields, i, data, numberOfText);
        var ok := WriteField(buffer, offset, fields[i], ValueOf(data, fields[i].name));
        if !ok {
          return None;
        }
        offset := offset + fields[i].length;
      }
      return Some(buffer[..]);
    }

    method WriteField(buffer: array<Byte>, offset: nat, f: Field, v: Value) returns (ok: bool)
      requires offset + f.length <= buffer.Length
      modifies buffer
      ensures var w := Written(old(buffer[..]), offset, f, v, numberOfText);
        ok == w.Some? && (ok ==> buffer[..] == w.value)
    {
      EncodingIsEncode(f, v, numberOfText);
      match f.kind {
        case Ascii =>
          ok := true;
          WriteBytes(buffer, offset, AsciiBytes(First(PadEnd(TextOf(v), f.length, ' '), f.length)));
        case Hex =>
          ok := true;
          WriteBytes(buffer, offset, HexBytes(First(PadStart(TextOf(v), 2 * f.length, '0'), 2 * f.length)));
        case Bcd =>
          ok := true;
          WriteBcd(buffer, offset, PadStart(Shown(NumberOf(v, numberOfText)), 2 * f.length, '0'), f.length);
        case _ =>
          ok := WriteNumber(buffer, offset, f, NumberOf(v, numberOfText));
      }
    }

    /** The five number types; a number below zero is written in two's complement. */
    method WriteNumber(buffer: array<Byte>, offset: nat, f: Field, n: int) returns (ok: bool)
      requires IsNumeric(f.kind)
      modifies buffer
      ensures ok <==> Low(f.kind) <= n < High(f.kind) && offset + Width(f.kind) <= buffer.Length
      ensures ok ==> buffer[..] == Overwrite(old(buffer[..]), offset,
                                             BigEndian(n % Power(256, Width(f.kind)), Width(f.kind)))
    {
      ok := Low(f.kind) <= n < High(f.kind);
      if ok {
        ok := WriteUIntBE(buffer, n % Power(256, Width(f.kind)), offset, Width(f.kind));
      }
    }

    /** Packs two digits into every byte. */
    method WriteBcd(buffer: array<Byte>, offset: nat, num: string, length: nat)
      requires |num| >= 2 * length && offset + length <= buffer.Length
      modifies buffer
      ensures buffer[..] == Overwrite(old(buffer[..]), offset, BcdBytes(num, length))
    {
      ghost var before, packed := buffer[..], BcdBytes(num, length);
      for i := 0 to length
        invariant forall k :: 0 <= k < i ==> buffer[offset + k] == packed[k]
        invariant forall k :: 0 <= k < offset || offset + i <= k < buffer.Length ==> buffer[k] == before[k]
      {
        var high := DigitValue(num[i * 2]);
        var low := DigitValue(num[i * 2 + 1]);
        buffer[offset + i] := high * 16 + low;
      }
      assert buffer[..][offset..offset + length] == packed;
      Spliced(before, buffer[..], offset, packed);
    }

    method Deserialize(buffer: Bytes) returns (r: Option<Record>)
      ensures r == DeserializedFrom(buffer, 0, fields)
    {
      var result: Record := map[];
      var offset: nat := 0;
      ghost var whole := DeserializedFrom(buffer, 0, fields);
      assert fields[0..] == fields;
      assert forall m: Record :: result + m == m;
      for i := 0 to |fields|
        invariant LeadsTo(whole, result, DeserializedFrom(buffer, offset, fields[i..]))
      {
        ReadStep(buffer, offset, fields, i, result, whole);
        var v := ReadField(buffer, offset, fields[i]);
        if v == None {
          return None;
        }
        result := result[fields[i].name := v.value];
        offset := offset + fields[i].length;
      }
      assert result + map[] == result;
      return Some(result);
    }

    method ReadField(buffer: Bytes, offset: nat, f: Field) returns (r: Option<Value>)
      ensures r == ReadValue(buffer, offset, f)
    {
      if f.kind == Bcd {
        var digits := ReadBcd(buffer, offset, f.length);
        if digits == None {
          return None;
        }
        BcdIsDecoded(buffer, offset, f, digits.value);
        return Some(Num(Parsed(digits.value)));
      }
      var n := if IsNumeric(f.kind) then Width(f.kind) else f.length;
      if IsNumeric(f.kind) && offset + n > |buffer| {
        return None;
      }
      DecodingIsDecode(f, Slice(buffer, offset, offset + n));
      return Some(Decode(f, Slice(buffer, offset, offset + n)));
    }

    /** Shows nibble after nibble in decimal. */
    method ReadBcd(buffer: Bytes, offset: nat, length: nat) returns (r: Option<string>)
      ensures r.Some? <==> length == 0 || offset + length <= |buffer|
      ensures r.Some? ==> r.value == BcdPrefix(buffer, offset, length)
    {
      var result := "";
      for i := 0 to length
        invariant i == 0 || offset + i <= |buffer|
        invariant result == BcdPrefix(buffer, offset, i)
      {
        if offset + i >= |buffer| {
          return None;
        }
        var byte := buffer[offset + i];
        NibbleIsShown(byte / 16);
        NibbleIsShown(byte % 16);
        OneByteMore(buffer, offset, i);
        result := result + (Shown(byte / 16) + Shown(byte % 16));
      }
      return Some(result);
    }
  }
}
