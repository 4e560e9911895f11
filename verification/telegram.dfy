/** The PLC telegram: its constants, its definitions, and what a frame means.

    A frame is STX, a data type character, six bytes of module id, the telegram
    number, the length of the data area, the data area and ETX. */
module Telegrams {
  import opened Prelude

  const STX: Byte := 0x02
  const ETX: Byte := 0x03
  const HEADER_SIZE := 12
  const MIN_TELEGRAM_SIZE := 13
  const MODULE_ID_SIZE := 6

  datatype Field = Field(name: string, size: nat)

  datatype Definition = Definition(telegramNo: int, name: string, fields: seq<Field>)

  datatype Header = Header(stx: Byte, dataType: string, moduleId: string, telegramNo: nat, dataLength: nat)

  type Data = map<string, int>

  datatype Telegram = Telegram(header: Header, data: Data, etx: Byte)

  type Registry = map<int, Definition>

  /** Every definition is filed under its own number. */
  ghost predicate KeyedByNumber(registry: Registry) {
    forall n :: n in registry ==> registry[n].telegramNo == n
  }

  function DataSize(fields: seq<Field>): nat {
    if fields == [] then 0 else fields[0].size + DataSize(fields[1..])
  }

  lemma {:induction false} DataSizeOfPrefix(fields: seq<Field>, i: nat)
    requires i <= |fields|
    ensures DataSize(fields) == DataSize(fields[..i]) + DataSize(fields[i..])
  {
    if i == 0 {
      assert fields[0..] == fields;
    } else {
      DataSizeOfPrefix(fields[1..], i - 1);
      assert fields[..i][1..] == fields[1..][..i - 1];
      assert fields[1..][i - 1..] == fields[i..];
    }
  }

  /** The sizes the builder writes and the parser reads; fields of any other size
      are skipped by both. */
  predicate Carried(field: Field) {
    field.size == 4 || field.size == 2 || field.size == 1
  }

  function Lookup(data: Data, name: string): int {
    if name in data then data[name] else 0
  }

  predicate InRange(field: Field, data: Data) {
    Carried(field) ==> 0 <= Lookup(data, field.name) < Power(256, field.size)
  }

  predicate AllInRange(fields: seq<Field>, data: Data) {
    forall i :: 0 <= i < |fields| ==> InRange(fields[i], data)
  }

  lemma AllInRangeStep(fields: seq<Field>, data: Data)
    requires fields != []
    ensures AllInRange(fields, data) <==> InRange(fields[0], data) && AllInRange(fields[1..], data)
  {
    var rest := fields[1..];
    if InRange(fields[0], data) && AllInRange(rest, data) {
      forall i | 0 <= i < |fields| ensures InRange(fields[i], data) {
        assert i > 0 ==> fields[i] == rest[i - 1];
      }
    }
    if AllInRange(fields, data) {
      assert forall i :: 0 <= i < |rest| ==> rest[i] == fields[i + 1];
    }
  }

  // ---- header text ----

  /** Code written for the data type: an empty string has no character code and
      is written as zero. */
  function DataTypeCode(dataType: string): nat {
    if dataType == "" then 0 else dataType[0] as int
  }

  /** Writing as 'ascii' keeps the low byte of every character. */
  function ModuleIdBytes(moduleId: string): (b: Bytes)
    ensures |b| == MODULE_ID_SIZE
  {
    seq(MODULE_ID_SIZE, i requires 0 <= i => if i < |moduleId| then moduleId[i] as int % 256 else 0)
  }

  /** Reading as 'ascii' keeps the low seven bits; NUL characters are removed. */
  function ModuleIdText(b: Bytes): (t: string)
    ensures forall c :: c in t ==> 0 < c as int < 128
  {
    if b == [] then ""
    else (if b[0] % 128 == 0 then "" else [(b[0] % 128) as char]) + ModuleIdText(b[1..])
  }

  predicate PlainText(s: string) {
    forall c :: c in s ==> 0 < c as int < 128
  }

  lemma {:induction false} ModuleIdTextOfPlain(s: string, padding: nat)
    requires PlainText(s)
    ensures ModuleIdText(seq(|s|, i requires 0 <= i < |s| => s[i] as int % 256) + Zeros(padding)) == s
  {
    var b := seq(|s|, i requires 0 <= i < |s| => s[i] as int % 256) + Zeros(padding);
    if s == "" {
      if padding > 0 {
        ModuleIdTextOfPlain(s, padding - 1);
        assert b[1..] == seq(|s|, i requires 0 <= i < |s| => s[i] as int % 256) + Zeros(padding - 1);
      }
    } else {
      var t := s[1..];
      forall c | c in t ensures 0 < c as int < 128 { assert c in s; }
      ModuleIdTextOfPlain(t, padding);
      assert b[1..] == seq(|t|, i requires 0 <= i < |t| => t[i] as int % 256) + Zeros(padding);
      assert s[0] in s;
      assert s == [s[0]] + t;
    }
  }

  /** A module id survives the header exactly when it is NUL-free seven-bit text. */
  lemma ModuleIdSurvives(moduleId: string)
    requires |moduleId| <= MODULE_ID_SIZE
    ensures ModuleIdText(ModuleIdBytes(moduleId)) == moduleId <==> PlainText(moduleId)
  {
    if PlainText(moduleId) {
      ModuleIdTextOfPlain(moduleId, MODULE_ID_SIZE - |moduleId|);
      assert ModuleIdBytes(moduleId)
          == seq(|moduleId|, i requires 0 <= i < |moduleId| => moduleId[i] as int % 256)
           + Zeros(MODULE_ID_SIZE - |moduleId|);
    }
  }

  // ---- data area ----

  function FieldBytes(field: Field, value: int): (b: Bytes)
    ensures |b| == field.size
  {
    if Carried(field) && value >= 0 then BigEndian(value, field.size) else Zeros(field.size)
  }

  /** The data area of a telegram carrying `data`. */
  function DataBytes(fields: seq<Field>, data: Data): (b: Bytes)
    ensures |b| == DataSize(fields)
  {
    if fields == [] then []
    else FieldBytes(fields[0], Lookup(data, fields[0].name)) + DataBytes(fields[1..], data)
  }

  /** The values found in a data area that starts at `pos`; the last field of a name wins. */
  function ReadFields(buffer: Bytes, pos: nat, fields: seq<Field>): (r: Option<Data>)
    decreases |fields|
  {
    if fields == [] then Some(map[])
    else if pos + fields[0].size > |buffer| then None
    else
      match ReadFields(buffer, pos + fields[0].size, fields[1..])
      case None => None
      case Some(later) =>
        if Carried(fields[0])
        then Some(map[fields[0].name := Number(buffer[pos..pos + fields[0].size])] + later)
        else Some(later)
  }

  function CarriedNames(fields: seq<Field>): set<string> {
    set f | f in fields && Carried(f) :: f.name
  }

  /** What a reader must see of `data`: one entry for every carried field, zero where
      the sender gave nothing. */
  function ReadBack(fields: seq<Field>, data: Data): Data {
    map name | name in CarriedNames(fields) :: Lookup(data, name)
  }

  lemma {:induction false} ReadFieldsSucceeds(buffer: Bytes, pos: nat, fields: seq<Field>)
    requires pos <= |buffer|
    ensures ReadFields(buffer, pos, fields).Some? <==> pos + DataSize(fields) <= |buffer|
    decreases |fields|
  {
    if fields != [] && pos + fields[0].size <= |buffer| {
      ReadFieldsSucceeds(buffer, pos + fields[0].size, fields[1..]);
    }
  }

  lemma {:induction false} ReadFieldsKeys(buffer: Bytes, pos: nat, fields: seq<Field>)
    requires ReadFields(buffer, pos, fields).Some?
    ensures ReadFields(buffer, pos, fields).value.Keys == CarriedNames(fields)
    ensures forall f :: f in fields && Carried(f) ==> f.name in ReadFields(buffer, pos, fields).value
    decreases |fields|
  {
    if fields != [] {
      ReadFieldsKeys(buffer, pos + fields[0].size, fields[1..]);
      assert fields == [fields[0]] + fields[1..];
      var got := ReadFields(buffer, pos, fields).value;
      forall f | f in fields && Carried(f) ensures f.name in got {
        assert f == fields[0] || f in fields[1..];
      }
    }
  }

  lemma ReadBackStep(fields: seq<Field>, data: Data)
    requires fields != []
    ensures ReadBack(fields, data)
         == (if Carried(fields[0]) then map[fields[0].name := Lookup(data, fields[0].name)] else map[])
          + ReadBack(fields[1..], data)
  {
    assert fields == [fields[0]] + fields[1..];
  }

  lemma FieldBytesRead(field: Field, value: int)
    requires Carried(field) && 0 <= value < Power(256, field.size)
    ensures Number(FieldBytes(field, value)) == value
  {
    NumberOfBigEndian(value, field.size);
  }

  /** Reading one written field and then the others. */
  lemma ReadFieldsStep(before: Bytes, fields: seq<Field>, data: Data, tail: Bytes)
    requires fields != [] && InRange(fields[0], data)
    ensures var f, value := fields[0], Lookup(data, fields[0].name);
      var buffer := before + FieldBytes(f, value) + tail;
      && (ReadFields(buffer, |before| + f.size, fields[1..]) == Some(ReadBack(fields[1..], data))
          ==> ReadFields(buffer, |before|, fields) == Some(ReadBack(fields, data)))
  {
    var f, value := fields[0], Lookup(data, fields[0].name);
    Pieces(before, FieldBytes(f, value), tail);
    ReadBackStep(fields, data);
    if Carried(f) {
      FieldBytesRead(f, value);
    } else {
      assert map[] + ReadBack(fields[1..], data) == ReadBack(fields[1..], data);
    }
  }

  /** Reading back the data area that was written: every carried name with its value. */
  lemma {:induction false} ReadFieldsOfDataBytes(before: Bytes, fields: seq<Field>, data: Data, after: Bytes)
    requires AllInRange(fields, data)
    ensures ReadFields(before + DataBytes(fields, data) + after, |before|, fields) == Some(ReadBack(fields, data))
    decreases |fields|
  {
    if fields == [] {
      assert ReadBack(fields, data) == map[];
    } else {
      var rest := fields[1..];
      var first, others := FieldBytes(fields[0], Lookup(data, fields[0].name)), DataBytes(rest, data);
      AllInRangeStep(fields, data);
      ReadFieldsOfDataBytes(before + first, rest, data, after);
      Regroup(before, first, others, after);
      Associative(before + first, others, after);
      ReadFieldsStep(before, fields, data, others + after);
    }
  }

  // ---- frames ----

  /** What the builder must be given for a frame to exist at all: every number it
      writes fits its place. */
  predicate Buildable(dataType: string, definition: Definition, data: Data) {
    && DataTypeCode(dataType) < 256
    && 0 <= definition.telegramNo < 0x1_0000
    && DataSize(definition.fields) < 0x1_0000
    && AllInRange(definition.fields, data)
  }

  function HeaderBytes(dataType: string, moduleId: string, telegramNo: nat, dataLength: nat): (b: Bytes)
    requires DataTypeCode(dataType) < 256
    ensures |b| == HEADER_SIZE
  {
    [STX, DataTypeCode(dataType)] + ModuleIdBytes(moduleId) + BigEndian(telegramNo, 2) + BigEndian(dataLength, 2)
  }

  /** The frame of a telegram, or None where the builder throws. */
  function Frame(dataType: string, moduleId: string, definition: Definition, data: Data): (r: Option<Bytes>)
    ensures r.Some? <==> Buildable(dataType, definition, data)
    ensures r.Some? ==> |r.value| == MIN_TELEGRAM_SIZE + DataSize(definition.fields)
  {
    if Buildable(dataType, definition, data) then
      Some(HeaderBytes(dataType, moduleId, definition.telegramNo, DataSize(definition.fields))
         + DataBytes(definition.fields, data) + [ETX])
    else None
  }

  /** The length a header announces for the data area. */
  function DataLength(buffer: Bytes): (n: nat)
    requires |buffer| >= HEADER_SIZE
    ensures n < 0x1_0000
  {
    PowerSmall();
    Number(buffer[10..12])
  }

  function TelegramNo(buffer: Bytes): (n: nat)
    requires |buffer| >= HEADER_SIZE
    ensures n < 0x1_0000
  {
    PowerSmall();
    Number(buffer[8..10])
  }

  lemma PlacesInHeader(dataType: string, moduleId: string, telegramNo: nat, dataLength: nat)
    requires DataTypeCode(dataType) < 256 && telegramNo < 0x1_0000 && dataLength < 0x1_0000
    ensures var h := HeaderBytes(dataType, moduleId, telegramNo, dataLength);
      && h[0] == STX
      && h[1] == DataTypeCode(dataType)
      && h[2..8] == ModuleIdBytes(moduleId)
      && Number(h[8..10]) == telegramNo
      && Number(h[10..12]) == dataLength
  {
    PowerSmall();
    NumberOfBigEndian(telegramNo, 2);
    NumberOfBigEndian(dataLength, 2);
    var start: Bytes := [STX, DataTypeCode(dataType)];
    var id, no, length := ModuleIdBytes(moduleId), BigEndian(telegramNo, 2), BigEndian(dataLength, 2);
    Pieces(start, id, no + length);
    Pieces(start + id, no, length);
    assert start + id + no + length == start + id + (no + length);
  }

  /** Where the parts of a frame are found again, also when further bytes follow it. */
  lemma HeaderOfFrame(dataType: string, moduleId: string, definition: Definition, data: Data, tail: Bytes)
    requires Buildable(dataType, definition, data)
    ensures var b := Frame(dataType, moduleId, definition, data).value + tail;
      && b[0] == STX
      && b[1] == DataTypeCode(dataType)
      && b[2..8] == ModuleIdBytes(moduleId)
      && TelegramNo(b) == definition.telegramNo
      && DataLength(b) == DataSize(definition.fields)
      && b == b[..HEADER_SIZE] + DataBytes(definition.fields, data) + ([ETX] + tail)
      && b[HEADER_SIZE + DataSize(definition.fields)] == ETX
  {
    var h := HeaderBytes(dataType, moduleId, definition.telegramNo, DataSize(definition.fields));
    PlacesInHeader(dataType, moduleId, definition.telegramNo, DataSize(definition.fields));
    var area := DataBytes(definition.fields, data);
    var b := h + area + [ETX] + tail;
    assert b == h + area + ([ETX] + tail);
    Pieces(h, area, [ETX] + tail);
    assert b[2..8] == b[..HEADER_SIZE][2..8];
    assert b[8..10] == b[..HEADER_SIZE][8..10];
    assert b[10..12] == b[..HEADER_SIZE][10..12];
  }
}
