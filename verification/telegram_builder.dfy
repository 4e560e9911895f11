/** TelegramBuilder: writes a frame into a fresh buffer, byte by byte. */
module TelegramBuilder {
  import opened Prelude
  import opened Telegrams

  function Truncate(s: string, n: nat): string {
    if |s| > n then s[..n] else s
  }

  class TelegramBuilder {
    var dataType: string
    var moduleId: string

    constructor ()
      ensures dataType == "D" && moduleId == "PSM00"
    {
      dataType, moduleId := "D", "PSM00";
    }

    method SetDataType(text: string)
      modifies this`dataType
      ensures dataType == Truncate(text, 1)
    {
      dataType := Truncate(text, 1);
    }

    method SetModuleId(id: string)
      modifies this`moduleId
      ensures moduleId == Truncate(id, MODULE_ID_SIZE)
    {
      moduleId := Truncate(id, MODULE_ID_SIZE);
    }

    method Build(definition: Definition, data: Data) returns (r: Option<Bytes>)
      ensures r == Frame(dataType, moduleId, definition, data)
    {
      var dataLength := SumOfSizes(definition.fields);
      var buffer := new Byte[MIN_TELEGRAM_SIZE + dataLength](_ => 0);
      PowerSmall();

      var ok := WriteHeader(buffer, dataType, moduleId, definition.telegramNo, dataLength);
      if !ok { return None; }
      ghost var header := HeaderBytes(dataType, moduleId, definition.telegramNo, dataLength);
      ok := WriteFields(buffer, definition.fields, data, header);
      if !ok { return None; }
      ghost var unfinished := header + DataBytes(definition.fields, data);
      OverwriteBlank(unfinished, [ETX], 1);
      assert [0] == Zeros(1) && BigEndian(ETX, 1) == [ETX];
      ok := WriteUIntBE(buffer, ETX, HEADER_SIZE + dataLength, 1);
      assert buffer[..] == unfinished + [ETX] + Zeros(0) == unfinished + [ETX];
      return Some(buffer[..]);
    }
  }

  /** The twelve header bytes, written place by place into a blank buffer. */
  method WriteHeader(buffer: array<Byte>, dataType: string, moduleId: string, telegramNo: int, dataLength: nat)
    returns (ok: bool)
    requires buffer[..] == Zeros(MIN_TELEGRAM_SIZE + dataLength)
    modifies buffer
    ensures ok <==> DataTypeCode(dataType) < 256 && 0 <= telegramNo < 0x1_0000 && dataLength < 0x1_0000
    ensures ok ==> buffer[..] == HeaderBytes(dataType, moduleId, telegramNo, dataLength) + Zeros(dataLength + 1)
  {
    PowerSmall();
    var code := DataTypeCode(dataType);
    var n := MIN_TELEGRAM_SIZE + dataLength;
    OverwriteBlank([], [STX], n);
    ok := WriteUIntBE(buffer, STX, 0, 1);
    assert BigEndian(STX, 1) == [STX];
    assert [] + Zeros(n) == Zeros(n);
    assert buffer[..] == [STX] + Zeros(n - 1);
    ok := WriteUIntBE(buffer, code, 1, 1);
    if !ok { return; }
    assert BigEndian(code, 1) == [code];
    OverwriteBlank([STX], [code], n - 1);
    assert [STX] + [code] == [STX, code];
    WriteBytes(buffer, 2, ModuleIdBytes(moduleId));
    OverwriteBlank([STX, code], ModuleIdBytes(moduleId), n - 2);
    ghost var done := [STX, code] + ModuleIdBytes(moduleId);
    ok := WriteUIntBE(buffer, telegramNo, 8, 2);
    if !ok { return; }
    OverwriteBlank(done, BigEndian(telegramNo, 2), n - 8);
    done := done + BigEndian(telegramNo, 2);
    ok := WriteUIntBE(buffer, dataLength, 10, 2);
    if !ok { return; }
    OverwriteBlank(done, BigEndian(dataLength, 2), n - 10);
  }

  method SumOfSizes(fields: seq<Field>) returns (sum: nat)
    ensures sum == DataSize(fields)
  {
    sum := 0;
    assert fields[0..] == fields;
    for i := 0 to |fields|
      invariant sum + DataSize(fields[i..]) == DataSize(fields)
    {
      sum := sum + fields[i].size;
      assert fields[i..][1..] == fields[i + 1..];
    }
  }

  /** One field, written behind what is `done`; sizes the builder does not know are
      stepped over. */
  method WriteField(buffer: array<Byte>, field: Field, value: int, offset: nat, ghost done: Bytes, ghost blank: nat)
    returns (ok: bool)
    requires offset == |done| && field.size <= blank && buffer[..] == done + Zeros(blank)
    modifies buffer
    ensures ok <==> (Carried(field) ==> 0 <= value < Power(256, field.size))
    ensures ok ==> buffer[..] == done + FieldBytes(field, value) + Zeros(blank - field.size)
  {
    ok := true;
    OverwriteBlank(done, FieldBytes(field, value), blank);
    if Carried(field) {
      assert buffer.Length == |buffer[..]| == |done| + blank;
      ok := WriteUIntBE(buffer, value, offset, field.size);
    } else {
      assert Zeros(blank) == Zeros(field.size) + Zeros(blank - field.size);
    }
  }

  lemma DataBytesStep(done: Bytes, fields: seq<Field>, data: Data)
    requires fields != []
    ensures done + DataBytes(fields, data)
         == done + FieldBytes(fields[0], Lookup(data, fields[0].name)) + DataBytes(fields[1..], data)
  {
    Regroup(done, FieldBytes(fields[0], Lookup(data, fields[0].name)), DataBytes(fields[1..], data), []);
  }

  /** The buffer holds what is `done`, and the `rest` of the fields is what is missing. */
  ghost predicate WrittenSoFar(header: Bytes, fields: seq<Field>, data: Data, done: Bytes, rest: seq<Field>,
                               bytes: Bytes) {
    && header + DataBytes(fields, data) == done + DataBytes(rest, data)
    && bytes == done + Zeros(DataSize(rest) + 1)
    && (AllInRange(fields, data) <==> AllInRange(rest, data))
  }

  lemma OneFieldMore(header: Bytes, fields: seq<Field>, data: Data, done: Bytes, rest: seq<Field>, before: Bytes,
                     after: Bytes)
    requires rest != [] && WrittenSoFar(header, fields, data, done, rest, before)
    requires var field := rest[0];
      && (Carried(field) ==> 0 <= Lookup(data, field.name) < Power(256, field.size))
      && after == done + FieldBytes(field, Lookup(data, field.name)) + Zeros(DataSize(rest) + 1 - field.size)
    ensures WrittenSoFar(header, fields, data, done + FieldBytes(rest[0], Lookup(data, rest[0].name)), rest[1..], after)
  {
    DataBytesStep(done, rest, data);
    AllInRangeStep(rest, data);
  }

  lemma AllWritten(header: Bytes, fields: seq<Field>, data: Data, done: Bytes, bytes: Bytes)
    requires WrittenSoFar(header, fields, data, done, [], bytes)
    ensures AllInRange(fields, data) && bytes == header + DataBytes(fields, data) + [0]
  {
    assert done + [] == done;
    assert Zeros(1) == [0];
  }

  /** The field loop of build: writes the data area behind a finished header. */
  method WriteFields(buffer: array<Byte>, fields: seq<Field>, data: Data, ghost header: Bytes) returns (ok: bool)
    requires |header| == HEADER_SIZE && buffer[..] == header + Zeros(DataSize(fields) + 1)
    modifies buffer
    ensures ok <==> AllInRange(fields, data)
    ensures ok ==> buffer[..] == header + DataBytes(fields, data) + [0]
  {
    ghost var done, rest := header, fields;
    var offset := HEADER_SIZE;
    for i := 0 to |fields|
      invariant rest == fields[i..]
      invariant offset == |done|
      invariant WrittenSoFar(header, fields, data, done, rest, buffer[..])
    {
      var field := fields[i];
      var value := Lookup(data, field.name);
      ghost var before := buffer[..];
      ok := WriteField(buffer, field, value, offset, done, DataSize(rest) + 1);
      if !ok {
        AllInRangeStep(rest, data);
        return;
      }
      OneFieldMore(header, fields, data, done, rest, before, buffer[..]);
      done, rest := done + FieldBytes(field, value), rest[1..];
      offset := offset + field.size;
    }
    AllWritten(header, fields, data, done, buffer[..]);
    ok := true;
  }

  /** quickBuild: the default data type with a given module id. */
  method QuickBuild(definition: Definition, data: Data, moduleId: string := "PSM00") returns (r: Option<Bytes>)
    ensures r == Frame("D", Truncate(moduleId, MODULE_ID_SIZE), definition, data)
  {
    var builder := new TelegramBuilder();
    builder.SetModuleId(moduleId);
    r := builder.Build(definition, data);
  }
}
