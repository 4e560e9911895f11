/** TelegramParser: from a buffer back to a telegram. */
module TelegramParser {
  import opened Prelude
  import opened Telegrams

  function ParseHeader(buffer: Bytes): Option<Header> {
    if |buffer| < HEADER_SIZE || buffer[0] != STX then None
    else
      Some(Header(buffer[0], [buffer[1] as char], ModuleIdText(buffer[2..8]), TelegramNo(buffer), DataLength(buffer)))
  }

  /** The data area, field by field; an area that runs out of bytes is an error. */
  method ParseData(buffer: Bytes, offset: nat, fields: seq<Field>) returns (r: Option<Data>)
    ensures r == ReadFields(buffer, offset, fields)
  {
    var data: Data := map[];
    var pos: nat := offset;
    assert fields[0..] == fields;
    assert forall m: Data :: data + m == m;
    for i := 0 to |fields|
      invariant match ReadFields(buffer, pos, fields[i..])
        case None => ReadFields(buffer, offset, fields) == None
        case Some(later) => ReadFields(buffer, offset, fields) == Some(data + later)
    {
      var field := fields[i];
      assert fields[i..][1..] == fields[i + 1..];
      if pos + field.size > |buffer| {
        return None;
      }
      ghost var before := data;
      if Carried(field) {
        data := data[field.name := Number(buffer[pos..pos + field.size])];
        ghost var later := ReadFields(buffer, pos + field.size, fields[i + 1..]);
        if later.Some? {
          assert before + (map[field.name := Number(buffer[pos..pos + field.size])] + later.value)
              == data + later.value;
        }
      }
      pos := pos + field.size;
    }
    assert fields[|fields|..] == [];
    assert data + map[] == data;
    return Some(data);
  }

  function Parse(buffer: Bytes, definition: Definition): Option<Telegram> {
    match ParseHeader(buffer)
    case None => None
    case Some(header) =>
      if header.telegramNo != definition.telegramNo then None
      else match ReadFields(buffer, HEADER_SIZE, definition.fields)
        case None => None
        case Some(data) =>
          var etxOffset := HEADER_SIZE + header.dataLength;
          if etxOffset >= |buffer| || buffer[etxOffset] != ETX then None
          else Some(Telegram(header, data, buffer[etxOffset]))
  }

  function AutoParse(buffer: Bytes, registry: Registry): Option<Telegram> {
    match ParseHeader(buffer)
    case None => None
    case Some(header) =>
      if header.telegramNo !in registry then None
      else Parse(buffer, registry[header.telegramNo])
  }

  /** What a reader of the frame gets: the header as sent, up to what the header can
      carry, and every carried field. */
  function Received(dataType: string, moduleId: string, definition: Definition, data: Data): Telegram
    requires Buildable(dataType, definition, data)
  {
    Telegram(
      Header(STX, [DataTypeCode(dataType) as char], ModuleIdText(ModuleIdBytes(moduleId)),
             definition.telegramNo, DataSize(definition.fields)),
      ReadBack(definition.fields, data), ETX)
  }

  /** Parsing undoes building, also when further bytes follow the frame. */
  lemma ParseOfFrame(dataType: string, moduleId: string, definition: Definition, data: Data, tail: Bytes)
    requires Buildable(dataType, definition, data)
    ensures Parse(Frame(dataType, moduleId, definition, data).value + tail, definition)
         == Some(Received(dataType, moduleId, definition, data))
  {
    HeaderOfFrame(dataType, moduleId, definition, data, tail);
    var b := Frame(dataType, moduleId, definition, data).value + tail;
    ReadFieldsOfDataBytes(b[..HEADER_SIZE], definition.fields, data, [ETX] + tail);
  }

  /** The values survive the round trip unchanged; the data type survives exactly when
      it is one character, the module id exactly when it is NUL-free seven-bit text. */
  lemma RoundTrip(dataType: string, moduleId: string, definition: Definition, data: Data)
    requires |dataType| <= 1 && |moduleId| <= MODULE_ID_SIZE
    ensures Frame(dataType, moduleId, definition, data).Some? <==> Buildable(dataType, definition, data)
    ensures Buildable(dataType, definition, data) ==>
      var parsed := Parse(Frame(dataType, moduleId, definition, data).value, definition);
      && parsed.Some?
      && var t := parsed.value;
      && t.header.telegramNo == definition.telegramNo
      && t.header.dataLength == DataSize(definition.fields)
      && (t.header.dataType == dataType <==> dataType != "")
      && (t.header.moduleId == moduleId <==> PlainText(moduleId))
      && t.data.Keys == CarriedNames(definition.fields)
      && (forall f :: f in definition.fields && Carried(f) ==> t.data[f.name] == Lookup(data, f.name))
  {
    if Buildable(dataType, definition, data) {
      ParseOfFrame(dataType, moduleId, definition, data, []);
      assert Frame(dataType, moduleId, definition, data).value + []
          == Frame(dataType, moduleId, definition, data).value;
      ModuleIdSurvives(moduleId);
      var t := Received(dataType, moduleId, definition, data);
      forall f | f in definition.fields && Carried(f) ensures f.name in t.data {
        assert f.name in CarriedNames(definition.fields);
      }
    }
  }

  /** The exact input on which automatic parsing succeeds. The length in the header
      only has to lead to an ETX; it need not be the length of the definition. */
  lemma AutoParseSucceeds(buffer: Bytes, registry: Registry)
    requires KeyedByNumber(registry)
    ensures AutoParse(buffer, registry).Some? <==>
      && |buffer| >= MIN_TELEGRAM_SIZE
      && buffer[0] == STX
      && TelegramNo(buffer) in registry
      && HEADER_SIZE + DataSize(registry[TelegramNo(buffer)].fields) <= |buffer|
      && HEADER_SIZE + DataLength(buffer) < |buffer|
      && buffer[HEADER_SIZE + DataLength(buffer)] == ETX
  {
    if |buffer| >= HEADER_SIZE && TelegramNo(buffer) in registry {
      ReadFieldsSucceeds(buffer, HEADER_SIZE, registry[TelegramNo(buffer)].fields);
    }
  }

  /** What automatic parsing reports is what the bytes say. */
  lemma AutoParseReports(buffer: Bytes, registry: Registry)
    requires AutoParse(buffer, registry).Some?
    ensures var t := AutoParse(buffer, registry).value;
      && TelegramNo(buffer) in registry
      && t.header.telegramNo == TelegramNo(buffer)
      && t.header.dataLength == DataLength(buffer)
      && t.data.Keys == CarriedNames(registry[TelegramNo(buffer)].fields)
      && ReadFields(buffer, HEADER_SIZE, registry[TelegramNo(buffer)].fields) == Some(t.data)
  {
    ReadFieldsKeys(buffer, HEADER_SIZE, registry[TelegramNo(buffer)].fields);
  }
}
