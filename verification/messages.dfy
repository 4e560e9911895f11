/** The telegrams the simulator sends, and what their receiver reads out of them. */
module Messages {
  import opened Prelude
  import opened Telegrams
  import opened TelegramParser
  import opened TelegramCatalog
  import opened TelegramValidator

  datatype Message =
    | SorterStatusReport(status: int)
    | InductionStatusReport(inductionCount: int, inductionNo: int, status: int)
    | InductionModeReport(inductionCount: int, inductionNo: int, mode: int)
    | ItemInducted(cellIndex: int, inductionNo: int, mode: int, pid: int, destination: int)
    | ItemDischarged(cellIndex: int, inductionNo: int, mode: int, chuteNumber: int, recirculationCount: int)
    | ItemConfirmed(cellIndex: int, mode: int, chuteNumber: int, recirculationCount: int, status: int)
    | SorterAck(request: int, reason: int)
    | InductionAck(inductionNo: int, status: int, reason: int)
    | ModeAck(inductionNo: int, request: int)
    | OverflowAck(overflowChute1: int, overflowChute2: int, maxRecirculation: int, reason: int)
    | ResetAck(resetModule: int)

  function DefinitionOf(m: Message): Definition {
    match m
    case SorterStatusReport(_) => TELEGRAM_10
    case InductionStatusReport(_, _, _) => TELEGRAM_11
    case InductionModeReport(_, _, _) => TELEGRAM_12
    case ItemInducted(_, _, _, _, _) => TELEGRAM_20
    case ItemDischarged(_, _, _, _, _) => TELEGRAM_21
    case ItemConfirmed(_, _, _, _, _) => TELEGRAM_22
    case SorterAck(_, _) => TELEGRAM_101
    case InductionAck(_, _, _) => TELEGRAM_111
    case ModeAck(_, _) => TELEGRAM_121
    case OverflowAck(_, _, _, _) => TELEGRAM_131
    case ResetAck(_) => TELEGRAM_141
  }

  /** The numbers of a message in the order of its definition's fields. */
  function ValuesOf(m: Message): seq<int> {
    match m
    case SorterStatusReport(status) => [status]
    case InductionStatusReport(count, no, status) => [count, no, status]
    case InductionModeReport(count, no, mode) => [count, no, mode]
    case ItemInducted(cell, no, mode, pid, destination) => [cell, no, mode, pid, 0, destination, 0, 0, 0, 0, 0, 0, 0]
    case ItemDischarged(cell, no, mode, chute, recirculation) => [cell, no, mode, chute, recirculation]
    case ItemConfirmed(cell, mode, chute, recirculation, status) => [cell, mode, chute, recirculation, status]
    case SorterAck(request, reason) => [request, reason]
    case InductionAck(no, status, reason) => [no, status, reason]
    case ModeAck(no, request) => [no, request]
    case OverflowAck(c1, c2, most, reason) => [c1, c2, most, reason]
    case ResetAck(m) => [m]
  }

  /** The data object that gives each field its value. */
  function Given(fields: seq<Field>, values: seq<int>): Data
    requires |fields| == |values|
  {
    if fields == [] then map[] else Given(fields[1..], values[1..])[fields[0].name := values[0]]
  }

  function DataOf(m: Message): Data {
    Given(DefinitionOf(m).fields, ValuesOf(m))
  }

  predicate Short(n: int) {
    0 <= n < 0x1_0000
  }

  /** Every number of the message fits its field. */
  predicate Encodable(m: Message) {
    match m
    case SorterStatusReport(status) => Short(status)
    case InductionStatusReport(count, no, status) => Short(count) && Short(no) && Short(status)
    case InductionModeReport(count, no, mode) => Short(count) && Short(no) && Short(mode)
    case ItemInducted(cell, no, mode, pid, destination) =>
      Short(cell) && Short(no) && Short(mode) && 0 <= pid < 0x1_0000_0000 && Short(destination)
    case ItemDischarged(cell, no, mode, chute, recirculation) =>
      Short(cell) && Short(no) && Short(mode) && Short(chute) && Short(recirculation)
    case ItemConfirmed(cell, mode, chute, recirculation, status) =>
      Short(cell) && Short(mode) && Short(chute) && Short(recirculation) && Short(status)
    case SorterAck(request, reason) => Short(request) && Short(reason)
    case InductionAck(no, status, reason) => Short(no) && Short(status) && Short(reason)
    case ModeAck(no, request) => Short(no) && Short(request)
    case OverflowAck(c1, c2, most, reason) => Short(c1) && Short(c2) && Short(most) && Short(reason)
    case ResetAck(m) => Short(m)
  }

  /** quickBuild with the simulator's module id. */
  function Encode(m: Message): Option<Bytes> {
    Frame("D", "PSM00", DefinitionOf(m), DataOf(m))
  }

  // ---- reading, field by field ----

  function ReadSorterStatusReport(d: Data): Message {
    SorterStatusReport(Lookup(d, "sorterStatus"))
  }

  function ReadInductionStatusReport(d: Data): Message {
    InductionStatusReport(Lookup(d, "inductionCount"), Lookup(d, "inductionNo"), Lookup(d, "inductionStatus"))
  }

  function ReadInductionModeReport(d: Data): Message {
    InductionModeReport(Lookup(d, "inductionCount"), Lookup(d, "inductionNo"), Lookup(d, "inductionMode"))
  }

  function ReadItemInducted(d: Data): Message {
    ItemInducted(Lookup(d, "cellIndex"), Lookup(d, "inductionNo"), Lookup(d, "mode"),
                 Lookup(d, "pid"), Lookup(d, "destination1"))
  }

  function ReadItemDischarged(d: Data): Message {
    ItemDischarged(Lookup(d, "cellIndex"), Lookup(d, "inductionNo"), Lookup(d, "mode"),
                   Lookup(d, "chuteNumber"), Lookup(d, "recirculationCount"))
  }

  function ReadItemConfirmed(d: Data): Message {
    ItemConfirmed(Lookup(d, "cellIndex"), Lookup(d, "mode"), Lookup(d, "chuteNumber"),
                  Lookup(d, "recirculationCount"), Lookup(d, "status"))
  }

  function ReadSorterAck(d: Data): Message {
    SorterAck(Lookup(d, "request"), Lookup(d, "reason"))
  }

  function ReadInductionAck(d: Data): Message {
    InductionAck(Lookup(d, "inductionNo"), Lookup(d, "status"), Lookup(d, "reason"))
  }

  function ReadModeAck(d: Data): Message {
    ModeAck(Lookup(d, "inductionNo"), Lookup(d, "request"))
  }

  function ReadOverflowAck(d: Data): Message {
    OverflowAck(Lookup(d, "overflowChute1"), Lookup(d, "overflowChute2"),
                Lookup(d, "maxRecirculation"), Lookup(d, "reason"))
  }

  function ReadResetAck(d: Data): Message {
    ResetAck(Lookup(d, "resetModule"))
  }

  function ReadReport(telegramNo: int, d: Data): Option<Message> {
    match telegramNo
    case 10 => Some(ReadSorterStatusReport(d))
    case 11 => Some(ReadInductionStatusReport(d))
    case 12 => Some(ReadInductionModeReport(d))
    case _ => None
  }

  function ReadItem(telegramNo: int, d: Data): Option<Message> {
    match telegramNo
    case 20 => Some(ReadItemInducted(d))
    case 21 => Some(ReadItemDischarged(d))
    case 22 => Some(ReadItemConfirmed(d))
    case _ => None
  }

  function ReadAck(telegramNo: int, d: Data): Option<Message> {
    match telegramNo
    case 101 => Some(ReadSorterAck(d))
    case 111 => Some(ReadInductionAck(d))
    case 121 => Some(ReadModeAck(d))
    case 131 => Some(ReadOverflowAck(d))
    case 141 => Some(ReadResetAck(d))
    case _ => None
  }

  /** The message in a parsed telegram. */
  function Read(t: Telegram): Option<Message> {
    if t.header.telegramNo < 20 then ReadReport(t.header.telegramNo, t.data)
    else if t.header.telegramNo < 100 then ReadItem(t.header.telegramNo, t.data)
    else ReadAck(t.header.telegramNo, t.data)
  }

  // ---- data objects ----

  ghost predicate DistinctNames(fields: seq<Field>) {
    forall i, j :: 0 <= i < j < |fields| ==> fields[i].name != fields[j].name
  }

  ghost predicate ValuesFit(fields: seq<Field>, values: seq<int>)
    requires |fields| == |values|
  {
    forall i :: 0 <= i < |fields| ==> (Carried(fields[i]) ==> 0 <= values[i] < Power(256, fields[i].size))
  }

  lemma {:induction false} GivenAt(fields: seq<Field>, values: seq<int>, i: nat)
    requires |fields| == |values| && i < |fields| && DistinctNames(fields)
    ensures Lookup(Given(fields, values), fields[i].name) == values[i]
  {
    if i > 0 {
      GivenAt(fields[1..], values[1..], i - 1);
      assert fields[i].name in Given(fields[1..], values[1..]) || values[i] == 0;
    }
  }

  lemma GivenInRange(fields: seq<Field>, values: seq<int>)
    requires |fields| == |values| && DistinctNames(fields)
    ensures AllInRange(fields, Given(fields, values)) <==> ValuesFit(fields, values)
  {
    forall i | 0 <= i < |fields| ensures Lookup(Given(fields, values), fields[i].name) == values[i] {
      GivenAt(fields, values, i);
    }
    if ValuesFit(fields, values) {
      forall i | 0 <= i < |fields| ensures InRange(fields[i], Given(fields, values)) {
      }
    }
    if AllInRange(fields, Given(fields, values)) {
      forall i | 0 <= i < |fields| && Carried(fields[i]) ensures 0 <= values[i] < Power(256, fields[i].size) {
        assert InRange(fields[i], Given(fields, values));
      }
    }
  }

  /** A carried field of the definition is read back as it was given. */
  lemma ReadBackAt(fields: seq<Field>, values: seq<int>, i: nat)
    requires |fields| == |values| && DistinctNames(fields)
    requires i < |fields| && Carried(fields[i])
    ensures Lookup(ReadBack(fields, Given(fields, values)), fields[i].name) == values[i]
  {
    GivenAt(fields, values, i);
    assert fields[i] in fields;
  }

  // ---- the definitions in use ----

  /** Names of different length, or of different last character, are different. */
  predicate Unlike(a: string, b: string) {
    |a| != |b| || (a != "" && a[|a| - 1] != b[|b| - 1])
  }

  lemma NamesAreDistinct(m: Message)
    ensures DistinctNames(DefinitionOf(m).fields)
  {
    var f := DefinitionOf(m).fields;
    assert forall i, j :: 0 <= i < j < |f| ==> Unlike(f[i].name, f[j].name);
  }

  /** All fields have two bytes, but for the PID of an inducted item. */
  lemma SizesAreKnown(m: Message)
    ensures var f := DefinitionOf(m).fields;
      forall i :: 0 <= i < |f| ==> f[i].size == if m.ItemInducted? && i == 3 then 4 else 2
  {
  }

  predicate InBounds(m: Message, i: nat, n: int) {
    if m.ItemInducted? && i == 3 then 0 <= n < 0x1_0000_0000 else Short(n)
  }

  lemma EncodableExactly(m: Message)
    ensures Encodable(m) <==> forall i :: 0 <= i < |ValuesOf(m)| ==> InBounds(m, i, ValuesOf(m)[i])
  {
    var v := ValuesOf(m);
    match m
    case SorterStatusReport(status) => assert v[0] == status;
    case InductionStatusReport(count, no, status) => assert v[0] == count && v[1] == no && v[2] == status;
    case InductionModeReport(count, no, mode) => assert v[0] == count && v[1] == no && v[2] == mode;
    case ItemInducted(cell, no, mode, pid, destination) =>
      assert v[0] == cell && v[1] == no && v[2] == mode && v[3] == pid && v[5] == destination;
    case ItemDischarged(cell, no, mode, chute, recirculation) =>
      assert v[0] == cell && v[1] == no && v[2] == mode && v[3] == chute && v[4] == recirculation;
    case ItemConfirmed(cell, mode, chute, recirculation, status) =>
      assert v[0] == cell && v[1] == mode && v[2] == chute && v[3] == recirculation && v[4] == status;
    case SorterAck(request, reason) => assert v[0] == request && v[1] == reason;
    case InductionAck(no, status, reason) => assert v[0] == no && v[1] == status && v[2] == reason;
    case ModeAck(no, request) => assert v[0] == no && v[1] == request;
    case OverflowAck(c1, c2, most, reason) => assert v[0] == c1 && v[1] == c2 && v[2] == most && v[3] == reason;
    case ResetAck(n) => assert v[0] == n;
  }

  lemma FitsExactlyWhenEncodable(m: Message)
    ensures ValuesFit(DefinitionOf(m).fields, ValuesOf(m)) <==> Encodable(m)
  {
    PowerSmall();
    SizesAreKnown(m);
    EncodableExactly(m);
  }

  /** A field of a message is read back as it was given. */
  lemma FieldReadsBack(m: Message, i: nat)
    requires i < |DefinitionOf(m).fields|
    ensures Lookup(ReadBack(DefinitionOf(m).fields, DataOf(m)), DefinitionOf(m).fields[i].name) == ValuesOf(m)[i]
  {
    NamesAreDistinct(m);
    SizesAreKnown(m);
    ReadBackAt(DefinitionOf(m).fields, ValuesOf(m), i);
  }

  lemma FieldsReadBack(m: Message)
    ensures var f, d := DefinitionOf(m).fields, ReadBack(DefinitionOf(m).fields, DataOf(m));
      forall i :: 0 <= i < |f| ==> Lookup(d, f[i].name) == ValuesOf(m)[i]
  {
    var f, d := DefinitionOf(m).fields, ReadBack(DefinitionOf(m).fields, DataOf(m));
    forall i | 0 <= i < |f| ensures Lookup(d, f[i].name) == ValuesOf(m)[i] {
      FieldReadsBack(m, i);
    }
  }

  // ---- all messages ----

  predicate IsAck(m: Message) {
    DefinitionOf(m).telegramNo > 100
  }

  predicate IsItem(m: Message) {
    20 <= DefinitionOf(m).telegramNo <= 22
  }

  lemma OverflowReadsBack(m: Message)
    requires m.OverflowAck?
    ensures ReadOverflowAck(ReadBack(TELEGRAM_131.fields, DataOf(m))) == m
  {
    FieldReadsBack(m, 0);
    FieldReadsBack(m, 1);
    FieldReadsBack(m, 2);
    FieldReadsBack(m, 3);
  }

  lemma AckReadsBack(m: Message)
    requires IsAck(m)
    ensures ReadAck(DefinitionOf(m).telegramNo, ReadBack(DefinitionOf(m).fields, DataOf(m))) == Some(m)
  {
    FieldsReadBack(m);
    var f := DefinitionOf(m).fields;
    match m
    case SorterAck(_, _) => assert f[0].name == "request" && f[1].name == "reason";
    case InductionAck(_, _, _) =>
      assert f[0].name == "inductionNo" && f[1].name == "status" && f[2].name == "reason";
    case ModeAck(_, _) => assert f[0].name == "inductionNo" && f[1].name == "request";
    case OverflowAck(_, _, _, _) => OverflowReadsBack(m);
    case ResetAck(_) => assert f[0].name == "resetModule";
  }

  lemma InductedReadsBack(m: Message)
    requires m.ItemInducted?
    ensures ReadItemInducted(ReadBack(TELEGRAM_20.fields, DataOf(m))) == m
  {
    FieldReadsBack(m, 0);
    FieldReadsBack(m, 1);
    FieldReadsBack(m, 2);
    FieldReadsBack(m, 3);
    FieldReadsBack(m, 5);
  }

  lemma DischargedReadsBack(m: Message)
    requires m.ItemDischarged?
    ensures ReadItemDischarged(ReadBack(TELEGRAM_21.fields, DataOf(m))) == m
  {
    var f := TELEGRAM_21.fields;
    FieldsReadBack(m);
    assert f[0].name == "cellIndex" && f[1].name == "inductionNo" && f[2].name == "mode";
    assert f[3].name == "chuteNumber" && f[4].name == "recirculationCount";
  }

  lemma ConfirmedReadsBack(m: Message)
    requires m.ItemConfirmed?
    ensures ReadItemConfirmed(ReadBack(TELEGRAM_22.fields, DataOf(m))) == m
  {
    var f := TELEGRAM_22.fields;
    FieldsReadBack(m);
    assert f[0].name == "cellIndex" && f[1].name == "mode" && f[2].name == "chuteNumber";
    assert f[3].name == "recirculationCount" && f[4].name == "status";
  }

  lemma ItemReadsBack(m: Message)
    requires IsItem(m)
    ensures ReadItem(DefinitionOf(m).telegramNo, ReadBack(DefinitionOf(m).fields, DataOf(m))) == Some(m)
  {
    match m
    case ItemInducted(_, _, _, _, _) => InductedReadsBack(m);
    case ItemDischarged(_, _, _, _, _) => DischargedReadsBack(m);
    case ItemConfirmed(_, _, _, _, _) => ConfirmedReadsBack(m);
  }

  lemma ReportReadsBack(m: Message)
    requires !IsAck(m) && !IsItem(m)
    ensures ReadReport(DefinitionOf(m).telegramNo, ReadBack(DefinitionOf(m).fields, DataOf(m))) == Some(m)
  {
    FieldsReadBack(m);
    var f := DefinitionOf(m).fields;
    match m
    case SorterStatusReport(_) => assert f[0].name == "sorterStatus";
    case InductionStatusReport(_, _, _) =>
      assert f[0].name == "inductionCount" && f[1].name == "inductionNo" && f[2].name == "inductionStatus";
    case InductionModeReport(_, _, _) =>
      assert f[0].name == "inductionCount" && f[1].name == "inductionNo" && f[2].name == "inductionMode";
  }

  lemma IsRegistered(m: Message)
    ensures DefinitionOf(m) in PLC_TO_SMC || DefinitionOf(m) in SMC_TO_PLC
  {
    match m
    case SorterStatusReport(_) => assert PLC_TO_SMC[1] == DefinitionOf(m);
    case InductionStatusReport(_, _, _) => assert PLC_TO_SMC[2] == DefinitionOf(m);
    case InductionModeReport(_, _, _) => assert PLC_TO_SMC[3] == DefinitionOf(m);
    case ItemInducted(_, _, _, _, _) => assert PLC_TO_SMC[4] == DefinitionOf(m);
    case ItemDischarged(_, _, _, _, _) => assert PLC_TO_SMC[5] == DefinitionOf(m);
    case ItemConfirmed(_, _, _, _, _) => assert PLC_TO_SMC[6] == DefinitionOf(m);
    case SorterAck(_, _) => assert SMC_TO_PLC[3] == DefinitionOf(m);
    case InductionAck(_, _, _) => assert SMC_TO_PLC[5] == DefinitionOf(m);
    case ModeAck(_, _) => assert SMC_TO_PLC[7] == DefinitionOf(m);
    case OverflowAck(_, _, _, _) => assert SMC_TO_PLC[9] == DefinitionOf(m);
    case ResetAck(_) => assert SMC_TO_PLC[11] == DefinitionOf(m);
  }

  predicate FitsHeader(d: Definition) {
    0 <= d.telegramNo < 0x1_0000 && DataSize(d.fields) < 0x1_0000
  }

  lemma {:induction false} SizeAtMostFourEach(fields: seq<Field>)
    requires forall i :: 0 <= i < |fields| ==> fields[i].size <= 4
    ensures DataSize(fields) <= 4 * |fields|
    decreases |fields|
  {
    if fields != [] {
      SizeAtMostFourEach(fields[1..]);
    }
  }

  lemma DefinitionFitsHeader(m: Message)
    ensures FitsHeader(DefinitionOf(m))
  {
    SizesAreKnown(m);
    SizeAtMostFourEach(DefinitionOf(m).fields);
    assert |DefinitionOf(m).fields| == |ValuesOf(m)|;
  }

  lemma BuildableExactlyWhenFit(dataType: string, d: Definition, values: seq<int>)
    requires DataTypeCode(dataType) < 256 && FitsHeader(d)
    requires |d.fields| == |values| && DistinctNames(d.fields)
    ensures Buildable(dataType, d, Given(d.fields, values)) <==> ValuesFit(d.fields, values)
  {
    GivenInRange(d.fields, values);
  }

  lemma EncodableIsBuildable(m: Message)
    ensures Encode(m).Some? <==> Encodable(m)
  {
    NamesAreDistinct(m);
    DefinitionFitsHeader(m);
    FitsExactlyWhenEncodable(m);
    BuildableExactlyWhenFit("D", DefinitionOf(m), ValuesOf(m));
  }

  lemma RegisteredFrame(dataType: string, moduleId: string, d: Definition, data: Data, registry: Registry)
    requires KeyedByNumber(registry) && d.telegramNo in registry && registry[d.telegramNo] == d
    requires Buildable(dataType, d, data)
    ensures Accepted(Frame(dataType, moduleId, d, data).value, registry)
    ensures AutoParse(Frame(dataType, moduleId, d, data).value, registry) == Some(Received(dataType, moduleId, d, data))
  {
    var frame := Frame(dataType, moduleId, d, data).value;
    BuiltIsAccepted(dataType, moduleId, d, data, registry);
    HeaderOfFrame(dataType, moduleId, d, data, []);
    ParseOfFrame(dataType, moduleId, d, data, []);
    assert frame + [] == frame;
  }

  /** A message can be encoded exactly when its numbers fit their fields; its frame then
      passes the full validation and is read back as the same message. */
  lemma MessageRoundTrip(m: Message)
    ensures Encode(m).Some? <==> Encodable(m)
    ensures Encodable(m) ==>
      var frame := Encode(m).value;
      && Accepted(frame, Catalog())
      && AutoParse(frame, Catalog()).Some?
      && Read(AutoParse(frame, Catalog()).value) == Some(m)
  {
    EncodableIsBuildable(m);
    if Encodable(m) {
      var d := DefinitionOf(m);
      IsRegistered(m);
      CatalogHolds(d);
      RegisteredFrame("D", "PSM00", d, DataOf(m), Catalog());
      var t := Received("D", "PSM00", d, DataOf(m));
      if IsAck(m) { AckReadsBack(m); } else if IsItem(m) { ItemReadsBack(m); } else { ReportReadsBack(m); }
    }
  }
}
