/** Where the numbers of the simulator's telegrams stand on the wire, byte by byte. */
module Wire {
  import opened Prelude
  import opened Telegrams
  import opened TelegramParser
  import opened TelegramCatalog
  import opened Messages
  import opened CommandHandler

  /** The two-byte and the four-byte number at a place. */
  function At(b: Bytes, i: nat): nat
    requires i + 2 <= |b|
  {
    b[i] as int * 0x100 + b[i + 1]
  }

  function WideAt(b: Bytes, i: nat): nat
    requires i + 4 <= |b|
  {
    b[i] as int * 0x100_0000 + b[i + 1] as int * 0x1_0000 + b[i + 2] as int * 0x100 + b[i + 3]
  }

  lemma NumberAt(b: Bytes, i: nat)
    ensures i + 2 <= |b| ==> Number(b[i..i + 2]) == At(b, i)
    ensures i + 4 <= |b| ==> Number(b[i..i + 4]) == WideAt(b, i)
  {
    if i + 2 <= |b| {
      assert b[i..i + 2][..1] == [b[i]] && [b[i]][..0] == [];
    }
    if i + 4 <= |b| {
      var four, three := b[i..i + 4], b[i..i + 3];
      assert four[..3] == three && three[..2] == b[i..i + 2];
      assert Number(three) == Number(three[..2]) * 0x100 + three[2];
    }
  }

  // ---- places of fields ----

  lemma SliceOfSlice(b: Bytes, start: nat, n: nat, place: nat, size: nat)
    requires start + n <= |b| && place + size <= n
    ensures b[start..start + n][place..place + size] == b[start + place..start + place + size]
  {
    var inner, direct := b[start..start + n][place..place + size], b[start + place..start + place + size];
    assert forall k :: 0 <= k < size ==> inner[k] == direct[k];
  }

  lemma PieceBehind(first: Bytes, rest: Bytes, place: nat, size: nat)
    requires place + size <= |rest|
    ensures (first + rest)[|first| + place..|first| + place + size] == rest[place..place + size]
  {
    assert (first + rest)[|first|..] == rest;
    var behind, piece := (first + rest)[|first| + place..|first| + place + size], rest[place..place + size];
    assert forall k :: 0 <= k < size ==> behind[k] == piece[k];
  }

  lemma {:induction false} PieceOfData(fields: seq<Field>, data: Data, i: nat)
    requires i < |fields|
    ensures var place, f := DataSize(fields[..i]), fields[i];
      && place + f.size <= DataSize(fields)
      && DataBytes(fields, data)[place..place + f.size] == FieldBytes(f, Lookup(data, f.name))
  {
    if i > 0 {
      var rest, size := fields[1..], fields[0].size;
      var place := DataSize(rest[..i - 1]);
      PieceOfData(rest, data, i - 1);
      assert fields[..i][1..] == rest[..i - 1];
      PieceBehind(FieldBytes(fields[0], Lookup(data, fields[0].name)), DataBytes(rest, data), place, fields[i].size);
    }
  }

  /** All fields before the i-th have two bytes, but for the PID of an inducted item. */
  lemma {:induction false} PlaceOf(m: Message, i: nat)
    requires i <= |DefinitionOf(m).fields|
    ensures DataSize(DefinitionOf(m).fields[..i]) == 2 * i + (if m.ItemInducted? && i > 3 then 2 else 0)
  {
    if i > 0 {
      var before, last := DefinitionOf(m).fields[..i - 1], DefinitionOf(m).fields[i - 1];
      PlaceOf(m, i - 1);
      SizesAreKnown(m);
      DataSizeOfPrefix(DefinitionOf(m).fields[..i], i - 1);
      assert DefinitionOf(m).fields[..i][..i - 1] == before && DefinitionOf(m).fields[..i][i - 1..] == [last];
      assert DataSize([last]) == last.size;
    }
  }

  lemma LookupOf(m: Message, i: nat)
    requires i < |DefinitionOf(m).fields|
    ensures Lookup(DataOf(m), DefinitionOf(m).fields[i].name) == ValuesOf(m)[i]
  {
    NamesAreDistinct(m);
    GivenAt(DefinitionOf(m).fields, ValuesOf(m), i);
  }

  /** The data area of a frame is behind its twelve header bytes. */
  lemma DataOfFrame(m: Message)
    requires Encodable(m)
    ensures var frame, d := Encode(m), DefinitionOf(m);
      && frame.Some? && |frame.value| == 13 + DataSize(d.fields)
      && frame.value[12..12 + DataSize(d.fields)] == DataBytes(d.fields, DataOf(m))
  {
    EncodableIsBuildable(m);
    var d := DefinitionOf(m);
    var frame := Encode(m).value;
    HeaderOfFrame("D", "PSM00", d, DataOf(m), []);
    assert frame + [] == frame && [ETX] + [] == [ETX];
    Pieces(frame[..12], DataBytes(d.fields, DataOf(m)), [ETX]);
  }

  /** The place of the i-th value of a message in its data area, and its size. */
  function PlaceIn(m: Message, i: nat): nat {
    2 * i + (if m.ItemInducted? && i > 3 then 2 else 0)
  }

  function SizeIn(m: Message, i: nat): nat {
    if m.ItemInducted? && i == 3 then 4 else 2
  }

  predicate Holds(frame: Bytes, m: Message, i: nat)
    requires i < |ValuesOf(m)|
  {
    var v := ValuesOf(m)[i];
    if m.ItemInducted? && i == 3 then |frame| >= 22 && WideAt(frame, 18) == v
    else
      var place := 12 + PlaceIn(m, i);
      place + 2 <= |frame| && At(frame, place) == v
  }

  /** A piece of the data area stands in the frame twelve bytes further on. */
  lemma PieceInFrame(frame: Bytes, area: Bytes, place: nat, piece: Bytes)
    requires |frame| >= 12 + |area| && frame[12..12 + |area|] == area
    requires place + |piece| <= |area| && area[place..place + |piece|] == piece
    ensures frame[12 + place..12 + place + |piece|] == piece
  {
    SliceOfSlice(frame, 12, |area|, place, |piece|);
  }

  lemma ValueInRange(m: Message, i: nat)
    requires Encodable(m) && i < |ValuesOf(m)|
    ensures 0 <= ValuesOf(m)[i] < Power(256, DefinitionOf(m).fields[i].size) && Carried(DefinitionOf(m).fields[i])
  {
    PowerSmall();
    SizesAreKnown(m);
    FitsExactlyWhenEncodable(m);
    assert ValuesFit(DefinitionOf(m).fields, ValuesOf(m));
  }

  lemma ValueSurvives(m: Message, i: nat)
    requires Encodable(m) && i < |ValuesOf(m)|
    ensures Number(FieldBytes(DefinitionOf(m).fields[i], ValuesOf(m)[i])) == ValuesOf(m)[i]
  {
    ValueInRange(m, i);
    FieldBytesRead(DefinitionOf(m).fields[i], ValuesOf(m)[i]);
  }

  lemma FieldInFrame(frame: Bytes, fields: seq<Field>, data: Data, i: nat)
    requires |frame| == 13 + DataSize(fields) && frame[12..12 + DataSize(fields)] == DataBytes(fields, data)
    requires i < |fields|
    ensures var place := DataSize(fields[..i]);
      && 12 + place + fields[i].size <= |frame|
      && frame[12 + place..12 + place + fields[i].size] == FieldBytes(fields[i], Lookup(data, fields[i].name))
  {
    PieceOfData(fields, data, i);
    PieceInFrame(frame, DataBytes(fields, data), DataSize(fields[..i]),
                 FieldBytes(fields[i], Lookup(data, fields[i].name)));
  }

  lemma HeldAt(b: Bytes, m: Message, i: nat, place: nat, size: nat)
    requires i < |ValuesOf(m)| && place == PlaceIn(m, i) && size == SizeIn(m, i)
    requires 12 + place + size <= |b| && Number(b[12 + place..12 + place + size]) == ValuesOf(m)[i]
    ensures Holds(b, m, i)
  {
    NumberAt(b, 12 + place);
  }

  /** What is known of the i-th field in its frame: its value, place and size. */
  ghost predicate Framed(b: Bytes, fields: seq<Field>, data: Data, i: nat, v: int, place: nat, size: nat)
    requires i < |fields|
  {
    && |b| == 13 + DataSize(fields) && b[12..12 + DataSize(fields)] == DataBytes(fields, data)
    && Lookup(data, fields[i].name) == v && Number(FieldBytes(fields[i], v)) == v
    && DataSize(fields[..i]) == place && fields[i].size == size
  }

  lemma FramedIsRead(b: Bytes, fields: seq<Field>, data: Data, i: nat, v: int, place: nat, size: nat)
    requires i < |fields| && Framed(b, fields, data, i, v, place, size)
    ensures 12 + place + size <= |b| && Number(b[12 + place..12 + place + size]) == v
  {
    FieldInFrame(b, fields, data, i);
  }

  lemma FramedIsHeld(b: Bytes, m: Message, fields: seq<Field>, data: Data, i: nat, place: nat, size: nat)
    requires i < |ValuesOf(m)| && i < |fields| && place == PlaceIn(m, i) && size == SizeIn(m, i)
    requires Framed(b, fields, data, i, ValuesOf(m)[i], place, size)
    ensures Holds(b, m, i)
  {
    FramedIsRead(b, fields, data, i, ValuesOf(m)[i], place, size);
    HeldAt(b, m, i, place, size);
  }

  lemma FieldIsFramed(m: Message, i: nat)
    requires Encodable(m) && i < |ValuesOf(m)| && Encode(m).Some?
    ensures Framed(Encode(m).value, DefinitionOf(m).fields, DataOf(m), i, ValuesOf(m)[i], PlaceIn(m, i), SizeIn(m, i))
  {
    DataOfFrame(m);
    LookupOf(m, i);
    ValueSurvives(m, i);
    SizesAndPlace(m, i);
  }

  lemma FieldOnTheWire(m: Message, i: nat)
    requires Encodable(m) && i < |ValuesOf(m)| && Encode(m).Some?
    ensures Holds(Encode(m).value, m, i)
  {
    FieldIsFramed(m, i);
    FramedIsHeld(Encode(m).value, m, DefinitionOf(m).fields, DataOf(m), i, PlaceIn(m, i), SizeIn(m, i));
  }

  lemma SizesAndPlace(m: Message, i: nat)
    requires i < |ValuesOf(m)|
    ensures var f := DefinitionOf(m).fields;
      && DataSize(f[..i]) == PlaceIn(m, i) && f[i].size == SizeIn(m, i)
  {
    PlaceOf(m, i);
    SizesAreKnown(m);
  }

  // ---- the telegrams of the simulator ----

  /** The numbers of a message and where they stand. */
  predicate Carries(b: Bytes, m: Message) {
    match m
    case SorterStatusReport(status) => |b| == 15 && At(b, 8) == 10 && At(b, 12) == status
    case InductionStatusReport(count, no, status) =>
      |b| == 19 && At(b, 8) == 11 && At(b, 12) == count && At(b, 14) == no && At(b, 16) == status
    case InductionModeReport(count, no, mode) =>
      |b| == 19 && At(b, 8) == 12 && At(b, 12) == count && At(b, 14) == no && At(b, 16) == mode
    case ItemInducted(cell, no, mode, pid, destination) =>
      && |b| == 41 && At(b, 8) == 20
      && At(b, 12) == cell && At(b, 14) == no && At(b, 16) == mode && WideAt(b, 18) == pid
      && At(b, 22) == 0 && At(b, 24) == destination && At(b, 26) == 0 && At(b, 28) == 0 && At(b, 30) == 0
      && At(b, 32) == 0 && At(b, 34) == 0 && At(b, 36) == 0 && At(b, 38) == 0
    case ItemDischarged(cell, no, mode, chute, recirculation) =>
      && |b| == 23 && At(b, 8) == 21 && At(b, 12) == cell && At(b, 14) == no && At(b, 16) == mode
      && At(b, 18) == chute && At(b, 20) == recirculation
    case ItemConfirmed(cell, mode, chute, recirculation, status) =>
      && |b| == 23 && At(b, 8) == 22 && At(b, 12) == cell && At(b, 14) == mode && At(b, 16) == chute
      && At(b, 18) == recirculation && At(b, 20) == status
    case SorterAck(request, reason) =>
      |b| == 17 && At(b, 8) == 101 && At(b, 12) == request && At(b, 14) == reason
    case InductionAck(no, status, reason) =>
      |b| == 19 && At(b, 8) == 111 && At(b, 12) == no && At(b, 14) == status && At(b, 16) == reason
    case ModeAck(no, request) => |b| == 17 && At(b, 8) == 121 && At(b, 12) == no && At(b, 14) == request
    case OverflowAck(c1, c2, most, reason) =>
      && |b| == 21 && At(b, 8) == 131 && At(b, 12) == c1 && At(b, 14) == c2 && At(b, 16) == most
      && At(b, 18) == reason
    case ResetAck(n) => |b| == 15 && At(b, 8) == 141 && At(b, 12) == n
  }

  /** STX, data type D, module id PSM00 and a NUL, the length of the data area, ETX. */
  predicate Enclosed(b: Bytes) {
    && |b| >= 13
    && b[0] == 2 && b[1] == 68
    && b[2] == 80 && b[3] == 83 && b[4] == 77 && b[5] == 48 && b[6] == 48 && b[7] == 0
    && At(b, 10) == |b| - 13 && b[|b| - 1] == 3
  }

  lemma FrameIsEnclosed(m: Message)
    requires Encodable(m)
    ensures Encode(m).Some? && Enclosed(Encode(m).value) && At(Encode(m).value, 8) == DefinitionOf(m).telegramNo
  {
    EncodableIsBuildable(m);
    var frame, d := Encode(m).value, DefinitionOf(m);
    HeaderOfFrame("D", "PSM00", d, DataOf(m), []);
    assert frame + [] == frame;
    EnclosedBy(frame, d.telegramNo, DataSize(d.fields));
  }

  lemma EnclosedBy(b: Bytes, no: int, n: nat)
    requires |b| == 13 + n && b[0] == STX && b[1] == DataTypeCode("D") && b[2..8] == ModuleIdBytes("PSM00")
    requires TelegramNo(b) == no && DataLength(b) == n && b[12 + n] == ETX
    ensures Enclosed(b) && At(b, 8) == no
  {
    NumberAt(b, 8);
    NumberAt(b, 10);
    assert forall i :: 0 <= i < 6 ==> b[2 + i] == b[2..8][i];
  }

  lemma SizeOfFrame(m: Message)
    requires Encodable(m)
    ensures Encode(m).Some?
    ensures |Encode(m).value| == 13 + 2 * |ValuesOf(m)| + (if m.ItemInducted? then 2 else 0)
  {
    DataOfFrame(m);
    SizeOfArea(m);
  }

  lemma SizeOfArea(m: Message)
    ensures DataSize(DefinitionOf(m).fields) == 2 * |ValuesOf(m)| + (if m.ItemInducted? then 2 else 0)
  {
    PlaceOf(m, |DefinitionOf(m).fields|);
    Whole(DefinitionOf(m).fields);
  }

  lemma Whole(fields: seq<Field>)
    ensures fields[..|fields|] == fields
  {
  }

  /** Every telegram the simulator sends, byte by byte. */
  lemma OnTheWire(m: Message)
    requires Encodable(m)
    ensures Encode(m).Some? && Enclosed(Encode(m).value) && Carries(Encode(m).value, m)
  {
    FrameIsEnclosed(m);
    SizeOfFrame(m);
    forall i | 0 <= i < |ValuesOf(m)| ensures Holds(Encode(m).value, m, i) {
      FieldOnTheWire(m, i);
    }
    HeldIsCarried(m, Encode(m).value);
  }

  lemma HeldIsCarried(m: Message, b: Bytes)
    requires |b| == 13 + 2 * |ValuesOf(m)| + (if m.ItemInducted? then 2 else 0)
    requires At(b, 8) == DefinitionOf(m).telegramNo
    requires forall i :: 0 <= i < |ValuesOf(m)| ==> Holds(b, m, i)
    ensures Carries(b, m)
  {
    assert Holds(b, m, 0);
    assert |ValuesOf(m)| > 1 ==> Holds(b, m, 1);
    assert |ValuesOf(m)| > 2 ==> Holds(b, m, 2);
    assert |ValuesOf(m)| > 3 ==> Holds(b, m, 3);
    assert |ValuesOf(m)| > 4 ==> Holds(b, m, 4);
    if m.ItemInducted? {
      assert Holds(b, m, 5) && Holds(b, m, 6) && Holds(b, m, 7) && Holds(b, m, 8);
      assert Holds(b, m, 9) && Holds(b, m, 10) && Holds(b, m, 11) && Holds(b, m, 12);
    }
  }

  // ---- the commands it receives ----

  lemma ReadFirst(b: Bytes, pos: nat, fields: seq<Field>)
    requires fields != [] && Carried(fields[0]) && ReadFields(b, pos, fields).Some?
    requires fields[0].name !in CarriedNames(fields[1..])
    ensures pos + fields[0].size <= |b|
    ensures Lookup(ReadFields(b, pos, fields).value, fields[0].name) == Number(b[pos..pos + fields[0].size])
  {
    ReadFieldsKeys(b, pos + fields[0].size, fields[1..]);
  }

  lemma ReadLater(b: Bytes, pos: nat, fields: seq<Field>, name: string)
    requires fields != [] && ReadFields(b, pos, fields).Some? && name in CarriedNames(fields[1..])
    ensures pos + fields[0].size <= |b| && ReadFields(b, pos + fields[0].size, fields[1..]).Some?
    ensures Lookup(ReadFields(b, pos, fields).value, name)
         == Lookup(ReadFields(b, pos + fields[0].size, fields[1..]).value, name)
  {
    ReadFieldsKeys(b, pos + fields[0].size, fields[1..]);
  }

  lemma DistinctRest(fields: seq<Field>)
    requires fields != [] && DistinctNames(fields)
    ensures DistinctNames(fields[1..]) && fields[0].name !in CarriedNames(fields[1..])
  {
    var rest := fields[1..];
    assert forall j :: 0 <= j < |rest| ==> rest[j] == fields[j + 1];
  }

  /** What is read under a name that no other field has is what its bytes say. */
  lemma {:induction false} ReadAtPlace(b: Bytes, pos: nat, fields: seq<Field>, i: nat, place: nat, size: nat)
    requires i < |fields| && DistinctNames(fields) && Carried(fields[i]) && ReadFields(b, pos, fields).Some?
    requires place == pos + DataSize(fields[..i]) && size == fields[i].size
    ensures place + size <= |b|
    ensures Lookup(ReadFields(b, pos, fields).value, fields[i].name) == Number(b[place..place + size])
    decreases i
  {
    DistinctRest(fields);
    if i == 0 {
      ReadFirst(b, pos, fields);
    } else {
      var rest := fields[1..];
      assert rest[i - 1] == fields[i] && rest[i - 1] in rest;
      ReadLater(b, pos, fields, fields[i].name);
      assert fields[..i][1..] == rest[..i - 1];
      ReadAtPlace(b, pos + fields[0].size, rest, i - 1, place, size);
    }
  }

  lemma {:induction false} TwoEach(fields: seq<Field>, i: nat)
    requires i <= |fields| && forall j :: 0 <= j < |fields| ==> fields[j].size == 2
    ensures DataSize(fields[..i]) == 2 * i
  {
    if i > 0 {
      TwoEach(fields[1..], i - 1);
      assert fields[..i][1..] == fields[1..][..i - 1];
    }
  }

  lemma PlainField(b: Bytes, fields: seq<Field>, i: nat)
    requires |b| >= 12 && i < |fields| && DistinctNames(fields) && ReadFields(b, 12, fields).Some?
    requires forall j :: 0 <= j < |fields| ==> fields[j].size == 2
    ensures 14 + 2 * i <= |b| && Lookup(ReadFields(b, 12, fields).value, fields[i].name) == At(b, 12 + 2 * i)
  {
    TwoEach(fields, i);
    ReadAtPlace(b, 12, fields, i, 12 + 2 * i, 2);
    NumberAt(b, 12 + 2 * i);
  }

  lemma CommandFields(d: Definition)
    requires d == TELEGRAM_100 || d == TELEGRAM_110 || d == TELEGRAM_120 || d == TELEGRAM_130 || d == TELEGRAM_140
    ensures DistinctNames(d.fields) && forall j :: 0 <= j < |d.fields| ==> d.fields[j].size == 2
  {
    var f := d.fields;
    assert forall i, j :: 0 <= i < j < |f| ==> Unlike(f[i].name, f[j].name);
  }

  /** What a command asks, by the bytes of its frame. */
  predicate Asks(b: Bytes, data: Data) {
    |b| >= 10 &&
    match At(b, 8)
    case 100 => |b| >= 14 && Lookup(data, REQUEST) == At(b, 12)
    case 110 => |b| >= 16 && Lookup(data, INDUCTION_NO) == At(b, 12) && Lookup(data, REQUEST) == At(b, 14)
    case 120 => |b| >= 16 && Lookup(data, INDUCTION_NO) == At(b, 12) && Lookup(data, REQUEST) == At(b, 14)
    case 130 =>
      && |b| >= 18 && Lookup(data, OVERFLOW_CHUTE_1) == At(b, 12) && Lookup(data, OVERFLOW_CHUTE_2) == At(b, 14)
      && Lookup(data, MAX_RECIRCULATION) == At(b, 16)
    case 140 => |b| >= 14 && Lookup(data, RESET_MODULE) == At(b, 12)
    case _ => true
  }

  lemma OneFieldAsks(b: Bytes, d: Definition, data: Data)
    requires |b| >= 12 && At(b, 8) == d.telegramNo && ReadFields(b, 12, d.fields) == Some(data)
    requires d == TELEGRAM_100 || d == TELEGRAM_140
    ensures Asks(b, data)
  {
    CommandFields(d);
    PlainField(b, d.fields, 0);
  }

  lemma TwoFieldsAsk(b: Bytes, d: Definition, data: Data)
    requires |b| >= 12 && At(b, 8) == d.telegramNo && ReadFields(b, 12, d.fields) == Some(data)
    requires d == TELEGRAM_110 || d == TELEGRAM_120
    ensures Asks(b, data)
  {
    CommandFields(d);
    PlainField(b, d.fields, 0);
    PlainField(b, d.fields, 1);
  }

  lemma ThreeFieldsAsk(b: Bytes, d: Definition, data: Data)
    requires |b| >= 12 && At(b, 8) == d.telegramNo && ReadFields(b, 12, d.fields) == Some(data)
    requires d == TELEGRAM_130
    ensures Asks(b, data)
  {
    CommandFields(d);
    PlainField(b, d.fields, 0);
    PlainField(b, d.fields, 1);
    PlainField(b, d.fields, 2);
  }

  /** Every command received is understood as its bytes say. */
  lemma CommandsOnTheWire(b: Bytes)
    requires AutoParse(b, Catalog()).Some?
    ensures |b| >= 13 && b[0] == 2 && AutoParse(b, Catalog()).value.header.telegramNo == At(b, 8)
    ensures Asks(b, AutoParse(b, Catalog()).value.data)
  {
    AutoParseReports(b, Catalog());
    NumberAt(b, 8);
    var no := At(b, 8);
    if IsCommand(no) {
      CommandIs(no);
      var d, data := Catalog()[no], AutoParse(b, Catalog()).value.data;
      if no == 130 {
        ThreeFieldsAsk(b, d, data);
      } else if no == 110 || no == 120 {
        TwoFieldsAsk(b, d, data);
      } else {
        OneFieldAsks(b, d, data);
      }
    }
  }

  lemma CommandIs(no: int)
    requires IsCommand(no)
    ensures no in Catalog()
    ensures var d := Catalog()[no];
      && d.telegramNo == no
      && (d == TELEGRAM_100 || d == TELEGRAM_110 || d == TELEGRAM_120 || d == TELEGRAM_130 || d == TELEGRAM_140)
  {
    assert SMC_TO_PLC[2] == TELEGRAM_100 && SMC_TO_PLC[4] == TELEGRAM_110 && SMC_TO_PLC[6] == TELEGRAM_120;
    assert SMC_TO_PLC[8] == TELEGRAM_130 && SMC_TO_PLC[10] == TELEGRAM_140;
    CatalogHolds(if no == 100 then TELEGRAM_100 else if no == 110 then TELEGRAM_110 else if no == 120 then TELEGRAM_120
                 else if no == 130 then TELEGRAM_130 else TELEGRAM_140);
  }
}
