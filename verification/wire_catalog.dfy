/** The telegram definitions by number, name and size, and from which bytes of a received
    telegram its values are read. */
module WireCatalog {
  import opened Prelude
  import opened Telegrams
  import opened TelegramParser
  import opened TelegramCatalog
  import opened Messages
  import opened Wire

  /** Name and size of the data area of every telegram. */
  function Known(no: int): Option<(string, nat)> {
    match no
    case 1 => Some(("HeartBeat", 4))
    case 10 => Some(("SorterStatus", 2))
    case 11 => Some(("InductionStatus", 6))
    case 12 => Some(("InductionMode", 6))
    case 20 => Some(("ItemInducted", 28))
    case 21 => Some(("ItemDischarged", 10))
    case 22 => Some(("ItemSortedConfirm", 10))
    case 30 => Some(("DestinationRequest", 22))
    case 40 => Some(("CodeRequest", 2))
    case 41 => Some(("CodeResult", 20))
    case 100 => Some(("SetControlSorter", 2))
    case 101 => Some(("SetControlSorterAck", 4))
    case 110 => Some(("SetControlInduction", 4))
    case 111 => Some(("SetControlInductionAck", 6))
    case 120 => Some(("SetInductionMode", 4))
    case 121 => Some(("SetInductionModeAck", 4))
    case 130 => Some(("SetOverflowConfiguration", 8))
    case 131 => Some(("SetOverflowConfigurationAck", 8))
    case 140 => Some(("SetResetRequest", 2))
    case 141 => Some(("SetResetRequestAck", 2))
    case _ => None
  }

  /** Where a field begins when all have two bytes, but for one of four. */
  lemma {:induction false} Places(fields: seq<Field>, wide: nat, i: nat)
    requires i <= |fields| && forall j :: 0 <= j < |fields| ==> fields[j].size == if j == wide then 4 else 2
    ensures DataSize(fields[..i]) == 2 * i + (if i > wide then 2 else 0)
    decreases i
  {
    if i > 0 {
      Places(fields, wide, i - 1);
      DataSizeOfPrefix(fields[..i], i - 1);
      assert fields[..i][..i - 1] == fields[..i - 1] && fields[..i][i - 1..] == [fields[i - 1]];
    }
  }

  /** Only the PIDs of telegrams 20 and 30 have four bytes. */
  function WideIn(d: Definition): nat {
    if d == TELEGRAM_20 then 3 else if d == TELEGRAM_30 then 1 else |d.fields|
  }

  lemma SizesOf(d: Definition)
    requires d in PLC_TO_SMC || d in SMC_TO_PLC
    ensures forall j :: 0 <= j < |d.fields| ==> d.fields[j].size == if j == WideIn(d) then 4 else 2
  {
  }

  lemma AreaOf(d: Definition)
    requires d in PLC_TO_SMC || d in SMC_TO_PLC
    ensures DataSize(d.fields) == 2 * |d.fields| + (if |d.fields| > WideIn(d) then 2 else 0)
  {
    SizesOf(d);
    WholeArea(d.fields, WideIn(d));
  }

  lemma WholeArea(fields: seq<Field>, wide: nat)
    requires forall j :: 0 <= j < |fields| ==> fields[j].size == if j == wide then 4 else 2
    ensures DataSize(fields) == 2 * |fields| + (if |fields| > wide then 2 else 0)
  {
    Places(fields, wide, |fields|);
    Whole(fields);
  }

  lemma KnownBySize(d: Definition, size: nat)
    requires d in PLC_TO_SMC || d in SMC_TO_PLC
    requires size == 2 * |d.fields| + (if |d.fields| > WideIn(d) then 2 else 0)
    ensures Known(d.telegramNo) == Some((d.name, size))
  {
    if d in PLC_TO_SMC {
      var i :| 0 <= i < |PLC_TO_SMC| && PLC_TO_SMC[i] == d;
      ReportIsKnown(d, size, i);
    } else {
      var i :| 0 <= i < |SMC_TO_PLC| && SMC_TO_PLC[i] == d;
      if i < 6 {
        RequestIsKnown(d, size, i);
      } else {
        SettingIsKnown(d, size, i);
      }
    }
  }

  lemma ReportIsKnown(d: Definition, size: nat, i: nat)
    requires i < |PLC_TO_SMC| && d == PLC_TO_SMC[i]
    requires size == 2 * |d.fields| + (if |d.fields| > WideIn(d) then 2 else 0)
    ensures Known(d.telegramNo) == Some((d.name, size))
  {
  }

  lemma RequestIsKnown(d: Definition, size: nat, i: nat)
    requires i < 6 && d == SMC_TO_PLC[i]
    requires size == 2 * |d.fields| + (if |d.fields| > WideIn(d) then 2 else 0)
    ensures Known(d.telegramNo) == Some((d.name, size))
  {
  }

  lemma SettingIsKnown(d: Definition, size: nat, i: nat)
    requires 6 <= i < |SMC_TO_PLC| && d == SMC_TO_PLC[i]
    requires size == 2 * |d.fields| + (if |d.fields| > WideIn(d) then 2 else 0)
    ensures Known(d.telegramNo) == Some((d.name, size))
  {
  }

  lemma IsKnown(d: Definition)
    requires d in PLC_TO_SMC || d in SMC_TO_PLC
    ensures Known(d.telegramNo) == Some((d.name, DataSize(d.fields)))
  {
    AreaOf(d);
    KnownBySize(d, DataSize(d.fields));
  }

  /** The definition of a known number. */
  function DefinitionFor(no: int): Definition
    requires Known(no).Some?
  {
    match no
    case 1 => TELEGRAM_1 case 10 => TELEGRAM_10 case 11 => TELEGRAM_11 case 12 => TELEGRAM_12
    case 20 => TELEGRAM_20 case 21 => TELEGRAM_21 case 22 => TELEGRAM_22 case 30 => TELEGRAM_30
    case 40 => TELEGRAM_40 case 41 => TELEGRAM_41 case 100 => TELEGRAM_100 case 101 => TELEGRAM_101
    case 110 => TELEGRAM_110 case 111 => TELEGRAM_111 case 120 => TELEGRAM_120 case 121 => TELEGRAM_121
    case 130 => TELEGRAM_130 case 131 => TELEGRAM_131 case 140 => TELEGRAM_140 case _ => TELEGRAM_141
  }

  lemma IsFiled(no: int)
    requires Known(no).Some?
    ensures DefinitionFor(no).telegramNo == no
    ensures DefinitionFor(no) in PLC_TO_SMC || DefinitionFor(no) in SMC_TO_PLC
  {
  }

  /** Exactly these twenty numbers are registered, with these names and sizes. */
  lemma CatalogIsKnown(no: int)
    ensures no in Catalog() <==> Known(no).Some?
    ensures no in Catalog() ==>
      Catalog()[no].telegramNo == no && (Catalog()[no].name, DataSize(Catalog()[no].fields)) == Known(no).value
  {
    if no in Catalog() {
      CatalogHoldsNothingElse(no);
      CatalogHolds(Catalog()[no]);
      IsKnown(Catalog()[no]);
    } else if Known(no).Some? {
      IsFiled(no);
      CatalogHolds(DefinitionFor(no));
    }
  }

  // ---- telegrams received that are no commands ----

  lemma ReadPlain(b: Bytes, fields: seq<Field>, wide: nat, i: nat)
    requires |b| >= 12 && i < |fields| && i != wide && DistinctNames(fields) && ReadFields(b, 12, fields).Some?
    requires forall j :: 0 <= j < |fields| ==> fields[j].size == if j == wide then 4 else 2
    ensures var place := 12 + 2 * i + (if i > wide then 2 else 0);
      place + 2 <= |b| && Lookup(ReadFields(b, 12, fields).value, fields[i].name) == At(b, place)
  {
    var place := 12 + 2 * i + (if i > wide then 2 else 0);
    Places(fields, wide, i);
    ReadAtPlace(b, 12, fields, i, place, 2);
    NumberAt(b, place);
  }

  lemma ReadWide(b: Bytes, fields: seq<Field>, wide: nat)
    requires |b| >= 12 && wide < |fields| && DistinctNames(fields) && ReadFields(b, 12, fields).Some?
    requires forall j :: 0 <= j < |fields| ==> fields[j].size == if j == wide then 4 else 2
    ensures 12 + 2 * wide + 4 <= |b|
    ensures Lookup(ReadFields(b, 12, fields).value, fields[wide].name) == WideAt(b, 12 + 2 * wide)
  {
    Places(fields, wide, wide);
    ReadAtPlace(b, 12, fields, wide, 12 + 2 * wide, 4);
    NumberAt(b, 12 + 2 * wide);
  }

  /** The destinations of telegrams 30 and 41, two bytes each from this place on. */
  predicate Destinations(b: Bytes, data: Data, place: nat) {
    && place + 16 <= |b|
    && Lookup(data, "destination1") == At(b, place) && Lookup(data, "destination2") == At(b, place + 2)
    && Lookup(data, "destination3") == At(b, place + 4) && Lookup(data, "destination4") == At(b, place + 6)
    && Lookup(data, "destination5") == At(b, place + 8) && Lookup(data, "destination6") == At(b, place + 10)
    && Lookup(data, "destination7") == At(b, place + 12) && Lookup(data, "destination8") == At(b, place + 14)
  }

  /** What a heartbeat, a request or a result says, by the bytes of its frame. */
  predicate Says(b: Bytes, data: Data) {
    |b| >= 10 &&
    match At(b, 8)
    case 1 => |b| >= 16 && Lookup(data, "acknowledgeStatus") == At(b, 12) && Lookup(data, "heartBeatNo") == At(b, 14)
    case 30 =>
      && |b| >= 34 && Lookup(data, "inductionNo") == At(b, 12) && Lookup(data, "pid") == WideAt(b, 14)
      && Destinations(b, data, 18)
    case 40 => |b| >= 14 && Lookup(data, "inductionNo") == At(b, 12)
    case 41 =>
      && |b| >= 32 && Lookup(data, "telegramNo") == At(b, 12) && Lookup(data, "cellIndexNo") == At(b, 14)
      && Destinations(b, data, 16)
    case _ => true
  }

  lemma FieldsDiffer(d: Definition)
    requires d == TELEGRAM_1 || d == TELEGRAM_30 || d == TELEGRAM_40 || d == TELEGRAM_41
    ensures DistinctNames(d.fields)
  {
    var f := d.fields;
    assert forall i, j :: 0 <= i < j < |f| ==> Unlike(f[i].name, f[j].name);
  }

  lemma ShortSays(b: Bytes, d: Definition, data: Data)
    requires |b| >= 12 && At(b, 8) == d.telegramNo && ReadFields(b, 12, d.fields) == Some(data)
    requires d == TELEGRAM_1 || d == TELEGRAM_40
    ensures Says(b, data)
  {
    FieldsDiffer(d);
    ReadPlain(b, d.fields, 2, 0);
    if d == TELEGRAM_1 {
      ReadPlain(b, d.fields, 2, 1);
    }
  }

  /** Two fields, and eight destinations in a row. */
  ghost predicate EndsInDestinations(fields: seq<Field>, wide: nat) {
    && |fields| == 10 && DistinctNames(fields)
    && (forall j :: 0 <= j < 10 ==> fields[j].size == if j == wide then 4 else 2)
    && fields[2].name == "destination1" && fields[3].name == "destination2" && fields[4].name == "destination3"
    && fields[5].name == "destination4" && fields[6].name == "destination5" && fields[7].name == "destination6"
    && fields[8].name == "destination7" && fields[9].name == "destination8"
  }

  lemma EightInARow(b: Bytes, fields: seq<Field>, data: Data, wide: nat)
    requires |b| >= 12 && (wide == 1 || wide == 10) && EndsInDestinations(fields, wide)
    requires ReadFields(b, 12, fields) == Some(data)
    ensures Destinations(b, data, if wide == 1 then 18 else 16)
  {
    ReadPlain(b, fields, wide, 2);
    ReadPlain(b, fields, wide, 3);
    ReadPlain(b, fields, wide, 4);
    ReadPlain(b, fields, wide, 5);
    ReadPlain(b, fields, wide, 6);
    ReadPlain(b, fields, wide, 7);
    ReadPlain(b, fields, wide, 8);
    ReadPlain(b, fields, wide, 9);
  }

  lemma RequestSays(b: Bytes, fields: seq<Field>, data: Data)
    requires |b| >= 12 && At(b, 8) == 30 && ReadFields(b, 12, fields) == Some(data)
    requires EndsInDestinations(fields, 1) && fields[0].name == "inductionNo" && fields[1].name == "pid"
    ensures Says(b, data)
  {
    ReadPlain(b, fields, 1, 0);
    ReadWide(b, fields, 1);
    EightInARow(b, fields, data, 1);
  }

  lemma ResultSays(b: Bytes, fields: seq<Field>, data: Data)
    requires |b| >= 12 && At(b, 8) == 41 && ReadFields(b, 12, fields) == Some(data)
    requires EndsInDestinations(fields, 10) && fields[0].name == "telegramNo" && fields[1].name == "cellIndexNo"
    ensures Says(b, data)
  {
    ReadPlain(b, fields, 10, 0);
    ReadPlain(b, fields, 10, 1);
    EightInARow(b, fields, data, 10);
  }

  lemma RequestFields()
    ensures EndsInDestinations(TELEGRAM_30.fields, 1)
    ensures TELEGRAM_30.fields[0].name == "inductionNo" && TELEGRAM_30.fields[1].name == "pid"
  {
    FieldsDiffer(TELEGRAM_30);
  }

  lemma ResultFields()
    ensures EndsInDestinations(TELEGRAM_41.fields, 10)
    ensures TELEGRAM_41.fields[0].name == "telegramNo" && TELEGRAM_41.fields[1].name == "cellIndexNo"
  {
    FieldsDiffer(TELEGRAM_41);
  }

  lemma ReadAs(b: Bytes, no: int)
    requires AutoParse(b, Catalog()).Some? && |b| >= 12 && At(b, 8) == no && Known(no).Some?
    ensures ReadFields(b, 12, DefinitionFor(no).fields) == Some(AutoParse(b, Catalog()).value.data)
  {
    AutoParseReports(b, Catalog());
    NumberAt(b, 8);
    IsFiled(no);
    CatalogHolds(DefinitionFor(no));
  }

  /** A heartbeat, a request or a result received is understood as its bytes say. */
  lemma OthersOnTheWire(b: Bytes)
    requires AutoParse(b, Catalog()).Some?
    ensures Says(b, AutoParse(b, Catalog()).value.data)
  {
    HeaderIsThere(b);
    var no, data := At(b, 8), AutoParse(b, Catalog()).value.data;
    if no == 30 {
      ReadAs(b, no);
      RequestFields();
      RequestSays(b, TELEGRAM_30.fields, data);
    } else if no == 41 {
      ReadAs(b, no);
      ResultFields();
      ResultSays(b, TELEGRAM_41.fields, data);
    } else if no == 1 || no == 40 {
      ReadAs(b, no);
      ShortSays(b, DefinitionFor(no), data);
    }
  }

  lemma HeaderIsThere(b: Bytes)
    requires AutoParse(b, Catalog()).Some?
    ensures |b| >= 12
  {
  }
}
