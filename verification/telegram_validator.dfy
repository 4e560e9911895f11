/** TelegramValidator: the full check that lists what is wrong, and the quick one. */
module TelegramValidator {
  import opened Prelude
  import opened Telegrams
  import opened TelegramParser
  import opened TelegramCatalog

  datatype Problem =
    | TooShort
    | InvalidStx
    | UnknownNumber
    | LengthMismatch
    | BufferTooSmall
    | InvalidEtx
    | FieldBeyondData(name: string)

  predicate QuickValidate(buffer: Bytes) {
    && |buffer| >= MIN_TELEGRAM_SIZE
    && buffer[0] == STX
    && HEADER_SIZE + DataLength(buffer) < |buffer|
    && buffer[HEADER_SIZE + DataLength(buffer)] == ETX
  }

  /** The definition a buffer is checked against: the caller's, else the registered one. */
  function Expected(buffer: Bytes, given: Option<Definition>, registry: Registry): (d: Option<Definition>)
    requires |buffer| >= HEADER_SIZE
    ensures given.Some? ==> d == given
    ensures given == None ==> (d.Some? <==> TelegramNo(buffer) in registry)
    ensures given == None && d.Some? ==> d.value == registry[TelegramNo(buffer)]
  {
    if given.Some? then given
    else if TelegramNo(buffer) in registry then Some(registry[TelegramNo(buffer)])
    else None
  }

  /** The order in which problems are looked for. */
  function Rank(p: Problem): nat {
    match p
    case TooShort => 0
    case InvalidStx => 1
    case UnknownNumber => 2
    case LengthMismatch => 3
    case BufferTooSmall => 4
    case InvalidEtx => 5
    case FieldBeyondData(_) => 6
  }

  /** A field that begins within n bytes and ends beyond them, and its name. */
  ghost predicate Crosses(fields: seq<Field>, i: nat, n: nat, name: string) {
    && i < |fields| && fields[i].name == name
    && DataSize(fields[..i]) <= n < DataSize(fields[..i]) + fields[i].size
  }

  /** Problems in order, all of a lower rank. */
  ghost predicate RankedBelow(errors: seq<Problem>, rank: nat) {
    && (forall i :: 0 <= i < |errors| ==> Rank(errors[i]) < rank)
    && (forall i, j :: 0 <= i < j < |errors| ==> Rank(errors[i]) < Rank(errors[j]))
  }

  /** The list with one more problem, if the buffer has it. */
  function With(errors: seq<Problem>, bad: bool, p: Problem): seq<Problem> {
    if bad then errors + [p] else errors
  }

  lemma OneMore(errors: seq<Problem>, bad: bool, p: Problem)
    requires RankedBelow(errors, Rank(p))
    ensures RankedBelow(With(errors, bad, p), Rank(p) + 1)
    ensures forall q :: q in With(errors, bad, p) <==> q in errors || (bad && q == p)
  {
  }

  /** Every problem is reported exactly when the buffer has it, once and in order. A field
      beyond the data area, the one that crosses its end, is only ever reported together
      with a wrong length, so it never decides. */
  method Validate(buffer: Bytes, given: Option<Definition>, registry: Registry) returns (errors: seq<Problem>)
    ensures TooShort in errors <==> |buffer| < MIN_TELEGRAM_SIZE
    ensures |buffer| < MIN_TELEGRAM_SIZE ==> errors == [TooShort]
    ensures |buffer| >= MIN_TELEGRAM_SIZE ==>
      var def, end := Expected(buffer, given, registry), HEADER_SIZE + DataLength(buffer);
      && (InvalidStx in errors <==> buffer[0] != STX)
      && (UnknownNumber in errors <==> def == None)
      && (LengthMismatch in errors <==> def.Some? && DataLength(buffer) != DataSize(def.value.fields))
      && (BufferTooSmall in errors <==> |buffer| < end + 1)
      && (InvalidEtx in errors <==> end < |buffer| && buffer[end] != ETX)
      && ((exists name :: FieldBeyondData(name) in errors)
          <==> def.Some? && end < |buffer| && DataLength(buffer) < DataSize(def.value.fields))
    ensures forall i, j :: 0 <= i < j < |errors| ==> Rank(errors[i]) < Rank(errors[j])
    ensures forall name :: FieldBeyondData(name) in errors ==>
      && |buffer| >= MIN_TELEGRAM_SIZE && Expected(buffer, given, registry).Some?
      && exists i :: Crosses(Expected(buffer, given, registry).value.fields, i, DataLength(buffer), name)
    ensures errors == [] <==>
      && QuickValidate(buffer)
      && var def := Expected(buffer, given, registry);
      && def.Some?
      && DataLength(buffer) == DataSize(def.value.fields)
    ensures given == None ==> (errors == [] <==> Accepted(buffer, registry))
  {
    if |buffer| < MIN_TELEGRAM_SIZE {
      return [TooShort];
    }
    var def := Expected(buffer, given, registry);
    errors := CheckHeader(buffer, def);
    errors := CheckArea(buffer, def, errors);
    assert errors != [] ==> errors[0] in errors;
  }

  /** Start byte, number and length. */
  method CheckHeader(buffer: Bytes, def: Option<Definition>) returns (errors: seq<Problem>)
    requires |buffer| >= MIN_TELEGRAM_SIZE
    ensures RankedBelow(errors, 4)
    ensures forall p :: p in errors <==>
      || (p == InvalidStx && buffer[0] != STX)
      || (p == UnknownNumber && def == None)
      || (p == LengthMismatch && def.Some? && DataLength(buffer) != DataSize(def.value.fields))
  {
    errors := [];
    OneMore(errors, buffer[0] != STX, InvalidStx);
    if buffer[0] != STX {
      errors := errors + [InvalidStx];
    }
    OneMore(errors, def == None, UnknownNumber);
    if def == None {
      errors := errors + [UnknownNumber];
    }
    var wrong := def.Some? && DataLength(buffer) != DataSize(def.value.fields);
    OneMore(errors, wrong, LengthMismatch);
    if wrong {
      errors := errors + [LengthMismatch];
    }
  }

  /** The size of the buffer, the end byte and the fields. */
  method CheckArea(buffer: Bytes, def: Option<Definition>, sofar: seq<Problem>) returns (errors: seq<Problem>)
    requires |buffer| >= MIN_TELEGRAM_SIZE && RankedBelow(sofar, 4)
    ensures RankedBelow(errors, 7)
    ensures var end := HEADER_SIZE + DataLength(buffer);
      && (forall p :: p in errors && !p.FieldBeyondData? <==>
            || p in sofar
            || (p == BufferTooSmall && |buffer| < end + 1)
            || (p == InvalidEtx && end < |buffer| && buffer[end] != ETX))
      && ((exists name :: FieldBeyondData(name) in errors)
          <==> def.Some? && end < |buffer| && DataLength(buffer) < DataSize(def.value.fields))
      && forall name :: FieldBeyondData(name) in errors ==>
           def.Some? && exists i :: Crosses(def.value.fields, i, DataLength(buffer), name)
  {
    errors := sofar;
    var expectedTotalSize := HEADER_SIZE + DataLength(buffer) + 1;
    OneMore(errors, |buffer| < expectedTotalSize, BufferTooSmall);
    if |buffer| < expectedTotalSize {
      errors := errors + [BufferTooSmall];
    }
    var wrong := |buffer| >= expectedTotalSize && buffer[HEADER_SIZE + DataLength(buffer)] != ETX;
    OneMore(errors, wrong, InvalidEtx);
    if wrong {
      errors := errors + [InvalidEtx];
    }
    if def.Some? && |buffer| >= expectedTotalSize {
      var beyond := FirstBeyond(def.value.fields, DataLength(buffer));
      if beyond.Some? {
        OneMore(errors, true, FieldBeyondData(beyond.value));
        errors := errors + [FieldBeyondData(beyond.value)];
      }
    }
  }

  /** The boundary loop: the first field that does not fit the announced data area. */
  method FirstBeyond(fields: seq<Field>, dataLength: nat) returns (r: Option<string>)
    ensures r.Some? <==> dataLength < DataSize(fields)
    ensures r.Some? ==> exists i :: Crosses(fields, i, dataLength, r.value)
  {
    var offset: nat := HEADER_SIZE;
    assert fields[0..] == fields;
    for i := 0 to |fields|
      invariant offset - HEADER_SIZE + DataSize(fields[i..]) == DataSize(fields)
      invariant offset <= HEADER_SIZE + dataLength
    {
      assert fields[i..][1..] == fields[i + 1..];
      DataSizeOfPrefix(fields, i);
      if offset + fields[i].size > HEADER_SIZE + dataLength {
        assert Crosses(fields, i, dataLength, fields[i].name);
        return Some(fields[i].name);
      }
      offset := offset + fields[i].size;
    }
    return None;
  }

  /** What `Validate` accepts, as its contract states it. */
  predicate Accepted(buffer: Bytes, registry: Registry) {
    && QuickValidate(buffer)
    && TelegramNo(buffer) in registry
    && DataLength(buffer) == DataSize(registry[TelegramNo(buffer)].fields)
  }

  /** The full check is automatic parsing plus the right length; so it implies that
      parsing succeeds, and a parse may succeed without it. */
  lemma AcceptedIsParsedWithRightLength(buffer: Bytes, registry: Registry)
    requires KeyedByNumber(registry)
    ensures Accepted(buffer, registry) <==>
      && AutoParse(buffer, registry).Some?
      && DataLength(buffer) == DataSize(registry[TelegramNo(buffer)].fields)
  {
    AutoParseSucceeds(buffer, registry);
  }

  /** A heartbeat whose header announces five data bytes instead of four. */
  lemma ParsedButNotAccepted() returns (buffer: Bytes)
    ensures AutoParse(buffer, Catalog()).Some? && QuickValidate(buffer) && !Accepted(buffer, Catalog())
  {
    buffer := [STX, 68, 80, 83, 77, 48, 48, 0, 0, 1, 0, 5, 0, 0, 0, 0, 0, ETX];
    CatalogHolds(TELEGRAM_1);
    assert buffer[8..10] == [0, 1] && buffer[10..12] == [0, 5];
    PairNumber(0, 1);
    PairNumber(0, 5);
    AutoParseSucceeds(buffer, Catalog());
    assert DataSize(TELEGRAM_1.fields) == 4;
  }

  lemma PairNumber(high: Byte, low: Byte)
    ensures Number([high, low]) == high * 256 + low
  {
    assert [high, low][..1] == [high];
  }

  /** Whatever the builder makes for a registered definition passes the full check. */
  lemma BuiltIsAccepted(dataType: string, moduleId: string, definition: Definition, data: Data, registry: Registry)
    requires Buildable(dataType, definition, data)
    requires definition.telegramNo in registry && registry[definition.telegramNo] == definition
    ensures Accepted(Frame(dataType, moduleId, definition, data).value, registry)
  {
    HeaderOfFrame(dataType, moduleId, definition, data, []);
    var frame := Frame(dataType, moduleId, definition, data).value;
    assert frame + [] == frame;
  }
}
