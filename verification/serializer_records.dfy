/** The two laws of whole records. */
module SerializerRecords {
  import opened Prelude
  import opened SerializerFields
  import opened SerializerLaws
  import opened BinarySerializer

  ghost predicate LengthsMatch(fields: seq<Field>) {
    forall i :: 0 <= i < |fields| ==> LengthMatches(fields[i])
  }

  lemma FirstAndRest(fields: seq<Field>)
    requires LengthsMatch(fields) && fields != []
    ensures LengthMatches(fields[0]) && LengthsMatch(fields[1..])
    ensures TotalSize(fields) == fields[0].length + TotalSize(fields[1..])
  {
  }

  /** The fields side by side. */
  ghost function Layout(fields: seq<Field>, data: Record, numberOfText: string -> int): (r: Option<Bytes>)
    requires LengthsMatch(fields)
    ensures r.Some? ==> |r.value| == TotalSize(fields)
  {
    if fields == [] then Some([])
    else
      match (Storing(fields[0], ValueOf(data, fields[0].name), numberOfText), Layout(fields[1..], data, numberOfText))
      case (Some(first), Some(rest)) => Some(first + rest)
      case _ => None
  }

  /** Every field read from its own bytes; the last field of a name wins. */
  ghost function Decoded(fields: seq<Field>, b: Bytes): Record
    requires LengthsMatch(fields) && |b| == TotalSize(fields)
  {
    if fields == [] then map[]
    else map[fields[0].name := Decoding(fields[0], b[..fields[0].length])] + Decoded(fields[1..], b[fields[0].length..])
  }

  lemma LayoutSplit(fields: seq<Field>, data: Record, numberOfText: string -> int)
    requires LengthsMatch(fields) && fields != [] && Layout(fields, data, numberOfText).Some?
    ensures var b, n := Layout(fields, data, numberOfText).value, fields[0].length;
      && Storing(fields[0], ValueOf(data, fields[0].name), numberOfText) == Some(b[..n])
      && Layout(fields[1..], data, numberOfText) == Some(b[n..])
  {
  }

  lemma StoredInPlace(done: Bytes, f: Field, v: Value, blank: nat, numberOfText: string -> int)
    requires LengthMatches(f) && f.length <= blank
    ensures match Storing(f, v, numberOfText)
      case None => Written(done + Zeros(blank), |done|, f, v, numberOfText) == None
      case Some(b) =>
        Written(done + Zeros(blank), |done|, f, v, numberOfText) == Some(done + b + Zeros(blank - f.length))
  {
    var encoded := Encoding(f, v, numberOfText);
    if encoded.Some? {
      var n := f.length - |encoded.value|;
      OverwriteBlank(done, encoded.value, blank);
      assert Zeros(blank - |encoded.value|) == Zeros(n) + Zeros(blank - f.length);
      Associative(done + encoded.value, Zeros(n), Zeros(blank - f.length));
      Associative(done, encoded.value, Zeros(n));
    }
  }

  /** Writing in place, field after field, yields the fields side by side. */
  lemma {:induction false} SerializedIsLayout(done: Bytes, fields: seq<Field>, data: Record,
                                              numberOfText: string -> int)
    requires LengthsMatch(fields)
    ensures var r := SerializedFrom(done + Zeros(TotalSize(fields)), |done|, fields, data, numberOfText);
      match Layout(fields, data, numberOfText)
      case None => r == None
      case Some(b) => r == Some(done + b)
    decreases |fields|
  {
    if fields == [] {
      assert done + Zeros(0) == done && done + [] == done;
    } else {
      var f, rest := fields[0], fields[1..];
      var v := ValueOf(data, f.name);
      StoredInPlace(done, f, v, TotalSize(fields), numberOfText);
      var stored := Storing(f, v, numberOfText);
      if stored.Some? {
        SerializedIsLayout(done + stored.value, rest, data, numberOfText);
        if Layout(rest, data, numberOfText).Some? {
          Associative(done, stored.value, Layout(rest, data, numberOfText).value);
        }
      }
    }
  }

  lemma ReadInPlace(buffer: Bytes, offset: nat, f: Field)
    requires LengthMatches(f) && offset + f.length <= |buffer|
    ensures ReadValue(buffer, offset, f) == Some(Decoding(f, buffer[offset..][..f.length]))
  {
    assert Slice(buffer, offset, offset + f.length) == buffer[offset..][..f.length];
  }

  /** Reading field after field reads every field from its own bytes. */
  lemma {:induction false} DeserializedIsDecoded(buffer: Bytes, offset: nat, fields: seq<Field>)
    requires LengthsMatch(fields) && offset + TotalSize(fields) == |buffer|
    ensures DeserializedFrom(buffer, offset, fields) == Some(Decoded(fields, buffer[offset..]))
    decreases |fields|
  {
    if fields == [] {
      NothingDecoded(buffer[offset..]);
    } else {
      FirstAndRest(fields);
      DeserializedIsDecoded(buffer, offset + fields[0].length, fields[1..]);
      FirstThenLater(buffer, offset, fields);
    }
  }

  lemma NothingDecoded(b: Bytes)
    requires b == []
    ensures Decoded([], b) == map[]
  {
  }

  lemma FirstThenLater(buffer: Bytes, offset: nat, fields: seq<Field>)
    requires LengthsMatch(fields) && offset + TotalSize(fields) == |buffer| && fields != []
    requires var n := fields[0].length;
      DeserializedFrom(buffer, offset + n, fields[1..]) == Some(Decoded(fields[1..], buffer[offset + n..]))
    ensures DeserializedFrom(buffer, offset, fields) == Some(Decoded(fields, buffer[offset..]))
  {
    ReadInPlace(buffer, offset, fields[0]);
    assert buffer[offset + fields[0].length..] == buffer[offset..][fields[0].length..];
  }

  // ---- the laws of one field, as its record sees them ----

  lemma StoringIsStored(f: Field, v: Value, numberOfText: string -> int)
    requires LengthMatches(f)
    ensures Storing(f, v, numberOfText) == Stored(f, v, numberOfText)
  {
    EncodingIsEncode(f, v, numberOfText);
  }

  lemma FieldComesBack(f: Field, v: Value, numberOfText: string -> int)
    requires LengthMatches(f) && Representable(v)
    ensures Storing(f, v, numberOfText).Some? && Decoding(f, Storing(f, v, numberOfText).value) == v <==> Fits(f, v)
  {
    var stored := Stored(f, v, numberOfText);
    StoringIsStored(f, v, numberOfText);
    FieldRoundTrip(f, v, numberOfText);
    if stored.Some? {
      DecodingIsDecode(f, stored.value);
    }
  }

  lemma FieldIsRestored(f: Field, b: Bytes, numberOfText: string -> int)
    requires LengthMatches(f) && |b| == f.length && Representable(Decoding(f, b))
    ensures Storing(f, Decoding(f, b), numberOfText) == Some(b) <==> Canonical(f, b)
  {
    DecodingIsDecode(f, b);
    StoringIsStored(f, Decode(f, b), numberOfText);
    FieldReverse(f, b, numberOfText);
  }

  // ---- deserialize(serialize(data)) ----

  ghost predicate AllFit(fields: seq<Field>, data: Record) {
    forall i :: 0 <= i < |fields| ==> Fits(fields[i], ValueOf(data, fields[i].name))
  }

  ghost predicate AllRepresentable(fields: seq<Field>, data: Record) {
    forall i :: 0 <= i < |fields| ==> Representable(ValueOf(data, fields[i].name))
  }

  /** No field of positive length has a later namesake. */
  ghost predicate Unshadowed(fields: seq<Field>) {
    forall i, j :: 0 <= i < j < |fields| ==> !Shadowed(fields, i, j)
  }

  ghost predicate Shadowed(fields: seq<Field>, i: nat, j: nat) {
    i < j < |fields| && fields[i].length > 0 && fields[i].name == fields[j].name
  }

  ghost predicate DistinctNames(fields: seq<Field>) {
    forall i, j :: 0 <= i < j < |fields| ==> fields[i].name != fields[j].name
  }

  ghost predicate AgreesOn(fields: seq<Field>, record: Record, data: Record) {
    forall i :: 0 <= i < |fields| ==>
      fields[i].name in record && record[fields[i].name] == ValueOf(data, fields[i].name)
  }

  ghost predicate OnlyNamed(fields: seq<Field>, record: Record) {
    forall name :: name in record ==> exists i :: 0 <= i < |fields| && fields[i].name == name
  }

  /** The record agrees with the data on every field, and has nothing else. */
  ghost predicate Agrees(fields: seq<Field>, record: Record, data: Record) {
    AgreesOn(fields, record, data) && OnlyNamed(fields, record)
  }

  lemma {:induction false} DecodedNames(fields: seq<Field>, b: Bytes)
    requires LengthsMatch(fields) && |b| == TotalSize(fields)
    ensures forall i :: 0 <= i < |fields| ==> fields[i].name in Decoded(fields, b)
    ensures OnlyNamed(fields, Decoded(fields, b))
  {
    if fields != [] {
      var rest := fields[1..];
      DecodedNames(rest, b[fields[0].length..]);
      var record := Decoded(fields, b);
      forall i | 0 <= i < |fields| ensures fields[i].name in record {
        assert i > 0 ==> fields[i] == rest[i - 1];
      }
      forall name | name in record ensures exists i :: 0 <= i < |fields| && fields[i].name == name {
        if name in Decoded(rest, b[fields[0].length..]) {
          var i :| 0 <= i < |rest| && rest[i].name == name;
          assert fields[i + 1].name == name;
        } else {
          assert fields[0].name == name;
        }
      }
    }
  }

  ghost predicate LastOfItsName(fields: seq<Field>, i: nat) {
    i < |fields| && forall j :: i < j < |fields| ==> fields[j].name != fields[i].name
  }

  /** The last field of every name fits. */
  ghost predicate LastFit(fields: seq<Field>, data: Record) {
    forall i: nat :: LastOfItsName(fields, i) ==> Fits(fields[i], ValueOf(data, fields[i].name))
  }

  /** A number in range; text, hex and packed decimals are always written. */
  predicate Writable(f: Field, v: Value, numberOfText: string -> int) {
    IsNumeric(f.kind) ==> Low(f.kind) <= NumberOf(v, numberOfText) < High(f.kind)
  }

  ghost predicate AllWritable(fields: seq<Field>, data: Record, numberOfText: string -> int) {
    forall i :: 0 <= i < |fields| ==> Writable(fields[i], ValueOf(data, fields[i].name), numberOfText)
  }

  lemma StoredExactly(f: Field, v: Value, numberOfText: string -> int)
    requires LengthMatches(f)
    ensures Storing(f, v, numberOfText).Some? <==> Writable(f, v, numberOfText)
  {
    EncodingIsEncode(f, v, numberOfText);
  }

  lemma AllWritableStep(fields: seq<Field>, data: Record, numberOfText: string -> int)
    requires fields != []
    ensures AllWritable(fields, data, numberOfText) <==>
      Writable(fields[0], ValueOf(data, fields[0].name), numberOfText) && AllWritable(fields[1..], data, numberOfText)
  {
    var rest := fields[1..];
    assert forall i :: 0 <= i < |rest| ==> rest[i] == fields[i + 1];
    assert forall i :: 0 < i < |fields| ==> fields[i] == rest[i - 1];
  }

  /** The fields can be laid out exactly when every one of them is written. */
  lemma {:induction false} LaidOutExactly(fields: seq<Field>, data: Record, numberOfText: string -> int)
    requires LengthsMatch(fields)
    ensures Layout(fields, data, numberOfText).Some? <==> AllWritable(fields, data, numberOfText)
  {
    if fields != [] {
      FirstAndRest(fields);
      StoredExactly(fields[0], ValueOf(data, fields[0].name), numberOfText);
      LaidOutExactly(fields[1..], data, numberOfText);
      AllWritableStep(fields, data, numberOfText);
    }
  }

  lemma LastOfRest(fields: seq<Field>, i: nat)
    requires fields != []
    ensures LastOfItsName(fields[1..], i) <==> LastOfItsName(fields, i + 1)
  {
    var rest := fields[1..];
    assert forall j :: 0 <= j < |rest| ==> rest[j] == fields[j + 1];
    if i < |rest| && LastOfItsName(rest, i) {
      forall j | i + 1 < j < |fields| ensures fields[j].name != fields[i + 1].name {
        assert fields[j] == rest[j - 1];
      }
    }
  }

  lemma LastFitStep(fields: seq<Field>, data: Record)
    requires fields != []
    ensures LastFit(fields, data) <==>
      (LastOfItsName(fields, 0) ==> Fits(fields[0], ValueOf(data, fields[0].name))) && LastFit(fields[1..], data)
  {
    var rest := fields[1..];
    if LastFit(fields, data) {
      forall i: nat | LastOfItsName(rest, i) ensures Fits(rest[i], ValueOf(data, rest[i].name)) {
        LastOfRest(fields, i);
        assert rest[i] == fields[i + 1];
      }
    }
    if LastFit(rest, data) {
      forall i: nat | LastOfItsName(fields, i) && i > 0 ensures Fits(fields[i], ValueOf(data, fields[i].name)) {
        LastOfRest(fields, i - 1);
        assert fields[i] == rest[i - 1];
      }
    }
  }

  /** A value below a record counts exactly when no field of the record hides it. */
  lemma AgreesBelow(fields: seq<Field>, v: Value, record: Record, data: Record)
    requires fields != [] && forall i :: 0 < i < |fields| ==> fields[i].name in record
    requires fields[0].name in record ==> !LastOfItsName(fields, 0)
    ensures AgreesOn(fields, map[fields[0].name := v] + record, data) <==>
      (fields[0].name !in record ==> v == ValueOf(data, fields[0].name)) && AgreesOn(fields[1..], record, data)
  {
    var rest := fields[1..];
    if AgreesOn(fields, map[fields[0].name := v] + record, data) {
      assert forall i :: 0 <= i < |rest| ==> rest[i] == fields[i + 1];
    }
    if AgreesOn(rest, record, data) {
      assert forall i :: 0 < i < |fields| ==> fields[i] == rest[i - 1];
    }
  }

  lemma HiddenExactly(fields: seq<Field>, record: Record)
    requires fields != [] && OnlyNamed(fields[1..], record)
    requires forall i :: 0 <= i < |fields[1..]| ==> fields[1..][i].name in record
    ensures fields[0].name in record <==> !LastOfItsName(fields, 0)
    ensures forall i :: 0 < i < |fields| ==> fields[i].name in record
  {
    var rest := fields[1..];
    assert forall i :: 0 < i < |fields| ==> fields[i] == rest[i - 1];
    if fields[0].name in record {
      var i :| 0 <= i < |rest| && rest[i].name == fields[0].name;
      assert fields[i + 1].name == fields[0].name;
    }
  }

  /** All is read right exactly when the other fields are, and the first as well unless a
      later field of its name hides it. */
  lemma AgreesStep(fields: seq<Field>, b: Bytes, data: Record)
    requires LengthsMatch(fields) && fields != [] && |b| == TotalSize(fields)
    ensures Agrees(fields, Decoded(fields, b), data) <==>
      && (LastOfItsName(fields, 0) ==> Decoding(fields[0], b[..fields[0].length]) == ValueOf(data, fields[0].name))
      && Agrees(fields[1..], Decoded(fields[1..], b[fields[0].length..]), data)
  {
    var later := Decoded(fields[1..], b[fields[0].length..]);
    DecodedNames(fields, b);
    DecodedNames(fields[1..], b[fields[0].length..]);
    HiddenExactly(fields, later);
    AgreesBelow(fields, Decoding(fields[0], b[..fields[0].length]), later, data);
  }

  /** What is laid out comes back exactly when the last field of every name fits. */
  lemma {:induction false} ComesBackExactly(fields: seq<Field>, data: Record, numberOfText: string -> int)
    requires LengthsMatch(fields) && AllRepresentable(fields, data) && Layout(fields, data, numberOfText).Some?
    ensures Agrees(fields, Decoded(fields, Layout(fields, data, numberOfText).value), data) <==> LastFit(fields, data)
  {
    if fields != [] {
      var f, rest := fields[0], fields[1..];
      assert forall i :: 0 <= i < |rest| ==> rest[i] == fields[i + 1];
      LayoutSplit(fields, data, numberOfText);
      ComesBackExactly(rest, data, numberOfText);
      FieldComesBack(f, ValueOf(data, f.name), numberOfText);
      AgreesStep(fields, Layout(fields, data, numberOfText).value, data);
      LastFitStep(fields, data);
    }
  }

  /** Data that fits can be written. */
  lemma FittingIsWritable(fields: seq<Field>, data: Record, numberOfText: string -> int)
    requires LengthsMatch(fields) && AllRepresentable(fields, data) && AllFit(fields, data)
    ensures AllWritable(fields, data, numberOfText)
  {
    forall i | 0 <= i < |fields| ensures Writable(fields[i], ValueOf(data, fields[i].name), numberOfText) {
      FieldComesBack(fields[i], ValueOf(data, fields[i].name), numberOfText);
      StoredExactly(fields[i], ValueOf(data, fields[i].name), numberOfText);
    }
  }

  /** deserialize(serialize(data)) restores every field exactly when every number is in range
      and the last field of each name fits: always if all fields fit, and with distinct
      names only then. */
  lemma RoundTrip(fields: seq<Field>, data: Record, numberOfText: string -> int)
    requires LengthsMatch(fields) && AllRepresentable(fields, data)
    ensures var b := Serialized(fields, data, numberOfText);
      var restored := b.Some?
        && DeserializedFrom(b.value, 0, fields).Some?
        && Agrees(fields, DeserializedFrom(b.value, 0, fields).value, data);
      && (restored <==> AllWritable(fields, data, numberOfText) && LastFit(fields, data))
      && (AllFit(fields, data) ==> restored)
      && (DistinctNames(fields) && restored ==> AllFit(fields, data))
  {
    SerializedIsLayout([], fields, data, numberOfText);
    assert [] + Zeros(TotalSize(fields)) == Zeros(TotalSize(fields));
    var layout := Layout(fields, data, numberOfText);
    LaidOutExactly(fields, data, numberOfText);
    if layout.Some? {
      assert [] + layout.value == layout.value && layout.value[0..] == layout.value;
      DeserializedIsDecoded(layout.value, 0, fields);
      ComesBackExactly(fields, data, numberOfText);
    }
    if AllFit(fields, data) {
      FittingIsWritable(fields, data, numberOfText);
    }
    if DistinctNames(fields) && LastFit(fields, data) {
      EachIsTheLast(fields, data);
    }
  }

  lemma EachIsTheLast(fields: seq<Field>, data: Record)
    requires DistinctNames(fields) && LastFit(fields, data)
    ensures AllFit(fields, data)
  {
    forall i | 0 <= i < |fields| ensures Fits(fields[i], ValueOf(data, fields[i].name)) {
      assert LastOfItsName(fields, i);
    }
  }

  // ---- serialize(deserialize(b)) ----

  ghost predicate AllCanonical(fields: seq<Field>, b: Bytes)
    requires LengthsMatch(fields) && |b| == TotalSize(fields)
  {
    fields == [] || (Canonical(fields[0], b[..fields[0].length]) && AllCanonical(fields[1..], b[fields[0].length..]))
  }

  /** No number in the buffer is too large to be read without rounding. */
  ghost predicate AllExact(fields: seq<Field>, b: Bytes)
    requires LengthsMatch(fields) && |b| == TotalSize(fields)
  {
    fields == []
    || (Representable(Decoding(fields[0], b[..fields[0].length])) && AllExact(fields[1..], b[fields[0].length..]))
  }

  /** The record is, on these fields, what their bytes say; fields without bytes do not matter. */
  ghost predicate Reflects(fields: seq<Field>, b: Bytes, record: Record)
    requires LengthsMatch(fields) && |b| == TotalSize(fields)
  {
    fields == [] ||
    ((fields[0].length > 0 ==> ValueOf(record, fields[0].name) == Decoding(fields[0], b[..fields[0].length]))
     && Reflects(fields[1..], b[fields[0].length..], record))
  }

  lemma EmptyField(f: Field, own: Bytes, v: Value, numberOfText: string -> int)
    requires LengthMatches(f) && f.length == 0 && own == []
    ensures Storing(f, v, numberOfText) == Some([]) && Canonical(f, own)
  {
    EncodingIsEncode(f, v, numberOfText);
    assert PaddedFrom(own, 0);
  }

  lemma {:induction false} CanonicalIsRestored(fields: seq<Field>, b: Bytes, record: Record,
                                               numberOfText: string -> int)
    requires LengthsMatch(fields) && |b| == TotalSize(fields)
    requires AllExact(fields, b) && Reflects(fields, b, record)
    ensures Layout(fields, record, numberOfText) == Some(b) <==> AllCanonical(fields, b)
  {
    if fields != [] {
      var f, n := fields[0], fields[0].length;
      CanonicalIsRestored(fields[1..], b[n..], record, numberOfText);
      assert b == b[..n] + b[n..];
      if n == 0 {
        EmptyField(f, b[..n], ValueOf(record, f.name), numberOfText);
      } else {
        FieldIsRestored(f, b[..n], numberOfText);
      }
      SplitEquality(Storing(f, ValueOf(record, f.name), numberOfText), Layout(fields[1..], record, numberOfText), b, n);
    }
  }

  lemma SplitEquality(first: Option<Bytes>, rest: Option<Bytes>, b: Bytes, n: nat)
    requires n <= |b| && (first.Some? ==> |first.value| == n)
    ensures first.Some? && rest.Some? ==>
      (first.value + rest.value == b <==> first.value == b[..n] && rest.value == b[n..])
  {
    if first.Some? && rest.Some? {
      Pieces([], first.value, rest.value);
      assert [] + first.value + rest.value == first.value + rest.value;
      assert b == b[..n] + b[n..];
    }
  }

  /** A record keeps what it reflects when names outside the fields are added below it. */
  lemma {:induction false} ReflectsAbove(fields: seq<Field>, b: Bytes, record: Record, name: string, v: Value)
    requires LengthsMatch(fields) && |b| == TotalSize(fields)
    requires Reflects(fields, b, record)
    requires forall i :: 0 <= i < |fields| ==> fields[i].name in record
    ensures Reflects(fields, b, map[name := v] + record)
  {
    if fields != [] {
      assert forall i :: 0 <= i < |fields[1..]| ==> fields[1..][i] == fields[i + 1];
      ReflectsAbove(fields[1..], b[fields[0].length..], record, name, v);
      assert fields[0].name in record;
    }
  }

  lemma {:induction false} DecodedReflects(fields: seq<Field>, b: Bytes)
    requires LengthsMatch(fields) && |b| == TotalSize(fields) && Unshadowed(fields)
    ensures Reflects(fields, b, Decoded(fields, b))
  {
    if fields != [] {
      var f, rest, n := fields[0], fields[1..], fields[0].length;
      forall i, j | 0 <= i < j < |rest| ensures !Shadowed(rest, i, j) {
        assert !Shadowed(fields, i + 1, j + 1);
      }
      DecodedReflects(rest, b[n..]);
      DecodedNames(rest, b[n..]);
      ReflectsAbove(rest, b[n..], Decoded(rest, b[n..]), f.name, Decoding(f, b[..n]));
      if n > 0 && f.name in Decoded(rest, b[n..]) {
        var i :| 0 <= i < |rest| && rest[i].name == f.name;
        assert Shadowed(fields, 0, i + 1);
      }
    }
  }

  /** What serialize makes of the record that deserialize found in b. */
  ghost function Rewritten(fields: seq<Field>, b: Bytes, numberOfText: string -> int): Option<Bytes> {
    match DeserializedFrom(b, 0, fields)
    case None => None
    case Some(record) => Serialized(fields, record, numberOfText)
  }

  lemma RewrittenIsLayout(fields: seq<Field>, b: Bytes, numberOfText: string -> int)
    requires LengthsMatch(fields) && |b| == TotalSize(fields)
    ensures Rewritten(fields, b, numberOfText) == Layout(fields, Decoded(fields, b), numberOfText)
  {
    DeserializedIsDecoded(b, 0, fields);
    SerializedIsLayout([], fields, Decoded(fields, b), numberOfText);
    assert b[0..] == b && [] + Zeros(TotalSize(fields)) == Zeros(TotalSize(fields));
    var layout := Layout(fields, Decoded(fields, b), numberOfText);
    assert layout.Some? ==> [] + layout.value == layout.value;
  }

  /** serialize(deserialize(b)) == b exactly for canonical buffers, where no field with
      bytes has a later namesake. */
  lemma ReverseLaw(fields: seq<Field>, b: Bytes, numberOfText: string -> int)
    requires LengthsMatch(fields) && |b| == TotalSize(fields)
    requires AllExact(fields, b) && Unshadowed(fields)
    ensures Rewritten(fields, b, numberOfText) == Some(b) <==> AllCanonical(fields, b)
  {
    RewrittenIsLayout(fields, b, numberOfText);
    DecodedReflects(fields, b);
    CanonicalIsRestored(fields, b, Decoded(fields, b), numberOfText);
  }

  // ---- and where a field has a later namesake, it fails ----

  /** The same buffer with the last byte of field i set to one. */
  function Poked(fields: seq<Field>, b: Bytes, i: nat): (r: Bytes)
    requires i < |fields| && fields[i].length > 0 && |b| == TotalSize(fields)
    ensures |r| == |b|
  {
    var n := fields[0].length;
    if i == 0 then b[..n - 1] + [1] + b[n..] else b[..n] + Poked(fields[1..], b[n..], i - 1)
  }

  lemma BlankField(f: Field)
    requires LengthMatches(f)
    ensures Canonical(f, Zeros(f.length)) && Representable(Decoding(f, Zeros(f.length)))
  {
    var b := Zeros(f.length);
    DecodingIsDecode(f, b);
    match f.kind
    case Ascii => assert PaddedFrom(b, f.length) by { assert b[..f.length] == b; }
    case Bcd => BlankBcd(f.length);
    case Hex =>
    case _ => PowerSmall();
  }

  lemma {:induction false} BlankBcd(n: nat)
    ensures Parsed(BcdText(Zeros(n))) == 0
  {
    if n > 0 {
      assert Zeros(n) == Zeros(n - 1) + [0];
      BcdTextAppend(Zeros(n - 1), 0);
      BlankBcd(n - 1);
      TwoMoreDigits(BcdText(Zeros(n - 1)), "0", "0");
    }
  }

  lemma TwoMoreDigits(t: string, c: string, d: string)
    requires |c| == |d| == 1
    ensures Parsed(t + c + d) == Parsed(t) * 100 + DigitValue(c[0]) * 10 + DigitValue(d[0])
  {
    assert (t + c + d)[..|t| + 1] == t + c;
    assert (t + c)[..|t|] == t;
  }

  lemma PokedField(f: Field)
    requires LengthMatches(f) && f.length > 0
    ensures Canonical(f, Zeros(f.length - 1) + [1]) && Representable(Decoding(f, Zeros(f.length - 1) + [1]))
  {
    DecodingIsDecode(f, Zeros(f.length - 1) + [1]);
    match f.kind
    case Ascii => PokedText(f.length);
    case Bcd => PokedBcd(f.length);
    case Hex =>
    case _ => PokedNumber(f);
  }

  lemma PokedNumber(f: Field)
    requires LengthMatches(f) && IsNumeric(f.kind)
    ensures Representable(Decode(f, Zeros(f.length - 1) + [1]))
  {
    PowerSmall();
  }

  lemma PokedText(n: nat)
    requires n > 0
    ensures PaddedText(Zeros(n - 1) + [1])
  {
    var b := Zeros(n - 1) + [1];
    assert b[..n] == b;
    assert AsciiText(b)[n - 1] == 1 as char;
    assert PaddedFrom(b, n);
  }

  lemma PokedBcd(n: nat)
    requires n > 0
    ensures PackedDecimal(Zeros(n - 1) + [1])
    ensures Parsed(BcdText(Zeros(n - 1) + [1])) == 1
  {
    OneIsPacked(n - 1);
    BcdTextAppend(Zeros(n - 1), 1);
    BlankBcd(n - 1);
    TwoMoreDigits(BcdText(Zeros(n - 1)), "0", "1");
  }

  lemma OneIsPacked(n: nat)
    ensures PackedDecimal(Zeros(n) + [1])
  {
  }

  lemma BcdTextAppend(b: Bytes, last: Byte)
    requires last < 10
    ensures BcdText(b + [last]) == BcdText(b) + "0" + [DigitChar(last)]
  {
    assert (b + [last])[..|b|] == b;
    assert last / 16 == 0 && last % 16 == last;
  }

  lemma {:induction false} BlankBuffer(fields: seq<Field>)
    requires LengthsMatch(fields)
    ensures AllCanonical(fields, Zeros(TotalSize(fields))) && AllExact(fields, Zeros(TotalSize(fields)))
  {
    if fields != [] {
      var b, n := Zeros(TotalSize(fields)), fields[0].length;
      assert b[..n] == Zeros(n) && b[n..] == Zeros(TotalSize(fields[1..]));
      BlankField(fields[0]);
      BlankBuffer(fields[1..]);
    }
  }

  lemma {:induction false} PokedBuffer(fields: seq<Field>, i: nat)
    requires LengthsMatch(fields) && i < |fields| && fields[i].length > 0
    ensures var b := Poked(fields, Zeros(TotalSize(fields)), i);
      AllCanonical(fields, b) && AllExact(fields, b) && b != Zeros(TotalSize(fields))
  {
    var n, rest := fields[0].length, fields[1..];
    var blank := Zeros(TotalSize(fields));
    var b := Poked(fields, blank, i);
    assert blank[..n] == Zeros(n) && blank[n..] == Zeros(TotalSize(rest));
    if i == 0 {
      assert b[..n] == Zeros(n - 1) + [1] && b[n..] == Zeros(TotalSize(rest));
      assert b[n - 1] == 1 && blank[n - 1] == 0;
      PokedField(fields[0]);
      BlankBuffer(rest);
    } else {
      assert b[..n] == Zeros(n) && b[n..] == Poked(rest, Zeros(TotalSize(rest)), i - 1);
      BlankField(fields[0]);
      PokedBuffer(rest, i - 1);
    }
  }

  lemma HiddenByLater(fields: seq<Field>, b: Bytes, j: nat)
    requires LengthsMatch(fields) && |b| == TotalSize(fields) && 0 < j < |fields| && fields[0].name == fields[j].name
    ensures fields[0].name in Decoded(fields[1..], b[fields[0].length..])
  {
    DecodedNames(fields[1..], b[fields[0].length..]);
    assert fields[1..][j - 1].name == fields[0].name;
  }

  /** The bytes of the first field do not matter when a later field hides it. */
  lemma SameButFirst(fields: seq<Field>, b: Bytes, poked: Bytes)
    requires LengthsMatch(fields) && fields != [] && |b| == |poked| == TotalSize(fields)
    requires poked[fields[0].length..] == b[fields[0].length..]
    requires fields[0].name in Decoded(fields[1..], b[fields[0].length..])
    ensures Decoded(fields, poked) == Decoded(fields, b)
  {
  }

  lemma PokedLater(fields: seq<Field>, b: Bytes, i: nat)
    requires LengthsMatch(fields) && |b| == TotalSize(fields) && 0 < i < |fields| && fields[i].length > 0
    ensures var n := fields[0].length;
      && Poked(fields, b, i)[..n] == b[..n]
      && Poked(fields, b, i)[n..] == Poked(fields[1..], b[n..], i - 1)
  {
  }

  /** The bytes of a shadowed field leave no trace in the record. */
  lemma {:induction false} ShadowedLeavesNoTrace(fields: seq<Field>, b: Bytes, i: nat, j: nat)
    requires LengthsMatch(fields) && |b| == TotalSize(fields) && Shadowed(fields, i, j)
    ensures Decoded(fields, Poked(fields, b, i)) == Decoded(fields, b)
  {
    var n, rest := fields[0].length, fields[1..];
    if i == 0 {
      HiddenByLater(fields, b, j);
      SameButFirst(fields, b, Poked(fields, b, i));
    } else {
      ShadowedLeavesNoTrace(rest, b[n..], i - 1, j - 1);
      PokedLater(fields, b, i);
    }
  }

  /** Two buffers with the same record cannot both be restored. */
  lemma ShadowedFails(fields: seq<Field>, i: nat, j: nat, numberOfText: string -> int) returns (b: Bytes)
    requires LengthsMatch(fields) && Shadowed(fields, i, j)
    ensures |b| == TotalSize(fields) && AllCanonical(fields, b) && AllExact(fields, b)
    ensures Rewritten(fields, b, numberOfText) != Some(b)
  {
    var blank := Zeros(TotalSize(fields));
    var poked := Poked(fields, blank, i);
    BlankBuffer(fields);
    PokedBuffer(fields, i);
    ShadowedLeavesNoTrace(fields, blank, i, j);
    RewrittenIsLayout(fields, blank, numberOfText);
    RewrittenIsLayout(fields, poked, numberOfText);
    b := if Rewritten(fields, blank, numberOfText) == Some(blank) then poked else blank;
  }

  /** So the reverse law holds of a field list, for every canonical buffer, exactly when no
      field with bytes has a later namesake. */
  lemma ReverseLawNeedsUnshadowedNames(fields: seq<Field>, numberOfText: string -> int)
    requires LengthsMatch(fields)
    ensures Unshadowed(fields) <==>
      forall b: Bytes :: |b| == TotalSize(fields) && AllCanonical(fields, b) && AllExact(fields, b)
        ==> Rewritten(fields, b, numberOfText) == Some(b)
  {
    if Unshadowed(fields) {
      forall b: Bytes | |b| == TotalSize(fields) && AllCanonical(fields, b) && AllExact(fields, b)
        ensures Rewritten(fields, b, numberOfText) == Some(b)
      {
        ReverseLaw(fields, b, numberOfText);
      }
    } else {
      var i, j :| 0 <= i < j < |fields| && Shadowed(fields, i, j);
      var b := ShadowedFails(fields, i, j, numberOfText);
    }
  }
}
