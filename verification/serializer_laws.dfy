/** For each field type, exactly which values survive writing and reading, and exactly
    which bytes survive reading and writing. */
module SerializerLaws {
  import opened Prelude
  import opened SerializerFields

  // ---- which values survive ----

  predicate Trimmed(s: string) {
    s != "" ==> !IsBlank(s[0]) && !IsBlank(s[|s| - 1])
  }

  predicate SevenBit(s: string) {
    forall i :: 0 <= i < |s| ==> s[i] as int < 128
  }

  predicate UpperHex(s: string) {
    forall i :: 0 <= i < |s| ==> '0' <= s[i] <= '9' || 'A' <= s[i] <= 'F'
  }

  predicate Digits(s: string) {
    forall i :: 0 <= i < |s| ==> '0' <= s[i] <= '9'
  }

  /** A number the original holds without rounding. */
  predicate Representable(v: Value) {
    v.Num? ==> -MAX_SAFE <= v.n <= MAX_SAFE
  }

  predicate Fits(f: Field, v: Value) {
    match f.kind
    case Ascii => v.Text? && |v.s| <= f.length && SevenBit(v.s) && Trimmed(v.s)
    case Hex => v.Text? && |v.s| == 2 * f.length && UpperHex(v.s)
    case Bcd => v.Num? && 0 <= v.n < Power(10, 2 * f.length)
    case _ => v.Num? && Low(f.kind) <= v.n < High(f.kind)
  }

  // ---- which bytes survive ----

  predicate PackedDecimal(b: Bytes) {
    forall i :: 0 <= i < |b| ==> b[i] / 16 <= 9 && b[i] % 16 <= 9
  }

  /** Seven-bit text that does not start blank, padded with spaces only. */
  predicate PaddedText(b: Bytes) {
    exists k :: 0 <= k <= |b| && PaddedFrom(b, k)
  }

  predicate PaddedFrom(b: Bytes, k: nat)
    requires k <= |b|
  {
    && (forall i :: 0 <= i < k ==> b[i] < 128)
    && (forall i :: k <= i < |b| ==> b[i] == 32)
    && Trimmed(AsciiText(b[..k]))
  }

  predicate Canonical(f: Field, b: Bytes) {
    match f.kind
    case Ascii => PaddedText(b)
    case Bcd => PackedDecimal(b)
    case _ => true
  }

  // ---- decimal text ----

  lemma {:induction false} ParsedIsBounded(s: string)
    ensures Parsed(s) < Power(10, |s|)
  {
    if s != "" {
      ParsedIsBounded(s[..|s| - 1]);
    }
  }

  lemma {:induction false} DecimalLength(n: nat, k: nat)
    requires k >= 1
    ensures |Decimal(n)| <= k <==> n < Power(10, k)
    decreases k
  {
    if k == 1 {
      assert Power(10, 1) == 10;
    } else if n >= 10 {
      DecimalLength(n / 10, k - 1);
    } else {
      assert Power(10, k) == 10 * Power(10, k - 1);
    }
  }

  /** The last k digits of a number. */
  function LastDigits(n: nat, k: nat): (s: string)
    ensures |s| == k && Digits(s)
  {
    if k == 0 then "" else LastDigits(n / 10, k - 1) + [DigitChar(n % 10)]
  }

  lemma {:induction false} LastDigitsOfZero(k: nat)
    ensures LastDigits(0, k) == Repeat('0', k)
  {
    if k > 0 {
      LastDigitsOfZero(k - 1);
      assert Repeat('0', k) == Repeat('0', k - 1) + "0";
    }
  }

  lemma {:induction false} LastDigitsOfParsed(t: string)
    requires Digits(t)
    ensures LastDigits(Parsed(t), |t|) == t
  {
    if t != "" {
      var init, last := t[..|t| - 1], t[|t| - 1];
      LastDigitsOfParsed(init);
      assert Parsed(t) / 10 == Parsed(init) && Parsed(t) % 10 == DigitValue(last);
      assert t == init + [last];
    }
  }

  /** Padding the shown number restores all k digits. */
  lemma {:induction false} PaddedIsLastDigits(n: nat, k: nat)
    requires k >= 1 && n < Power(10, k)
    ensures PadStart(Decimal(n), k, '0') == LastDigits(n, k)
    decreases k
  {
    if n < 10 {
      LastDigitsOfZero(k - 1);
    } else {
      assert k > 1 by { assert Power(10, 1) == 10; }
      PaddedIsLastDigits(n / 10, k - 1);
      DecimalLength(n / 10, k - 1);
      Associative(Repeat('0', k - 1 - |Decimal(n / 10)|), Decimal(n / 10), [DigitChar(n % 10)]);
    }
  }

  /** Showing what was parsed, padded back to the old length, restores the digits. */
  lemma DecimalOfParsed(t: string)
    requires Digits(t) && t != ""
    ensures PadStart(Decimal(Parsed(t)), |t|, '0') == t
  {
    ParsedIsBounded(t);
    PaddedIsLastDigits(Parsed(t), |t|);
    LastDigitsOfParsed(t);
  }

  // ---- packed decimal ----

  lemma PackedDigits(s: string, length: nat)
    requires |s| >= 2 * length
    ensures PackedDecimal(BcdBytes(s, length))
  {
  }

  lemma {:induction false} BcdTextOfPacked(b: Bytes)
    requires PackedDecimal(b)
    ensures |BcdText(b)| == 2 * |b| && Digits(BcdText(b))
    ensures forall i :: 0 <= i < |b| ==>
      DigitValue(BcdText(b)[2 * i]) == b[i] / 16 && DigitValue(BcdText(b)[2 * i + 1]) == b[i] % 16
  {
    if b != [] {
      BcdTextOfPacked(b[..|b| - 1]);
    }
  }

  lemma BcdTextOfBytes(s: string, length: nat)
    requires |s| == 2 * length && Digits(s)
    ensures BcdText(BcdBytes(s, length)) == s
  {
    var b := BcdBytes(s, length);
    PackedDigits(s, length);
    BcdTextOfPacked(b);
    var t := BcdText(b);
    forall j | 0 <= j < |s| ensures t[j] == s[j] {
      var i := j / 2;
      assert DigitValue(t[2 * i]) == b[i] / 16 == DigitValue(s[2 * i]);
      assert DigitValue(t[2 * i + 1]) == b[i] % 16 == DigitValue(s[2 * i + 1]);
      assert j == 2 * i || j == 2 * i + 1;
      SameDigit(t[j], s[j]);
    }
  }

  lemma SameDigit(c: char, d: char)
    ensures '0' <= c <= '9' && '0' <= d <= '9' && DigitValue(c) == DigitValue(d) ==> c == d
  {
  }

  lemma {:induction false} ParsedLastDigits(n: nat, k: nat)
    requires n < Power(10, k)
    ensures Parsed(LastDigits(n, k)) == n
  {
    if k > 0 {
      ParsedLastDigits(n / 10, k - 1);
      assert LastDigits(n, k)[..k - 1] == LastDigits(n / 10, k - 1);
    }
  }

  lemma BcdThere(n: nat, length: nat)
    requires length >= 1 && n < Power(10, 2 * length)
    ensures Parsed(BcdText(BcdBytes(PadStart(Decimal(n), 2 * length, '0'), length))) == n
  {
    PaddedIsLastDigits(n, 2 * length);
    ParsedLastDigits(n, 2 * length);
    BcdTextOfBytes(LastDigits(n, 2 * length), length);
  }

  lemma PackedIsBounded(b: Bytes)
    requires PackedDecimal(b)
    ensures Parsed(BcdText(b)) < Power(10, 2 * |b|)
  {
    BcdTextOfPacked(b);
    ParsedIsBounded(BcdText(b));
  }

  lemma BytesOfBcdText(b: Bytes)
    requires PackedDecimal(b)
    ensures |BcdText(b)| == 2 * |b| && BcdBytes(BcdText(b), |b|) == b
  {
    BcdTextOfPacked(b);
    var t := BcdText(b);
    forall i | 0 <= i < |b| ensures BcdBytes(t, |b|)[i] == b[i] {
      assert DigitValue(t[2 * i]) == b[i] / 16 && DigitValue(t[2 * i + 1]) == b[i] % 16;
    }
  }

  lemma BcdBack(b: Bytes)
    requires b != [] && PackedDecimal(b)
    ensures PadStart(Decimal(Parsed(BcdText(b))), 2 * |b|, '0') == BcdText(b)
    ensures |BcdText(b)| == 2 * |b| && BcdBytes(BcdText(b), |b|) == b
  {
    BytesOfBcdText(b);
    BcdTextOfPacked(b);
    DecimalOfParsed(BcdText(b));
  }

  lemma BcdRoundTrip(f: Field, n: int, numberOfText: string -> int)
    requires f.kind == Bcd && LengthMatches(f)
    ensures Decode(f, Stored(f, Num(n), numberOfText).value) == Num(n) <==> Fits(f, Num(n))
  {
    var s := PadStart(Shown(n), 2 * f.length, '0');
    BcdStored(f, n, numberOfText);
    if Fits(f, Num(n)) {
      BcdThere(n, f.length);
    } else {
      BcdStaysBounded(s, f.length);
    }
  }

  lemma BcdStored(f: Field, n: int, numberOfText: string -> int)
    requires f.kind == Bcd && LengthMatches(f)
    ensures var b := BcdBytes(PadStart(Shown(n), 2 * f.length, '0'), f.length);
      Stored(f, Num(n), numberOfText) == Some(b) && Decode(f, b) == Num(Parsed(BcdText(b)))
  {
    NothingToFill(BcdBytes(PadStart(Shown(n), 2 * f.length, '0'), f.length));
  }

  lemma BcdStaysBounded(s: string, length: nat)
    requires |s| >= 2 * length
    ensures Parsed(BcdText(BcdBytes(s, length))) < Power(10, 2 * length)
  {
    PackedDigits(s, length);
    PackedIsBounded(BcdBytes(s, length));
  }

  lemma NothingToFill(b: Bytes)
    ensures b + Zeros(0) == b
  {
  }

  lemma BcdReverse(f: Field, b: Bytes, numberOfText: string -> int)
    requires f.kind == Bcd && LengthMatches(f) && |b| == f.length
    ensures Stored(f, Decode(f, b), numberOfText) == Some(b) <==> PackedDecimal(b)
  {
    var s := PadStart(Decimal(Parsed(BcdText(b))), 2 * f.length, '0');
    BcdStored(f, Parsed(BcdText(b)), numberOfText);
    if PackedDecimal(b) {
      BcdBack(b);
    } else {
      PackedDigits(s, f.length);
    }
  }

  // ---- hex ----

  lemma {:induction false} HexBytesOfText(b: Bytes)
    ensures HexBytes(HexText(b)) == b && UpperHex(HexText(b))
  {
    if b != [] {
      HexBytesOfText(b[1..]);
      assert HexText(b)[2..] == HexText(b[1..]);
      assert b == [b[0]] + b[1..];
    }
  }

  lemma {:induction false} HexTextOfBytes(s: string)
    requires UpperHex(s) && |s| % 2 == 0
    ensures HexText(HexBytes(s)) == s && 2 * |HexBytes(s)| == |s|
  {
    if s != "" {
      HexTextOfBytes(s[2..]);
      var d, e := HexDigit(s[0]), HexDigit(s[1]);
      assert HexBytes(s)[0] == d * 16 + e && HexBytes(s)[1..] == HexBytes(s[2..]);
      assert (d * 16 + e) / 16 == d && (d * 16 + e) % 16 == e;
      assert HexChar(d) == s[0] && HexChar(e) == s[1];
      assert s == [s[0], s[1]] + s[2..];
    }
  }

  lemma HexRoundTrip(f: Field, v: Value, numberOfText: string -> int)
    requires f.kind == Hex
    ensures Decode(f, Stored(f, v, numberOfText).value) == v <==> Fits(f, v)
  {
    var stored := Stored(f, v, numberOfText).value;
    if Fits(f, v) {
      assert First(PadStart(v.s, 2 * f.length, '0'), 2 * f.length) == v.s;
      HexTextOfBytes(v.s);
      assert stored == HexBytes(v.s);
    } else {
      HexBytesOfText(stored);
    }
  }

  lemma NothingToPad(s: string)
    ensures First(PadStart(s, |s|, '0'), |s|) == s
  {
  }

  lemma HexReverse(f: Field, b: Bytes, numberOfText: string -> int)
    requires f.kind == Hex && |b| == f.length
    ensures Stored(f, Decode(f, b), numberOfText) == Some(b)
  {
    HexBytesOfText(b);
    NothingToPad(HexText(b));
    NothingToFill(b);
  }

  // ---- ascii ----

  lemma {:induction false} TrimEndOfPadded(s: string, n: nat)
    requires s != "" ==> !IsBlank(s[|s| - 1])
    ensures TrimEnd(s + Repeat(' ', n)) == s
  {
    var t := s + Repeat(' ', n);
    if n > 0 {
      TrimEndOfPadded(s, n - 1);
      assert t[..|t| - 1] == s + Repeat(' ', n - 1);
    } else {
      assert t == s;
    }
  }

  lemma {:induction false} TrimStartOfBlanks(n: nat)
    ensures TrimStart(Repeat(' ', n)) == ""
  {
    if n > 0 {
      TrimStartOfBlanks(n - 1);
      assert Repeat(' ', n)[1..] == Repeat(' ', n - 1);
    }
  }

  lemma TrimOfPadded(s: string, n: nat)
    requires Trimmed(s)
    ensures Trim(s + Repeat(' ', n)) == s
  {
    if s == "" {
      assert s + Repeat(' ', n) == Repeat(' ', n);
      TrimStartOfBlanks(n);
    } else {
      TrimEndOfPadded(s, n);
    }
  }

  lemma {:induction false} TrimStartKeeps(s: string)
    ensures SevenBit(s) ==> SevenBit(TrimStart(s))
  {
    if s != "" && IsBlank(s[0]) {
      TrimStartKeeps(s[1..]);
      assert forall j :: 0 <= j < |s| - 1 ==> s[1..][j] == s[j + 1];
    }
  }

  /** What trim leaves is trimmed, no longer, and of the same characters. */
  lemma TrimGivesTrimmed(s: string)
    ensures Trimmed(Trim(s)) && |Trim(s)| <= |s|
    ensures SevenBit(s) ==> SevenBit(Trim(s))
  {
    TrimStartKeeps(s);
    var t := TrimStart(s);
    assert TrimEnd(t) <= t;
    assert forall j :: 0 <= j < |TrimEnd(t)| ==> TrimEnd(t)[j] == t[j];
  }

  lemma AsciiThere(s: string)
    requires SevenBit(s)
    ensures AsciiText(AsciiBytes(s)) == s
  {
  }

  lemma AsciiBack(b: Bytes)
    requires forall i :: 0 <= i < |b| ==> b[i] < 128
    ensures AsciiBytes(AsciiText(b)) == b
  {
  }

  lemma StoredText(f: Field, v: Value, numberOfText: string -> int)
    requires f.kind == Ascii
    ensures Stored(f, v, numberOfText) == Some(AsciiBytes(First(PadEnd(TextOf(v), f.length, ' '), f.length)))
  {
    NothingToFill(AsciiBytes(First(PadEnd(TextOf(v), f.length, ' '), f.length)));
  }

  lemma FittingTextIsRead(s: string, length: nat)
    requires |s| <= length && SevenBit(s) && Trimmed(s)
    ensures Trim(AsciiText(AsciiBytes(First(PadEnd(s, length, ' '), length)))) == s
  {
    var padded := PadEnd(s, length, ' ');
    assert First(padded, length) == padded;
    AsciiThere(padded);
    TrimOfPadded(s, length - |s|);
  }

  lemma AsciiRoundTrip(f: Field, v: Value, numberOfText: string -> int)
    requires f.kind == Ascii
    ensures Decode(f, Stored(f, v, numberOfText).value) == v <==> Fits(f, v)
  {
    StoredText(f, v, numberOfText);
    if Fits(f, v) {
      FittingTextIsRead(v.s, f.length);
    } else {
      TrimGivesTrimmed(AsciiText(AsciiBytes(First(PadEnd(TextOf(v), f.length, ' '), f.length))));
    }
  }

  lemma PaddedTextIsRestored(b: Bytes)
    requires PaddedText(b)
    ensures AsciiBytes(PadEnd(Trim(AsciiText(b)), |b|, ' ')) == b
  {
    var k :| 0 <= k <= |b| && PaddedFrom(b, k);
    TrimmedAndPadded(b, k);
    AsciiBack(b);
  }

  lemma TrimmedAndPadded(b: Bytes, k: nat)
    requires k <= |b| && PaddedFrom(b, k)
    ensures PadEnd(Trim(AsciiText(b)), |b|, ' ') == AsciiText(b)
  {
    PaddingOfCore(b, k);
    TrimOfPadded(AsciiText(b[..k]), |b| - k);
  }

  lemma PaddingOfCore(b: Bytes, k: nat)
    requires k <= |b| && PaddedFrom(b, k)
    ensures AsciiText(b) == AsciiText(b[..k]) + Repeat(' ', |b| - k)
    ensures PadEnd(AsciiText(b[..k]), |b|, ' ') == AsciiText(b)
  {
  }

  lemma OnlyPaddedTextIsRestored(b: Bytes, s: string)
    requires |s| <= |b| && SevenBit(s) && Trimmed(s)
    requires AsciiBytes(PadEnd(s, |b|, ' ')) == b
    ensures PaddedText(b)
  {
    assert b[..|s|] == AsciiBytes(s);
    AsciiThere(s);
    assert forall i :: |s| <= i < |b| ==> PadEnd(s, |b|, ' ')[i] == ' ';
    assert forall i :: 0 <= i < |s| ==> b[i] == s[i] as int;
    assert PaddedFrom(b, |s|);
  }

  lemma AsciiReverse(f: Field, b: Bytes, numberOfText: string -> int)
    requires f.kind == Ascii && |b| == f.length
    ensures Stored(f, Decode(f, b), numberOfText) == Some(b) <==> PaddedText(b)
  {
    var s := Trim(AsciiText(b));
    TrimGivesTrimmed(AsciiText(b));
    var padded := PadEnd(s, f.length, ' ');
    assert First(padded, f.length) == padded;
    NothingToFill(AsciiBytes(padded));
    if PaddedText(b) {
      PaddedTextIsRestored(b);
    } else if AsciiBytes(padded) == b {
      OnlyPaddedTextIsRestored(b, s);
    }
  }

  // ---- numbers ----

  lemma UnsignedIsNumber(b: Bytes)
    requires |b| == 1 || |b| == 2 || |b| == 4
    ensures Unsigned(b) == Number(b)
  {
    if |b| == 1 {
      assert b[..0] == [];
    } else if |b| == 2 {
      UnsignedIsNumber(b[..1]);
    } else {
      UnsignedIsNumber(b[..2]);
      assert b[..3][..2] == b[..2];
      assert Number(b[..3]) == Number(b[..2]) * 0x100 + b[2];
    }
  }

  /** The bounds of a numeric type, as numbers. */
  lemma Bounds(kind: FieldType)
    requires IsNumeric(kind)
    ensures var size := Power(256, Width(kind));
      && (size == 0x100 || size == 0x1_0000 || size == 0x1_0000_0000)
      && Low(kind) == (if IsSigned(kind) then -(size / 2) else 0)
      && High(kind) == (if IsSigned(kind) then size / 2 else size)
  {
    PowerSmall();
  }

  lemma Wrapped(n: int, size: nat, signed: bool)
    requires size == 0x100 || size == 0x1_0000 || size == 0x1_0000_0000
    requires if signed then -(size / 2) <= n < size / 2 else 0 <= n < size
    ensures n % size == if n < 0 then n + size else n
  {
    if size == 0x100 {
    } else if size == 0x1_0000 {
    } else {
    }
  }

  lemma SignedOfWrapped(kind: FieldType, n: int)
    requires IsNumeric(kind) && Low(kind) <= n < High(kind)
    ensures Signed(kind, n % Power(256, Width(kind))) == n
  {
    Bounds(kind);
    Wrapped(n, Power(256, Width(kind)), IsSigned(kind));
  }

  lemma WrappedOfSigned(kind: FieldType, n: int)
    requires IsNumeric(kind) && 0 <= n < Power(256, Width(kind))
    ensures Low(kind) <= Signed(kind, n) < High(kind) && Signed(kind, n) % Power(256, Width(kind)) == n
  {
    Bounds(kind);
    Wrapped(Signed(kind, n), Power(256, Width(kind)), IsSigned(kind));
  }

  lemma StoredNumber(f: Field, v: Value, numberOfText: string -> int)
    requires IsNumeric(f.kind) && LengthMatches(f)
    ensures Stored(f, v, numberOfText) ==
      var n := NumberOf(v, numberOfText);
      if Low(f.kind) <= n < High(f.kind)
      then Some(BigEndian(n % Power(256, Width(f.kind)), Width(f.kind))) else None
  {
    var n := NumberOf(v, numberOfText);
    if Low(f.kind) <= n < High(f.kind) {
      NothingToFill(BigEndian(n % Power(256, Width(f.kind)), Width(f.kind)));
    }
  }

  lemma DecodedNumber(f: Field, b: Bytes)
    requires IsNumeric(f.kind) && |b| == Width(f.kind)
    ensures Decode(f, b) == Num(Signed(f.kind, Number(b)))
  {
    UnsignedIsNumber(b);
  }

  lemma NumericRoundTrip(f: Field, v: Value, numberOfText: string -> int)
    requires IsNumeric(f.kind) && LengthMatches(f)
    ensures Stored(f, v, numberOfText).Some? <==> Low(f.kind) <= NumberOf(v, numberOfText) < High(f.kind)
    ensures Stored(f, v, numberOfText).Some? && Decode(f, Stored(f, v, numberOfText).value) == v <==> Fits(f, v)
  {
    var n, size := NumberOf(v, numberOfText), Power(256, Width(f.kind));
    StoredNumber(f, v, numberOfText);
    if Low(f.kind) <= n < High(f.kind) {
      NumberOfBigEndian(n % size, Width(f.kind));
      DecodedNumber(f, BigEndian(n % size, Width(f.kind)));
      SignedOfWrapped(f.kind, n);
    }
  }

  lemma NumericReverse(f: Field, b: Bytes, numberOfText: string -> int)
    requires IsNumeric(f.kind) && LengthMatches(f) && |b| == f.length
    ensures Stored(f, Decode(f, b), numberOfText) == Some(b)
  {
    BigEndianOfNumber(b);
    DecodedNumber(f, b);
    WrappedOfSigned(f.kind, Number(b));
    StoredNumber(f, Decode(f, b), numberOfText);
  }

  // ---- the two laws of a field ----

  /** A value is written and read back unchanged exactly when it fits its field. */
  lemma FieldRoundTrip(f: Field, v: Value, numberOfText: string -> int)
    requires LengthMatches(f) && Representable(v)
    ensures Stored(f, v, numberOfText).Some? && Decode(f, Stored(f, v, numberOfText).value) == v <==> Fits(f, v)
  {
    match f.kind
    case Ascii => AsciiRoundTrip(f, v, numberOfText);
    case Hex => HexRoundTrip(f, v, numberOfText);
    case Bcd => if v.Num? { BcdRoundTrip(f, v.n, numberOfText); }
    case _ => NumericRoundTrip(f, v, numberOfText);
  }

  /** Bytes are read and written back unchanged exactly when they are canonical. */
  lemma FieldReverse(f: Field, b: Bytes, numberOfText: string -> int)
    requires LengthMatches(f) && |b| == f.length && Representable(Decode(f, b))
    ensures Stored(f, Decode(f, b), numberOfText) == Some(b) <==> Canonical(f, b)
  {
    match f.kind
    case Ascii => AsciiReverse(f, b, numberOfText);
    case Hex => HexReverse(f, b, numberOfText);
    case Bcd => BcdReverse(f, b, numberOfText);
    case _ => NumericReverse(f, b, numberOfText);
  }
}
