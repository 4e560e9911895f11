/** What a field holds once a value is written, whether it fits or not, and what is read
    from any bytes: byte by byte and character by character. */
module SerializerValues {
  import opened Prelude
  import opened SerializerFields
  import opened SerializerLaws

  // ---- characters ----

  predicate IsHexDigit(c: char) {
    48 <= c as int <= 57 || 65 <= c as int <= 70 || 97 <= c as int <= 102
  }

  function HexValue(c: char): int
    requires IsHexDigit(c)
  {
    if c as int <= 57 then c as int - 48 else if c as int <= 70 then c as int - 55 else c as int - 87
  }

  /** A character that is no digit counts as zero. */
  function DecimalValue(c: char): int {
    if 48 <= c as int <= 57 then c as int - 48 else 0
  }

  /** The character that shows a number below sixteen, in upper case. */
  predicate Shows(c: char, d: int) {
    c as int == if d < 10 then 48 + d else 55 + d
  }

  /** Zeros in front, up to n characters, or the first n characters. */
  function InPlaces(t: string, n: nat): (s: string)
    ensures |s| == n
  {
    if |t| <= n then seq(n - |t|, _ => '0') + t else t[..n]
  }

  /** The text of a value: nothing for one that is absent or zero. */
  function TextFor(v: Value, shown: string): string {
    if v.Text? then v.s else if v.Num? && v.n != 0 then shown else ""
  }

  function NumberFor(v: Value, numberOfText: string -> int): int {
    if v.Num? then v.n else if v.Text? then numberOfText(v.s) else 0
  }

  // ---- whole numbers as text ----

  function Horner(digits: string): int {
    if digits == "" then 0 else Horner(digits[..|digits| - 1]) * 10 + DecimalValue(digits[|digits| - 1])
  }

  /** The digits of a number, without leading zeros, behind a minus sign if it is negative. */
  predicate IsShown(s: string, n: int) {
    var digits := if n < 0 && s != "" then s[1..] else s;
    && digits != "" && Digits(digits) && Horner(digits) == (if n < 0 then -n else n)
    && (|digits| > 1 ==> digits[0] != '0') && (n < 0 ==> s[0] == '-')
  }

  lemma {:induction false} DecimalIsShown(n: nat)
    ensures IsShown(Decimal(n), n) && (n > 0 ==> Decimal(n)[0] != '0')
  {
    if n >= 10 {
      DecimalIsShown(n / 10);
      assert Decimal(n)[..|Decimal(n)| - 1] == Decimal(n / 10);
    } else {
      assert Decimal(n)[..0] == "";
    }
  }

  lemma ShownIsShown(n: int)
    ensures IsShown(Shown(n), n)
  {
    if n < 0 {
      DecimalIsShown(-n);
      assert Shown(n)[1..] == Decimal(-n);
    } else {
      DecimalIsShown(n);
    }
  }

  lemma {:induction false} HornerIsPositive(d: string)
    requires d != "" && Digits(d) && d[0] != '0'
    ensures Horner(d) >= 1
    decreases |d|
  {
    if |d| > 1 {
      HornerIsPositive(d[..|d| - 1]);
    }
  }

  lemma {:induction false} DecimalIsOnly(d: string)
    requires d != "" && Digits(d) && (|d| > 1 ==> d[0] != '0')
    ensures Horner(d) >= 0 && d == Decimal(Horner(d))
    decreases |d|
  {
    var init, last := d[..|d| - 1], d[|d| - 1];
    if |d| > 1 {
      HornerIsPositive(init);
      DecimalIsOnly(init);
      assert Horner(d) / 10 == Horner(init) && Horner(d) % 10 == DecimalValue(last);
      assert d == init + [last];
    }
  }

  /** There is only one such text. */
  lemma ShownIsOnly(s: string, n: int)
    requires IsShown(s, n)
    ensures s == Shown(n)
  {
    if n < 0 {
      DecimalIsOnly(s[1..]);
      assert s == [s[0]] + s[1..];
    } else {
      DecimalIsOnly(s);
    }
  }

  // ---- hexadecimal text ----

  predicate IsPair(c: char, d: char) {
    IsHexDigit(c) && IsHexDigit(d)
  }

  predicate Packs(b: Byte, c: char, d: char) {
    IsPair(c, d) && b == 16 * HexValue(c) + HexValue(d)
  }

  /** The pairs of hex digits up to the first pair that is none are stored, then zeros. */
  ghost predicate PairsThenZeros(b: Bytes, s: string, k: nat)
    requires |s| == 2 * |b|
  {
    && k <= |b|
    && (forall i :: 0 <= i < k ==> Packs(b[i], s[2 * i], s[2 * i + 1]))
    && (k < |b| ==> !IsPair(s[2 * k], s[2 * k + 1]))
    && (forall i :: k <= i < |b| ==> b[i] == 0)
  }

  lemma {:induction false} HexBytesArePairs(s: string, length: nat)
    requires |s| == 2 * length
    ensures var b := HexBytes(s); |b| <= length && PairsThenZeros(b + Zeros(length - |b|), s, |b|)
    decreases length
  {
    var b := HexBytes(s);
    if b != [] {
      HexBytesArePairs(s[2..], length - 1);
      var rest := HexBytes(s[2..]) + Zeros(length - |b|);
      assert b + Zeros(length - |b|) == [b[0]] + rest;
      assert Packs(b[0], s[0], s[1]);
      PairInFront(b[0], rest, s, |b| - 1);
    }
  }

  lemma PairInFront(first: Byte, rest: Bytes, s: string, k: nat)
    requires |s| == 2 * |rest| + 2 && PairsThenZeros(rest, s[2..], k) && Packs(first, s[0], s[1])
    ensures PairsThenZeros([first] + rest, s, k + 1)
  {
    var b := [first] + rest;
    forall i | 0 <= i < k + 1 ensures Packs(b[i], s[2 * i], s[2 * i + 1]) {
      if i > 0 {
        Shifted(rest, s, i - 1);
        assert Packs(rest[i - 1], s[2..][2 * (i - 1)], s[2..][2 * (i - 1) + 1]);
      }
    }
    if k < |rest| {
      Shifted(rest, s, k);
    }
  }

  lemma Shifted(rest: Bytes, s: string, i: nat)
    requires |s| == 2 * |rest| + 2 && i < |rest|
    ensures s[2..][2 * i] == s[2 * (i + 1)] && s[2..][2 * i + 1] == s[2 * (i + 1) + 1]
  {
  }

  /** Any value in a hex field: its text with zeros in front, or its first characters, is
      stored pair by pair up to the first pair that is not hexadecimal. */
  lemma HexIsStored(f: Field, v: Value, numberOfText: string -> int, shown: string)
    requires f.kind == Hex && (v.Num? ==> IsShown(shown, v.n))
    ensures Stored(f, v, numberOfText).Some?
    ensures exists k: nat ::
      PairsThenZeros(Stored(f, v, numberOfText).value, InPlaces(TextFor(v, shown), 2 * f.length), k)
  {
    TextIsTextOf(v, shown);
    StoredHex(f, v, numberOfText);
    HexBytesArePairs(InPlaces(TextOf(v), 2 * f.length), f.length);
  }

  lemma TextIsTextOf(v: Value, shown: string)
    requires v.Num? ==> IsShown(shown, v.n)
    ensures TextFor(v, shown) == TextOf(v)
  {
    if v.Num? {
      ShownIsOnly(shown, v.n);
    }
  }

  lemma PaddedInPlaces(t: string, n: nat)
    ensures First(PadStart(t, n, '0'), n) == InPlaces(t, n)
  {
  }

  lemma StoredHex(f: Field, v: Value, numberOfText: string -> int)
    requires f.kind == Hex
    ensures var b := HexBytes(InPlaces(TextOf(v), 2 * f.length));
      |b| <= f.length && Stored(f, v, numberOfText) == Some(b + Zeros(f.length - |b|))
  {
    PaddedInPlaces(TextOf(v), 2 * f.length);
  }

  /** The bytes shown as hex digits, two a byte. */
  predicate ShownAsHex(b: Bytes, s: string) {
    |s| == 2 * |b| && forall i :: 0 <= i < |b| ==> Shows(s[2 * i], b[i] / 16) && Shows(s[2 * i + 1], b[i] % 16)
  }

  lemma UpperIsShown(b: Bytes, s: string, k: nat)
    requires |s| == 2 * |b| && UpperHex(s) && PairsThenZeros(b, s, k)
    ensures ShownAsHex(b, s)
  {
    assert k == |b| by {
      assert k < |b| ==> IsPair(s[2 * k], s[2 * k + 1]);
    }
    forall i | 0 <= i < |b| ensures Shows(s[2 * i], b[i] / 16) && Shows(s[2 * i + 1], b[i] % 16) {
      PackedIsShown(b[i], s[2 * i], s[2 * i + 1]);
    }
  }

  lemma PackedIsShown(b: Byte, c: char, d: char)
    requires Packs(b, c, d) && UpperHex([c, d])
    ensures Shows(c, b / 16) && Shows(d, b % 16)
  {
    assert [c, d][0] == c && [c, d][1] == d;
  }

  lemma ZerosAreUpper(t: string, n: nat)
    requires UpperHex(t)
    ensures UpperHex(seq(n, _ => '0') + t)
  {
  }

  /** The bytes of an upper-case hex text that is not too long, shown as hex, end in the
      text, and everything before it is '0'. */
  lemma HexTextIsStored(f: Field, t: string, numberOfText: string -> int)
    requires f.kind == Hex && UpperHex(t) && |t| <= 2 * f.length
    ensures Stored(f, Text(t), numberOfText).Some?
    ensures ShownAsHex(Stored(f, Text(t), numberOfText).value, seq(2 * f.length - |t|, _ => '0') + t)
  {
    HexIsStored(f, Text(t), numberOfText, "");
    var b, s := Stored(f, Text(t), numberOfText).value, InPlaces(t, 2 * f.length);
    var k: nat :| PairsThenZeros(b, s, k);
    ZerosAreUpper(t, 2 * f.length - |t|);
    UpperIsShown(b, s, k);
  }

  /** Of one that is too long the first characters are stored. */
  lemma LongHexTextIsStored(f: Field, t: string, numberOfText: string -> int)
    requires f.kind == Hex && UpperHex(t) && |t| > 2 * f.length
    ensures Stored(f, Text(t), numberOfText).Some?
    ensures ShownAsHex(Stored(f, Text(t), numberOfText).value, t[..2 * f.length])
  {
    HexIsStored(f, Text(t), numberOfText, "");
    var k: nat :| PairsThenZeros(Stored(f, Text(t), numberOfText).value, t[..2 * f.length], k);
    UpperIsShown(Stored(f, Text(t), numberOfText).value, t[..2 * f.length], k);
  }

  lemma {:induction false} HexTextShows(b: Bytes)
    ensures ShownAsHex(b, HexText(b))
  {
    if b != [] {
      HexTextShows(b[1..]);
      var s := HexText(b);
      forall i | 0 <= i < |b| ensures Shows(s[2 * i], b[i] / 16) && Shows(s[2 * i + 1], b[i] % 16) {
        if i > 0 {
          assert s[2 * i] == HexText(b[1..])[2 * (i - 1)] && s[2 * i + 1] == HexText(b[1..])[2 * (i - 1) + 1];
          assert b[1..][i - 1] == b[i];
        }
      }
    }
  }

  lemma HexIsRead(f: Field, b: Bytes)
    requires f.kind == Hex
    ensures Decode(f, b).Text? && ShownAsHex(b, Decode(f, b).s)
  {
    HexTextShows(b);
  }

  // ---- text ----

  /** Any value in a text field: the low bytes of its first characters, then spaces. */
  lemma TextIsStored(f: Field, v: Value, numberOfText: string -> int, shown: string)
    requires f.kind == Ascii && (v.Num? ==> IsShown(shown, v.n))
    ensures Stored(f, v, numberOfText).Some?
    ensures var b, t := Stored(f, v, numberOfText).value, TextFor(v, shown);
      forall i :: 0 <= i < f.length ==> b[i] == if i < |t| then t[i] as int % 256 else 32
  {
    TextIsTextOf(v, shown);
    StoredText(f, v, numberOfText);
  }

  predicate Blank(c: char) {
    c as int == 32 || 9 <= c as int <= 13
  }

  ghost predicate StartCut(s: string, t: string, i: nat) {
    i <= |s| && t == s[i..] && forall k :: 0 <= k < i ==> Blank(s[k])
  }

  ghost predicate EndCut(s: string, t: string, j: nat) {
    j <= |s| && t == s[..j] && forall k :: j <= k < |s| ==> Blank(s[k])
  }

  lemma {:induction false} TrimStartCuts(s: string)
    ensures StartCut(s, TrimStart(s), |s| - |TrimStart(s)|)
  {
    if s != "" && IsBlank(s[0]) {
      TrimStartCuts(s[1..]);
      forall k | 0 <= k < |s| - |TrimStart(s)| ensures Blank(s[k]) {
        assert k > 0 ==> s[k] == s[1..][k - 1];
      }
    }
  }

  lemma {:induction false} TrimEndCuts(s: string)
    ensures EndCut(s, TrimEnd(s), |TrimEnd(s)|)
  {
    if s != "" && IsBlank(s[|s| - 1]) {
      var init := s[..|s| - 1];
      TrimEndCuts(init);
      forall k | |TrimEnd(s)| <= k < |s| ensures Blank(s[k]) {
        assert k < |s| - 1 ==> s[k] == init[k];
      }
    }
  }

  /** The characters from i up to j, with only blanks around them and none at their ends. */
  ghost predicate CutOut(s: string, t: string, i: nat, j: nat) {
    && i <= j <= |s| && t == s[i..j]
    && (forall k :: 0 <= k < i || j <= k < |s| ==> Blank(s[k]))
    && (t != "" ==> !Blank(t[0]) && !Blank(t[|t| - 1]))
  }

  lemma CutTwice(s: string, t: string, u: string, i: nat, j: nat)
    requires StartCut(s, t, i) && EndCut(t, u, j)
    requires u != "" ==> !Blank(u[0]) && !Blank(u[|u| - 1])
    ensures CutOut(s, u, i, i + j)
  {
    assert u == s[i..i + j];
    forall k | 0 <= k < i || i + j <= k < |s| ensures Blank(s[k]) {
      assert k >= i ==> s[k] == t[k - i];
    }
  }

  lemma TrimCutsOut(s: string)
    ensures exists i: nat, j: nat :: CutOut(s, Trim(s), i, j)
  {
    var t := TrimStart(s);
    TrimStartCuts(s);
    TrimEndCuts(t);
    TrimGivesTrimmed(s);
    CutTwice(s, t, Trim(s), |s| - |t|, |Trim(s)|);
  }

  /** What is read from a text field: its bytes as seven-bit characters, without the blanks
      around them. */
  lemma TextIsRead(f: Field, b: Bytes, s: string)
    requires f.kind == Ascii && |s| == |b| && forall i :: 0 <= i < |b| ==> s[i] as int == b[i] % 128
    ensures Decode(f, b).Text? && exists i: nat, j: nat :: CutOut(s, Decode(f, b).s, i, j)
  {
    assert s == AsciiText(b);
    TrimCutsOut(s);
  }

  // ---- packed decimals ----

  /** Any value in a packed decimal: its number with zeros in front, or the first characters
      of a longer one, two characters a byte; a minus sign counts as zero. */
  lemma BcdIsStored(f: Field, v: Value, numberOfText: string -> int, shown: string)
    requires f.kind == Bcd && LengthMatches(f)
    requires IsShown(shown, NumberFor(v, numberOfText))
    ensures Stored(f, v, numberOfText).Some?
    ensures var b, s := Stored(f, v, numberOfText).value, InPlaces(shown, 2 * f.length);
      forall i :: 0 <= i < f.length ==> b[i] == 16 * DecimalValue(s[2 * i]) + DecimalValue(s[2 * i + 1])
  {
    ShownIsOnly(shown, NumberFor(v, numberOfText));
    StoredPacked(f, v, numberOfText);
    BcdBytesArePairs(shown, f.length);
  }

  lemma StoredPacked(f: Field, v: Value, numberOfText: string -> int)
    requires f.kind == Bcd && LengthMatches(f)
    ensures Stored(f, v, numberOfText)
         == Some(BcdBytes(PadStart(Shown(NumberFor(v, numberOfText)), 2 * f.length, '0'), f.length))
  {
    NothingToFill(BcdBytes(PadStart(Shown(NumberFor(v, numberOfText)), 2 * f.length, '0'), f.length));
  }

  lemma BcdBytesArePairs(t: string, length: nat)
    ensures var b, s := BcdBytes(PadStart(t, 2 * length, '0'), length), InPlaces(t, 2 * length);
      forall i :: 0 <= i < length ==> b[i] == 16 * DecimalValue(s[2 * i]) + DecimalValue(s[2 * i + 1])
  {
    var p, s := PadStart(t, 2 * length, '0'), InPlaces(t, 2 * length);
    assert p[..2 * length] == s;
    forall i | 0 <= i < length ensures p[2 * i] == s[2 * i] && p[2 * i + 1] == s[2 * i + 1] {
      assert p[..2 * length][2 * i] == s[2 * i] && p[..2 * length][2 * i + 1] == s[2 * i + 1];
    }
  }

  /** A nibble behind a number: one above nine takes two places. */
  function Behind(n: int, nibble: int): int {
    if nibble < 10 then n * 10 + nibble else n * 100 + nibble
  }

  function PackedValue(b: Bytes): int {
    if b == [] then 0
    else Behind(Behind(PackedValue(b[..|b| - 1]), b[|b| - 1] / 16), b[|b| - 1] % 16)
  }

  lemma ParsedBehind(s: string, nibble: int)
    requires 0 <= nibble < 16
    ensures Parsed(s + NibbleText(nibble)) == Behind(Parsed(s), nibble)
  {
    var t := s + NibbleText(nibble);
    if nibble < 10 {
      assert t[..|t| - 1] == s;
    } else {
      assert t[..|t| - 1] == s + "1" && (s + "1")[..|s|] == s;
      assert Parsed(s + "1") == Parsed(s) * 10 + 1;
    }
  }

  lemma {:induction false} ParsedIsPacked(b: Bytes)
    ensures Parsed(BcdText(b)) == PackedValue(b)
  {
    if b != [] {
      ParsedIsPacked(b[..|b| - 1]);
      OneMorePacked(BcdText(b[..|b| - 1]), b[|b| - 1]);
    }
  }

  lemma OneMorePacked(s: string, b: Byte)
    ensures Parsed(s + (NibbleText(b / 16) + NibbleText(b % 16))) == Behind(Behind(Parsed(s), b / 16), b % 16)
  {
    var high, low := NibbleText(b / 16), NibbleText(b % 16);
    ParsedBehind(s, b / 16);
    ParsedBehind(s + high, b % 16);
    assert s + (high + low) == s + high + low;
  }

  lemma BcdIsRead(f: Field, b: Bytes)
    requires f.kind == Bcd
    ensures Decode(f, b) == Num(PackedValue(b))
  {
    ParsedIsPacked(b);
  }

  // ---- fixed-width numbers ----

  /** The bounds of the five number types, and by how much a negative number is raised. */
  function Least(kind: FieldType): int {
    match kind case Int16be => -32768 case Int32be => -2147483648 case _ => 0
  }

  function Most(kind: FieldType): int {
    match kind
    case Uint8 => 255
    case Uint16be => 65535
    case Uint32be => 4294967295
    case Int16be => 32767
    case _ => 2147483647
  }

  function Raise(kind: FieldType): int {
    match kind case Int16be => 65536 case _ => 4294967296
  }

  /** The bytes as a big-endian number. */
  function BigEndianValue(b: Bytes): int {
    if |b| == 1 then b[0]
    else if |b| == 2 then b[0] as int * 256 + b[1]
    else if |b| == 4 then b[0] as int * 16777216 + b[1] as int * 65536 + b[2] as int * 256 + b[3]
    else 0
  }

  /** Any value in a number field: out of bounds the write throws, else the bytes hold it,
      a negative one in two's complement. */
  lemma NumberIsStored(f: Field, v: Value, numberOfText: string -> int)
    requires IsNumeric(f.kind) && LengthMatches(f)
    ensures var n := NumberFor(v, numberOfText);
      && (Stored(f, v, numberOfText).Some? <==> Least(f.kind) <= n <= Most(f.kind))
      && (Stored(f, v, numberOfText).Some? ==>
            BigEndianValue(Stored(f, v, numberOfText).value) == if n < 0 then n + Raise(f.kind) else n)
  {
    var n := NumberFor(v, numberOfText);
    PowerSmall();
    StoredNumber(f, v, numberOfText);
    if Low(f.kind) <= n < High(f.kind) {
      Bounds(f.kind);
      Wrapped(n, Power(256, Width(f.kind)), IsSigned(f.kind));
      NumberOfBigEndian(n % Power(256, Width(f.kind)), Width(f.kind));
      UnsignedIsNumber(BigEndian(n % Power(256, Width(f.kind)), Width(f.kind)));
    }
  }

  lemma NumberIsRead(f: Field, b: Bytes)
    requires IsNumeric(f.kind) && LengthMatches(f) && |b| == f.length
    ensures var n := BigEndianValue(b); Decode(f, b) == Num(if n > Most(f.kind) then n - Raise(f.kind) else n)
  {
    PowerSmall();
  }
}
