/** One field of a binary record: the bytes of a value, the value of some bytes, and
    exactly when each undoes the other. */
module SerializerFields {
  import opened Prelude

  datatype FieldType = Uint8 | Uint16be | Uint32be | Int16be | Int32be | Ascii | Hex | Bcd

  datatype Field = Field(name: string, kind: FieldType, length: nat)

  /** A value of a record: absent, a whole number or a text. */
  datatype Value = Absent | Num(n: int) | Text(s: string)

  /** Numbers the original represents exactly. */
  const MAX_SAFE := 9007199254740991

  // ---- numbers as text ----

  function DigitChar(d: int): char
    requires 0 <= d < 10
  {
    (d + '0' as int) as char
  }

  /** parseInt of one character; a character that is no digit gives NaN, which bit
      operations read as zero. */
  function DigitValue(c: char): (d: Byte)
    ensures d < 10
  {
    if '0' <= c <= '9' then c as int - '0' as int else 0
  }

  function Decimal(n: nat): (s: string)
    ensures |s| >= 1
    ensures forall i :: 0 <= i < |s| ==> '0' <= s[i] <= '9'
  {
    if n < 10 then [DigitChar(n)] else Decimal(n / 10) + [DigitChar(n % 10)]
  }

  /** String(n). */
  function Shown(n: int): string {
    if n < 0 then "-" + Decimal(-n) else Decimal(n)
  }

  function Repeat(c: char, n: int): string {
    if n <= 0 then "" else seq(n, _ => c)
  }

  function PadStart(s: string, n: nat, c: char): string {
    Repeat(c, n - |s|) + s
  }

  function PadEnd(s: string, n: nat, c: char): string {
    s + Repeat(c, n - |s|)
  }

  function First(s: string, n: nat): string {
    if |s| > n then s[..n] else s
  }

  /** parseInt of a string of digits. */
  function Parsed(s: string): nat {
    if s == "" then 0 else Parsed(s[..|s| - 1]) * 10 + DigitValue(s[|s| - 1])
  }

  // ---- coercions ----

  /** Number(value) || 0. What the runtime makes of a text is a parameter. */
  function NumberOf(v: Value, numberOfText: string -> int): int {
    match v
    case Absent => 0
    case Num(n) => n
    case Text(s) => numberOfText(s)
  }

  /** String(value || ''). */
  function TextOf(v: Value): string {
    match v
    case Absent => ""
    case Num(n) => if n == 0 then "" else Shown(n)
    case Text(s) => s
  }

  // ---- characters ----

  /** The characters trim removes, among those a seven-bit reader can produce. */
  predicate IsBlank(c: char) {
    c == ' ' || 9 <= c as int <= 13
  }

  function TrimStart(s: string): (t: string)
    ensures |t| <= |s|
    ensures t != "" ==> !IsBlank(t[0])
  {
    if s != "" && IsBlank(s[0]) then TrimStart(s[1..]) else s
  }

  function TrimEnd(s: string): (t: string)
    ensures t <= s
    ensures t != "" ==> !IsBlank(t[|t| - 1])
  {
    if s != "" && IsBlank(s[|s| - 1]) then TrimEnd(s[..|s| - 1]) else s
  }

  function Trim(s: string): string {
    TrimEnd(TrimStart(s))
  }

  function HexChar(d: int): char
    requires 0 <= d < 16
  {
    if d < 10 then DigitChar(d) else (d - 10 + 'A' as int) as char
  }

  function HexDigit(c: char): (d: int)
    ensures -1 <= d < 16
  {
    if '0' <= c <= '9' then c as int - '0' as int
    else if 'A' <= c <= 'F' then c as int - 'A' as int + 10
    else if 'a' <= c <= 'f' then c as int - 'a' as int + 10
    else -1
  }

  /** Buffer.from(text, 'hex'): stops at the first pair that is not two hex digits. */
  function HexBytes(s: string): (b: Bytes)
    ensures |b| <= |s| / 2
  {
    if |s| < 2 || HexDigit(s[0]) < 0 || HexDigit(s[1]) < 0 then []
    else [HexDigit(s[0]) * 16 + HexDigit(s[1])] + HexBytes(s[2..])
  }

  function HexText(b: Bytes): (s: string)
    ensures |s| == 2 * |b|
  {
    if b == [] then "" else [HexChar(b[0] / 16), HexChar(b[0] % 16)] + HexText(b[1..])
  }

  function AsciiBytes(s: string): (b: Bytes)
    ensures |b| == |s|
  {
    seq(|s|, i requires 0 <= i < |s| => s[i] as int % 256)
  }

  function AsciiText(b: Bytes): (s: string)
    ensures |s| == |b|
  {
    seq(|b|, i requires 0 <= i < |b| => (b[i] % 128) as char)
  }

  /** Packing two decimal characters a byte; the characters beyond 2 * length are not looked at. */
  function BcdBytes(s: string, length: nat): (b: Bytes)
    requires |s| >= 2 * length
    ensures |b| == length
  {
    seq(length, i requires 0 <= i < length => DigitValue(s[2 * i]) * 16 + DigitValue(s[2 * i + 1]))
  }

  /** A nibble shown in decimal: one above nine takes two characters. */
  function NibbleText(d: int): string
    requires 0 <= d < 16
  {
    if d < 10 then [DigitChar(d)] else ['1', DigitChar(d - 10)]
  }

  lemma NibbleIsShown(d: int)
    requires 0 <= d < 16
    ensures NibbleText(d) == Shown(d)
  {
    assert d >= 10 ==> Decimal(d / 10) == "1";
  }

  function BcdText(b: Bytes): string {
    if b == [] then ""
    else BcdText(b[..|b| - 1]) + (NibbleText(b[|b| - 1] / 16) + NibbleText(b[|b| - 1] % 16))
  }

  // ---- one field ----

  function Width(kind: FieldType): nat {
    match kind
    case Uint8 => 1
    case Uint16be => 2
    case Int16be => 2
    case _ => 4
  }

  predicate IsNumeric(kind: FieldType) {
    kind.Uint8? || kind.Uint16be? || kind.Uint32be? || kind.Int16be? || kind.Int32be?
  }

  predicate IsSigned(kind: FieldType) {
    kind.Int16be? || kind.Int32be?
  }

  predicate LengthMatches(f: Field) {
    (IsNumeric(f.kind) ==> f.length == Width(f.kind)) && (f.kind.Bcd? ==> f.length >= 1)
  }

  function Low(kind: FieldType): int {
    if IsSigned(kind) then -(Power(256, Width(kind)) / 2) else 0
  }

  function High(kind: FieldType): int {
    if IsSigned(kind) then Power(256, Width(kind)) / 2 else Power(256, Width(kind))
  }

  /** The bytes a field writes, or None where the write throws. A hex text may yield fewer
      bytes than the field is long. */
  function Encode(f: Field, v: Value, numberOfText: string -> int): (r: Option<Bytes>)
    ensures r.Some? && IsNumeric(f.kind) ==> |r.value| == Width(f.kind)
    ensures r.Some? && !IsNumeric(f.kind) ==> |r.value| <= f.length
  {
    match f.kind
    case Ascii => Some(AsciiBytes(First(PadEnd(TextOf(v), f.length, ' '), f.length)))
    case Hex => Some(HexBytes(First(PadStart(TextOf(v), 2 * f.length, '0'), 2 * f.length)))
    case Bcd => Some(BcdBytes(PadStart(Shown(NumberOf(v, numberOfText)), 2 * f.length, '0'), f.length))
    case _ =>
      var n := NumberOf(v, numberOfText);
      if Low(f.kind) <= n < High(f.kind)
      then Some(BigEndian(n % Power(256, Width(f.kind)), Width(f.kind)))
      else None
  }

  /** What a blank field of a record holds once it is written. */
  function Stored(f: Field, v: Value, numberOfText: string -> int): (r: Option<Bytes>)
    requires LengthMatches(f)
    ensures r.Some? ==> |r.value| == f.length
  {
    match Encode(f, v, numberOfText)
    case None => None
    case Some(b) => Some(b + Zeros(f.length - |b|))
  }

  /** readUInt8, readUInt16BE and readUInt32BE. */
  function Unsigned(b: Bytes): nat {
    if |b| == 1 then b[0]
    else if |b| == 2 then b[0] as int * 0x100 + b[1]
    else if |b| == 4 then b[0] as int * 0x100_0000 + b[1] as int * 0x1_0000 + b[2] as int * 0x100 + b[3]
    else 0
  }

  /** What a reader makes of the number in the bytes: two's complement. */
  function Signed(kind: FieldType, n: int): int {
    if IsSigned(kind) && n >= High(kind) then n - Power(256, Width(kind)) else n
  }

  /** The value of the bytes of a field. */
  function Decode(f: Field, b: Bytes): Value {
    match f.kind
    case Ascii => Text(Trim(AsciiText(b)))
    case Hex => Text(HexText(b))
    case Bcd => Num(Parsed(BcdText(b)))
    case _ => Num(Signed(f.kind, Unsigned(b)))
  }

  // ---- a field seen from its record ----

  /** Encode and Decode, kept abstract: what is proved of whole records does not look into
      their fields, except where EncodingIsEncode and DecodingIsDecode are called. */
  ghost function Encoding(f: Field, v: Value, numberOfText: string -> int): (r: Option<Bytes>)
    ensures r.Some? && IsNumeric(f.kind) ==> |r.value| == Width(f.kind)
    ensures r.Some? && !IsNumeric(f.kind) ==> |r.value| <= f.length
  {
    assert forall g: Field :: g.kind == f.kind && g.length == f.length ==>
      Encode(f, v, numberOfText) == Encode(g, v, numberOfText);
    var r :| forall g: Field {:trigger Encode(g, v, numberOfText)} ::
      g.kind == f.kind && g.length == f.length ==> r == Encode(g, v, numberOfText);
    assert r == Encode(f, v, numberOfText);
    r
  }

  lemma EncodingIsEncode(f: Field, v: Value, numberOfText: string -> int)
    ensures Encoding(f, v, numberOfText) == Encode(f, v, numberOfText)
  {
  }

  /** Stored, as seen from a record. */
  ghost function Storing(f: Field, v: Value, numberOfText: string -> int): (r: Option<Bytes>)
    requires LengthMatches(f)
    ensures r.Some? ==> |r.value| == f.length
  {
    match Encoding(f, v, numberOfText)
    case None => None
    case Some(b) => Some(b + Zeros(f.length - |b|))
  }

  ghost function Decoding(f: Field, b: Bytes): Value {
    assert forall g: Field :: g.kind == f.kind ==> Decode(f, b) == Decode(g, b);
    var v :| forall g: Field {:trigger Decode(g, b)} :: g.kind == f.kind ==> v == Decode(g, b);
    v
  }

  lemma DecodingIsDecode(f: Field, b: Bytes)
    ensures Decoding(f, b) == Decode(f, b)
  {
  }
}
