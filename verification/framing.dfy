/** How a byte stream falls apart into frames: a description that mentions no scanner,
    and the one function that computes it. */
module Framing {
  import opened Prelude
  import opened Telegrams

  /** The longest incomplete frame: one byte short of a frame with the largest data area. */
  const MAX_RESIDUAL := 65547

  /** A stream cut up: junk, a frame, and so on, ending in junk and an incomplete frame. */
  datatype Cut =
    | Last(junk: Bytes, residual: Bytes)
    | More(junk: Bytes, frame: Bytes, rest: Cut)

  predicate FreeOfStx(b: Bytes) {
    STX !in b
  }

  /** The size of the frame that starts with this header. */
  function FrameSize(b: Bytes): (n: nat)
    requires |b| >= HEADER_SIZE
    ensures MIN_TELEGRAM_SIZE <= n <= MAX_RESIDUAL + 1
  {
    HEADER_SIZE + DataLength(b) + 1
  }

  predicate IsFrame(b: Bytes) {
    |b| >= HEADER_SIZE && b[0] == STX && |b| == FrameSize(b)
  }

  predicate IsIncomplete(b: Bytes) {
    b == [] || (b[0] == STX && (|b| < HEADER_SIZE || |b| < FrameSize(b)))
  }

  lemma FrameSizeIsInTheHeader(b: Bytes, after: Bytes)
    requires |b| >= HEADER_SIZE
    ensures FrameSize(b + after) == FrameSize(b)
  {
    assert (b + after)[10..12] == b[10..12];
  }

  predicate WellCut(c: Cut) {
    FreeOfStx(c.junk) &&
    match c
    case Last(_, residual) => IsIncomplete(residual)
    case More(_, frame, rest) => IsFrame(frame) && WellCut(rest)
  }

  /** The stream a cut is a cut of. */
  function Whole(c: Cut): Bytes {
    match c
    case Last(junk, residual) => junk + residual
    case More(junk, frame, rest) => junk + frame + Whole(rest)
  }

  function Frames(c: Cut): seq<Bytes> {
    match c
    case Last(_, _) => []
    case More(_, frame, rest) => [frame] + Frames(rest)
  }

  function Residual(c: Cut): Bytes {
    match c
    case Last(_, residual) => residual
    case More(_, _, rest) => Residual(rest)
  }

  function JunkSize(c: Cut): nat {
    |c.junk| + if c.More? then JunkSize(c.rest) else 0
  }

  function TotalSize(frames: seq<Bytes>): nat {
    if frames == [] then 0 else |frames[0]| + TotalSize(frames[1..])
  }

  /** Position of the first STX, or the length where there is none. */
  function IndexOfStx(b: Bytes): (i: nat)
    ensures i <= |b|
    ensures FreeOfStx(b[..i])
    ensures i < |b| ==> b[i] == STX
  {
    if b == [] || b[0] == STX then 0
    else
      var i := 1 + IndexOfStx(b[1..]);
      assert b[..i] == [b[0]] + b[1..][..i - 1];
      i
  }

  lemma FrameAtTheFront(b: Bytes)
    requires |b| >= HEADER_SIZE && b[0] == STX && |b| >= FrameSize(b)
    ensures IsFrame(b[..FrameSize(b)]) && b == b[..FrameSize(b)] + b[FrameSize(b)..]
  {
    var n := FrameSize(b);
    assert b == b[..n] + b[n..];
    FrameSizeIsInTheHeader(b[..n], b[n..]);
  }

  /** Some cut of the stream, found from the front. */
  lemma {:induction false} FindCut(b: Bytes) returns (c: Cut)
    ensures WellCut(c) && Whole(c) == b
    decreases |b|
  {
    var i := IndexOfStx(b);
    var junk, found := b[..i], b[i..];
    assert b == junk + found;
    if |found| >= HEADER_SIZE && |found| >= FrameSize(found) {
      var n := FrameSize(found);
      FrameAtTheFront(found);
      var rest := FindCut(found[n..]);
      c := More(junk, found[..n], rest);
      Associative(junk, found[..n], found[n..]);
    } else {
      c := Last(junk, found);
    }
  }

  lemma CutExists(b: Bytes)
    ensures exists c :: WellCut(c) && Whole(c) == b
  {
    var c := FindCut(b);
  }

  /** The cut of a stream. That there is only one is `OnlyOneCut`. */
  ghost function CutOf(b: Bytes): (c: Cut)
    ensures WellCut(c) && Whole(c) == b
  {
    CutExists(b);
    var c :| WellCut(c) && Whole(c) == b;
    c
  }

  lemma {:induction false} FirstStxIsWhereItIs(junk: Bytes, after: Bytes)
    requires FreeOfStx(junk) && (after == [] || after[0] == STX)
    ensures IndexOfStx(junk + after) == |junk|
  {
    if junk == [] {
      assert junk + after == after;
    } else {
      assert (junk + after)[0] == junk[0] && junk[0] in junk;
      assert (junk + after)[1..] == junk[1..] + after;
      FirstStxIsWhereItIs(junk[1..], after);
    }
  }

  // ---- the steps of a scanner ----

  function WithoutJunk(c: Cut): Cut {
    if c.Last? then Last([], c.residual) else More([], c.frame, c.rest)
  }

  /** Searching for STX finds the end of the junk. */
  lemma JunkComesFirst(c: Cut)
    requires WellCut(c)
    ensures IndexOfStx(Whole(c)) == |c.junk|
    ensures Whole(c)[|c.junk|..] == Whole(WithoutJunk(c))
    ensures WellCut(WithoutJunk(c))
    ensures Frames(WithoutJunk(c)) == Frames(c) && Residual(WithoutJunk(c)) == Residual(c)
  {
    var after := if c.Last? then c.residual else c.frame + Whole(c.rest);
    if c.More? {
      Associative(c.junk, c.frame, Whole(c.rest));
    }
    FirstStxIsWhereItIs(c.junk, after);
  }

  /** The length in the header tells whether a whole frame comes next, and which. */
  lemma FrameComesNext(c: Cut)
    requires WellCut(c) && c.junk == []
    ensures var b := Whole(c);
      && (c.More? <==> |b| >= HEADER_SIZE && |b| >= FrameSize(b))
      && (c.More? ==> b[..FrameSize(b)] == c.frame && b[FrameSize(b)..] == Whole(c.rest))
      && (c.Last? ==> b == c.residual)
  {
    if c.More? {
      FrameSizeIsInTheHeader(c.frame, Whole(c.rest));
      assert Whole(c) == c.frame + Whole(c.rest);
    } else {
      assert Whole(c) == c.residual;
    }
  }

  lemma NothingAhead(c: Cut)
    requires WellCut(c) && (Whole(c) == [] || (c.Last? && c.junk == []))
    ensures Frames(c) == [] && Residual(c) == Whole(c)
  {
    if c.Last? {
      assert Whole(c) == c.junk + c.residual;
      assert [] + c.residual == c.residual;
    }
  }

  // ---- uniqueness ----

  /** There is only one way to cut a stream. */
  lemma {:induction false} OnlyOneCut(c: Cut, d: Cut)
    requires WellCut(c) && WellCut(d) && Whole(c) == Whole(d)
    ensures c == d
  {
    JunkComesFirst(c);
    JunkComesFirst(d);
    assert Whole(c)[..|c.junk|] == c.junk && Whole(d)[..|d.junk|] == d.junk;
    FrameComesNext(WithoutJunk(c));
    FrameComesNext(WithoutJunk(d));
    if c.More? {
      OnlyOneCut(c.rest, d.rest);
    }
  }

  /** Every byte string falls apart in exactly one way. */
  lemma UniqueDecomposition(b: Bytes, c: Cut)
    ensures WellCut(c) && Whole(c) == b <==> c == CutOf(b)
  {
    if WellCut(c) && Whole(c) == b {
      OnlyOneCut(c, CutOf(b));
    }
  }

  /** Every byte is junk, in a frame or left over, and what is left over is bounded. */
  lemma {:induction false} EveryByteAccountedFor(c: Cut)
    requires WellCut(c)
    ensures |Whole(c)| == JunkSize(c) + TotalSize(Frames(c)) + |Residual(c)|
    ensures Residual(c) == [] || Residual(c)[0] == STX
    ensures |Residual(c)| <= MAX_RESIDUAL
  {
    if c.More? {
      EveryByteAccountedFor(c.rest);
      assert Frames(c)[1..] == Frames(c.rest);
    }
  }

  // ---- cutting a stream that arrives in pieces ----

  function Prepend(junk: Bytes, c: Cut): Cut {
    match c
    case Last(j, r) => Last(junk + j, r)
    case More(j, f, rest) => More(junk + j, f, rest)
  }

  lemma PrependIsACut(junk: Bytes, c: Cut)
    requires FreeOfStx(junk) && WellCut(c)
    ensures WellCut(Prepend(junk, c))
    ensures Whole(Prepend(junk, c)) == junk + Whole(c)
    ensures Frames(Prepend(junk, c)) == Frames(c) && Residual(Prepend(junk, c)) == Residual(c)
  {
    match c
    case Last(j, r) => assert junk + (j + r) == junk + j + r;
    case More(j, f, rest) => assert junk + (j + f + Whole(rest)) == junk + j + f + Whole(rest);
  }

  lemma CutAfterJunk(junk: Bytes, b: Bytes)
    requires FreeOfStx(junk)
    ensures CutOf(junk + b) == Prepend(junk, CutOf(b))
  {
    PrependIsACut(junk, CutOf(b));
    UniqueDecomposition(junk + b, Prepend(junk, CutOf(b)));
  }

  lemma CutAfterFrame(junk: Bytes, frame: Bytes, rest: Bytes, more: Bytes)
    requires FreeOfStx(junk) && IsFrame(frame)
    ensures CutOf(junk + frame + rest + more) == More(junk, frame, CutOf(rest + more))
  {
    Associative(junk + frame, rest, more);
    UniqueDecomposition(junk + frame + (rest + more), More(junk, frame, CutOf(rest + more)));
  }

  /** Scanning a stream in two deliveries gives the frames and the residual of scanning it in one. */
  lemma {:induction false} TwoDeliveriesOfCut(c: Cut, more: Bytes)
    requires WellCut(c)
    ensures Frames(CutOf(Whole(c) + more)) == Frames(c) + Frames(CutOf(Residual(c) + more))
    ensures Residual(CutOf(Whole(c) + more)) == Residual(CutOf(Residual(c) + more))
  {
    match c
    case Last(junk, residual) =>
      Associative(junk, residual, more);
      CutAfterJunk(junk, residual + more);
      PrependIsACut(junk, CutOf(residual + more));
    case More(junk, frame, rest) =>
      TwoDeliveriesOfCut(rest, more);
      CutAfterFrame(junk, frame, Whole(rest), more);
      Associative([frame], Frames(rest), Frames(CutOf(Residual(rest) + more)));
  }

  lemma TwoDeliveries(a: Bytes, b: Bytes)
    ensures Frames(CutOf(a + b)) == Frames(CutOf(a)) + Frames(CutOf(Residual(CutOf(a)) + b))
    ensures Residual(CutOf(a + b)) == Residual(CutOf(Residual(CutOf(a)) + b))
  {
    TwoDeliveriesOfCut(CutOf(a), b);
  }

}
