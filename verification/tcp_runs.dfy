/** What a channel has received after any history of connections, deliveries and closes. */
module TcpRuns {
  import opened Prelude
  import opened Telegrams
  import opened TelegramParser
  import opened Framing
  import opened TcpServer

  datatype Event =
    | Connect(socket: Socket)
    | Arrive(socket: Socket, data: Bytes)
    | Close(socket: Socket)
    | SendOut(frame: Bytes)

  ghost function Step(c: Channel, registry: Registry, listener: Listener, e: Event): Channel {
    match e
    case Connect(s) => c.(clients := c.clients + [s], rxBuffer := c.rxBuffer[s := []])
    case Arrive(s, data) => Deliver(c, registry, listener, s, data)
    case Close(s) => c.(clients := Others(c.clients, s), rxBuffer := c.rxBuffer - {s})
    case SendOut(frame) => Send(c, frame)
  }

  ghost function Run(c: Channel, registry: Registry, listener: Listener, events: seq<Event>): Channel {
    if events == [] then c
    else Step(Run(c, registry, listener, events[..|events| - 1]), registry, listener, events[|events| - 1])
  }

  // ---- chunk independence ----

  function Concat(chunks: seq<Bytes>): Bytes {
    if chunks == [] then [] else Concat(chunks[..|chunks| - 1]) + chunks[|chunks| - 1]
  }

  function Arrivals(socket: Socket, chunks: seq<Bytes>): seq<Event> {
    seq(|chunks|, i requires 0 <= i < |chunks| => Arrive(socket, chunks[i]))
  }

  lemma DeliverTwice(c: Channel, registry: Registry, listener: Listener, socket: Socket, a: Bytes, b: Bytes)
    ensures Deliver(Deliver(c, registry, listener, socket, a), registry, listener, socket, b)
         == Deliver(c, registry, listener, socket, a + b)
  {
    var start := Pending(c.rxBuffer, socket);
    var cut := CutOf(start + a);
    Associative(start, a, b);
    TwoDeliveries(start + a, b);
    var first := Accept(Frames(cut), socket, registry);
    var second := Accept(Frames(CutOf(Residual(cut) + b)), socket, registry);
    AcceptOfConcat(Frames(cut), Frames(CutOf(Residual(cut) + b)), socket, registry);
    ReceivingOn(c, listener, first, second);
    ReceivingBeside(ReceiveAll(c, listener, first), listener, second, c.rxBuffer[socket := Residual(cut)]);
  }

  /** From any starting state, delivering a stream chunk by chunk leaves the channel exactly
      as delivering it at once: the same frames, telegrams, counters and residual, and also
      the same sent by the listeners. */
  lemma {:induction false} ChunkIndependence(c: Channel, registry: Registry, listener: Listener, socket: Socket,
                                             chunks: seq<Bytes>)
    requires chunks != []
    ensures Run(c, registry, listener, Arrivals(socket, chunks))
        == Deliver(c, registry, listener, socket, Concat(chunks))
    decreases |chunks|
  {
    var events := Arrivals(socket, chunks);
    var earlier, last := chunks[..|chunks| - 1], chunks[|chunks| - 1];
    assert events[..|events| - 1] == Arrivals(socket, earlier);
    if earlier == [] {
      assert Concat(chunks) == [] + last == last;
    } else {
      ChunkIndependence(c, registry, listener, socket, earlier);
      DeliverTwice(c, registry, listener, socket, Concat(earlier), last);
    }
  }

  // ---- the log ----

  /** What is accepted when these bytes arrive. */
  ghost function Arrived(c: Channel, registry: Registry, socket: Socket, data: Bytes): seq<Reception> {
    Accept(Frames(CutOf(Pending(c.rxBuffer, socket) + data)), socket, registry)
  }

  /** The entries an event adds to the log, newest first. */
  ghost function Entries(at: Origin, c: Channel, listener: Listener, e: Event): seq<LogEntry> {
    match e
    case Arrive(socket, data) =>
      NewestFirst(at, c.clients != [], listener, |c.received|, Arrived(c, at.registry, socket, data))
    case SendOut(frame) => ReplyEntry(at, c.clients != [], Here(frame))
    case _ => []
  }

  /** The log after these events; the newest thousand entries stay. */
  ghost function RunLog(at: Origin, c: Channel, log: seq<LogEntry>, listener: Listener,
                        events: seq<Event>): seq<LogEntry> {
    if events == [] then log
    else
      var earlier := events[..|events| - 1];
      Take(Entries(at, Run(c, at.registry, listener, earlier), listener, events[|events| - 1])
           + RunLog(at, c, log, listener, earlier), MAX_LOG_SIZE)
  }

  /** The entries about the n-th telegram: its own, and those of what listeners sent about it. */
  type Teller = (nat, Reception) -> seq<LogEntry>

  function Telling(at: Origin, attended: bool, listener: Listener): Teller {
    (n: nat, r: Reception) => ReplyLog(at, attended, listener(n)) + [RxEntry(at, r)]
  }

  /** The log, telegram after telegram. */
  function LogAfter(telling: Teller, first: nat, rs: seq<Reception>, log: seq<LogEntry>): seq<LogEntry> {
    if rs == [] then Take(log, MAX_LOG_SIZE)
    else
      var n := |rs| - 1;
      Take(telling(first + n, rs[n]) + LogAfter(telling, first, rs[..n], log), MAX_LOG_SIZE)
  }

  lemma NewerOnTop(newer: seq<LogEntry>, older: seq<LogEntry>, log: seq<LogEntry>)
    ensures Take(newer + Take(older + log, MAX_LOG_SIZE), MAX_LOG_SIZE) == Take(newer + older + log, MAX_LOG_SIZE)
  {
    TakeTwice(newer, older + log, MAX_LOG_SIZE);
    Associative(newer, older, log);
  }

  lemma {:induction false} LogAfterIsNewest(at: Origin, attended: bool, listener: Listener, first: nat,
                                            rs: seq<Reception>, log: seq<LogEntry>)
    ensures LogAfter(Telling(at, attended, listener), first, rs, log)
         == Take(NewestFirst(at, attended, listener, first, rs) + log, MAX_LOG_SIZE)
  {
    if rs == [] {
      assert [] + log == log;
    } else {
      var n := |rs| - 1;
      LogAfterIsNewest(at, attended, listener, first, rs[..n], log);
      NewerOnTop(Telling(at, attended, listener)(first + n, rs[n]),
                 NewestFirst(at, attended, listener, first, rs[..n]), log);
    }
  }

  lemma {:induction false} LogAfterTwo(telling: Teller, first: nat, a: seq<Reception>, b: seq<Reception>,
                                       log: seq<LogEntry>)
    ensures LogAfter(telling, first, a + b, log)
         == LogAfter(telling, first + |a|, b, LogAfter(telling, first, a, log))
    decreases |b|
  {
    if b == [] {
      assert a + b == a;
      TakenIsShort(telling, first, a, log);
    } else {
      assert (a + b)[..|a + b| - 1] == a + b[..|b| - 1];
      LogAfterTwo(telling, first, a, b[..|b| - 1], log);
    }
  }

  lemma TakenIsShort(telling: Teller, first: nat, rs: seq<Reception>, log: seq<LogEntry>)
    ensures Take(LogAfter(telling, first, rs, log), MAX_LOG_SIZE) == LogAfter(telling, first, rs, log)
  {
  }

  /** The log after a delivery. */
  ghost function LogOfDelivery(at: Origin, c: Channel, listener: Listener, socket: Socket, data: Bytes,
                               log: seq<LogEntry>)
    : seq<LogEntry>
  {
    LogAfter(Telling(at, c.clients != [], listener), |c.received|, Arrived(c, at.registry, socket, data), log)
  }

  lemma ArrivalIsLogged(at: Origin, c: Channel, listener: Listener, socket: Socket, data: Bytes, log: seq<LogEntry>)
    ensures Take(Entries(at, c, listener, Arrive(socket, data)) + log, MAX_LOG_SIZE)
         == LogOfDelivery(at, c, listener, socket, data, log)
  {
    LogAfterIsNewest(at, c.clients != [], listener, |c.received|, Arrived(c, at.registry, socket, data), log);
  }

  lemma ArrivedInTwo(c: Channel, registry: Registry, listener: Listener, socket: Socket, a: Bytes, b: Bytes)
    ensures var d := Deliver(c, registry, listener, socket, a);
      && Arrived(c, registry, socket, a + b) == Arrived(c, registry, socket, a) + Arrived(d, registry, socket, b)
      && |d.received| == |c.received| + |Arrived(c, registry, socket, a)| && d.clients == c.clients
  {
    var start := Pending(c.rxBuffer, socket);
    var cut := CutOf(start + a);
    Associative(start, a, b);
    TwoDeliveries(start + a, b);
    AcceptOfConcat(Frames(cut), Frames(CutOf(Residual(cut) + b)), socket, registry);
    ReceivingKeeps(c, listener, Accept(Frames(cut), socket, registry));
  }

  lemma LogOfWhole(telling: Teller, first: nat, next: nat, a: seq<Reception>, b: seq<Reception>, whole: seq<Reception>,
                   log: seq<LogEntry>)
    requires whole == a + b && next == first + |a|
    ensures LogAfter(telling, first, whole, log) == LogAfter(telling, next, b, LogAfter(telling, first, a, log))
  {
    LogAfterTwo(telling, first, a, b, log);
  }

  lemma LogOfTwo(at: Origin, c: Channel, listener: Listener, socket: Socket, a: Bytes, b: Bytes, log: seq<LogEntry>)
    ensures var d := Deliver(c, at.registry, listener, socket, a);
      LogOfDelivery(at, c, listener, socket, a + b, log)
      == LogOfDelivery(at, d, listener, socket, b, LogOfDelivery(at, c, listener, socket, a, log))
  {
    var d := Deliver(c, at.registry, listener, socket, a);
    var first, second := Arrived(c, at.registry, socket, a), Arrived(d, at.registry, socket, b);
    var whole := Arrived(c, at.registry, socket, a + b);
    assert whole == first + second && |d.received| == |c.received| + |first| && d.clients == c.clients by {
      ArrivedInTwo(c, at.registry, listener, socket, a, b);
    }
    LogOfWhole(Telling(at, c.clients != [], listener), |c.received|, |d.received|, first, second, whole, log);
  }

  /** Nor does the log show in which chunks a stream was delivered. */
  lemma {:induction false} LogIsChunkIndependent(at: Origin, c: Channel, log: seq<LogEntry>, listener: Listener,
                                                 socket: Socket, chunks: seq<Bytes>)
    requires chunks != []
    ensures RunLog(at, c, log, listener, Arrivals(socket, chunks))
         == RunLog(at, c, log, listener, [Arrive(socket, Concat(chunks))])
    decreases |chunks|
  {
    ChunksAreLogged(at, c, log, listener, socket, chunks);
    var whole := Arrive(socket, Concat(chunks));
    assert [whole][..0] == [];
    ArrivalIsLogged(at, c, listener, socket, Concat(chunks), log);
  }

  lemma {:induction false} ChunksAreLogged(at: Origin, c: Channel, log: seq<LogEntry>, listener: Listener,
                                           socket: Socket, chunks: seq<Bytes>)
    requires chunks != []
    ensures RunLog(at, c, log, listener, Arrivals(socket, chunks))
         == LogOfDelivery(at, c, listener, socket, Concat(chunks), log)
    decreases |chunks|
  {
    var events := Arrivals(socket, chunks);
    var earlier, last := chunks[..|chunks| - 1], chunks[|chunks| - 1];
    assert events[..|events| - 1] == Arrivals(socket, earlier);
    if earlier == [] {
      assert Concat(chunks) == [] + last == last;
      ArrivalIsLogged(at, c, listener, socket, last, log);
    } else {
      var d := Deliver(c, at.registry, listener, socket, Concat(earlier));
      ChunksAreLogged(at, c, log, listener, socket, earlier);
      ChunkIndependence(c, at.registry, listener, socket, earlier);
      ArrivalIsLogged(at, d, listener, socket, last, LogOfDelivery(at, c, listener, socket, Concat(earlier), log));
      LogOfTwo(at, c, listener, socket, Concat(earlier), last, log);
    }
  }

  // ---- many sockets, any interleaving ----

  predicate About(e: Event, socket: Socket) {
    !e.SendOut? && e.socket == socket
  }

  /** The bytes of each session of a socket: a session ends when the socket connects anew or
      closes, and the last one goes on. */
  function Sessions(events: seq<Event>, socket: Socket): (sessions: seq<Bytes>)
    ensures sessions != []
  {
    if events == [] then [[]] else NextSessions(Sessions(events[..|events| - 1], socket), events[|events| - 1], socket)
  }

  function NextSessions(sessions: seq<Bytes>, e: Event, socket: Socket): (r: seq<Bytes>)
    requires sessions != []
    ensures r != []
  {
    if !About(e, socket) then sessions
    else if e.Arrive? then sessions[..|sessions| - 1] + [sessions[|sessions| - 1] + e.data]
    else sessions + [[]]
  }

  /** The bytes of a socket since it was last connected or closed. */
  function Session(events: seq<Event>, socket: Socket): Bytes {
    var sessions := Sessions(events, socket);
    sessions[|sessions| - 1]
  }

  /** The frames of sessions, each session cut on its own. */
  ghost function FramesOf(sessions: seq<Bytes>): seq<Bytes> {
    if sessions == [] then []
    else FramesOf(sessions[..|sessions| - 1]) + Frames(CutOf(sessions[|sessions| - 1]))
  }

  function From(received: seq<Reception>, socket: Socket): seq<Reception> {
    if received == [] then []
    else
      var earlier, last := received[..|received| - 1], received[|received| - 1];
      From(earlier, socket) + if last.socket == socket then [last] else []
  }

  lemma {:induction false} FromConcat(a: seq<Reception>, b: seq<Reception>, socket: Socket)
    ensures From(a + b, socket) == From(a, socket) + From(b, socket)
    decreases |b|
  {
    if b == [] {
      assert a + b == a;
    } else {
      var rest, last := b[..|b| - 1], b[|b| - 1];
      assert (a + b)[..|a + b| - 1] == a + rest;
      FromConcat(a, rest, socket);
    }
  }

  lemma {:induction false} FromAccepted(frames: seq<Bytes>, sender: Socket, registry: Registry, socket: Socket)
    ensures From(Accept(frames, sender, registry), socket)
         == if sender == socket then Accept(frames, sender, registry) else []
  {
    if frames != [] {
      var one, others := AcceptOne(frames[0], sender, registry), Accept(frames[1..], sender, registry);
      FromConcat(one, others, socket);
      FromAccepted(frames[1..], sender, registry, socket);
      assert From(one, socket) == if sender == socket then one else [] by {
        assert |one| == 1 ==> one[..0] == [];
      }
    }
  }

  lemma EmptySession()
    ensures Frames(CutOf([])) == [] && Residual(CutOf([])) == []
  {
    UniqueDecomposition([], Last([], []));
  }

  lemma FramesOfOneMore(sessions: seq<Bytes>, session: Bytes)
    ensures FramesOf(sessions + [session]) == FramesOf(sessions) + Frames(CutOf(session))
  {
    assert (sessions + [session])[..|sessions|] == sessions;
  }

  /** What a socket is due after these events. */
  ghost predicate OnItsOwn(c: Channel, registry: Registry, sessions: seq<Bytes>, socket: Socket)
    requires sessions != []
  {
    && Pending(c.rxBuffer, socket) == Residual(CutOf(sessions[|sessions| - 1]))
    && From(c.received, socket) == Accept(FramesOf(sessions), socket, registry)
  }

  lemma StepOnItsOwn(c: Channel, registry: Registry, listener: Listener, sessions: seq<Bytes>, e: Event, socket: Socket)
    requires sessions != [] && OnItsOwn(c, registry, sessions, socket)
    ensures OnItsOwn(Step(c, registry, listener, e), registry, NextSessions(sessions, e, socket), socket)
  {
    match e
    case Arrive(sender, data) =>
      if sender == socket {
        ArrivedHere(c, registry, listener, sessions, data, socket);
      } else {
        ArrivedElsewhere(c, registry, listener, sessions, sender, data, socket);
      }
    case SendOut(_) =>
    case _ =>
      if e.socket == socket {
        EmptySession();
        FramesOfOneMore(sessions, []);
        assert FramesOf(sessions) + [] == FramesOf(sessions);
      }
  }

  /** Whatever else happens on the channel, a socket's telegrams are those of its own
      sessions, in order, and what is kept for it is the residual of its own session. */
  lemma {:induction false} EverySocketOnItsOwn(registry: Registry, listener: Listener, events: seq<Event>,
                                               socket: Socket)
    ensures OnItsOwn(Run(IDLE, registry, listener, events), registry, Sessions(events, socket), socket)
    decreases |events|
  {
    if events == [] {
      EmptySession();
      FramesOfOneMore([], []);
      assert Sessions(events, socket)[..0] == [];
    } else {
      var earlier := events[..|events| - 1];
      EverySocketOnItsOwn(registry, listener, earlier, socket);
      StepOnItsOwn(Run(IDLE, registry, listener, earlier), registry, listener, Sessions(earlier, socket),
                   events[|events| - 1], socket);
    }
  }

  lemma Delivered(c: Channel, registry: Registry, listener: Listener, sender: Socket, data: Bytes, socket: Socket)
    ensures var d := Deliver(c, registry, listener, sender, data);
      var accepted := Accept(Frames(CutOf(Pending(c.rxBuffer, sender) + data)), sender, registry);
      && d.received == c.received + accepted
      && From(d.received, socket) == From(c.received, socket) + if sender == socket then accepted else []
  {
    var accepted := Accept(Frames(CutOf(Pending(c.rxBuffer, sender) + data)), sender, registry);
    ReceivingKeeps(c, listener, accepted);
    FromConcat(c.received, accepted, socket);
    FromAccepted(Frames(CutOf(Pending(c.rxBuffer, sender) + data)), sender, registry, socket);
  }

  lemma ArrivedHere(c: Channel, registry: Registry, listener: Listener, sessions: seq<Bytes>, data: Bytes,
                    socket: Socket)
    requires sessions != [] && OnItsOwn(c, registry, sessions, socket)
    ensures var closed, session := sessions[..|sessions| - 1], sessions[|sessions| - 1];
      OnItsOwn(Deliver(c, registry, listener, socket, data), registry, closed + [session + data], socket)
  {
    var closed, session := sessions[..|sessions| - 1], sessions[|sessions| - 1];
    var added := Frames(CutOf(Residual(CutOf(session)) + data));
    Delivered(c, registry, listener, socket, data, socket);
    TwoDeliveries(session, data);
    FramesOfOneMore(closed, session + data);
    Associative(FramesOf(closed), Frames(CutOf(session)), added);
    AcceptOfConcat(FramesOf(sessions), added, socket, registry);
  }

  lemma ArrivedElsewhere(c: Channel, registry: Registry, listener: Listener, sessions: seq<Bytes>, sender: Socket,
                         data: Bytes, socket: Socket)
    requires sessions != [] && OnItsOwn(c, registry, sessions, socket) && sender != socket
    ensures OnItsOwn(Deliver(c, registry, listener, sender, data), registry, sessions, socket)
  {
    Delivered(c, registry, listener, sender, data, socket);
    assert From(c.received, socket) + [] == From(c.received, socket);
  }

  // ---- the statistics ----

  function SizeOf(receptions: seq<Reception>): nat {
    if receptions == [] then 0 else SizeOf(receptions[..|receptions| - 1]) + |receptions[|receptions| - 1].frame|
  }

  function SizeOfSent(frames: seq<Bytes>): nat {
    if frames == [] then 0 else SizeOfSent(frames[..|frames| - 1]) + |frames[|frames| - 1]|
  }

  /** Both statistics count exactly; the bytes of both directions share one counter. */
  predicate CountedRight(c: Channel) {
    && c.telegramsReceived == |c.received|
    && c.telegramsSent == |c.sent|
    && c.bytesTransferred == SizeOf(c.received) + SizeOfSent(c.sent)
  }

  lemma SendingCounts(c: Channel, frame: Bytes)
    requires CountedRight(c)
    ensures CountedRight(Send(c, frame))
  {
    assert (c.sent + [frame])[..|c.sent|] == c.sent;
  }

  lemma {:induction false} SendingAllCounts(c: Channel, replies: seq<Reply>)
    requires CountedRight(c)
    ensures CountedRight(SendAll(c, replies))
  {
    if replies != [] {
      var earlier, last := replies[..|replies| - 1], replies[|replies| - 1];
      SendingAllCounts(c, earlier);
      if last.Here? {
        SendingCounts(SendAll(c, earlier), last.frame);
      }
    }
  }

  lemma {:induction false} ReceivingCounts(c: Channel, listener: Listener, rs: seq<Reception>)
    requires CountedRight(c)
    ensures CountedRight(ReceiveAll(c, listener, rs))
  {
    if rs != [] {
      var earlier, last := rs[..|rs| - 1], rs[|rs| - 1];
      ReceivingCounts(c, listener, earlier);
      var d := ReceiveAll(c, listener, earlier);
      assert (d.received + [last])[..|d.received|] == d.received;
      SendingAllCounts(Counted(d, last), listener(|d.received|));
    }
  }

  /** In every run the statistics count exactly what was received and what was sent, also
      what listeners send while a delivery goes on. */
  lemma {:induction false} CountersAgree(registry: Registry, listener: Listener, events: seq<Event>)
    ensures CountedRight(Run(IDLE, registry, listener, events))
    decreases |events|
  {
    if events != [] {
      var earlier, last := events[..|events| - 1], events[|events| - 1];
      CountersAgree(registry, listener, earlier);
      var c := Run(IDLE, registry, listener, earlier);
      match last
      case Arrive(s, data) =>
        ReceivingCounts(c, listener, Accept(Frames(CutOf(Pending(c.rxBuffer, s) + data)), s, registry));
      case SendOut(frame) => SendingCounts(c, frame);
      case _ =>
    }
  }

  /** Nothing piles up: every residual is empty or a started frame of bounded size. */
  lemma ResidualsAreBounded(registry: Registry, listener: Listener, events: seq<Event>, socket: Socket)
    ensures var kept := Pending(Run(IDLE, registry, listener, events).rxBuffer, socket);
      |kept| <= MAX_RESIDUAL && (kept == [] || kept[0] == STX)
  {
    EverySocketOnItsOwn(registry, listener, events, socket);
    EveryByteAccountedFor(CutOf(Session(events, socket)));
  }

  // ---- the round trip of a whole stream ----

  /** A telegram as its sender built it, with the junk that precedes it on the wire. */
  datatype Sent = Sent(junk: Bytes, dataType: string, moduleId: string, definition: Definition, data: Data)

  predicate Sendable(s: Sent) {
    Buildable(s.dataType, s.definition, s.data)
  }

  predicate WellSent(s: Sent, registry: Registry) {
    && FreeOfStx(s.junk)
    && Sendable(s)
    && s.definition.telegramNo in registry
    && registry[s.definition.telegramNo] == s.definition
  }

  ghost predicate AllWellSent(sent: seq<Sent>, registry: Registry) {
    forall i :: 0 <= i < |sent| ==> WellSent(sent[i], registry)
  }

  /** The bytes on the wire; what cannot be built is never sent. */
  function Wire(sent: seq<Sent>): Bytes {
    if sent == [] then []
    else
      var s := sent[0];
      (if Sendable(s) then s.junk + Frame(s.dataType, s.moduleId, s.definition, s.data).value else [])
      + Wire(sent[1..])
  }

  function Expected(sent: seq<Sent>, socket: Socket): seq<Reception> {
    if sent == [] then []
    else
      var s := sent[0];
      (if Sendable(s) then
         [Reception(socket, Received(s.dataType, s.moduleId, s.definition, s.data),
                    Frame(s.dataType, s.moduleId, s.definition, s.data).value)]
       else [])
      + Expected(sent[1..], socket)
  }

  lemma BuiltIsAFrame(s: Sent, registry: Registry)
    requires WellSent(s, registry)
    ensures var f := Frame(s.dataType, s.moduleId, s.definition, s.data).value;
      && IsFrame(f)
      && AutoParse(f, registry) == Some(Received(s.dataType, s.moduleId, s.definition, s.data))
  {
    var f := Frame(s.dataType, s.moduleId, s.definition, s.data).value;
    HeaderOfFrame(s.dataType, s.moduleId, s.definition, s.data, []);
    ParseOfFrame(s.dataType, s.moduleId, s.definition, s.data, []);
    assert f + [] == f;
  }

  lemma {:induction false} WireIsCutAsSent(sent: seq<Sent>, tail: Bytes, registry: Registry, socket: Socket)
    requires forall i :: 0 <= i < |sent| ==> WellSent(sent[i], registry)
    requires FreeOfStx(tail)
    ensures Accept(Frames(CutOf(Wire(sent) + tail)), socket, registry) == Expected(sent, socket)
    ensures Residual(CutOf(Wire(sent) + tail)) == []
    decreases |sent|
  {
    if sent == [] {
      assert [] + tail == tail == tail + [];
      UniqueDecomposition(tail, Last(tail, []));
    } else {
      var s := sent[0];
      assert WellSent(s, registry);
      var f := Frame(s.dataType, s.moduleId, s.definition, s.data).value;
      BuiltIsAFrame(s, registry);
      WireIsCutAsSent(sent[1..], tail, registry, socket);
      CutAfterFrame(s.junk, f, Wire(sent[1..]), tail);
      assert ([f] + Frames(CutOf(Wire(sent[1..]) + tail)))[1..] == Frames(CutOf(Wire(sent[1..]) + tail));
    }
  }

  /** Telegrams built from registered definitions, with any STX-free junk before, between
      and after them, delivered in any chunks, are received exactly as sent and in order,
      and nothing is left over. */
  lemma StreamRoundTrip(sent: seq<Sent>, tail: Bytes, registry: Registry, listener: Listener,
                                           socket: Socket, chunks: seq<Bytes>)
    requires AllWellSent(sent, registry) && FreeOfStx(tail)
    requires chunks != [] && Concat(chunks) == Wire(sent) + tail
    ensures var c := Run(IDLE, registry, listener, Arrivals(socket, chunks));
      && c.received == Expected(sent, socket)
      && |c.received| == |sent|
      && c.rxBuffer == map[socket := []]
  {
    ChunkIndependence(IDLE, registry, listener, socket, chunks);
    assert [] + Concat(chunks) == Concat(chunks);
    WireIsCutAsSent(sent, tail, registry, socket);
    Delivered(IDLE, registry, listener, socket, Concat(chunks), socket);
    assert [] + Expected(sent, socket) == Expected(sent, socket);
    ExpectedLength(sent, socket);
  }

  lemma {:induction false} ExpectedLength(sent: seq<Sent>, socket: Socket)
    requires forall i :: 0 <= i < |sent| ==> Sendable(sent[i])
    ensures |Expected(sent, socket)| == |sent|
  {
    if sent != [] {
      ExpectedLength(sent[1..], socket);
    }
  }

  // ---- many senders ----

  /** What one session sends: telegrams, and junk after the last. */
  datatype Stream = Stream(sent: seq<Sent>, tail: Bytes)

  ghost predicate WellStreamed(stream: Stream, registry: Registry) {
    AllWellSent(stream.sent, registry) && FreeOfStx(stream.tail)
  }

  function BytesOf(stream: Stream): Bytes {
    Wire(stream.sent) + stream.tail
  }

  /** The sessions of a socket carry these streams. */
  ghost predicate Carry(sessions: seq<Bytes>, streams: seq<Stream>, registry: Registry) {
    && |sessions| == |streams|
    && forall i :: 0 <= i < |streams| ==> WellStreamed(streams[i], registry) && sessions[i] == BytesOf(streams[i])
  }

  function ExpectedOfAll(streams: seq<Stream>, socket: Socket): seq<Reception> {
    if streams == [] then []
    else ExpectedOfAll(streams[..|streams| - 1], socket) + Expected(streams[|streams| - 1].sent, socket)
  }

  lemma {:induction false} StreamsAreCutAsSent(sessions: seq<Bytes>, streams: seq<Stream>, registry: Registry,
                                               socket: Socket)
    requires Carry(sessions, streams, registry)
    ensures Accept(FramesOf(sessions), socket, registry) == ExpectedOfAll(streams, socket)
    decreases |streams|
  {
    if streams != [] {
      var n := |streams| - 1;
      StreamsAreCutAsSent(sessions[..n], streams[..n], registry, socket);
      assert WellStreamed(streams[n], registry) && sessions[n] == BytesOf(streams[n]);
      WireIsCutAsSent(streams[n].sent, streams[n].tail, registry, socket);
      AcceptOfConcat(FramesOf(sessions[..n]), Frames(CutOf(sessions[n])), socket, registry);
    }
  }

  /** Under any interleaving of sockets, sessions and sending, each socket whose sessions
      carry well-built streams, in any chunks, has all of them received as sent and in
      order, and nothing is left over for it. */
  lemma EveryStreamRoundTrips(registry: Registry, listener: Listener, events: seq<Event>, socket: Socket,
                                                 streams: seq<Stream>)
    requires Carry(Sessions(events, socket), streams, registry)
    ensures var c := Run(IDLE, registry, listener, events);
      && From(c.received, socket) == ExpectedOfAll(streams, socket)
      && Pending(c.rxBuffer, socket) == []
  {
    EverySocketOnItsOwn(registry, listener, events, socket);
    StreamsAreCutAsSent(Sessions(events, socket), streams, registry, socket);
    var last := streams[|streams| - 1];
    assert WellStreamed(last, registry) && Session(events, socket) == BytesOf(last);
    WireIsCutAsSent(last.sent, last.tail, registry, socket);
  }

  // ---- the runs are those of the service ----

  /** One event, by the method that handles it. */
  method Perform(service: TcpServerService, channel: TcpChannelServer, registry: Registry, listener: Listener, e: Event)
    requires |service.telegramLog| <= MAX_LOG_SIZE
    modifies service, channel
    ensures channel.View() == Step(old(channel.View()), registry, listener, e)
    ensures service.telegramLog
         == Take(Entries(channel.At(registry), old(channel.View()), listener, e) + old(service.telegramLog),
             MAX_LOG_SIZE)
  {
    assert [] + service.telegramLog == service.telegramLog;
    match e
    case Connect(socket) => service.HandleConnection(channel, socket);
    case Arrive(socket, data) => service.HandleData(channel, registry, listener, socket, data);
    case Close(socket) => service.HandleClose(channel, socket);
    case SendOut(frame) => var ok := service.SendToChannel(channel, registry, frame);
  }

  /** A channel on which these events have been handled is in the state of their run. */
  method Replay(name: string, port: nat, registry: Registry, listener: Listener, events: seq<Event>)
    returns (service: TcpServerService, channel: TcpChannelServer)
    ensures fresh(service) && fresh(channel)
    ensures channel.View() == Run(IDLE, registry, listener, events)
    ensures service.telegramLog == RunLog(Origin(name, port, registry), IDLE, [], listener, events)
  {
    service := new TcpServerService();
    channel := new TcpChannelServer(name, port);
    for i := 0 to |events|
      invariant fresh(service) && fresh(channel) && channel.At(registry) == Origin(name, port, registry)
      invariant channel.View() == Run(IDLE, registry, listener, events[..i]) && |service.telegramLog| <= MAX_LOG_SIZE
      invariant service.telegramLog == RunLog(Origin(name, port, registry), IDLE, [], listener, events[..i])
    {
      assert events[..i + 1][..i] == events[..i];
      Perform(service, channel, registry, listener, events[i]);
    }
    assert events[..|events|] == events;
  }
}
