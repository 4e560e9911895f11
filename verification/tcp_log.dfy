/** What the telegram log of a channel tells of its runs, entry by entry. */
module TcpLog {
  import opened Prelude
  import opened Telegrams
  import opened TelegramParser
  import opened Framing
  import opened TcpServer
  import opened TcpRuns
  import Wire

  /** Every entry a run makes, newest first, none dropped yet. */
  ghost function Everything(at: Origin, listener: Listener, events: seq<Event>): seq<LogEntry> {
    if events == [] then []
    else
      var earlier := events[..|events| - 1];
      Entries(at, Run(IDLE, at.registry, listener, earlier), listener, events[|events| - 1])
      + Everything(at, listener, earlier)
  }

  /** The log holds the newest thousand entries. */
  lemma {:induction false} LogHoldsTheNewest(at: Origin, listener: Listener, events: seq<Event>)
    ensures RunLog(at, IDLE, [], listener, events) == Take(Everything(at, listener, events), 1000)
    decreases |events|
  {
    if events != [] {
      var earlier := events[..|events| - 1];
      LogHoldsTheNewest(at, listener, earlier);
      TakeTwice(Entries(at, Run(IDLE, at.registry, listener, earlier), listener, events[|events| - 1]),
                Everything(at, listener, earlier), 1000);
    }
  }

  // ---- received ----

  function Only(log: seq<LogEntry>, direction: Direction): seq<LogEntry> {
    if log == [] then []
    else
      var earlier, last := Only(log[..|log| - 1], direction), log[|log| - 1];
      if last.direction == direction then earlier + [last] else earlier
  }

  lemma {:induction false} OnlyOfTwo(a: seq<LogEntry>, b: seq<LogEntry>, direction: Direction)
    ensures Only(a + b, direction) == Only(a, direction) + Only(b, direction)
    decreases |b|
  {
    if b == [] {
      assert a + b == a;
    } else {
      assert (a + b)[..|a + b| - 1] == a + b[..|b| - 1];
      OnlyOfTwo(a, b[..|b| - 1], direction);
    }
  }

  lemma OnlyOfOne(e: LogEntry, direction: Direction)
    ensures Only([e], direction) == if e.direction == direction then [e] else []
  {
    assert [e][..0] == [];
  }

  /** An entry about a telegram received. */
  predicate TellsOfReceiving(at: Origin, e: LogEntry, r: Reception) {
    && e.direction == Rx && e.channel == at.channel && e.port == at.port && e.frame == r.frame
    && |r.frame| >= 12 && e.telegramNo == Wire.At(r.frame, 8) && e.telegramNo in at.registry
    && (at.registry[e.telegramNo].name != "" ==> e.telegramName == Named(at.registry[e.telegramNo].name))
    && e.parsedData.Some? && ReadFields(r.frame, 12, at.registry[e.telegramNo].fields) == e.parsedData
  }

  /** Newest first, entry by entry. */
  predicate TellOfReceiving(at: Origin, log: seq<LogEntry>, rs: seq<Reception>) {
    && |log| == |rs|
    && forall i :: 0 <= i < |log| ==> TellsOfReceiving(at, log[i], rs[|rs| - 1 - i])
  }

  lemma TellOfMore(at: Origin, a: seq<LogEntry>, x: seq<Reception>, b: seq<LogEntry>, y: seq<Reception>)
    requires TellOfReceiving(at, a, x) && TellOfReceiving(at, b, y)
    ensures TellOfReceiving(at, a + b, y + x)
  {
  }

  predicate Understood(registry: Registry, r: Reception) {
    AutoParse(r.frame, registry) == Some(r.telegram)
  }

  lemma {:induction false} AcceptedAreUnderstood(frames: seq<Bytes>, socket: Socket, registry: Registry)
    ensures forall r :: r in Accept(frames, socket, registry) ==> Understood(registry, r)
  {
    if frames != [] {
      AcceptedAreUnderstood(frames[1..], socket, registry);
    }
  }

  lemma EntryTells(at: Origin, r: Reception)
    requires Understood(at.registry, r)
    ensures TellsOfReceiving(at, RxEntry(at, r), r)
  {
    AutoParseReports(r.frame, at.registry);
    Wire.NumberAt(r.frame, 8);
  }

  predicate AllSent(log: seq<LogEntry>) {
    forall i :: 0 <= i < |log| ==> log[i].direction == Tx
  }

  lemma {:induction false} OnlyOfSent(log: seq<LogEntry>)
    requires AllSent(log)
    ensures Only(log, Rx) == [] && Only(log, Tx) == log
    decreases |log|
  {
    if log != [] {
      OnlyOfSent(log[..|log| - 1]);
    }
  }

  lemma {:induction false} RepliesAreSent(at: Origin, attended: bool, replies: seq<Reply>)
    ensures AllSent(ReplyLog(at, attended, replies))
    decreases |replies|
  {
    if replies != [] {
      RepliesAreSent(at, attended, replies[..|replies| - 1]);
    }
  }

  lemma OneMoreTells(at: Origin, replies: seq<LogEntry>, e: LogEntry, r: Reception, earlier: seq<LogEntry>,
                     rs: seq<Reception>, log: seq<LogEntry>, all: seq<Reception>)
    requires AllSent(replies) && TellsOfReceiving(at, e, r) && TellOfReceiving(at, Only(earlier, Rx), rs)
    requires log == replies + [e] + earlier && all == rs + [r]
    ensures TellOfReceiving(at, Only(log, Rx), all)
  {
    assert Only(replies + [e] + earlier, Rx) == [e] + Only(earlier, Rx) by {
      OnlyOfTwo(replies + [e], earlier, Rx);
      OnlyOfTwo(replies, [e], Rx);
      OnlyOfSent(replies);
      OnlyOfOne(e, Rx);
    }
    TellOfMore(at, [e], [r], Only(earlier, Rx), rs);
  }

  lemma {:induction false} DeliveryTells(at: Origin, attended: bool, listener: Listener, first: nat, rs: seq<Reception>)
    requires forall r :: r in rs ==> Understood(at.registry, r)
    ensures TellOfReceiving(at, Only(NewestFirst(at, attended, listener, first, rs), Rx), rs)
    decreases |rs|
  {
    if rs != [] {
      var n := |rs| - 1;
      var earlier, replies := NewestFirst(at, attended, listener, first, rs[..n]), listener(first + n);
      assert TellOfReceiving(at, Only(earlier, Rx), rs[..n]) by {
        DeliveryTells(at, attended, listener, first, rs[..n]);
      }
      EntryTells(at, rs[n]);
      RepliesAreSent(at, attended, replies);
      OneMoreTells(at, ReplyLog(at, attended, replies), RxEntry(at, rs[n]), rs[n], earlier, rs[..n],
                   NewestFirst(at, attended, listener, first, rs), rs);
    }
  }

  lemma EventTells(at: Origin, c: Channel, listener: Listener, e: Event)
    ensures var d := Step(c, at.registry, listener, e);
      && c.received <= d.received
      && TellOfReceiving(at, Only(Entries(at, c, listener, e), Rx), d.received[|c.received|..])
  {
    match e
    case Arrive(socket, data) =>
      var accepted := Arrived(c, at.registry, socket, data);
      Delivered(c, at.registry, listener, socket, data, socket);
      AcceptedAreUnderstood(Frames(CutOf(Pending(c.rxBuffer, socket) + data)), socket, at.registry);
      DeliveryTells(at, c.clients != [], listener, |c.received|, accepted);
    case SendOut(frame) => OnlyOfSent(Entries(at, c, listener, e));
    case _ =>
  }

  /** In every run the entries marked Rx are the telegrams received, newest first: each with
      channel, port and frame, the number that stands in the frame, the name of the definition
      filed under it and the values of its fields. */
  lemma {:induction false} ReceivedIsLogged(at: Origin, listener: Listener, events: seq<Event>)
    ensures TellOfReceiving(at, Only(Everything(at, listener, events), Rx),
                            Run(IDLE, at.registry, listener, events).received)
    decreases |events|
  {
    if events != [] {
      var earlier, last := events[..|events| - 1], events[|events| - 1];
      var c := Run(IDLE, at.registry, listener, earlier);
      ReceivedIsLogged(at, listener, earlier);
      EventTells(at, c, listener, last);
      OnlyOfTwo(Entries(at, c, listener, last), Everything(at, listener, earlier), Rx);
      var d := Step(c, at.registry, listener, last);
      TellOfMore(at, Only(Entries(at, c, listener, last), Rx), d.received[|c.received|..],
                 Only(Everything(at, listener, earlier), Rx), c.received);
      assert d.received == c.received + d.received[|c.received|..];
    }
  }

  // ---- sent ----

  /** Something sent, on this channel or on another one. */
  datatype Outgoing = Outgoing(here: bool, channel: string, port: nat, frame: Bytes)

  /** A listener's reply on this channel goes out only if there is a client. */
  function Going(at: Origin, attended: bool, reply: Reply): seq<Outgoing> {
    match reply
    case Here(frame) => if attended then [Outgoing(true, at.channel, at.port, frame)] else []
    case Elsewhere(channel, port, frame) => [Outgoing(false, channel, port, frame)]
  }

  /** What listeners send, in order. */
  function AllGoing(at: Origin, attended: bool, replies: seq<Reply>): seq<Outgoing> {
    if replies == [] then []
    else AllGoing(at, attended, replies[..|replies| - 1]) + Going(at, attended, replies[|replies| - 1])
  }

  /** What listeners send when told of `n` telegrams after the first ones, in order. */
  function GoingAbout(at: Origin, attended: bool, listener: Listener, first: nat, n: nat): seq<Outgoing> {
    if n == 0 then []
    else GoingAbout(at, attended, listener, first, n - 1) + AllGoing(at, attended, listener(first + n - 1))
  }

  /** What goes out when an event happens. */
  ghost function GoingOut(at: Origin, c: Channel, listener: Listener, e: Event): seq<Outgoing> {
    match e
    case SendOut(frame) => if c.clients != [] then [Outgoing(true, at.channel, at.port, frame)] else []
    case Arrive(socket, data) =>
      GoingAbout(at, c.clients != [], listener, |c.received|, |Arrived(c, at.registry, socket, data)|)
    case _ => []
  }

  /** Everything a run sends, in order. */
  ghost function GoneOut(at: Origin, listener: Listener, events: seq<Event>): seq<Outgoing> {
    if events == [] then []
    else
      var earlier := events[..|events| - 1];
      GoneOut(at, listener, earlier)
      + GoingOut(at, Run(IDLE, at.registry, listener, earlier), listener, events[|events| - 1])
  }

  /** The frames among these that go out on this channel. */
  function FramesHere(out: seq<Outgoing>): seq<Bytes> {
    if out == [] then []
    else FramesHere(out[..|out| - 1]) + if out[|out| - 1].here then [out[|out| - 1].frame] else []
  }

  lemma {:induction false} FramesOfTwo(a: seq<Outgoing>, b: seq<Outgoing>)
    ensures FramesHere(a + b) == FramesHere(a) + FramesHere(b)
    decreases |b|
  {
    if b == [] {
      assert a + b == a;
    } else {
      assert (a + b)[..|a + b| - 1] == a + b[..|b| - 1];
      FramesOfTwo(a, b[..|b| - 1]);
    }
  }

  lemma FramesAfter(sent: seq<Bytes>, a: seq<Outgoing>, b: seq<Outgoing>)
    ensures sent + FramesHere(a + b) == sent + FramesHere(a) + FramesHere(b)
  {
    FramesOfTwo(a, b);
  }

  lemma FramesOfOne(o: Outgoing)
    ensures FramesHere([o]) == if o.here then [o.frame] else []
  {
    assert [o][..0] == [];
  }

  lemma ReplyGoes(at: Origin, c: Channel, reply: Reply)
    ensures (if reply.Here? then Send(c, reply.frame) else c).sent
         == c.sent + FramesHere(Going(at, c.clients != [], reply))
  {
    if reply.Here? {
      FramesOfOne(Outgoing(true, at.channel, at.port, reply.frame));
    } else {
      FramesOfOne(Outgoing(false, reply.channel, reply.port, reply.frame));
    }
  }

  lemma {:induction false} RepliesGo(at: Origin, c: Channel, replies: seq<Reply>)
    ensures var d := SendAll(c, replies);
      && d.clients == c.clients
      && d.sent == c.sent + FramesHere(AllGoing(at, c.clients != [], replies))
    decreases |replies|
  {
    if replies != [] {
      var earlier, last := replies[..|replies| - 1], replies[|replies| - 1];
      RepliesGo(at, c, earlier);
      ReplyGoes(at, SendAll(c, earlier), last);
      FramesAfter(c.sent, AllGoing(at, c.clients != [], earlier), Going(at, c.clients != [], last));
    }
  }

  ghost predicate SendsThese(c: Channel, d: Channel, out: seq<Outgoing>) {
    d.clients == c.clients && d.sent == c.sent + FramesHere(out)
  }

  lemma OneMoreSends(at: Origin, c: Channel, d: Channel, r: Reception, replies: seq<Reply>, before: seq<Outgoing>)
    requires SendsThese(c, d, before)
    ensures SendsThese(c, SendAll(Counted(d, r), replies), before + AllGoing(at, c.clients != [], replies))
  {
    RepliesGo(at, Counted(d, r), replies);
    FramesAfter(c.sent, before, AllGoing(at, c.clients != [], replies));
  }

  lemma {:induction false} DeliverySends(at: Origin, c: Channel, listener: Listener, rs: seq<Reception>)
    ensures SendsThese(c, ReceiveAll(c, listener, rs),
                       GoingAbout(at, c.clients != [], listener, |c.received|, |rs|))
    decreases |rs|
  {
    if rs != [] {
      var n := |rs| - 1;
      var d, before := ReceiveAll(c, listener, rs[..n]), GoingAbout(at, c.clients != [], listener, |c.received|, n);
      var replies := listener(|d.received|);
      assert SendsThese(c, d, before) by {
        DeliverySends(at, c, listener, rs[..n]);
      }
      OneMoreSends(at, c, d, rs[n], replies, before);
      TcpServerService.ReceivingOneMore(c, listener, rs[..n], rs[n], replies);
      assert rs == rs[..n] + [rs[n]];
    }
  }

  lemma EventSends(at: Origin, c: Channel, listener: Listener, e: Event)
    ensures Step(c, at.registry, listener, e).sent == c.sent + FramesHere(GoingOut(at, c, listener, e))
  {
    match e
    case Arrive(socket, data) => DeliverySends(at, c, listener, Arrived(c, at.registry, socket, data));
    case SendOut(frame) =>
      if c.clients != [] {
        FramesOfOne(Outgoing(true, at.channel, at.port, frame));
      }
    case _ =>
  }

  /** In every run a channel has sent what it was asked to send, directly or by listeners, in
      order, while it had a client, and nothing else. */
  lemma {:induction false} SentAsAsked(at: Origin, listener: Listener, events: seq<Event>)
    ensures Run(IDLE, at.registry, listener, events).sent == FramesHere(GoneOut(at, listener, events))
    decreases |events|
  {
    if events != [] {
      var earlier, last := events[..|events| - 1], events[|events| - 1];
      SentAsAsked(at, listener, earlier);
      var c := Run(IDLE, at.registry, listener, earlier);
      EventSends(at, c, listener, last);
      FramesOfTwo(GoneOut(at, listener, earlier), GoingOut(at, c, listener, last));
    }
  }

  /** An entry about a frame sent: it never has parsed values. */
  predicate TellsOfSending(registry: Registry, e: LogEntry, o: Outgoing) {
    && e.direction == Tx && e.channel == o.channel && e.port == o.port && e.frame == o.frame
    && |o.frame| >= 12 && e.telegramNo == Wire.At(o.frame, 8) && e.parsedData == None
    && (e.telegramNo in registry && registry[e.telegramNo].name != ""
        ==> e.telegramName == Named(registry[e.telegramNo].name))
    && (e.telegramNo !in registry ==> e.telegramName == Unknown(e.telegramNo))
  }

  predicate TellOfSending(registry: Registry, log: seq<LogEntry>, out: seq<Outgoing>) {
    && |log| == |out|
    && forall i :: 0 <= i < |log| ==> TellsOfSending(registry, log[i], out[|out| - 1 - i])
  }

  lemma TellOfMoreSending(registry: Registry, a: seq<LogEntry>, x: seq<Outgoing>, b: seq<LogEntry>, y: seq<Outgoing>)
    requires TellOfSending(registry, a, x) && TellOfSending(registry, b, y)
    ensures TellOfSending(registry, a + b, y + x)
  {
  }

  /** Those with a header that can be read. */
  function Readable(out: seq<Outgoing>): seq<Outgoing> {
    if out == [] then []
    else
      var last := out[|out| - 1];
      Readable(out[..|out| - 1]) + if |last.frame| >= 12 && last.frame[0] == 2 then [last] else []
  }

  lemma {:induction false} ReadableOfTwo(a: seq<Outgoing>, b: seq<Outgoing>)
    ensures Readable(a + b) == Readable(a) + Readable(b)
    decreases |b|
  {
    if b == [] {
      assert a + b == a;
    } else {
      assert (a + b)[..|a + b| - 1] == a + b[..|b| - 1];
      ReadableOfTwo(a, b[..|b| - 1]);
    }
  }

  lemma OneSendingTells(at: Origin, o: Outgoing)
    requires o.channel == at.channel && o.port == at.port
    ensures TellOfSending(at.registry, Only(TxEntry(at.channel, at.port, at.registry, o.frame), Tx), Readable([o]))
  {
    assert [o][..0] == [];
    var log := TxEntry(at.channel, at.port, at.registry, o.frame);
    if log != [] {
      OnlyOfOne(log[0], Tx);
      assert log == [log[0]];
      Wire.NumberAt(o.frame, 8);
    }
  }

  lemma ReplyTellsOfSending(at: Origin, attended: bool, reply: Reply)
    ensures TellOfSending(at.registry, Only(ReplyEntry(at, attended, reply), Tx), Readable(Going(at, attended, reply)))
  {
    match reply
    case Here(frame) =>
      if attended { OneSendingTells(at, Outgoing(true, at.channel, at.port, frame)); }
    case Elsewhere(channel, port, frame) =>
      OneSendingTells(Origin(channel, port, at.registry), Outgoing(false, channel, port, frame));
  }

  lemma {:induction false} RepliesTellOfSending(at: Origin, attended: bool, replies: seq<Reply>)
    ensures TellOfSending(at.registry, Only(ReplyLog(at, attended, replies), Tx),
                          Readable(AllGoing(at, attended, replies)))
    decreases |replies|
  {
    if replies != [] {
      var earlier, last := replies[..|replies| - 1], replies[|replies| - 1];
      RepliesTellOfSending(at, attended, earlier);
      ReplyTellsOfSending(at, attended, last);
      var newer, older := ReplyEntry(at, attended, last), ReplyLog(at, attended, earlier);
      var before, going := AllGoing(at, attended, earlier), Going(at, attended, last);
      OnlyOfTwo(newer, older, Tx);
      ReadableOfTwo(before, going);
      TellOfMoreSending(at.registry, Only(newer, Tx), Readable(going), Only(older, Tx), Readable(before));
    }
  }

  lemma {:induction false} DeliveryTellsOfSending(at: Origin, attended: bool, listener: Listener, first: nat,
                                                  rs: seq<Reception>)
    ensures TellOfSending(at.registry, Only(NewestFirst(at, attended, listener, first, rs), Tx),
                          Readable(GoingAbout(at, attended, listener, first, |rs|)))
    decreases |rs|
  {
    if rs != [] {
      var n := |rs| - 1;
      DeliveryTellsOfSending(at, attended, listener, first, rs[..n]);
      RepliesTellOfSending(at, attended, listener(first + n));
      OneMoreTellsOfSending(at.registry, ReplyLog(at, attended, listener(first + n)), RxEntry(at, rs[n]),
                            NewestFirst(at, attended, listener, first, rs[..n]),
                            AllGoing(at, attended, listener(first + n)), GoingAbout(at, attended, listener, first, n),
                            NewestFirst(at, attended, listener, first, rs));
    }
  }

  lemma OneMoreTellsOfSending(registry: Registry, replies: seq<LogEntry>, e: LogEntry, earlier: seq<LogEntry>,
                              going: seq<Outgoing>, before: seq<Outgoing>, log: seq<LogEntry>)
    requires e.direction == Rx && log == replies + [e] + earlier
    requires TellOfSending(registry, Only(replies, Tx), Readable(going))
    requires TellOfSending(registry, Only(earlier, Tx), Readable(before))
    ensures TellOfSending(registry, Only(log, Tx), Readable(before + going))
  {
    assert Only(log, Tx) == Only(replies, Tx) + Only(earlier, Tx) by {
      OnlyOfTwo(replies + [e], earlier, Tx);
      OnlyOfTwo(replies, [e], Tx);
      OnlyOfOne(e, Tx);
    }
    ReadableOfTwo(before, going);
    TellOfMoreSending(registry, Only(replies, Tx), Readable(going), Only(earlier, Tx), Readable(before));
  }

  /** The entries of one more telegram, on top of the earlier ones: its own lowest, then what
      listeners sent about it. */
  ghost predicate OnTop(at: Origin, log: seq<LogEntry>, earlier: seq<LogEntry>, r: Reception, going: seq<Outgoing>) {
    var n := |log| - |earlier| - 1;
    && n >= 0 && log[n + 1..] == earlier && TellsOfReceiving(at, log[n], r)
    && TellOfSending(at.registry, log[..n], Readable(going))
  }

  lemma PutOnTop(at: Origin, replies: seq<LogEntry>, e: LogEntry, earlier: seq<LogEntry>, r: Reception,
                 going: seq<Outgoing>, log: seq<LogEntry>)
    requires TellsOfReceiving(at, e, r) && AllSent(replies) && log == replies + [e] + earlier
    requires TellOfSending(at.registry, Only(replies, Tx), Readable(going))
    ensures OnTop(at, log, earlier, r, going)
  {
    OnlyOfSent(replies);
    assert log[..|replies|] == replies && log[|replies| + 1..] == earlier;
  }

  /** What listeners send about a telegram stands above its entry, and below that of the
      next telegram. */
  lemma AnswersStandAbove(at: Origin, attended: bool, listener: Listener, first: nat, rs: seq<Reception>,
                          replies: seq<Reply>)
    requires rs != [] && Understood(at.registry, rs[|rs| - 1]) && replies == listener(first + |rs| - 1)
    ensures OnTop(at, NewestFirst(at, attended, listener, first, rs),
                  NewestFirst(at, attended, listener, first, rs[..|rs| - 1]), rs[|rs| - 1],
                  AllGoing(at, attended, replies))
  {
    var r := rs[|rs| - 1];
    RepliesAreSent(at, attended, replies);
    RepliesTellOfSending(at, attended, replies);
    EntryTells(at, r);
    PutOnTop(at, ReplyLog(at, attended, replies), RxEntry(at, r),
             NewestFirst(at, attended, listener, first, rs[..|rs| - 1]), r, AllGoing(at, attended, replies),
             NewestFirst(at, attended, listener, first, rs));
  }

  lemma EventTellsOfSending(at: Origin, c: Channel, listener: Listener, e: Event)
    ensures TellOfSending(at.registry, Only(Entries(at, c, listener, e), Tx), Readable(GoingOut(at, c, listener, e)))
  {
    match e
    case Arrive(socket, data) =>
      DeliveryTellsOfSending(at, c.clients != [], listener, |c.received|, Arrived(c, at.registry, socket, data));
    case SendOut(frame) => ReplyTellsOfSending(at, c.clients != [], Here(frame));
    case _ =>
  }

  /** In every run the entries marked Tx are the frames sent whose header can be read, newest
      first, none with parsed values. */
  lemma {:induction false} SentIsLogged(at: Origin, listener: Listener, events: seq<Event>)
    ensures TellOfSending(at.registry, Only(Everything(at, listener, events), Tx),
                          Readable(GoneOut(at, listener, events)))
    decreases |events|
  {
    if events != [] {
      var earlier, last := events[..|events| - 1], events[|events| - 1];
      var c := Run(IDLE, at.registry, listener, earlier);
      SentIsLogged(at, listener, earlier);
      EventTellsOfSending(at, c, listener, last);
      var newer, older := Entries(at, c, listener, last), Everything(at, listener, earlier);
      OnlyOfTwo(newer, older, Tx);
      ReadableOfTwo(GoneOut(at, listener, earlier), GoingOut(at, c, listener, last));
      TellOfMoreSending(at.registry, Only(newer, Tx), Readable(GoingOut(at, c, listener, last)),
                        Only(older, Tx), Readable(GoneOut(at, listener, earlier)));
    }
  }

  // ---- clients ----

  /** How often a socket is connected: since it last closed. */
  function Connections(events: seq<Event>, socket: Socket): nat {
    if events == [] then 0
    else
      var earlier, last := Connections(events[..|events| - 1], socket), events[|events| - 1];
      if last == Connect(socket) then earlier + 1 else if last == Close(socket) then 0 else earlier
  }

  lemma StepConnects(c: Channel, registry: Registry, listener: Listener, e: Event, socket: Socket)
    ensures multiset(Step(c, registry, listener, e).clients)[socket]
         == if e == Connect(socket) then multiset(c.clients)[socket] + 1
            else if e == Close(socket) then 0 else multiset(c.clients)[socket]
  {
    match e
    case Close(closed) => OthersAreKept(c.clients, closed);
    case Arrive(sender, data) => ReceivingKeeps(c, listener, Arrived(c, registry, sender, data));
    case _ =>
  }

  /** In every run the clients are the sockets that connected and have not closed since. */
  lemma {:induction false} ClientsAreConnected(registry: Registry, listener: Listener, events: seq<Event>,
                                               socket: Socket)
    ensures multiset(Run(IDLE, registry, listener, events).clients)[socket] == Connections(events, socket)
    decreases |events|
  {
    if events != [] {
      var earlier := events[..|events| - 1];
      ClientsAreConnected(registry, listener, earlier, socket);
      StepConnects(Run(IDLE, registry, listener, earlier), registry, listener, events[|events| - 1], socket);
    }
  }
}
