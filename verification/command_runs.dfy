/** The simulator as a whole: bytes in, commands carried out, acknowledgements back. */
module CommandRuns {
  import opened Prelude
  import opened Telegrams
  import opened TelegramParser
  import opened TelegramCatalog
  import opened TelegramValidator
  import opened Messages
  import opened Framing
  import opened TcpServer
  import opened SorterState
  import opened CommandHandler
  import T = TcpRuns
  import S = SorterRuns
  import Pid
  import opened SorterControl
  import opened SorterEffects

  /** An acknowledgement goes to the socket that the command came from. */
  datatype Ack = Ack(socket: Socket, message: Message)

  /** The channel of the commands, the sorter, and every acknowledgement sent. */
  datatype System = System(channel: TcpServer.Channel, sorter: State, acks: seq<Ack>)

  /** Something on the channel, or anything else that happens to the sorter: its own timers,
      its operator, commands on other channels. */
  datatype Event = OnChannel(net: T.Event) | OnSorter(own: S.Event)

  /** The sorter after the telegrams, one after the other. */
  function Obeyed(s: State, rs: seq<Reception>): State {
    if rs == [] then s else Commanded(Obeyed(s, rs[..|rs| - 1]), rs[|rs| - 1].telegram)
  }

  function AckOf(s: State, r: Reception): seq<Ack> {
    match Answer(s, r.telegram)
    case None => []
    case Some(m) => [Ack(r.socket, m)]
  }

  function AcksOf(s: State, rs: seq<Reception>): seq<Ack> {
    if rs == [] then [] else AcksOf(s, rs[..|rs| - 1]) + AckOf(Obeyed(s, rs[..|rs| - 1]), rs[|rs| - 1])
  }

  /** What a delivery is accepted as. */
  ghost function Arrived(c: TcpServer.Channel, e: T.Event): seq<Reception> {
    if e.Arrive? then T.Arrived(c, Catalog(), e.socket, e.data) else []
  }

  ghost function Step(x: System, listener: Listener, e: Event): System {
    match e
    case OnChannel(net) =>
      var rs := Arrived(x.channel, net);
      System(T.Step(x.channel, Catalog(), listener, net), Obeyed(x.sorter, rs), x.acks + AcksOf(x.sorter, rs))
    case OnSorter(own) => x.(sorter := S.Step(x.sorter, own))
  }

  ghost function Run(x: System, listener: Listener, events: seq<Event>): System {
    if events == [] then x else Step(Run(x, listener, events[..|events| - 1]), listener, events[|events| - 1])
  }

  function Boot(config: FullConfig): System {
    System(IDLE, Initial(config), [])
  }

  // ---- the channel does not notice the sorter ----

  function NetEvents(events: seq<Event>): seq<T.Event> {
    if events == [] then []
    else
      var earlier, last := NetEvents(events[..|events| - 1]), events[|events| - 1];
      if last.OnChannel? then earlier + [last.net] else earlier
  }

  lemma {:induction false} ChannelOnItsOwn(x: System, listener: Listener, events: seq<Event>)
    ensures Run(x, listener, events).channel == T.Run(x.channel, Catalog(), listener, NetEvents(events))
  {
    if events != [] {
      var earlier, last := events[..|events| - 1], events[|events| - 1];
      ChannelOnItsOwn(x, listener, earlier);
      if last.OnChannel? {
        assert (NetEvents(earlier) + [last.net])[..|NetEvents(earlier)|] == NetEvents(earlier);
      }
    }
  }

  // ---- one acknowledgement for each command, in turn ----

  function Commands(rs: seq<Reception>): seq<Reception> {
    if rs == [] then []
    else
      var earlier, last := Commands(rs[..|rs| - 1]), rs[|rs| - 1];
      if IsCommand(last.telegram.header.telegramNo) then earlier + [last] else earlier
  }

  /** The acknowledgement goes back where the command came from, can be built, passes the
      full validation, and decodes to the identifying fields of the command. */
  ghost predicate Acknowledges(ack: Ack, r: Reception) {
    && ack.socket == r.socket
    && Encode(ack.message).Some?
    && Accepted(Encode(ack.message).value, Catalog())
    && AutoParse(Encode(ack.message).value, Catalog()).Some?
    && Echoes(r.telegram, AutoParse(Encode(ack.message).value, Catalog()).value)
  }

  ghost predicate InTurn(acks: seq<Ack>, commands: seq<Reception>) {
    |acks| == |commands| && forall i :: 0 <= i < |acks| ==> Acknowledges(acks[i], commands[i])
  }

  /** The telegram is what the frame is parsed to. */
  predicate Genuine(r: Reception) {
    AutoParse(r.frame, Catalog()) == Some(r.telegram)
  }

  ghost predicate AllGenuine(rs: seq<Reception>) {
    forall i :: 0 <= i < |rs| ==> Genuine(rs[i])
  }

  lemma {:induction false} AcceptedAreGenuine(frames: seq<Bytes>, socket: Socket)
    ensures AllGenuine(Accept(frames, socket, Catalog()))
  {
    if frames != [] {
      AcceptedAreGenuine(frames[1..], socket);
    }
  }

  lemma OneInTurn(s: State, r: Reception)
    requires Genuine(r)
    ensures InTurn(AckOf(s, r), if IsCommand(r.telegram.header.telegramNo) then [r] else [])
  {
    AcknowledgementEchoesRequest(s, r.frame);
  }

  lemma InTurnConcat(acks: seq<Ack>, commands: seq<Reception>, acks': seq<Ack>, commands': seq<Reception>)
    requires InTurn(acks, commands) && InTurn(acks', commands')
    ensures InTurn(acks + acks', commands + commands')
  {
  }

  lemma {:induction false} AcksInTurn(s: State, rs: seq<Reception>)
    requires AllGenuine(rs)
    ensures InTurn(AcksOf(s, rs), Commands(rs))
  {
    if rs != [] {
      var earlier, last := rs[..|rs| - 1], rs[|rs| - 1];
      AcksInTurn(s, earlier);
      OneInTurn(Obeyed(s, earlier), last);
      InTurnConcat(AcksOf(s, earlier), Commands(earlier), AckOf(Obeyed(s, earlier), last),
                   if IsCommand(last.telegram.header.telegramNo) then [last] else []);
      assert Commands(earlier) + [] == Commands(earlier);
    }
  }

  lemma {:induction false} CommandsOfConcat(a: seq<Reception>, b: seq<Reception>)
    ensures Commands(a + b) == Commands(a) + Commands(b)
    decreases |b|
  {
    if b == [] {
      assert a + b == a;
    } else {
      assert (a + b)[..|a + b| - 1] == a + b[..|b| - 1];
      CommandsOfConcat(a, b[..|b| - 1]);
    }
  }

  lemma ReceivedOn(c: TcpServer.Channel, listener: Listener, e: T.Event)
    ensures T.Step(c, Catalog(), listener, e).received == c.received + Arrived(c, e)
    ensures AllGenuine(Arrived(c, e))
  {
    match e
    case Arrive(socket, data) =>
      T.Delivered(c, Catalog(), listener, socket, data, socket);
      AcceptedAreGenuine(Frames(CutOf(Pending(c.rxBuffer, socket) + data)), socket);
    case SendOut(_) => assert c.received + [] == c.received;
    case _ => assert c.received + [] == c.received;
  }

  /** Whatever arrives in whatever pieces, and whatever else happens to the sorter: the
      acknowledgements are those of the commands received, one for each and in order. */
  lemma {:induction false} AcksFollowCommands(config: FullConfig, listener: Listener, events: seq<Event>)
    ensures var x := Run(Boot(config), listener, events); InTurn(x.acks, Commands(x.channel.received))
    decreases |events|
  {
    if events != [] {
      var earlier, last := events[..|events| - 1], events[|events| - 1];
      AcksFollowCommands(config, listener, earlier);
      if last.OnChannel? {
        StepInTurn(Run(Boot(config), listener, earlier), listener, last.net);
      }
    }
  }

  lemma StepInTurn(x: System, listener: Listener, e: T.Event)
    requires InTurn(x.acks, Commands(x.channel.received))
    ensures var y := Step(x, listener, OnChannel(e)); InTurn(y.acks, Commands(y.channel.received))
  {
    var rs := Arrived(x.channel, e);
    ReceivedOn(x.channel, listener, e);
    CommandsOfConcat(x.channel.received, rs);
    AcksInTurn(x.sorter, rs);
    InTurnConcat(x.acks, Commands(x.channel.received), AcksOf(x.sorter, rs), Commands(rs));
  }

  // ---- the acknowledgements are those of the service ----

  lemma CommandedKeepsShape(s: State, t: Telegram)
    requires S.Shaped(s)
    ensures S.Shaped(Commanded(s, t))
  {
    var no, request := Lookup(t.data, INDUCTION_NO), Lookup(t.data, REQUEST);
    S.StartAndStopKeepShape(s);
    S.CommandsKeepShape(s, no, request);
  }

  /** The handler is told of one telegram after the other. */
  method Obey(handler: CommandHandlerService, rs: seq<Reception>) returns (acks: seq<Ack>)
    requires S.Shaped(handler.sorterEngine.View())
    modifies handler.sorterEngine
    ensures handler.sorterEngine.View() == Obeyed(old(handler.sorterEngine.View()), rs)
    ensures acks == AcksOf(old(handler.sorterEngine.View()), rs)
  {
    acks := [];
    ghost var s := handler.sorterEngine.View();
    for i := 0 to |rs|
      invariant handler.sorterEngine.View() == Obeyed(s, rs[..i]) && S.Shaped(Obeyed(s, rs[..i]))
      invariant acks == AcksOf(s, rs[..i])
    {
      assert rs[..i + 1][..i] == rs[..i];
      CommandedKeepsShape(Obeyed(s, rs[..i]), rs[i].telegram);
      var ack := handler.HandleTelegram(rs[i].telegram);
      if ack.Some? {
        acks := acks + [Ack(rs[i].socket, ack.value)];
      } else {
        assert acks + [] == acks;
      }
    }
    assert rs[..|rs|] == rs;
  }

  // ---- the sorter lives a run of its own ----

  /** What a telegram asks of the sorter. */
  function AskedBy(t: Telegram): seq<S.Event> {
    var request, no := Lookup(t.data, "request"), Lookup(t.data, "inductionNo");
    match t.header.telegramNo
    case 100 => [S.SorterCommand(request)]
    case 110 => [S.InductionCommand(no, request)]
    case 120 => [S.ModeCommand(no, request)]
    case 140 => [S.ResetCommand]
    case _ => []
  }

  function AllAsked(rs: seq<Reception>): seq<S.Event> {
    if rs == [] then [] else AllAsked(rs[..|rs| - 1]) + AskedBy(rs[|rs| - 1].telegram)
  }

  /** Everything that happens to the sorter: commands received, and what comes of its own. */
  ghost function SorterEvents(x: System, listener: Listener, events: seq<Event>): seq<S.Event> {
    if events == [] then []
    else
      var earlier, last := events[..|events| - 1], events[|events| - 1];
      SorterEvents(x, listener, earlier)
      + match last
        case OnChannel(net) => AllAsked(Arrived(Run(x, listener, earlier).channel, net))
        case OnSorter(own) => [own]
  }

  lemma {:induction false} RunOn(s: State, a: seq<S.Event>, b: seq<S.Event>)
    ensures S.Run(s, a + b) == S.Run(S.Run(s, a), b)
    decreases |b|
  {
    if b == [] {
      assert a + b == a;
    } else {
      assert (a + b)[..|a + b| - 1] == a + b[..|b| - 1];
      RunOn(s, a, b[..|b| - 1]);
    }
  }

  lemma OneAsked(s: State, t: Telegram)
    ensures Commanded(s, t) == S.Run(s, AskedBy(t))
  {
    var asked := AskedBy(t);
    if asked != [] {
      assert asked[..0] == [];
    }
  }

  lemma {:induction false} ObeyedIsARun(s: State, rs: seq<Reception>)
    ensures Obeyed(s, rs) == S.Run(s, AllAsked(rs))
  {
    if rs != [] {
      var earlier, last := rs[..|rs| - 1], rs[|rs| - 1];
      ObeyedIsARun(s, earlier);
      OneAsked(Obeyed(s, earlier), last.telegram);
      RunOn(s, AllAsked(earlier), AskedBy(last.telegram));
    }
  }

  /** Whatever arrives in whatever pieces: the sorter is in the state of the run of the
      commands received and of its own events, so that all that holds of its runs holds here. */
  lemma {:induction false} SorterLivesARun(x: System, listener: Listener, events: seq<Event>)
    ensures Run(x, listener, events).sorter == S.Run(x.sorter, SorterEvents(x, listener, events))
    decreases |events|
  {
    if events != [] {
      var earlier, last := events[..|events| - 1], events[|events| - 1];
      SorterLivesARun(x, listener, earlier);
      var before := SorterEvents(x, listener, earlier);
      match last
      case OnChannel(net) =>
        var rs := Arrived(Run(x, listener, earlier).channel, net);
        ObeyedIsARun(S.Run(x.sorter, before), rs);
        RunOn(x.sorter, before, AllAsked(rs));
      case OnSorter(own) =>
        assert (before + [own])[..|before|] == before;
    }
  }

  /** Over the wire: an induction keys in PIDs exactly when the last mode command received for
      it since the inductions were made says so. */
  lemma ModeIsAsCommanded(config: FullConfig, listener: Listener, events: seq<Event>, i: nat, pick: nat)
    requires i < |Run(Boot(config), listener, events).sorter.inductions|
    ensures var s, asked := Run(Boot(config), listener, events).sorter, SorterEvents(Boot(config), listener, events);
      && (s.inductions[i].mode == Pid.Key <==> KeysAsked(asked, i + 1))
      && var t := S.Step(s, S.ItemInjected(i + 1, pick));
      && |t.objects| == |s.objects| + 1
      && (100000 * (i + 1) + 15001 <= t.objects[|s.objects|].pid <= 100000 * (i + 1) + 30000
          <==> KeysAsked(asked, i + 1))
      && (100000 * (i + 1) + 1 <= t.objects[|s.objects|].pid <= 100000 * (i + 1) + 15000
          <==> !KeysAsked(asked, i + 1))
  {
    SorterLivesARun(Boot(config), listener, events);
    NextItemIsKeyed(config, SorterEvents(Boot(config), listener, events), i, pick);
  }

  // ---- from end to end ----

  function AcksTo(acks: seq<Ack>, socket: Socket): seq<Ack> {
    if acks == [] then []
    else
      var earlier, last := AcksTo(acks[..|acks| - 1], socket), acks[|acks| - 1];
      if last.socket == socket then earlier + [last] else earlier
  }

  lemma {:induction false} InTurnForOne(acks: seq<Ack>, commands: seq<Reception>, socket: Socket)
    requires InTurn(acks, commands)
    ensures InTurn(AcksTo(acks, socket), T.From(commands, socket))
    decreases |acks|
  {
    if acks != [] {
      var n := |acks| - 1;
      InTurnForOne(acks[..n], commands[..n], socket);
      assert Acknowledges(acks[n], commands[n]);
      if acks[n].socket == socket {
        InTurnConcat(AcksTo(acks[..n], socket), T.From(commands[..n], socket), [acks[n]], [commands[n]]);
      } else {
        assert T.From(commands[..n], socket) + [] == T.From(commands[..n], socket);
      }
    }
  }

  lemma {:induction false} CommandsFromOne(rs: seq<Reception>, socket: Socket)
    ensures T.From(Commands(rs), socket) == Commands(T.From(rs, socket))
    decreases |rs|
  {
    if rs != [] {
      var earlier, last := rs[..|rs| - 1], rs[|rs| - 1];
      CommandsFromOne(earlier, socket);
      OneMoreFrom(Commands(earlier), last, socket);
      OneMoreFrom(earlier, last, socket);
      assert earlier + [last] == rs;
      assert (T.From(earlier, socket) + [last])[..|T.From(earlier, socket)|] == T.From(earlier, socket);
    }
  }

  lemma OneMoreFrom(rs: seq<Reception>, r: Reception, socket: Socket)
    ensures T.From(rs + [r], socket) == if r.socket == socket then T.From(rs, socket) + [r] else T.From(rs, socket)
  {
    assert (rs + [r])[..|rs|] == rs;
    assert T.From(rs, socket) + [] == T.From(rs, socket);
  }

  /** A client whose sessions carry well-built telegrams, with junk between them and in any
      chunks, while other clients send anything, listeners answer anything, and the sorter
      is driven from elsewhere: it gets one acknowledgement for each command among the
      telegrams it sent, in the order in which it sent them. */
  lemma EveryCommandIsAcknowledged(config: FullConfig, listener: Listener, events: seq<Event>, socket: Socket,
                                                      streams: seq<T.Stream>)
    requires T.Carry(T.Sessions(NetEvents(events), socket), streams, Catalog())
    ensures InTurn(AcksTo(Run(Boot(config), listener, events).acks, socket), Commands(T.ExpectedOfAll(streams, socket)))
  {
    var x := Run(Boot(config), listener, events);
    ChannelOnItsOwn(Boot(config), listener, events);
    T.EveryStreamRoundTrips(Catalog(), listener, NetEvents(events), socket, streams);
    AcksFollowCommands(config, listener, events);
    InTurnForOne(x.acks, Commands(x.channel.received), socket);
    CommandsFromOne(x.channel.received, socket);
  }
}
