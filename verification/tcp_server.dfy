/** TcpServerService: bytes from many sockets in, telegrams out. The scanner is a loop
    over a buffer; its meaning is the one cut of the stream (module Framing). */
module TcpServer {
  import opened Prelude
  import opened Telegrams
  import opened TelegramParser
  import opened Framing

  const MAX_LOG_SIZE := 1000

  type Socket = nat

  /** The event emitted for an accepted frame. */
  datatype Reception = Reception(socket: Socket, telegram: Telegram, frame: Bytes)

  datatype Direction = Rx | Tx

  /** The name of a definition, or what stands for it where there is none: Unknown(n). */
  datatype TelegramName = Named(name: string) | Unknown(telegramNo: nat)

  datatype LogEntry = LogEntry(direction: Direction, channel: string, port: nat, telegramNo: nat,
                               telegramName: TelegramName, frame: Bytes, parsedData: Option<Data>)

  // ---- what a channel does, on values ----

  /** The receive and send statistics share one byte counter. */
  datatype Channel = Channel(clients: seq<Socket>, rxBuffer: map<Socket, Bytes>,
                             received: seq<Reception>, sent: seq<Bytes>,
                             telegramsReceived: nat, telegramsSent: nat, bytesTransferred: nat)

  const IDLE := Channel([], map[], [], [], 0, 0, 0)

  /** A listener that is told of a telegram may send at once: on this channel, or on another
      one that has a client, where it only shows in the log. */
  datatype Reply = Here(frame: Bytes) | Elsewhere(channel: string, port: nat, frame: Bytes)

  /** What the listeners send when told of the n-th telegram of a channel. */
  type Listener = nat -> seq<Reply>

  function Pending(rxBuffer: map<Socket, Bytes>, socket: Socket): Bytes {
    if socket in rxBuffer then rxBuffer[socket] else []
  }

  /** A frame that parses is accepted; any other is dropped. */
  function AcceptOne(frame: Bytes, socket: Socket, registry: Registry): (r: seq<Reception>)
    ensures |r| <= 1
  {
    match AutoParse(frame, registry)
    case None => []
    case Some(t) => [Reception(socket, t, frame)]
  }

  function Accept(frames: seq<Bytes>, socket: Socket, registry: Registry): seq<Reception> {
    if frames == [] then [] else AcceptOne(frames[0], socket, registry) + Accept(frames[1..], socket, registry)
  }

  /** sendToChannel: without a client nothing is sent or counted. */
  function Send(c: Channel, frame: Bytes): Channel {
    if c.clients == [] then c
    else c.(sent := c.sent + [frame], telegramsSent := c.telegramsSent + 1,
            bytesTransferred := c.bytesTransferred + |frame|)
  }

  function SendAll(c: Channel, replies: seq<Reply>): Channel {
    if replies == [] then c
    else
      var d, last := SendAll(c, replies[..|replies| - 1]), replies[|replies| - 1];
      if last.Here? then Send(d, last.frame) else d
  }

  function Counted(c: Channel, r: Reception): Channel {
    c.(received := c.received + [r], telegramsReceived := c.telegramsReceived + 1,
       bytesTransferred := c.bytesTransferred + |r.frame|)
  }

  /** An accepted telegram is counted, and the listeners are told. */
  function ReceiveOne(c: Channel, listener: Listener, r: Reception): Channel {
    SendAll(Counted(c, r), listener(|c.received|))
  }

  function ReceiveAll(c: Channel, listener: Listener, rs: seq<Reception>): Channel {
    if rs == [] then c else ReceiveOne(ReceiveAll(c, listener, rs[..|rs| - 1]), listener, rs[|rs| - 1])
  }

  ghost function Deliver(c: Channel, registry: Registry, listener: Listener, socket: Socket, data: Bytes): Channel {
    var cut := CutOf(Pending(c.rxBuffer, socket) + data);
    ReceiveAll(c, listener, Accept(Frames(cut), socket, registry)).(rxBuffer := c.rxBuffer[socket := Residual(cut)])
  }

  /** The clients but for one socket. */
  function Others(clients: seq<Socket>, socket: Socket): seq<Socket> {
    if clients == [] then []
    else
      var rest := Others(clients[..|clients| - 1], socket);
      if clients[|clients| - 1] != socket then rest + [clients[|clients| - 1]] else rest
  }

  lemma {:induction false} OthersAreKept(clients: seq<Socket>, socket: Socket)
    ensures socket !in Others(clients, socket)
    ensures forall c :: c != socket ==> multiset(Others(clients, socket))[c] == multiset(clients)[c]
  {
    if clients != [] {
      OthersAreKept(clients[..|clients| - 1], socket);
      assert clients == clients[..|clients| - 1] + [clients[|clients| - 1]];
    }
  }

  lemma {:induction false} SendingKeeps(c: Channel, replies: seq<Reply>)
    ensures var d := SendAll(c, replies); d.clients == c.clients && d.rxBuffer == c.rxBuffer && d.received == c.received
  {
    if replies != [] {
      SendingKeeps(c, replies[..|replies| - 1]);
    }
  }

  lemma {:induction false} ReceivingKeeps(c: Channel, listener: Listener, rs: seq<Reception>)
    ensures var d := ReceiveAll(c, listener, rs);
      d.clients == c.clients && d.rxBuffer == c.rxBuffer && d.received == c.received + rs
  {
    if rs == [] {
      assert c.received + [] == c.received;
    } else {
      var d, last := ReceiveAll(c, listener, rs[..|rs| - 1]), rs[|rs| - 1];
      ReceivingKeeps(c, listener, rs[..|rs| - 1]);
      SendingKeeps(Counted(d, last), listener(|d.received|));
      assert rs == rs[..|rs| - 1] + [last];
    }
  }

  lemma {:induction false} ReceivingOn(c: Channel, listener: Listener, a: seq<Reception>, b: seq<Reception>)
    ensures ReceiveAll(c, listener, a + b) == ReceiveAll(ReceiveAll(c, listener, a), listener, b)
    decreases |b|
  {
    if b == [] {
      assert a + b == a;
    } else {
      assert (a + b)[..|a + b| - 1] == a + b[..|b| - 1];
      ReceivingOn(c, listener, a, b[..|b| - 1]);
    }
  }

  /** What is kept for one socket has no part in receiving. */
  lemma {:induction false} ReceivingBeside(c: Channel, listener: Listener, rs: seq<Reception>, rxBuffer: map<Socket,
                                           Bytes>)
    ensures ReceiveAll(c.(rxBuffer := rxBuffer), listener, rs) == ReceiveAll(c, listener, rs).(rxBuffer := rxBuffer)
  {
    if rs != [] {
      var d, last := ReceiveAll(c, listener, rs[..|rs| - 1]), rs[|rs| - 1];
      ReceivingBeside(c, listener, rs[..|rs| - 1], rxBuffer);
      SendingBeside(Counted(d, last), listener(|d.received|), rxBuffer);
    }
  }

  lemma {:induction false} SendingBeside(c: Channel, replies: seq<Reply>, rxBuffer: map<Socket, Bytes>)
    ensures SendAll(c.(rxBuffer := rxBuffer), replies) == SendAll(c, replies).(rxBuffer := rxBuffer)
  {
    if replies != [] {
      SendingBeside(c, replies[..|replies| - 1], rxBuffer);
    }
  }

  // ---- the log ----

  function NameOf(registry: Registry, telegramNo: nat): TelegramName {
    if telegramNo in registry && registry[telegramNo].name != "" then Named(registry[telegramNo].name)
    else Unknown(telegramNo)
  }

  /** Where an entry belongs: channel name, port and the definitions at hand. */
  datatype Origin = Origin(channel: string, port: nat, registry: Registry)

  function RxEntry(at: Origin, r: Reception): LogEntry {
    var no := r.telegram.header.telegramNo;
    LogEntry(Rx, at.channel, at.port, no, NameOf(at.registry, no), r.frame, Some(r.telegram.data))
  }

  /** A sent frame is logged if its header can be parsed. */
  function TxEntry(channel: string, port: nat, registry: Registry, frame: Bytes): seq<LogEntry> {
    match ParseHeader(frame)
    case None => []
    case Some(header) =>
      [LogEntry(Tx, channel, port, header.telegramNo, NameOf(registry, header.telegramNo), frame, None)]
  }

  /** The entry of one reply, with or without a client on this channel. */
  function ReplyEntry(at: Origin, attended: bool, reply: Reply): seq<LogEntry> {
    match reply
    case Here(frame) => if attended then TxEntry(at.channel, at.port, at.registry, frame) else []
    case Elsewhere(channel, port, frame) => TxEntry(channel, port, at.registry, frame)
  }

  function ReplyLog(at: Origin, attended: bool, replies: seq<Reply>): seq<LogEntry> {
    if replies == [] then []
    else ReplyEntry(at, attended, replies[|replies| - 1]) + ReplyLog(at, attended, replies[..|replies| - 1])
  }

  /** The entries of a delivery, newest first, when `first` telegrams came before it. */
  function NewestFirst(at: Origin, attended: bool, listener: Listener, first: nat, rs: seq<Reception>): seq<LogEntry> {
    if rs == [] then []
    else
      var n := |rs| - 1;
      ReplyLog(at, attended, listener(first + n)) + [RxEntry(at, rs[n])]
      + NewestFirst(at, attended, listener, first, rs[..n])
  }

  lemma {:induction false} AcceptOfConcat(a: seq<Bytes>, b: seq<Bytes>, socket: Socket, registry: Registry)
    ensures Accept(a + b, socket, registry) == Accept(a, socket, registry) + Accept(b, socket, registry)
  {
    if a == [] {
      assert a + b == b;
    } else {
      assert (a + b)[1..] == a[1..] + b;
      AcceptOfConcat(a[1..], b, socket, registry);
    }
  }

  /** Dealing with the next frame of a cut. */
  lemma AcceptNext(accepted: seq<Reception>, frame: Bytes, all: seq<Bytes>, rest: seq<Bytes>, socket: Socket,
                   registry: Registry)
    requires all == [frame] + rest
    ensures accepted + Accept(all, socket, registry)
         == accepted + AcceptOne(frame, socket, registry) + Accept(rest, socket, registry)
  {
    assert all[0] == frame && all[1..] == rest;
    Associative(accepted, AcceptOne(frame, socket, registry), Accept(rest, socket, registry));
  }

  /** Adding to a full log drops the oldest entries; so a log always holds the newest. */
  lemma TakeTwice<T>(a: seq<T>, b: seq<T>, n: nat)
    ensures Take(a + Take(b, n), n) == Take(a + b, n)
  {
  }

  /** One round of the scanner: find STX, read the length, wait for the rest, cut the frame. */
  method NextFrame(buffer: Bytes, ghost ahead: Cut) returns (frame: Option<Bytes>, rest: Bytes, ghost next: Cut)
    requires WellCut(ahead) && Whole(ahead) == buffer
    ensures WellCut(next) && Whole(next) == rest && Residual(next) == Residual(ahead)
    ensures frame == None ==> Frames(ahead) == Frames(next) == [] && rest == Residual(ahead)
    ensures frame.Some? ==> Frames(ahead) == [frame.value] + Frames(next) && |rest| < |buffer|
    ensures frame == None ==> Frames(CutOf(buffer)) == [] && rest == Residual(CutOf(buffer))
    ensures frame.Some? ==> Frames(CutOf(buffer)) == [frame.value] + Frames(CutOf(rest))
  {
    UniqueDecomposition(buffer, ahead);
    JunkComesFirst(ahead);
    next := WithoutJunk(ahead);
    var stxIndex := IndexOfStx(buffer);
    if stxIndex == |buffer| {
      NothingAhead(next);
      return None, [], next;
    }
    rest := if stxIndex > 0 then buffer[stxIndex..] else buffer;
    assert rest == Whole(next);
    FrameComesNext(next);
    if |rest| < HEADER_SIZE {
      return None, rest, next;
    }
    var totalSize := HEADER_SIZE + DataLength(rest) + 1;
    if |rest| < totalSize {
      return None, rest, next;
    }
    assert totalSize == FrameSize(rest) && next.More?;
    UniqueDecomposition(rest[totalSize..], next.rest);
    return Some(rest[..totalSize]), rest[totalSize..], next.rest;
  }

  // ---- the service ----

  class TcpChannelServer {
    const name: string
    const port: nat
    var clients: seq<Socket>
    var rxBuffer: map<Socket, Bytes>
    var received: seq<Reception>
    var sent: seq<Bytes>
    var telegramsReceived: nat
    var telegramsSent: nat
    var bytesTransferred: nat

    constructor (name: string, port: nat)
      ensures this.name == name && this.port == port && View() == IDLE
    {
      this.name, this.port := name, port;
      clients, rxBuffer, received, sent := [], map[], [], [];
      telegramsReceived, telegramsSent, bytesTransferred := 0, 0, 0;
    }

    ghost function View(): Channel
      reads this
    {
      Channel(clients, rxBuffer, received, sent, telegramsReceived, telegramsSent, bytesTransferred)
    }

    function At(registry: Registry): Origin {
      Origin(name, port, registry)
    }
  }

  class TcpServerService {
    var telegramLog: seq<LogEntry>

    constructor ()
      ensures telegramLog == []
    {
      telegramLog := [];
    }

    method HandleConnection(channel: TcpChannelServer, socket: Socket)
      modifies channel
      ensures channel.View() == old(channel.View()).(clients := old(channel.clients) + [socket],
                                                     rxBuffer := old(channel.rxBuffer)[socket := []])
    {
      channel.clients := channel.clients + [socket];
      channel.rxBuffer := channel.rxBuffer[socket := []];
    }

    method HandleClose(channel: TcpChannelServer, socket: Socket)
      modifies channel
      ensures channel.View() == old(channel.View()).(clients := Others(old(channel.clients), socket),
                                                     rxBuffer := old(channel.rxBuffer) - {socket})
      ensures socket !in channel.clients
      ensures forall c :: c != socket ==> multiset(channel.clients)[c] == multiset(old(channel.clients))[c]
    {
      OthersAreKept(channel.clients, socket);
      var others: seq<Socket> := [];
      for i := 0 to |channel.clients|
        invariant channel.View() == old(channel.View())
        invariant others == Others(channel.clients[..i], socket)
      {
        assert channel.clients[..i + 1][..i] == channel.clients[..i];
        if channel.clients[i] != socket {
          others := others + [channel.clients[i]];
        }
      }
      assert channel.clients[..|channel.clients|] == channel.clients;
      channel.clients := others;
      channel.rxBuffer := channel.rxBuffer - {socket};
    }

    /** Sends to every client of the channel; false without one. */
    method SendToChannel(channel: TcpChannelServer, registry: Registry, buffer: Bytes) returns (ok: bool)
      requires |telegramLog| <= MAX_LOG_SIZE
      modifies this, channel
      ensures ok <==> old(channel.clients) != []
      ensures channel.View() == Send(old(channel.View()), buffer)
      ensures telegramLog == Take(ReplyEntry(channel.At(registry), ok, Here(buffer)) + old(telegramLog), MAX_LOG_SIZE)
    {
      if |channel.clients| == 0 { return false; }
      channel.sent := channel.sent + [buffer];
      channel.telegramsSent := channel.telegramsSent + 1;
      channel.bytesTransferred := channel.bytesTransferred + |buffer|;
      LogSent(channel.name, channel.port, registry, buffer);
      return true;
    }

    /** A frame whose header cannot be parsed is not logged. */
    method LogSent(channel: string, port: nat, registry: Registry, buffer: Bytes)
      requires |telegramLog| <= MAX_LOG_SIZE
      modifies this
      ensures telegramLog == Take(TxEntry(channel, port, registry, buffer) + old(telegramLog), MAX_LOG_SIZE)
    {
      assert [] + telegramLog == telegramLog;
      var header := ParseHeader(buffer);
      if header.Some? {
        var no := header.value.telegramNo;
        AddLog(LogEntry(Tx, channel, port, no, NameOf(registry, no), buffer, None));
      }
    }

    /** The event about an accepted telegram: its listeners send what they have to send. */
    method Emit(channel: TcpChannelServer, registry: Registry, replies: seq<Reply>)
      requires |telegramLog| <= MAX_LOG_SIZE
      modifies this, channel
      ensures channel.View() == SendAll(old(channel.View()), replies)
      ensures telegramLog
           == Take(ReplyLog(channel.At(registry), old(channel.clients) != [], replies) + old(telegramLog), MAX_LOG_SIZE)
    {
      ghost var attended, log := channel.clients != [], telegramLog;
      assert [] + log == log;
      for i := 0 to |replies|
        invariant channel.View() == SendAll(old(channel.View()), replies[..i]) && (channel.clients != [] <==> attended)
        invariant telegramLog == Take(ReplyLog(channel.At(registry), attended, replies[..i]) + log, MAX_LOG_SIZE)
      {
        assert replies[..i + 1][..i] == replies[..i];
        LogOfReply(channel.At(registry), attended, replies[..i], replies[i], log);
        match replies[i] {
          case Here(frame) => var ok := SendToChannel(channel, registry, frame);
          case Elsewhere(name, port, frame) => LogSent(name, port, registry, frame);
        }
      }
      assert replies[..|replies|] == replies;
    }

    static lemma LogOfReply(at: Origin, attended: bool, replies: seq<Reply>, reply: Reply, log: seq<LogEntry>)
      ensures Take(ReplyEntry(at, attended, reply) + Take(ReplyLog(at, attended, replies) + log, MAX_LOG_SIZE),
          MAX_LOG_SIZE)
           == Take(ReplyLog(at, attended, replies + [reply]) + log, MAX_LOG_SIZE)
    {
      assert (replies + [reply])[..|replies|] == replies;
      TakeTwice(ReplyEntry(at, attended, reply), ReplyLog(at, attended, replies) + log, MAX_LOG_SIZE);
      Associative(ReplyEntry(at, attended, reply), ReplyLog(at, attended, replies), log);
    }

    /** Takes one frame after the other off the bytes at hand and keeps what is left over. */
    method HandleData(channel: TcpChannelServer, registry: Registry, listener: Listener, socket: Socket, data: Bytes)
      requires |telegramLog| <= MAX_LOG_SIZE
      modifies this, channel
      ensures channel.View() == Deliver(old(channel.View()), registry, listener, socket, data)
      ensures var accepted := Accept(Frames(CutOf(Pending(old(channel.rxBuffer), socket) + data)), socket, registry);
        var first := |old(channel.received)|;
        telegramLog == Take(NewestFirst(channel.At(registry), old(channel.clients) != [], listener, first, accepted)
                            + old(telegramLog), MAX_LOG_SIZE)
    {
      var buffer := Pending(channel.rxBuffer, socket) + data;
      ghost var before, log, cut := channel.View(), telegramLog, CutOf(buffer);
      assert [] + log == log;
      buffer := ReceiveFrames(channel, registry, listener, socket, buffer, cut, before, log);
      ReceivingKeeps(before, listener, Accept(Frames(cut), socket, registry));
      channel.rxBuffer := channel.rxBuffer[socket := buffer];
    }

    /** The loop of handleData. */
    method ReceiveFrames(channel: TcpChannelServer, registry: Registry, listener: Listener, socket: Socket,
                         stream: Bytes,
                         ghost cut: Cut, ghost before: Channel, ghost log: seq<LogEntry>)
      returns (buffer: Bytes)
      requires WellCut(cut) && Whole(cut) == stream
      requires Progress(channel, registry, listener, before, log, [])
      modifies this, channel
      ensures buffer == Residual(cut)
      ensures Progress(channel, registry, listener, before, log, Accept(Frames(cut), socket, registry))
    {
      buffer := stream;
      ghost var ahead, accepted, whole := cut, [], Accept(Frames(cut), socket, registry);
      assert [] + whole == whole;
      while |buffer| > 0
        invariant WellCut(ahead) && Whole(ahead) == buffer
        invariant whole == accepted + Accept(Frames(ahead), socket, registry)
        invariant Residual(cut) == Residual(ahead)
        invariant Progress(channel, registry, listener, before, log, accepted)
        decreases |buffer|
      {
        var more;
        more, buffer, ahead, accepted :=
          ReceiveNext(channel, registry, listener, socket, buffer, ahead, before, log, accepted);
        if !more { break; }
      }
      NothingLeft(accepted, ahead, socket, registry);
    }

    /** One round of the loop: the next frame, or the end. */
    method ReceiveNext(channel: TcpChannelServer, registry: Registry, listener: Listener, socket: Socket, buffer: Bytes,
                       ghost ahead: Cut, ghost before: Channel, ghost log: seq<LogEntry>,
                       ghost accepted: seq<Reception>)
      returns (more: bool, rest: Bytes, ghost next: Cut, ghost received: seq<Reception>)
      requires WellCut(ahead) && Whole(ahead) == buffer
      requires Progress(channel, registry, listener, before, log, accepted)
      modifies this, channel
      ensures WellCut(next) && Whole(next) == rest && Residual(next) == Residual(ahead)
      ensures accepted + Accept(Frames(ahead), socket, registry) == received + Accept(Frames(next), socket, registry)
      ensures if more then |rest| < |buffer| else Frames(next) == [] && rest == Residual(ahead)
      ensures Progress(channel, registry, listener, before, log, received)
    {
      var frame;
      frame, rest, next := NextFrame(buffer, ahead);
      more, received := frame.Some?, accepted;
      if frame.Some? {
        Receive(channel, registry, listener, socket, frame.value, before, log, accepted);
        AcceptNext(accepted, frame.value, Frames(ahead), Frames(next), socket, registry);
        received := accepted + AcceptOne(frame.value, socket, registry);
      }
    }

    static lemma NothingLeft(accepted: seq<Reception>, ahead: Cut, socket: Socket, registry: Registry)
      requires WellCut(ahead) && (Whole(ahead) == [] || Frames(ahead) == [])
      ensures accepted + Accept(Frames(ahead), socket, registry) == accepted
      ensures Whole(ahead) == [] ==> Residual(ahead) == []
    {
      if Whole(ahead) == [] {
        NothingAhead(ahead);
      }
    }

    /** The state of the channel and of the log once `accepted` has been received. */
    ghost predicate Progress(channel: TcpChannelServer, registry: Registry, listener: Listener, before: Channel,
                             log: seq<LogEntry>, accepted: seq<Reception>)
      reads this, channel
    {
      && channel.View() == ReceiveAll(before, listener, accepted)
      && var first := |before.received|;
        telegramLog == Take(NewestFirst(channel.At(registry), before.clients != [], listener, first, accepted)
                            + log, MAX_LOG_SIZE)
    }

    /** The try block: statistics, log entry and event for a frame that parses. */
    method Receive(channel: TcpChannelServer, registry: Registry, listener: Listener, socket: Socket, frame: Bytes,
                   ghost before: Channel, ghost log: seq<LogEntry>, ghost accepted: seq<Reception>)
      requires Progress(channel, registry, listener, before, log, accepted)
      modifies this, channel
      ensures Progress(channel, registry, listener, before, log, accepted + AcceptOne(frame, socket, registry))
    {
      match AutoParse(frame, registry) {
        case None =>
          assert accepted + [] == accepted;
        case Some(telegram) =>
          Accepted(channel, registry, listener, Reception(socket, telegram, frame), before, log, accepted);
      }
    }

    method Accepted(channel: TcpChannelServer, registry: Registry, listener: Listener, r: Reception,
                    ghost before: Channel, ghost log: seq<LogEntry>, ghost accepted: seq<Reception>)
      requires Progress(channel, registry, listener, before, log, accepted)
      modifies this, channel
      ensures Progress(channel, registry, listener, before, log, accepted + [r])
    {
      var replies := listener(|channel.received|);
      ReceivingOneMore(before, listener, accepted, r, replies);
      LogOfReception(channel.At(registry), before.clients != [], listener, |before.received|, accepted, r, log,
                     replies);
      Tell(channel, registry, r, replies);
    }

    static lemma ReceivingOneMore(c: Channel, listener: Listener, rs: seq<Reception>, r: Reception, replies: seq<Reply>)
      requires replies == listener(|ReceiveAll(c, listener, rs).received|)
      ensures replies == listener(|c.received| + |rs|) && ReceiveAll(c, listener, rs).clients == c.clients
      ensures ReceiveAll(c, listener, rs + [r]) == SendAll(Counted(ReceiveAll(c, listener, rs), r), replies)
    {
      assert (rs + [r])[..|rs|] == rs;
      ReceivingKeeps(c, listener, rs);
    }

    /** Statistics first, then the log entry, then the event and what its listeners send. */
    method Tell(channel: TcpChannelServer, registry: Registry, r: Reception, replies: seq<Reply>)
      requires |telegramLog| <= MAX_LOG_SIZE
      modifies this, channel
      ensures channel.View() == SendAll(Counted(old(channel.View()), r), replies)
      ensures var at, attended := channel.At(registry), old(channel.clients) != [];
        telegramLog == Take(ReplyLog(at, attended, replies)
                            + Take([RxEntry(at, r)] + old(telegramLog), MAX_LOG_SIZE), MAX_LOG_SIZE)
    {
      CountReception(channel, r);
      AddLog(RxEntry(channel.At(registry), r));
      Emit(channel, registry, replies);
    }

    method CountReception(channel: TcpChannelServer, r: Reception)
      modifies channel
      ensures channel.View() == Counted(old(channel.View()), r)
    {
      channel.telegramsReceived := channel.telegramsReceived + 1;
      channel.bytesTransferred := channel.bytesTransferred + |r.frame|;
      channel.received := channel.received + [r];
    }

    static lemma LogOfReception(at: Origin, attended: bool, listener: Listener, first: nat, rs: seq<Reception>,
                                r: Reception, log: seq<LogEntry>, replies: seq<Reply>)
      requires replies == listener(first + |rs|)
      ensures Take(ReplyLog(at, attended, replies)
                   + Take([RxEntry(at, r)]
                          + Take(NewestFirst(at, attended, listener, first, rs) + log, MAX_LOG_SIZE), MAX_LOG_SIZE),
                   MAX_LOG_SIZE)
           == Take(NewestFirst(at, attended, listener, first, rs + [r]) + log, MAX_LOG_SIZE)
    {
      assert (rs + [r])[..|rs|] == rs;
      ThreeOnTop(ReplyLog(at, attended, replies), [RxEntry(at, r)], NewestFirst(at, attended, listener, first, rs),
                 log);
    }

    static lemma ThreeOnTop(a: seq<LogEntry>, b: seq<LogEntry>, c: seq<LogEntry>, log: seq<LogEntry>)
      ensures Take(a + Take(b + Take(c + log, MAX_LOG_SIZE), MAX_LOG_SIZE), MAX_LOG_SIZE)
           == Take(a + b + c + log, MAX_LOG_SIZE)
    {
      TakeTwice(b, c + log, MAX_LOG_SIZE);
      TakeTwice(a, b + (c + log), MAX_LOG_SIZE);
      Associative(a, b, c + log);
      Associative(a + b, c, log);
    }

    method AddLog(entry: LogEntry)
      modifies this
      ensures telegramLog == Take([entry] + old(telegramLog), MAX_LOG_SIZE)
    {
      telegramLog := [entry] + telegramLog;
      if |telegramLog| > MAX_LOG_SIZE {
        telegramLog := telegramLog[..MAX_LOG_SIZE];
      }
    }
  }
}
