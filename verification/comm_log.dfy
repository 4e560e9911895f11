/** CommLogService and LogsGateway: a bounded, expiring log kept newest first, and the
    gateway that sends its clients what is new every two seconds. */
module CommLog {
  import opened Prelude

  const MAX_LOG_ENTRIES := 100000
  const BROADCAST_SIZE := 10

  /** Entry number `id` is the one logged as LOG_id. */
  datatype Entry = Entry(id: nat, timestamp: int, message: string)

  function KeptSince(logs: seq<Entry>, cutoff: int): seq<Entry> {
    if logs == [] then []
    else
      var rest := KeptSince(logs[..|logs| - 1], cutoff);
      if logs[|logs| - 1].timestamp >= cutoff then rest + [logs[|logs| - 1]] else rest
  }

  /** The entries in front of the one with the given id; all of them if it is not there. */
  function Before(logs: seq<Entry>, id: nat): seq<Entry> {
    if logs == [] || logs[0].id == id then [] else [logs[0]] + Before(logs[1..], id)
  }

  // ---- both services on values ----

  /** `lastId` is the number of the newest entry broadcast, zero before the first broadcast. */
  datatype State = State(logs: seq<Entry>, counter: nat, clients: int, lastId: nat, broadcasts: seq<seq<Entry>>)

  const INITIAL := State([], 0, 0, 0, [])

  function Append(s: State, message: string, now: int): State {
    s.(logs := Take([Entry(s.counter + 1, now, message)] + s.logs, MAX_LOG_ENTRIES), counter := s.counter + 1)
  }

  function Expire(s: State, cutoff: int): State {
    s.(logs := KeptSince(s.logs, cutoff))
  }

  function Tick(s: State): State {
    var recent := Take(s.logs, BROADCAST_SIZE);
    if s.clients == 0 || recent == [] || recent[0].id == s.lastId then s
    else s.(lastId := recent[0].id, broadcasts := s.broadcasts + [Before(recent, s.lastId)])
  }

  // ---- the services ----

  class CommLogService {
    var logs: seq<Entry>
    var logCounter: nat

    constructor ()
      ensures logs == [] && logCounter == 0
    {
      logs, logCounter := [], 0;
    }

    method Log(message: string, now: int) returns (entry: Entry)
      modifies this
      ensures entry == Entry(old(logCounter) + 1, now, message)
      ensures logCounter == old(logCounter) + 1
      ensures logs == Take([entry] + old(logs), MAX_LOG_ENTRIES)
    {
      logCounter := logCounter + 1;
      entry := Entry(logCounter, now, message);
      logs := [entry] + logs;
      if |logs| > MAX_LOG_ENTRIES {
        logs := logs[..MAX_LOG_ENTRIES];
      }
    }

    method CleanupExpiredLogs(cutoff: int) returns (deleted: int)
      modifies this`logs
      ensures logs == KeptSince(old(logs), cutoff)
      ensures deleted == |old(logs)| - |logs|
    {
      var kept: seq<Entry> := [];
      for i := 0 to |logs|
        invariant logs == old(logs)
        invariant kept == KeptSince(logs[..i], cutoff)
      {
        assert logs[..i + 1][..i] == logs[..i];
        if logs[i].timestamp >= cutoff {
          kept := kept + [logs[i]];
        }
      }
      assert logs[..|logs|] == logs;
      deleted := |logs| - |kept|;
      logs := kept;
    }

    function GetRecentLogs(count: nat): seq<Entry>
      reads this
    {
      Take(logs, count)
    }
  }

  class LogsGateway {
    const commLog: CommLogService
    var connectedClients: int
    var lastLogId: nat
    /** Everything emitted to all clients. */
    var broadcasts: seq<seq<Entry>>

    constructor (commLog: CommLogService)
      ensures this.commLog == commLog
      ensures connectedClients == 0 && lastLogId == 0 && broadcasts == []
    {
      this.commLog := commLog;
      connectedClients, lastLogId, broadcasts := 0, 0, [];
    }

    ghost function View(): State
      reads this, commLog
    {
      State(commLog.logs, commLog.logCounter, connectedClients, lastLogId, broadcasts)
    }

    method HandleConnection() returns (recent: seq<Entry>)
      modifies this
      ensures View() == old(View()).(clients := old(connectedClients) + 1)
      ensures recent == Take(commLog.logs, 20)
    {
      connectedClients := connectedClients + 1;
      recent := commLog.GetRecentLogs(20);
    }

    method HandleDisconnect()
      modifies this
      ensures View() == old(View()).(clients := old(connectedClients) - 1)
    {
      connectedClients := connectedClients - 1;
    }

    method BroadcastNewLogs()
      modifies this
      ensures View() == Tick(old(View()))
    {
      if connectedClients == 0 { return; }
      var recentLogs := commLog.GetRecentLogs(BROADCAST_SIZE);
      if |recentLogs| == 0 { return; }
      if recentLogs[0].id != lastLogId {
        var newLogs := NewerThan(recentLogs, lastLogId);
        if |newLogs| > 0 {
          lastLogId := newLogs[0].id;
          broadcasts := broadcasts + [newLogs];
        }
      }
    }

    /** The entries before the one with this number, newest first. */
    static method NewerThan(recentLogs: seq<Entry>, id: nat) returns (newLogs: seq<Entry>)
      ensures newLogs == Before(recentLogs, id)
    {
      newLogs := [];
      var i := 0;
      assert recentLogs[0..] == recentLogs;
      while i < |recentLogs|
        invariant 0 <= i <= |recentLogs|
        invariant Before(recentLogs, id) == newLogs + Before(recentLogs[i..], id)
      {
        if recentLogs[i].id == id { break; }
        assert recentLogs[i..][1..] == recentLogs[i + 1..];
        newLogs := newLogs + [recentLogs[i]];
        i := i + 1;
      }
      assert newLogs + [] == newLogs;
    }
  }
}
