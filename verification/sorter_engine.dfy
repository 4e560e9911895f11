/** SorterEngineService: the virtual sorter, changed in place by its operations. Every
    operation is proved to do to the whole state what SorterState says. */
module SorterEngine {
  import opened Prelude
  import opened Messages
  import opened SorterState

  class SorterEngineService {
    var config: Config
    var status: SorterStatus
    var totals: Totals
    var inductions: seq<Induction>
    var chutes: seq<Chute>
    var objects: seq<Item>
    var items: seq<nat>
    var timers: seq<Callback>
    var live: set<nat>
    var inductionTimers: seq<nat>
    var pendingTimers: seq<nat>
    var epoch: nat
    var cellCounter: nat
    const pidGenerator: Pid.PidGenerator
    var resetBase: nat
    var sent: seq<Sending>
    var emitted: seq<Emitted>
    var failures: nat

    ghost function View(): State
      reads this, pidGenerator
    {
      State(config, status, totals, inductions, chutes, objects, items, timers, live, inductionTimers, pendingTimers,
            epoch, cellCounter, pidGenerator.counters, resetBase, sent, emitted, failures)
    }

    constructor (initial: FullConfig)
      ensures View() == Initial(initial) && fresh(pidGenerator)
    {
      config, status, totals := initial, Stopped, NO_TOTALS;
      inductions, chutes, objects, items := [], [], [], [];
      timers, live, inductionTimers, pendingTimers := [], {}, [], [];
      epoch, cellCounter, resetBase, failures := 0, 0, 0, 0;
      sent, emitted := [], [];
      pidGenerator := new Pid.PidGenerator();
      new;
      InitializeState();
    }

    method InitializeState()
      modifies this
      ensures View() == Initialized(old(View()))
    {
      MakeInductions();
      MakeChutes();
      epoch := epoch + 1;
    }

    method MakeInductions()
      modifies this`inductions
      ensures inductions == NewInductions(Amount(config.inductionCount))
    {
      inductions := [];
      for i := 1 to Amount(config.inductionCount) + 1
        invariant inductions == NewInductions(i - 1)
      {
        inductions := inductions + [Induction(i, Off, Pid.Auto, 0, None)];
      }
    }

    method MakeChutes()
      modifies this`chutes
      ensures chutes == NewChutes(Amount(config.chuteCount))
    {
      chutes := [];
      for i := 1 to Amount(config.chuteCount) + 1
        invariant chutes == NewChutes(i - 1)
      {
        chutes := chutes + [Chute(i, Some(0), false)];
      }
    }

    // ---- sending ----

    method SendToChannel(channel: Channel, m: Message)
      modifies this
      ensures View() == Send(old(View()), channel, m)
    {
      sent := sent + [Sending(channel, m)];
    }

    method ReportSorterStatus()
      modifies this
      ensures View() == SendSorterStatus(old(View()))
    {
      SendToChannel(ReceiveMcs, SorterStatusReport(SorterCode(status)));
    }

    method ReportInductionStatus(ind: Induction)
      modifies this
      ensures View() == old(View()).(sent := old(sent) + [StatusReport(old(config), ind)])
    {
      var count := Amount(config.inductionCount);
      SendToChannel(ReceiveMcs, InductionStatusReport(count, ind.no, InductionCode(ind.status)));
    }

    method ReportAllInductionStatus()
      modifies this
      ensures View() == SendAllInductionStatus(old(View()))
    {
      for i := 0 to |inductions|
        invariant inductions == old(inductions)
        invariant View() == old(View()).(sent := old(sent) + StatusReports(config, inductions[..i]))
      {
        Associative(old(sent), StatusReports(config, inductions[..i]), [StatusReport(config, inductions[i])]);
        assert StatusReports(config, inductions[..i + 1])
            == StatusReports(config, inductions[..i]) + [StatusReport(config, inductions[i])];
        ReportInductionStatus(inductions[i]);
      }
      assert inductions[..|inductions|] == inductions;
    }

    // ---- timers ----

    method SetAllInductions(newStatus: InductionStatus)
      modifies this
      ensures View() == old(View()).(inductions := WithStatus(old(inductions), newStatus))
    {
      for i := 0 to |inductions|
        invariant View() == old(View()).(inductions := inductions) && |inductions| == |old(inductions)|
        invariant forall j :: 0 <= j < |inductions| ==>
          inductions[j] == if j < i then old(inductions)[j].(status := newStatus) else old(inductions)[j]
      {
        inductions := inductions[i := inductions[i].(status := newStatus)];
      }
      assert inductions == WithStatus(old(inductions), newStatus);
    }

    method BeginInductionTimers()
      modifies this
      ensures View() == StartInductionTimers(old(View()))
    {
      ghost var n := |timers|;
      for i := 0 to |inductions|
        invariant View() == old(View()).(timers := timers, inductionTimers := inductionTimers, live := live)
        invariant timers == old(timers) + Inductors(epoch, i)
        invariant inductionTimers == old(inductionTimers) + From(n, i)
        invariant live == old(live) + Ids(From(n, i))
      {
        assert From(n, i + 1) == From(n, i) + [n + i];
        assert Inductors(epoch, i + 1) == Inductors(epoch, i) + [Induct(epoch, i)];
        SetInterval(Induct(epoch, i));
      }
    }

    method SetInterval(callback: Callback)
      modifies this`live, this`inductionTimers, this`timers
      ensures live == old(live) + {|old(timers)|}
      ensures inductionTimers == old(inductionTimers) + [|old(timers)|]
      ensures timers == old(timers) + [callback]
    {
      live := live + {|timers|};
      inductionTimers := inductionTimers + [|timers|];
      timers := timers + [callback];
    }

    method EndInductionTimers()
      modifies this
      ensures View() == StopInductionTimers(old(View()))
    {
      for i := 0 to |inductionTimers|
        invariant View() == old(View()).(live := live)
        invariant live == old(live) - Ids(inductionTimers[..i])
      {
        assert inductionTimers[..i + 1] == inductionTimers[..i] + [inductionTimers[i]];
        live := live - {inductionTimers[i]};
      }
      assert inductionTimers[..|inductionTimers|] == inductionTimers;
      inductionTimers := [];
    }

    method DropPendingTimers()
      modifies this
      ensures View() == ClearPendingTimers(old(View()))
    {
      for i := 0 to |pendingTimers|
        invariant View() == old(View()).(live := live)
        invariant live == old(live) - Ids(pendingTimers[..i])
      {
        assert pendingTimers[..i + 1] == pendingTimers[..i] + [pendingTimers[i]];
        live := live - {pendingTimers[i]};
      }
      assert pendingTimers[..|pendingTimers|] == pendingTimers;
      pendingTimers := [];
    }

    method SetTimeout(callback: Callback)
      modifies this
      ensures View() == Schedule(old(View()), callback)
    {
      live := live + {|timers|};
      pendingTimers := pendingTimers + [|timers|];
      timers := timers + [callback];
    }

    // ---- lifecycle ----

    method Begin()
      modifies this
      ensures View() == Start(old(View()))
    {
      if status == Running { return; }
      status := Running;
      SetAllInductions(On);
      ReportSorterStatus();
      ReportAllInductionStatus();
      BeginInductionTimers();
    }

    method End()
      modifies this
      ensures View() == Stop(old(View()))
    {
      if status == Stopped { return; }
      status := Stopping;
      ReportSorterStatus();
      EndInductionTimers();
      DropPendingTimers();
      SetAllInductions(Off);
      status := Stopped;
      ReportSorterStatus();
      ReportAllInductionStatus();
    }

    method ResetAll()
      modifies this, pidGenerator
      ensures View() == Reset(old(View()))
    {
      End();
      Wipe();
      InitializeState();
    }

    method Wipe()
      modifies this, pidGenerator
      ensures View() == Wiped(old(View()))
    {
      ClearCounts();
      pidGenerator.Reset(None);
    }

    method ClearCounts()
      modifies this
      ensures View() == old(View()).(status := Stopped, totals := NO_TOTALS, items := [], cellCounter := 0,
                                     resetBase := |old(objects)|)
    {
      status, totals, items, cellCounter, resetBase := Stopped, NO_TOTALS, [], 0, |objects|;
    }

    method Configure(changes: Changes)
      modifies this
      ensures View() == UpdateConfig(old(View()), changes)
    {
      config := Assigned(config, changes);
      if changes.inductionCount.Given? || changes.chuteCount.Given? {
        var wasRunning := status == Running;
        if wasRunning { End(); }
        InitializeState();
        if wasRunning { Begin(); }
      }
      if changes.intervalGiven && status == Running {
        EndInductionTimers();
        BeginInductionTimers();
      }
    }

    // ---- control commands ----

    method ControlSorter(request: int) returns (answer: Message)
      modifies this
      ensures View() == SetSorterControl(old(View()), request) && answer == SorterAck(request, 0)
    {
      if request == 1 {
        Begin();
      } else {
        End();
      }
      return SorterAck(request, 0);
    }

    method FindInduction(no: int) returns (r: Option<nat>)
      requires Numbered(View())
      ensures r == Place(no, |inductions|)
    {
      for i := 0 to |inductions|
        invariant 1 <= no ==> i < no
      {
        if inductions[i].no == no { return Some(i); }
      }
      return None;
    }

    method FindChute(no: int) returns (r: Option<nat>)
      requires Numbered(View())
      ensures r == Place(no, |chutes|)
    {
      for i := 0 to |chutes|
        invariant 1 <= no ==> i < no
      {
        if chutes[i].no == no { return Some(i); }
      }
      return None;
    }

    method ControlInduction(no: int, request: int) returns (answer: Message)
      requires Numbered(View())
      modifies this
      ensures View() == SetInductionControl(old(View()), no, request)
      ensures answer == InductionAnswer(old(View()), no, request)
    {
      var found := FindInduction(no);
      if found == None { return InductionAck(no, 0, 1); }
      var ind := inductions[found.value].(status := if request == 1 then On else Off);
      inductions := inductions[found.value := ind];
      ReportInductionStatus(ind);
      return InductionAck(no, InductionCode(ind.status), 0);
    }

    method ControlMode(no: int, request: int) returns (answer: Message)
      requires Numbered(View())
      modifies this
      ensures View() == SetInductionMode(old(View()), no, request) && answer == ModeAck(no, request)
    {
      var found := FindInduction(no);
      if found == None { return ModeAck(no, request); }
      var ind := inductions[found.value].(mode := if request == 1 then Pid.Key else Pid.Auto);
      inductions := inductions[found.value := ind];
      SendToChannel(ReceiveMcs, InductionModeReport(Amount(config.inductionCount), ind.no, ModeCode(ind.mode)));
      return ModeAck(no, request);
    }

    method ControlReset(resetModule: int) returns (answer: Message)
      modifies this
      ensures View() == SetResetRequest(old(View())) && answer == ResetAck(resetModule)
    {
      for i := 0 to |inductions|
        invariant View() == old(View()).(inductions := inductions) && |inductions| == |old(inductions)|
        invariant forall j :: 0 <= j < |inductions| ==>
          inductions[j] == if j < i then Repaired(old(inductions))[j] else old(inductions)[j]
      {
        if inductions[i].status == Faulty {
          inductions := inductions[i := inductions[i].(status := Off)];
        }
      }
      assert inductions == Repaired(old(inductions));
      if status == Emergency {
        status := Stopped;
        ReportSorterStatus();
      }
      ReportAllInductionStatus();
      return ResetAck(resetModule);
    }

    // ---- faults ----

    method InjectFault(fault: Fault, inductionNo: Option<int>)
      requires Numbered(View())
      modifies this
      ensures View() == TriggerFault(old(View()), fault, inductionNo)
    {
      match fault {
      case MotorTrip =>
        status := Emergency;
        ReportSorterStatus();
        EndInductionTimers();
      case Jam => JamInduction(inductionNo);
      case Overflow => FillChute(inductionNo);
      case UnknownFault =>
      }
      totals := totals.(errors := totals.errors + 1);
    }

    method JamInduction(inductionNo: Option<int>)
      requires Numbered(View())
      modifies this
      ensures View() == Faulted(old(View()), Jam, inductionNo)
    {
      if Truthy(inductionNo) {
        var found := FindInduction(inductionNo.value);
        if found.Some? {
          var ind := inductions[found.value].(status := Faulty);
          inductions := inductions[found.value := ind];
          ReportInductionStatus(ind);
        }
      }
    }

    method FillChute(inductionNo: Option<int>)
      requires Numbered(View())
      modifies this
      ensures View() == Faulted(old(View()), Overflow, inductionNo)
    {
      var found := FindChute(if Truthy(inductionNo) then inductionNo.value else 1);
      if found.Some? {
        var full := chutes[found.value].(itemCount := config.overflowThreshold, overflow := true);
        chutes := chutes[found.value := full];
      }
    }

    method RepairInductions()
      modifies this
      ensures View() == RepairAll(old(View()))
    {
      for i := 0 to |inductions|
        invariant View() == old(View()).(inductions := inductions, sent := sent) && |inductions| == |old(inductions)|
        invariant forall j :: 0 <= j < |inductions| ==>
          inductions[j] == if j < i then Repaired(old(inductions))[j] else old(inductions)[j]
        invariant sent == old(sent) + RepairReports(config, old(inductions)[..i])
      {
        assert old(inductions)[..i + 1][..i] == old(inductions)[..i];
        if inductions[i].status == Faulty {
          Associative(old(sent), RepairReports(config, old(inductions)[..i]),
                      [StatusReport(config, inductions[i].(status := Off))]);
          var ind := inductions[i].(status := Off);
          inductions := inductions[i := ind];
          ReportInductionStatus(ind);
        }
      }
      assert inductions == Repaired(old(inductions));
      assert old(inductions)[..|inductions|] == old(inductions);
    }

    method RemoveFault(fault: Option<Fault>)
      modifies this
      ensures View() == ClearFault(old(View()), fault)
    {
      if fault == None || fault.value == MotorTrip {
        if status == Emergency {
          status := Stopped;
          ReportSorterStatus();
        }
      }
      if fault == None || fault.value == Jam {
        RepairInductions();
      }
      if fault == None || fault.value == Overflow {
        label L:
        for i := 0 to |chutes|
          invariant View() == old@L(View()).(chutes := chutes) && |chutes| == |old@L(chutes)|
          invariant forall j :: 0 <= j < |chutes| ==>
            chutes[j] == if j < i then old@L(chutes)[j].(overflow := false) else old@L(chutes)[j]
        {
          chutes := chutes[i := chutes[i].(overflow := false)];
        }
        assert chutes == Emptied(old@L(chutes));
      }
    }

    // ---- items ----

    /** Where the original throws, the result is false and the item, if there is one, stays filed. */
    method NewItem(i: nat, pick: nat) returns (ok: bool)
      requires i < |inductions|
      modifies this, pidGenerator
      ensures View() == InductItem(old(View()), i, pick)
      ensures ok <==> failures == old(failures)
    {
      CountCell();
      var ind := inductions[i];
      var pid := pidGenerator.Generate(ind.no, ind.mode);
      if pid == None {
        failures := failures + 1;
        return false;
      }
      ok := MakeItem(i, pid.value, pick);
    }

    method CountCell()
      modifies this`cellCounter
      ensures cellCounter == NextCell(old(cellCounter))
    {
      cellCounter := cellCounter + 1;
      if cellCounter > 65535 { cellCounter := 1; }
    }

    method MakeItem(i: nat, pid: int, pick: nat) returns (ok: bool)
      requires i < |inductions|
      modifies this
      ensures var s := old(View());
        View() == Announce(File(s, i, Made(s, s.inductions[i], pid, pick)), |s.objects|)
      ensures ok <==> failures == old(failures)
    {
      var ind := inductions[i];
      var destination := if config.chuteCount.Some? then pick % config.chuteCount.value + 1 else NO_NUMBER;
      var item := Item(pid, cellCounter, ind.no, ind.mode, destination, InTransit);
      var id := |objects|;
      FileItem(i, item);
      ok := AnnounceItem(id);
    }

    method FileItem(i: nat, item: Item)
      requires i < |inductions|
      modifies this
      ensures View() == File(old(View()), i, item)
    {
      items := items + [|objects|];
      objects := objects + [item];
      var ind := inductions[i];
      inductions := inductions[i := ind.(itemCount := ind.itemCount + 1, lastPid := Some(item.pid))];
      totals := totals.(inducted := totals.inducted + 1);
    }

    method AnnounceItem(id: nat) returns (ok: bool)
      requires id < |objects|
      modifies this
      ensures View() == Announce(old(View()), id)
      ensures ok <==> failures == old(failures)
    {
      var item := objects[id];
      var m := ItemInducted(item.cellIndex, item.inductionNo, ModeCode(item.mode), item.pid, item.destination);
      if !Encodable(m) {
        failures := failures + 1;
        return false;
      }
      SendToChannel(ReceiveInduct, m);
      emitted := emitted + [Emitted(WasInducted, id)];
      SetTimeout(Discharge(id));
      return true;
    }

    /** The item returned is the last active one, which is the one just made. */
    method Inject(inductionNo: int, pick: nat) returns (item: Option<Item>)
      requires Numbered(View())
      modifies this, pidGenerator
      ensures View() == InjectItem(old(View()), inductionNo, pick)
      ensures item.Some? <==> Place(inductionNo, |old(inductions)|).Some? && failures == old(failures)
      ensures item.Some? ==> objects == old(objects) + [item.value] && items == old(items) + [|old(objects)|]
    {
      var found := FindInduction(inductionNo);
      if found == None { return None; }
      var ok := NewItem(found.value, pick);
      if !ok { return None; }
      return Some(objects[items[|items| - 1]]);
    }

    method DischargeOne(id: nat, isNoRead: bool, sorted: bool)
      requires id < |objects|
      modifies this
      ensures View() == DischargeItem(old(View()), id, isNoRead, sorted)
    {
      var item := objects[id];
      if item.status != InTransit { return; }
      var isSuccess := !isNoRead && sorted;
      var chuteNumber := item.destination;
      var recirculationCount := 0;
      if isNoRead {
        chuteNumber := 0;
      } else if !isSuccess {
        recirculationCount := 1;
      }
      TakeOff(id, chuteNumber, isNoRead, isSuccess);
      SendToChannel(ReceiveDischarge,
        ItemDischarged(item.cellIndex, item.inductionNo, ModeCode(item.mode), chuteNumber, recirculationCount));
      emitted := emitted + [Emitted(WasDischarged, id)];
      SetTimeout(Confirm(id, chuteNumber, recirculationCount, isNoRead, isSuccess));
    }

    method TakeOff(id: nat, chuteNumber: int, isNoRead: bool, isSuccess: bool)
      requires id < |objects|
      modifies this
      ensures View() == Unloaded(old(View()), id, chuteNumber, isNoRead, isSuccess)
    {
      CountDischarge(isNoRead, isSuccess);
      objects := objects[id := objects[id].(status := Discharged)];
      DropInto(chuteNumber);
    }

    method CountDischarge(isNoRead: bool, isSuccess: bool)
      modifies this`totals
      ensures totals == Tallied(old(totals), isNoRead, isSuccess)
    {
      if isNoRead {
        totals := totals.(noRead := totals.noRead + 1);
      } else if !isSuccess {
        totals := totals.(recirculated := totals.recirculated + 1);
      }
      totals := totals.(discharged := totals.discharged + 1);
    }

    method DropInto(chuteNumber: int)
      modifies this`chutes
      ensures chutes == Dropped(old(chutes), chuteNumber, config.overflowThreshold)
    {
      if 0 < chuteNumber <= |chutes| {
        var chute := chutes[chuteNumber - 1];
        chute := chute.(itemCount := OneMore(chute.itemCount));
        if Reaches(chute.itemCount, config.overflowThreshold) {
          chute := chute.(overflow := true);
        }
        chutes := chutes[chuteNumber - 1 := chute];
      }
    }

    method RemoveFromActive(id: nat)
      modifies this
      ensures View() == old(View()).(items := SorterState.Without(old(items), id))
    {
      var kept: seq<nat> := [];
      for i := 0 to |items|
        invariant View() == old(View())
        invariant kept == SorterState.Without(items[..i], id)
      {
        assert items[..i + 1][..i] == items[..i];
        if items[i] != id {
          kept := kept + [items[i]];
        }
      }
      assert items[..|items|] == items;
      items := kept;
    }

    method ConfirmOne(id: nat, chute: int, recirculation: int, isNoRead: bool, isSuccess: bool)
      requires id < |objects|
      modifies this
      ensures View() == ConfirmItem(old(View()), id, chute, recirculation, isNoRead, isSuccess)
    {
      var item := objects[id];
      if item.status != Discharged { return; }
      objects := objects[id := item.(status := Confirmed)];
      totals := totals.(confirmed := totals.confirmed + 1);
      var code := 0;
      if isNoRead {
        code := 2;
      } else if !isSuccess {
        code := 1;
      }
      SendToChannel(ReceiveConfirm, ItemConfirmed(item.cellIndex, ModeCode(item.mode), chute, recirculation, code));
      emitted := emitted + [Emitted(WasConfirmed, id)];
      RemoveFromActive(id);
    }

    /** The runtime calls what a timer was set to call. */
    method RunCallback(callback: Callback, luck: Luck)
      modifies this, pidGenerator
      ensures View() == Call(old(View()), callback, luck)
    {
      match callback
      case Induct(madeIn, i) =>
        if status != Running { return; }
        if madeIn != epoch || i >= |inductions| || inductions[i].status != On { return; }
        var ok := NewItem(i, luck.pick);
      case Discharge(id) =>
        if id < |objects| { DischargeOne(id, luck.noRead, luck.sorted); }
      case Confirm(id, chute, recirculation, noRead, success) =>
        if id < |objects| { ConfirmOne(id, chute, recirculation, noRead, success); }
    }

    /** The runtime fires a timer that is still live; a timeout is then spent. */
    method FireTimer(k: nat, luck: Luck)
      modifies this, pidGenerator
      ensures View() == Fire(old(View()), k, luck)
    {
      if k < |timers| && k in live {
        if !timers[k].Induct? { live := live - {k}; }
        RunCallback(timers[k], luck);
      }
    }

    /** A discharge or confirmation is called although its timer may be cleared or spent. */
    method CallLate(k: nat, luck: Luck)
      modifies this, pidGenerator
      ensures View() == Late(old(View()), k, luck)
    {
      if k < |timers| && !timers[k].Induct? {
        RunCallback(timers[k], luck);
      }
    }
  }
}
