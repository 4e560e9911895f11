/** The runs of SorterRuns are the runs of the service. */
module SorterReplay {
  import opened SorterState
  import opened SorterEngine
  import opened SorterRuns

  /** One event, by the method that handles it. */
  method Perform(engine: SorterEngineService, e: Event)
    requires Shaped(engine.View())
    modifies engine, engine.pidGenerator
    ensures engine.View() == Step(old(engine.View()), e)
  {
    match e
    case StartAsked => engine.Begin();
    case StopAsked => engine.End();
    case ResetAsked => engine.ResetAll();
    case Configured(changes) => engine.Configure(changes);
    case SorterCommand(request) => var answer := engine.ControlSorter(request);
    case InductionCommand(no, request) => var answer := engine.ControlInduction(no, request);
    case ModeCommand(no, request) => var answer := engine.ControlMode(no, request);
    case ResetCommand => var answer := engine.ControlReset(0);
    case FaultInjected(fault, no) => engine.InjectFault(fault, no);
    case FaultCleared(fault) => engine.RemoveFault(fault);
    case ItemInjected(no, pick) => var item := engine.Inject(no, pick);
    case TimerFired(k, luck) => engine.FireTimer(k, luck);
    case LateCall(k, luck) => engine.CallLate(k, luck);
  }

  /** A service that has handled these events is in the state of their run. */
  method Replay(config: FullConfig, events: seq<Event>) returns (engine: SorterEngineService)
    ensures fresh(engine) && fresh(engine.pidGenerator)
    ensures engine.View() == Run(Initial(config), events)
  {
    engine := new SorterEngineService(config);
    for i := 0 to |events|
      invariant fresh(engine) && fresh(engine.pidGenerator)
      invariant engine.View() == Run(Initial(config), events[..i])
    {
      AlwaysShaped(config, events[..i]);
      assert events[..i + 1][..i] == events[..i];
      Perform(engine, events[i]);
    }
    assert events[..|events|] == events;
  }
}
