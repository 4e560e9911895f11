/** The twenty telegram definitions the two peers agree on. */
module TelegramCatalog {
  import opened Telegrams

  const TELEGRAM_1 := Definition(1, "HeartBeat", [
      Field("acknowledgeStatus", 2), Field("heartBeatNo", 2)])

  const TELEGRAM_10 := Definition(10, "SorterStatus", [
      Field("sorterStatus", 2)])

  const TELEGRAM_11 := Definition(11, "InductionStatus", [
      Field("inductionCount", 2), Field("inductionNo", 2), Field("inductionStatus", 2)])

  const TELEGRAM_12 := Definition(12, "InductionMode", [
      Field("inductionCount", 2), Field("inductionNo", 2), Field("inductionMode", 2)])

  const TELEGRAM_20 := Definition(20, "ItemInducted", [
      Field("cellIndex", 2), Field("inductionNo", 2), Field("mode", 2), Field("pid", 4),
      Field("cartNumber", 2), Field("destination1", 2), Field("destination2", 2), Field("destination3", 2),
      Field("destination4", 2), Field("destination5", 2), Field("destination6", 2),
      Field("destination7", 2), Field("destination8", 2)])

  const TELEGRAM_21 := Definition(21, "ItemDischarged", [
      Field("cellIndex", 2), Field("inductionNo", 2), Field("mode", 2), Field("chuteNumber", 2),
      Field("recirculationCount", 2)])

  const TELEGRAM_22 := Definition(22, "ItemSortedConfirm", [
      Field("cellIndex", 2), Field("mode", 2), Field("chuteNumber", 2), Field("recirculationCount", 2),
      Field("status", 2)])

  const TELEGRAM_40 := Definition(40, "CodeRequest", [
      Field("inductionNo", 2)])

  const TELEGRAM_30 := Definition(30, "DestinationRequest", [
      Field("inductionNo", 2), Field("pid", 4), Field("destination1", 2), Field("destination2", 2),
      Field("destination3", 2), Field("destination4", 2), Field("destination5", 2),
      Field("destination6", 2), Field("destination7", 2), Field("destination8", 2)])

  const TELEGRAM_41 := Definition(41, "CodeResult", [
      Field("telegramNo", 2), Field("cellIndexNo", 2), Field("destination1", 2), Field("destination2", 2),
      Field("destination3", 2), Field("destination4", 2), Field("destination5", 2),
      Field("destination6", 2), Field("destination7", 2), Field("destination8", 2)])

  const TELEGRAM_100 := Definition(100, "SetControlSorter", [
      Field("request", 2)])

  const TELEGRAM_101 := Definition(101, "SetControlSorterAck", [
      Field("request", 2), Field("reason", 2)])

  const TELEGRAM_110 := Definition(110, "SetControlInduction", [
      Field("inductionNo", 2), Field("request", 2)])

  const TELEGRAM_111 := Definition(111, "SetControlInductionAck", [
      Field("inductionNo", 2), Field("status", 2), Field("reason", 2)])

  const TELEGRAM_120 := Definition(120, "SetInductionMode", [
      Field("inductionNo", 2), Field("request", 2)])

  const TELEGRAM_121 := Definition(121, "SetInductionModeAck", [
      Field("inductionNo", 2), Field("request", 2)])

  const TELEGRAM_130 := Definition(130, "SetOverflowConfiguration", [
      Field("overflowChute1", 2), Field("overflowChute2", 2), Field("maxRecirculation", 2),
      Field("reason", 2)])

  const TELEGRAM_131 := Definition(131, "SetOverflowConfigurationAck", [
      Field("overflowChute1", 2), Field("overflowChute2", 2), Field("maxRecirculation", 2),
      Field("reason", 2)])

  const TELEGRAM_140 := Definition(140, "SetResetRequest", [
      Field("resetModule", 2)])

  const TELEGRAM_141 := Definition(141, "SetResetRequestAck", [
      Field("resetModule", 2)])

  const PLC_TO_SMC: seq<Definition> := [
    TELEGRAM_1, TELEGRAM_10, TELEGRAM_11, TELEGRAM_12, TELEGRAM_20, TELEGRAM_21, TELEGRAM_22, TELEGRAM_40]

  const SMC_TO_PLC: seq<Definition> := [
    TELEGRAM_30, TELEGRAM_41, TELEGRAM_100, TELEGRAM_101, TELEGRAM_110, TELEGRAM_111,
    TELEGRAM_120, TELEGRAM_121, TELEGRAM_130, TELEGRAM_131, TELEGRAM_140, TELEGRAM_141]

  /** Filing definitions one after the other, each under its own number. */
  function Filed(registry: Registry, definitions: seq<Definition>): Registry
    decreases |definitions|
  {
    if definitions == [] then registry
    else Filed(registry[definitions[0].telegramNo := definitions[0]], definitions[1..])
  }

  /** The registry before anything is registered by hand. */
  function Catalog(): Registry {
    Filed(Filed(map[], PLC_TO_SMC), SMC_TO_PLC)
  }

  ghost predicate DistinctNumbers(definitions: seq<Definition>) {
    forall i, j :: 0 <= i < j < |definitions| ==> definitions[i].telegramNo != definitions[j].telegramNo
  }

  lemma {:induction false} FiledIsKeyed(registry: Registry, definitions: seq<Definition>)
    requires KeyedByNumber(registry)
    ensures KeyedByNumber(Filed(registry, definitions))
    decreases |definitions|
  {
    if definitions != [] {
      FiledIsKeyed(registry[definitions[0].telegramNo := definitions[0]], definitions[1..]);
    }
  }

  lemma {:induction false} FiledKeepsOthers(registry: Registry, definitions: seq<Definition>, n: int)
    requires forall i :: 0 <= i < |definitions| ==> definitions[i].telegramNo != n
    ensures n in Filed(registry, definitions) <==> n in registry
    ensures n in registry ==> Filed(registry, definitions)[n] == registry[n]
    decreases |definitions|
  {
    if definitions != [] {
      FiledKeepsOthers(registry[definitions[0].telegramNo := definitions[0]], definitions[1..], n);
    }
  }

  /** With distinct numbers nothing filed is lost. */
  lemma {:induction false} FiledHolds(registry: Registry, definitions: seq<Definition>, i: nat)
    requires i < |definitions| && DistinctNumbers(definitions)
    ensures definitions[i].telegramNo in Filed(registry, definitions)
    ensures Filed(registry, definitions)[definitions[i].telegramNo] == definitions[i]
    decreases |definitions|
  {
    var added, rest := registry[definitions[0].telegramNo := definitions[0]], definitions[1..];
    if i == 0 {
      FiledKeepsOthers(added, rest, definitions[0].telegramNo);
    } else {
      FiledHolds(added, rest, i - 1);
    }
  }

  lemma CatalogNumbersDiffer()
    ensures DistinctNumbers(PLC_TO_SMC) && DistinctNumbers(SMC_TO_PLC)
    ensures forall i, j :: 0 <= i < |PLC_TO_SMC| && 0 <= j < |SMC_TO_PLC| ==>
      PLC_TO_SMC[i].telegramNo != SMC_TO_PLC[j].telegramNo
  {
  }

  /** All twenty definitions are found under their numbers. */
  lemma CatalogHolds(d: Definition)
    requires d in PLC_TO_SMC || d in SMC_TO_PLC
    ensures KeyedByNumber(Catalog())
    ensures d.telegramNo in Catalog() && Catalog()[d.telegramNo] == d
  {
    CatalogNumbersDiffer();
    FiledIsKeyed(map[], PLC_TO_SMC);
    FiledIsKeyed(Filed(map[], PLC_TO_SMC), SMC_TO_PLC);
    if d in SMC_TO_PLC {
      var i :| 0 <= i < |SMC_TO_PLC| && SMC_TO_PLC[i] == d;
      FiledHolds(Filed(map[], PLC_TO_SMC), SMC_TO_PLC, i);
    } else {
      var i :| 0 <= i < |PLC_TO_SMC| && PLC_TO_SMC[i] == d;
      FiledHolds(map[], PLC_TO_SMC, i);
      FiledKeepsOthers(Filed(map[], PLC_TO_SMC), SMC_TO_PLC, d.telegramNo);
    }
  }

  /** No other number is registered. */
  lemma CatalogHoldsNothingElse(n: int)
    requires n in Catalog()
    ensures Catalog()[n] in PLC_TO_SMC + SMC_TO_PLC
  {
    if forall i :: 0 <= i < |SMC_TO_PLC| ==> SMC_TO_PLC[i].telegramNo != n {
      FiledKeepsOthers(Filed(map[], PLC_TO_SMC), SMC_TO_PLC, n);
      if forall i :: 0 <= i < |PLC_TO_SMC| ==> PLC_TO_SMC[i].telegramNo != n {
        FiledKeepsOthers(map[], PLC_TO_SMC, n);
        assert false;
      }
      var i :| 0 <= i < |PLC_TO_SMC| && PLC_TO_SMC[i].telegramNo == n;
      CatalogHolds(PLC_TO_SMC[i]);
    } else {
      var i :| 0 <= i < |SMC_TO_PLC| && SMC_TO_PLC[i].telegramNo == n;
      CatalogHolds(SMC_TO_PLC[i]);
    }
  }
}
