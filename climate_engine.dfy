/** The climate engine: random shocks with a minimum spacing between them, each
    active for a fixed number of ticks. The random draws are inputs: `roll`
    is the outcome of the per-tick probability test and `choice` picks one of
    the events that can still be drawn. */
module ClimateEngine {
  import opened Common
  import Config

  /** EVENT_WEIGHTS, in its key order (the order `_select_event` lists them). */
  const AllEvents: seq<string> := [
    "Drought_RJ", "Cyclone_WB", "Flood_BR", "Heatwave_UP",
    "Monsoon_Failure_TN", "Industrial_Accident_GJ", "Kaveri_Dispute_KA_TN"]

  /** How many ticks an event stays active; an unknown event lasts 5. */
  function Duration(id: string): (d: int)
    ensures d > 1
  {
    match id
    case "Drought_RJ" => 10
    case "Cyclone_WB" => 8
    case "Flood_BR" => 6
    case "Heatwave_UP" => 5
    case "Monsoon_Failure_TN" => 12
    case "Industrial_Accident_GJ" => 7
    case "Kaveri_Dispute_KA_TN" => 15
    case _ => 5
  }

  /** The region an event hits; an unknown event has the empty target. */
  function Target(id: string): (c: string)
    ensures id in AllEvents ==> Config.IsStateCode(c)
  {
    match id
    case "Drought_RJ" => "RJ"
    case "Cyclone_WB" => "WB"
    case "Flood_BR" => "BR"
    case "Heatwave_UP" => "UP"
    case "Monsoon_Failure_TN" => "TN"
    case "Industrial_Accident_GJ" => "GJ"
    case "Kaveri_Dispute_KA_TN" => "KA"
    case _ => ""
  }

  /** An entry of the list `tick` returns. */
  datatype ClimateEvent =
    | Triggered(eventId: string, targetRegion: string, duration: int)
    | Expired(eventId: string)

  /** The engine's state: the tick of the last shock, and `active_events` as
      its keys in insertion order with the ticks each has left. */
  datatype ClimateState = ClimateState(lastEventTick: int, order: seq<string>, remaining: map<string, int>)

  /** The shape every reachable state has: the key order lists each active
      event once, and every active event has at least one tick left. */
  ghost predicate WellFormed(s: ClimateState) {
    && Distinct(s.order)
    && (forall e :: e in s.order <==> e in s.remaining)
    && (forall e :: e in s.remaining ==> s.remaining[e] > 0)
  }

  function NotActive(active: map<string, int>): string -> bool {
    e => e !in active
  }

  /** The events `_select_event` may draw: those not already active. */
  function Available(active: map<string, int>): seq<string> {
    Filter(AllEvents, NotActive(active))
  }

  /** `_select_event`: nothing when every event is active, otherwise the
      drawn one among those that are not. */
  function SelectEvent(active: map<string, int>, choice: nat): (r: Option<string>)
    ensures r.None? <==> forall e :: e in AllEvents ==> e in active
    ensures r.Some? ==> r.value in AllEvents && r.value !in active
  {
    var av := Available(active);
    forall e | e in AllEvents ensures e in av <==> e !in active {
      FilterMembership(AllEvents, NotActive(active), e);
    }
    if av == [] then None
    else
      FilterMembership(AllEvents, NotActive(active), av[choice % |av|]);
      Some(av[choice % |av|])
  }

  /** `_trigger_event`: the event is (re)started with its full duration. */
  function Trigger(s: ClimateState, id: string): ClimateState {
    s.(order := if id in s.remaining then s.order else s.order + [id],
       remaining := s.remaining[id := Duration(id)])
  }

  lemma TriggerWellFormed(s: ClimateState, id: string)
    requires WellFormed(s)
    ensures WellFormed(Trigger(s, id))
    ensures Trigger(s, id).remaining[id] == Duration(id)
  {
  }

  function ExpiringIn(rem: map<string, int>): string -> bool {
    e => e in rem && rem[e] <= 1
  }

  function RunningIn(rem: map<string, int>): string -> bool {
    e => e in rem && rem[e] > 1
  }

  /** The events whose last tick this is, in key order. */
  function ExpiringOf(s: ClimateState): seq<string> {
    Filter(s.order, ExpiringIn(s.remaining))
  }

  /** Every active event loses a tick; those that reach zero are removed. */
  function CountDown(s: ClimateState): ClimateState {
    s.(order := Filter(s.order, RunningIn(s.remaining)),
       remaining := map e | e in s.remaining && s.remaining[e] > 1 :: s.remaining[e] - 1)
  }

  function ExpiredEvents(ids: seq<string>): (r: seq<ClimateEvent>)
    ensures |r| == |ids|
    ensures forall i :: 0 <= i < |ids| ==> r[i] == Expired(ids[i])
  {
    if ids == [] then [] else ExpiredEvents(ids[..|ids| - 1]) + [Expired(ids[|ids| - 1])]
  }

  /** Whether this tick starts a shock: the spacing has elapsed, the
      probability test passed and some event is still available. */
  predicate Fires(s: ClimateState, currentTick: int, roll: bool, choice: nat) {
    currentTick - s.lastEventTick >= Config.ClimateMinInterval && roll
      && SelectEvent(s.remaining, choice).Some?
  }

  /** The state after the trigger phase of a tick. */
  function AfterTrigger(s: ClimateState, currentTick: int, roll: bool, choice: nat): ClimateState {
    if Fires(s, currentTick, roll, choice)
    then Trigger(s, SelectEvent(s.remaining, choice).value).(lastEventTick := currentTick)
    else s
  }

  /** `tick`: the new state, and the reports (the triggered event, if any,
      then the expired ones in key order). */
  function TickSpec(s: ClimateState, currentTick: int, roll: bool, choice: nat): (r: (ClimateState, seq<ClimateEvent>))
    ensures r.0.lastEventTick == if Fires(s, currentTick, roll, choice) then currentTick else s.lastEventTick
    ensures Fires(s, currentTick, roll, choice) ==> currentTick - s.lastEventTick >= Config.ClimateMinInterval
    ensures Fires(s, currentTick, roll, choice) <==> |r.1| > 0 && r.1[0].Triggered?
    ensures |r.1| > 0 && r.1[0].Triggered? ==> r.1[0].eventId in AllEvents && r.1[0].eventId !in s.remaining
    ensures forall i :: 0 < i < |r.1| ==> r.1[i].Expired?
  {
    var s1 := AfterTrigger(s, currentTick, roll, choice);
    var head := if Fires(s, currentTick, roll, choice)
      then var id := SelectEvent(s.remaining, choice).value; [Triggered(id, Target(id), Duration(id))]
      else [];
    (CountDown(s1), head + ExpiredEvents(ExpiringOf(s1)))
  }

  /** The expiry reports of a tick: exactly the events that had one tick
      left, each reported once (a freshly triggered event never expires in
      the tick that starts it). */
  lemma TickReportsExpiries(s: ClimateState, currentTick: int, roll: bool, choice: nat)
    requires WellFormed(s)
    ensures var r := TickSpec(s, currentTick, roll, choice);
      && (forall e :: Expired(e) in r.1 <==> e in s.remaining && s.remaining[e] == 1)
      && Distinct(r.1)
  {
    var s1 := AfterTrigger(s, currentTick, roll, choice);
    ExpiringAfterTrigger(s, currentTick, roll, choice);
    var ex := ExpiringOf(s1);
    var r := TickSpec(s, currentTick, roll, choice);
    var head := r.1[..|r.1| - |ex|];
    assert r.1 == head + ExpiredEvents(ex);
    ReportsAfterHead(head, ex);
  }

  /** The events that expire after the trigger phase are those that had one
      tick left before it, each listed once. */
  lemma ExpiringAfterTrigger(s: ClimateState, currentTick: int, roll: bool, choice: nat)
    requires WellFormed(s)
    ensures var s1 := AfterTrigger(s, currentTick, roll, choice);
      && (forall e :: e in ExpiringOf(s1) <==> e in s.remaining && s.remaining[e] == 1)
      && Distinct(ExpiringOf(s1))
  {
    var s1 := AfterTrigger(s, currentTick, roll, choice);
    if Fires(s, currentTick, roll, choice) {
      TriggerWellFormed(s, SelectEvent(s.remaining, choice).value);
    }
    forall e ensures e in ExpiringOf(s1) <==> e in s.remaining && s.remaining[e] == 1 {
      FilterMembership(s1.order, ExpiringIn(s1.remaining), e);
    }
    FilterDistinct(s1.order, ExpiringIn(s1.remaining));
  }

  /** A report list made of at most one trigger followed by the expiry
      reports of distinct events names each of those events once. */
  lemma ReportsAfterHead(head: seq<ClimateEvent>, ex: seq<string>)
    requires |head| <= 1 && forall i :: 0 <= i < |head| ==> head[i].Triggered?
    requires Distinct(ex)
    ensures forall e :: Expired(e) in head + ExpiredEvents(ex) <==> e in ex
    ensures Distinct(head + ExpiredEvents(ex))
  {
    var r := head + ExpiredEvents(ex);
    forall e ensures Expired(e) in r <==> e in ex {
      if Expired(e) in r {
        var i :| 0 <= i < |r| && r[i] == Expired(e);
        assert ex[i - |head|] == e;
      }
      if e in ex {
        var k :| 0 <= k < |ex| && ex[k] == e;
        assert r[|head| + k] == Expired(e);
      }
    }
    forall i, j | 0 <= i < j < |r| ensures r[i] != r[j] {
      if i >= |head| {
        assert r[i] == Expired(ex[i - |head|]) && r[j] == Expired(ex[j - |head|]);
      }
    }
  }

  lemma CountDownWellFormed(s: ClimateState)
    requires WellFormed(s)
    ensures WellFormed(CountDown(s))
  {
    var c := CountDown(s);
    FilterDistinct(s.order, RunningIn(s.remaining));
    forall e ensures e in c.order <==> e in c.remaining {
      FilterMembership(s.order, RunningIn(s.remaining), e);
    }
  }

  /** A tick keeps the state well formed. */
  lemma TickWellFormed(s: ClimateState, currentTick: int, roll: bool, choice: nat)
    requires WellFormed(s)
    ensures WellFormed(TickSpec(s, currentTick, roll, choice).0)
  {
    var s1 := AfterTrigger(s, currentTick, roll, choice);
    if Fires(s, currentTick, roll, choice) {
      TriggerWellFormed(s, SelectEvent(s.remaining, choice).value);
    }
    CountDownWellFormed(s1);
  }

  /** An event that was active before a tick either loses exactly one tick
      or, on its last tick, is removed and reported as expired; the trigger
      phase never restarts it. */
  lemma TickCountsDown(s: ClimateState, currentTick: int, roll: bool, choice: nat, e: string)
    requires WellFormed(s) && e in s.remaining
    ensures var r := TickSpec(s, currentTick, roll, choice);
      && (s.remaining[e] > 1 ==> e in r.0.remaining && r.0.remaining[e] == s.remaining[e] - 1)
      && (s.remaining[e] == 1 ==> e !in r.0.remaining && Expired(e) in r.1)
  {
    var s1 := AfterTrigger(s, currentTick, roll, choice);
    assert e in s1.remaining && e in s1.order && s1.remaining[e] == s.remaining[e];
    CountDownOne(s1, e);
    var r := TickSpec(s, currentTick, roll, choice);
    assert r.0 == CountDown(s1);
    var head := r.1[..|r.1| - |ExpiringOf(s1)|];
    assert r.1 == head + ExpiredEvents(ExpiringOf(s1));
  }

  /** The count-down phase on one active event. */
  lemma CountDownOne(s1: ClimateState, e: string)
    requires e in s1.remaining && e in s1.order
    ensures s1.remaining[e] > 1 ==> e in CountDown(s1).remaining && CountDown(s1).remaining[e] == s1.remaining[e] - 1
    ensures s1.remaining[e] <= 1 ==> e !in CountDown(s1).remaining && Expired(e) in ExpiredEvents(ExpiringOf(s1))
  {
    if s1.remaining[e] <= 1 {
      FilterMembership(s1.order, ExpiringIn(s1.remaining), e);
      var ex := ExpiringOf(s1);
      var i :| 0 <= i < |ex| && ex[i] == e;
      assert ExpiredEvents(ex)[i] == Expired(e);
    }
  }

  /** A shock that starts at a tick is left with all but one of its ticks. */
  lemma TickStartsShock(s: ClimateState, currentTick: int, roll: bool, choice: nat)
    requires WellFormed(s) && Fires(s, currentTick, roll, choice)
    ensures var id := SelectEvent(s.remaining, choice).value;
      var r := TickSpec(s, currentTick, roll, choice).0;
      id in r.remaining && r.remaining[id] == Duration(id) - 1 && r.lastEventTick == currentTick
  {
  }

  /** The inputs of one tick. */
  datatype TickInput = TickInput(currentTick: int, roll: bool, choice: nat)

  function Run(s: ClimateState, ins: seq<TickInput>): ClimateState
    decreases |ins|
  {
    if ins == [] then s
    else Run(TickSpec(s, ins[0].currentTick, ins[0].roll, ins[0].choice).0, ins[1..])
  }

  /** Over any run of ticks, an active event counts down one per tick and
      cannot be restarted until it has expired. */
  lemma {:induction false} RunCountsDown(s: ClimateState, ins: seq<TickInput>, e: string)
    requires WellFormed(s) && e in s.remaining && |ins| < s.remaining[e]
    ensures e in Run(s, ins).remaining && Run(s, ins).remaining[e] == s.remaining[e] - |ins|
    decreases |ins|
  {
    if ins != [] {
      var i := ins[0];
      TickCountsDown(s, i.currentTick, i.roll, i.choice, e);
      TickWellFormed(s, i.currentTick, i.roll, i.choice);
      RunCountsDown(TickSpec(s, i.currentTick, i.roll, i.choice).0, ins[1..], e);
    }
  }

  /** `get_affected_regions`: the targets of the active events. */
  function AffectedRegions(active: map<string, int>): (r: set<string>)
    ensures forall c :: c in r ==> Config.IsStateCode(c)
  {
    set e | e in active && e in AllEvents :: Target(e)
  }

  /** A started shock marks its target region as affected. */
  lemma TriggerAffects(s: ClimateState, id: string)
    requires id in AllEvents
    ensures Target(id) in AffectedRegions(Trigger(s, id).remaining)
  {
  }

  /** No two table events hit the same region, so once an event ends its
      region is affected no more, and every other region keeps its status. */
  lemma ExpiryClearsTarget(active: map<string, int>, e: string)
    requires e in AllEvents
    ensures AffectedRegions(active - {e}) == AffectedRegions(active) - {Target(e)}
  {
    forall c | c in AffectedRegions(active) - {Target(e)}
      ensures c in AffectedRegions(active - {e})
    {
      var x :| x in active && x in AllEvents && Target(x) == c;
      assert x != e;
      assert x in active - {e};
    }
    forall c | c in AffectedRegions(active - {e})
      ensures c in AffectedRegions(active) - {Target(e)}
    {
      var x :| x in active - {e} && x in AllEvents && Target(x) == c;
      assert x in active && x != e;
    }
  }

  class Engine {
    var lastEventTick: int
    var order: seq<string>
    var remaining: map<string, int>

    function State(): ClimateState
      reads this
    {
      ClimateState(lastEventTick, order, remaining)
    }

    ghost predicate Valid()
      reads this
    {
      WellFormed(State())
    }

    /** Events may start from tick 0 on: the last shock is placed one
        minimum interval before it. */
    constructor ()
      ensures Valid()
      ensures State() == ClimateState(-Config.ClimateMinInterval, [], map[])
    {
      lastEventTick := -Config.ClimateMinInterval;
      order := [];
      remaining := map[];
    }

    /** `_trigger_event` and `force_trigger`: start `id` with its full
        duration and report its target. */
    method TriggerEvent(id: string) returns (report: ClimateEvent)
      modifies this
      ensures report == Triggered(id, Target(id), Duration(id))
      ensures State() == Trigger(old(State()), id)
    {
      if id !in remaining {
        order := order + [id];
      }
      remaining := remaining[id := Duration(id)];
      report := Triggered(id, Target(id), Duration(id));
    }

    method Tick(currentTick: int, roll: bool, choice: nat) returns (events: seq<ClimateEvent>)
      requires Valid()
      modifies this
      ensures State() == TickSpec(old(State()), currentTick, roll, choice).0
      ensures events == TickSpec(old(State()), currentTick, roll, choice).1
      ensures Valid()
    {
      ghost var s := State();
      events := [];
      if currentTick - lastEventTick >= Config.ClimateMinInterval && roll {
        var ev := SelectEvent(remaining, choice);
        if ev.Some? && ev.value !in remaining {
          var report := TriggerEvent(ev.value);
          events := [report];
          lastEventTick := currentTick;
        }
      }
      ghost var s1 := State();
      assert s1 == AfterTrigger(s, currentTick, roll, choice);
      if Fires(s, currentTick, roll, choice) {
        TriggerWellFormed(s, SelectEvent(s.remaining, choice).value);
      }
      var ids := order;
      var dec, expired := DecrementAll(ids, remaining);
      var kept, rest, reports := DeleteExpired(ids, dec, expired);
      CountDownMatches(s1, dec, expired, kept, rest);
      order := kept;
      remaining := rest;
      events := events + reports;
      TickWellFormed(s, currentTick, roll, choice);
    }
  }

  /** The countdown loop of `tick`: every event loses one tick, and those
      left with none are collected in key order. */
  method DecrementAll(order: seq<string>, rem: map<string, int>) returns (dec: map<string, int>, expired: seq<string>)
    requires Distinct(order)
    requires forall k :: 0 <= k < |order| ==> order[k] in rem
    requires forall e :: e in rem ==> e in order
    ensures dec == map e | e in rem :: rem[e] - 1
    ensures expired == Filter(order, ExpiringIn(rem))
  {
    dec := rem;
    expired := [];
    var i := 0;
    while i < |order|
      invariant 0 <= i <= |order|
      invariant dec.Keys == rem.Keys
      invariant forall k :: 0 <= k < i ==> dec[order[k]] == rem[order[k]] - 1
      invariant forall k :: i <= k < |order| ==> dec[order[k]] == rem[order[k]]
      invariant expired == Filter(order[..i], ExpiringIn(rem))
    {
      var e := order[i];
      FilterPrefixStep(order, i, ExpiringIn(rem));
      dec := dec[e := dec[e] - 1];
      if dec[e] <= 0 {
        expired := expired + [e];
      }
      i := i + 1;
    }
    assert order[..|order|] == order;
    DecrementedAll(order, rem, dec);
  }

  lemma DecrementedAll(order: seq<string>, rem: map<string, int>, dec: map<string, int>)
    requires forall e :: e in order <==> e in rem
    requires dec.Keys == rem.Keys
    requires forall k :: 0 <= k < |order| ==> dec[order[k]] == rem[order[k]] - 1
    ensures dec == map e | e in rem :: rem[e] - 1
  {
    forall e | e in rem ensures dec[e] == rem[e] - 1 {
      var k :| 0 <= k < |order| && order[k] == e;
    }
  }

  /** The deletion loop of `tick`: each expired event leaves the key order
      and the counters, and is reported. */
  method DeleteExpired(order: seq<string>, dec: map<string, int>, expired: seq<string>)
    returns (kept: seq<string>, rest: map<string, int>, reports: seq<ClimateEvent>)
    ensures kept == Filter(order, NotIn(expired))
    ensures rest == map e | e in dec && e !in expired :: dec[e]
    ensures reports == ExpiredEvents(expired)
  {
    kept := order;
    rest := dec;
    reports := [];
    var j := 0;
    assert Filter(order, NotIn(expired[..0])) == order by {
      FilterAllPass(order, NotIn(expired[..0]));
    }
    while j < |expired|
      invariant 0 <= j <= |expired|
      invariant kept == Filter(order, NotIn(expired[..j]))
      invariant rest == map e | e in dec && e !in expired[..j] :: dec[e]
      invariant reports == ExpiredEvents(expired[..j])
    {
      var x := expired[j];
      DeleteStep(order, dec, expired, j);
      kept := Filter(kept, Other(x));
      rest := rest - {x};
      reports := reports + [Expired(x)];
      j := j + 1;
    }
    assert expired[..|expired|] == expired;
  }

  lemma DeleteStep(order: seq<string>, dec: map<string, int>, expired: seq<string>, j: nat)
    requires j < |expired|
    ensures Filter(Filter(order, NotIn(expired[..j])), Other(expired[j])) == Filter(order, NotIn(expired[..j + 1]))
    ensures (map e | e in dec && e !in expired[..j] :: dec[e]) - {expired[j]}
         == map e | e in dec && e !in expired[..j + 1] :: dec[e]
    ensures ExpiredEvents(expired[..j + 1]) == ExpiredEvents(expired[..j]) + [Expired(expired[j])]
  {
    assert expired[..j + 1] == expired[..j] + [expired[j]];
    FilterCompose(order, NotIn(expired[..j]), Other(expired[j]), NotIn(expired[..j + 1]));
    assert expired[..j + 1][..j] == expired[..j];
  }

  function NotIn(ids: seq<string>): string -> bool {
    e => e !in ids
  }

  function Other(x: string): string -> bool {
    e => e != x
  }

  /** The two loops together compute `CountDown`. */
  lemma CountDownMatches(s: ClimateState, dec: map<string, int>, expired: seq<string>,
                         kept: seq<string>, rest: map<string, int>)
    requires WellFormed(s)
    requires dec == map e | e in s.remaining :: s.remaining[e] - 1
    requires expired == ExpiringOf(s)
    requires kept == Filter(s.order, NotIn(expired))
    requires rest == map e | e in dec && e !in expired :: dec[e]
    ensures CountDown(s) == s.(order := kept, remaining := rest)
  {
    forall e ensures e in expired <==> e in s.remaining && s.remaining[e] <= 1 {
      FilterMembership(s.order, ExpiringIn(s.remaining), e);
    }
    forall i | 0 <= i < |s.order| ensures NotIn(expired)(s.order[i]) == RunningIn(s.remaining)(s.order[i]) {
    }
    FilterExt(s.order, NotIn(expired), RunningIn(s.remaining));
  }
}
