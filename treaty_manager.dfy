/** Multi-tick treaties between two regions: creation under a per-state limit,
    per-tick enforcement that delivers each promised leg or records a breach,
    expiry, and the trust adjustments that enforcement earns. */
module TreatyManager {
  import opened Common
  import opened Domain
  import Config

  /** `{"resource": amount}` as promised per tick. */
  type Amounts = Dict<string, int>

  datatype BreachRecord = BreachRecord(tick: int, breacher: Code, resource: string, promised: int, available: int)

  datatype Treaty = Treaty(
    treatyId: string,
    fromRegion: Code,
    toRegion: Code,
    perTickOffer: Amounts,
    perTickRequest: Amounts,
    durationTicks: int,
    ticksRemaining: int,
    conditions: string,
    isActive: bool,
    breaches: seq<BreachRecord>,
    createdTick: int)

  /** `Treaty(...)`: the countdown starts at the full duration, active, with no
      breaches, created at tick 0 until the manager stamps it. */
  function NewTreaty(id: string, from: Code, to: Code, offer: Amounts, request: Amounts,
                     duration: int, conditions: string): Treaty
  {
    Treaty(id, from, to, offer, request, duration, duration, conditions, true, [], 0)
  }

  // ---------------------------------------------------------------------------
  // Record form (to_dict / from_dict)
  // ---------------------------------------------------------------------------

  /** The dict form of a treaty; every key may be missing from a stored record. */
  datatype TreatyDict = TreatyDict(
    treatyId: Option<string>,
    fromRegion: Option<Code>,
    toRegion: Option<Code>,
    perTickOffer: Option<Amounts>,
    perTickRequest: Option<Amounts>,
    durationTicks: Option<int>,
    ticksRemaining: Option<int>,
    conditions: Option<string>,
    isActive: Option<bool>,
    breaches: Option<seq<BreachRecord>>,
    createdTick: Option<int>)

  predicate HasRequiredKeys(d: TreatyDict) {
    d.treatyId.Some? && d.fromRegion.Some? && d.toRegion.Some?
    && d.perTickOffer.Some? && d.perTickRequest.Some? && d.durationTicks.Some?
  }

  /** `Treaty.from_dict`: None where the source raises KeyError on a required key;
      the optional keys fall back to the duration, "", True, [] and 0. */
  function FromDict(d: TreatyDict): (r: Option<Treaty>)
    ensures r.Some? <==> HasRequiredKeys(d)
    ensures r.Some? ==>
      && r.value.treatyId == d.treatyId.value
      && r.value.fromRegion == d.fromRegion.value && r.value.toRegion == d.toRegion.value
      && r.value.perTickOffer == d.perTickOffer.value && r.value.perTickRequest == d.perTickRequest.value
      && r.value.durationTicks == d.durationTicks.value
      && r.value.ticksRemaining == d.ticksRemaining.GetOr(d.durationTicks.value)
      && r.value.conditions == d.conditions.GetOr("")
      && r.value.isActive == d.isActive.GetOr(true)
      && r.value.breaches == d.breaches.GetOr([])
      && r.value.createdTick == d.createdTick.GetOr(0)
  {
    if !HasRequiredKeys(d) then None
    else
      var t := NewTreaty(d.treatyId.value, d.fromRegion.value, d.toRegion.value,
                         d.perTickOffer.value, d.perTickRequest.value,
                         d.durationTicks.value, d.conditions.GetOr(""));
      Some(t.(ticksRemaining := d.ticksRemaining.GetOr(d.durationTicks.value),
              isActive := d.isActive.GetOr(true),
              breaches := d.breaches.GetOr([]),
              createdTick := d.createdTick.GetOr(0)))
  }

  /** `Treaty.to_dict`: every field is written, so reading the record back
      reproduces the treaty exactly. */
  function ToDict(t: Treaty): (d: TreatyDict)
    ensures HasRequiredKeys(d)
    ensures FromDict(d) == Some(t)
  {
    TreatyDict(Some(t.treatyId), Some(t.fromRegion), Some(t.toRegion),
               Some(t.perTickOffer), Some(t.perTickRequest), Some(t.durationTicks),
               Some(t.ticksRemaining), Some(t.conditions), Some(t.isActive),
               Some(t.breaches), Some(t.createdTick))
  }

  // ---------------------------------------------------------------------------
  // Enforcement of one treaty for one tick
  // ---------------------------------------------------------------------------

  datatype Transfer = Transfer(direction: string, resource: string, amount: int, status: string)
  datatype BreachNote = BreachNote(breacher: Code, resource: string, shortfall: int)
  datatype EnforcementResult = EnforcementResult(
    treatyId: string, from: Code, to: Code, transfers: seq<Transfer>, breaches: seq<BreachNote>)

  /** How one promised leg ended. */
  datatype LegOutcome =
    | Delivered(resource: string, amount: int)
    | Breached(resource: string, promised: int, available: int)

  function LegAmount(o: LegOutcome): int {
    if o.Delivered? then o.amount else o.promised
  }

  /** One leg: the giver pays `amount` of `res` if it holds at least that much,
      otherwise the leg is a breach. With an update callback the giver's holding
      is set to available - amount and then the taker's to its current holding
      plus amount (read after the first write, as the live dicts are). */
  function LegStep(regions: Regions, giver: Code, taker: Code, res: string, amount: int, apply: bool)
    : (r: (LegOutcome, Regions))
    ensures r.0.resource == res && LegAmount(r.0) == amount
    ensures r.0.Delivered? <==> ResourceOf(regions, giver, res) >= amount
    ensures r.0.Breached? ==> r.0.available == ResourceOf(regions, giver, res) && r.0.available < amount
    ensures r.0.Breached? || !apply ==> r.1 == regions
    ensures r.1.Keys == regions.Keys
  {
    var available := ResourceOf(regions, giver, res);
    if available >= amount then
      if apply then
        var r1 := SetResource(regions, giver, res, available - amount);
        var toCurrent := ResourceOf(r1, taker, res);
        (Delivered(res, amount), SetResource(r1, taker, res, toCurrent + amount))
      else (Delivered(res, amount), regions)
    else (Breached(res, amount, available), regions)
  }

  /** A delivered leg between two distinct known regions moves exactly the
      promised amount and leaves the pair's total of that resource, and every
      other holding, unchanged. */
  lemma DeliveredLegConserves(regions: Regions, giver: Code, taker: Code, res: string, amount: int)
    requires giver != taker && giver in regions && taker in regions
    requires ResourceOf(regions, giver, res) >= amount
    ensures var r := LegStep(regions, giver, taker, res, amount, true).1;
      && ResourceOf(r, giver, res) == ResourceOf(regions, giver, res) - amount
      && ResourceOf(r, taker, res) == ResourceOf(regions, taker, res) + amount
      && ResourceOf(r, giver, res) + ResourceOf(r, taker, res)
         == ResourceOf(regions, giver, res) + ResourceOf(regions, taker, res)
      && (forall c, x :: (c != giver && c != taker) || x != res ==> ResourceOf(r, c, x) == ResourceOf(regions, c, x))
  {
  }

  /** All the legs of one direction, in dict order, each seeing the holdings
      the previous legs left. */
  function RunLegs(regions: Regions, giver: Code, taker: Code, legs: Amounts, apply: bool)
    : (r: (seq<LegOutcome>, Regions))
    ensures |r.0| == |legs|
    ensures !apply ==> r.1 == regions
    ensures r.1.Keys == regions.Keys
    decreases |legs|
  {
    if legs == [] then ([], regions)
    else
      var prev := RunLegs(regions, giver, taker, legs[..|legs| - 1], apply);
      var step := LegStep(prev.1, giver, taker, legs[|legs| - 1].0, legs[|legs| - 1].1, apply);
      (prev.0 + [step.0], step.1)
  }

  /** Each outcome is about the leg at the same position, for the promised
      amount, and a breach means the giver held less than promised. */
  lemma {:induction false} RunLegsShape(regions: Regions, giver: Code, taker: Code, legs: Amounts, apply: bool)
    ensures var outs := RunLegs(regions, giver, taker, legs, apply).0;
      && (forall i :: 0 <= i < |legs| ==> outs[i].resource == legs[i].0 && LegAmount(outs[i]) == legs[i].1)
      && (forall i :: 0 <= i < |legs| && outs[i].Breached? ==> outs[i].available < outs[i].promised)
    decreases |legs|
  {
    if legs != [] {
      RunLegsShape(regions, giver, taker, legs[..|legs| - 1], apply);
    }
  }

  lemma RunLegsStep(regions: Regions, giver: Code, taker: Code, legs: Amounts, apply: bool, i: nat)
    requires i < |legs|
    ensures var prev := RunLegs(regions, giver, taker, legs[..i], apply);
      var step := LegStep(prev.1, giver, taker, legs[i].0, legs[i].1, apply);
      && RunLegs(regions, giver, taker, legs[..i + 1], apply).0 == prev.0 + [step.0]
      && RunLegs(regions, giver, taker, legs[..i + 1], apply).1 == step.1
  {
    assert legs[..i + 1][..i] == legs[..i] && legs[..i + 1][i] == legs[i];
  }

  function TransfersOf(outs: seq<LegOutcome>, direction: string): seq<Transfer> {
    if outs == [] then []
    else TransfersOf(outs[..|outs| - 1], direction)
         + (match outs[|outs| - 1]
              case Delivered(res, a) => [Transfer(direction, res, a, "DELIVERED")]
              case Breached(_, _, _) => [])
  }

  function BreachNotesOf(outs: seq<LegOutcome>, breacher: Code): seq<BreachNote> {
    if outs == [] then []
    else BreachNotesOf(outs[..|outs| - 1], breacher)
         + (match outs[|outs| - 1]
              case Delivered(_, _) => []
              case Breached(res, p, av) => [BreachNote(breacher, res, p - av)])
  }

  function BreachRecordsOf(outs: seq<LegOutcome>, breacher: Code, tick: int): seq<BreachRecord> {
    if outs == [] then []
    else BreachRecordsOf(outs[..|outs| - 1], breacher, tick)
         + (match outs[|outs| - 1]
              case Delivered(_, _) => []
              case Breached(res, p, av) => [BreachRecord(tick, breacher, res, p, av)])
  }

  lemma OutcomesStep(outs: seq<LegOutcome>, o: LegOutcome, direction: string, breacher: Code, tick: int)
    ensures TransfersOf(outs + [o], direction) == TransfersOf(outs, direction)
      + (if o.Delivered? then [Transfer(direction, o.resource, o.amount, "DELIVERED")] else [])
    ensures BreachNotesOf(outs + [o], breacher) == BreachNotesOf(outs, breacher)
      + (if o.Breached? then [BreachNote(breacher, o.resource, o.promised - o.available)] else [])
    ensures BreachRecordsOf(outs + [o], breacher, tick) == BreachRecordsOf(outs, breacher, tick)
      + (if o.Breached? then [BreachRecord(tick, breacher, o.resource, o.promised, o.available)] else [])
  {
    assert (outs + [o])[..|outs + [o]| - 1] == outs;
  }

  /** Each leg ends in exactly one way: a DELIVERED transfer or a breach with a
      positive shortfall, and every breach note has its record. */
  lemma {:induction false} LegsAccounted(outs: seq<LegOutcome>, direction: string, breacher: Code, tick: int)
    requires forall i :: 0 <= i < |outs| && outs[i].Breached? ==> outs[i].available < outs[i].promised
    ensures |TransfersOf(outs, direction)| + |BreachNotesOf(outs, breacher)| == |outs|
    ensures |BreachRecordsOf(outs, breacher, tick)| == |BreachNotesOf(outs, breacher)|
    ensures forall b :: b in BreachNotesOf(outs, breacher) ==> b.shortfall > 0 && b.breacher == breacher
    ensures forall x :: x in TransfersOf(outs, direction) ==> x.status == "DELIVERED" && x.direction == direction
  {
    if outs != [] {
      LegsAccounted(outs[..|outs| - 1], direction, breacher, tick);
    }
  }

  function Direction(a: Code, b: Code): string {
    a + " -> " + b
  }

  /** `_enforce_single`: the offer legs (from-region pays), then the request
      legs (to-region pays); breaches are also appended to the treaty. */
  function EnforceSingleSpec(t: Treaty, regions: Regions, apply: bool, tick: int)
    : (EnforcementResult, Treaty, Regions)
  {
    var offer := RunLegs(regions, t.fromRegion, t.toRegion, t.perTickOffer, apply);
    var request := RunLegs(offer.1, t.toRegion, t.fromRegion, t.perTickRequest, apply);
    var result := EnforcementResult(
      t.treatyId, t.fromRegion, t.toRegion,
      TransfersOf(offer.0, Direction(t.fromRegion, t.toRegion))
        + TransfersOf(request.0, Direction(t.toRegion, t.fromRegion)),
      BreachNotesOf(offer.0, t.fromRegion) + BreachNotesOf(request.0, t.toRegion));
    var t' := t.(breaches := t.breaches + BreachRecordsOf(offer.0, t.fromRegion, tick)
                                         + BreachRecordsOf(request.0, t.toRegion, tick));
    (result, t', request.1)
  }

  /** Every leg run between two regions ends as a delivery or as a breach
      blamed on the giver with a positive shortfall. */
  lemma RunLegsAccounted(regions: Regions, giver: Code, taker: Code, legs: Amounts, apply: bool, tick: int)
    ensures var outs := RunLegs(regions, giver, taker, legs, apply).0;
      && |TransfersOf(outs, Direction(giver, taker))| + |BreachNotesOf(outs, giver)| == |legs|
      && |BreachRecordsOf(outs, giver, tick)| == |BreachNotesOf(outs, giver)|
      && forall b :: b in BreachNotesOf(outs, giver) ==> b.shortfall > 0 && b.breacher == giver
  {
    RunLegsShape(regions, giver, taker, legs, apply);
    LegsAccounted(RunLegs(regions, giver, taker, legs, apply).0, Direction(giver, taker), giver, tick);
  }

  /** Enforcing one treaty accounts for every leg exactly once, every breach is
      blamed on a party with a positive shortfall and is recorded on the treaty,
      and nothing else about the treaty changes. */
  lemma EnforceSingleAccounting(t: Treaty, regions: Regions, apply: bool, tick: int)
    ensures var e := EnforceSingleSpec(t, regions, apply, tick);
      var res, t', r := e.0, e.1, e.2;
      && |res.transfers| + |res.breaches| == |t.perTickOffer| + |t.perTickRequest|
      && (forall b :: b in res.breaches ==> b.shortfall > 0 && (b.breacher == t.fromRegion || b.breacher == t.toRegion))
      && |t'.breaches| == |t.breaches| + |res.breaches|
      && t'.breaches[..|t.breaches|] == t.breaches
      && t' == t.(breaches := t'.breaches)
      && res.treatyId == t.treatyId && res.from == t.fromRegion && res.to == t.toRegion
      && r.Keys == regions.Keys
      && (!apply ==> r == regions)
  {
    var offer := RunLegs(regions, t.fromRegion, t.toRegion, t.perTickOffer, apply);
    var request := RunLegs(offer.1, t.toRegion, t.fromRegion, t.perTickRequest, apply);
    RunLegsAccounted(regions, t.fromRegion, t.toRegion, t.perTickOffer, apply, tick);
    RunLegsAccounted(offer.1, t.toRegion, t.fromRegion, t.perTickRequest, apply, tick);
    var e := EnforceSingleSpec(t, regions, apply, tick);
    var n1, n2 := BreachNotesOf(offer.0, t.fromRegion), BreachNotesOf(request.0, t.toRegion);
    var b1, b2 := BreachRecordsOf(offer.0, t.fromRegion, tick), BreachRecordsOf(request.0, t.toRegion, tick);
    assert e.0.breaches == n1 + n2;
    assert e.1.breaches == t.breaches + b1 + b2;
    forall b | b in e.0.breaches
      ensures b.shortfall > 0 && (b.breacher == t.fromRegion || b.breacher == t.toRegion)
    {
      assert b in n1 || b in n2;
    }
  }

  // ---------------------------------------------------------------------------
  // Enforcement of all treaties for one tick
  // ---------------------------------------------------------------------------

  predicate IsActiveTreaty(t: Treaty) {
    t.isActive
  }

  /** What a tick did to one listed treaty. */
  datatype Processed =
    | Skipped(treaty: Treaty)   // already inactive: left where it is
    | Kept(treaty: Treaty)      // enforced, still running
    | Expired(treaty: Treaty)   // enforced, countdown reached zero: moved to expired

  function EnforceStep(t: Treaty, regions: Regions, apply: bool, tick: int)
    : (Option<EnforcementResult>, Processed, Regions)
  {
    if !t.isActive then (None, Skipped(t), regions)
    else
      var e := EnforceSingleSpec(t, regions, apply, tick);
      var t2 := e.1.(ticksRemaining := e.1.ticksRemaining - 1);
      if t2.ticksRemaining <= 0 then (Some(e.0), Expired(t2.(isActive := false)), e.2)
      else (Some(e.0), Kept(t2), e.2)
  }

  /** The tick's effect on one treaty, stated without the enforcement details. */
  ghost predicate StepRelates(t: Treaty, p: Processed) {
    && (!t.isActive ==> p == Skipped(t))
    && (t.isActive ==>
          && !p.Skipped?
          && p.treaty.ticksRemaining == t.ticksRemaining - 1
          && (p.Expired? <==> p.treaty.ticksRemaining <= 0)
          && p.treaty.isActive == p.Kept?
          && p.treaty.fromRegion == t.fromRegion && p.treaty.toRegion == t.toRegion
          && p.treaty.treatyId == t.treatyId
          && p.treaty.perTickOffer == t.perTickOffer && p.treaty.perTickRequest == t.perTickRequest
          && p.treaty.durationTicks == t.durationTicks && p.treaty.createdTick == t.createdTick)
  }

  /** `enforce_treaties` on a list: one result per active treaty, in order. */
  function EnforceAll(ts: seq<Treaty>, regions: Regions, apply: bool, tick: int)
    : (r: (seq<EnforcementResult>, seq<Processed>, Regions))
    ensures |r.1| == |ts|
    ensures r.2.Keys == regions.Keys
    decreases |ts|
  {
    if ts == [] then ([], [], regions)
    else
      var prev := EnforceAll(ts[..|ts| - 1], regions, apply, tick);
      var t := ts[|ts| - 1];
      var step := EnforceStep(t, prev.2, apply, tick);
      (prev.0 + (if step.0.Some? then [step.0.value] else []), prev.1 + [step.1], step.2)
  }

  lemma EnforceAllStep(ts: seq<Treaty>, regions: Regions, apply: bool, tick: int, i: nat)
    requires i < |ts|
    ensures var prev := EnforceAll(ts[..i], regions, apply, tick);
      var step := EnforceStep(ts[i], prev.2, apply, tick);
      var next := EnforceAll(ts[..i + 1], regions, apply, tick);
      && next.0 == prev.0 + (if step.0.Some? then [step.0.value] else [])
      && next.1 == prev.1 + [step.1]
      && next.2 == step.2
  {
    assert ts[..i + 1][..i] == ts[..i] && ts[..i + 1][i] == ts[i];
  }

  /** One result per active treaty, and each listed treaty is counted down,
      expired or skipped as its own state dictates. */
  lemma {:induction false} EnforceAllShape(ts: seq<Treaty>, regions: Regions, apply: bool, tick: int)
    ensures var r := EnforceAll(ts, regions, apply, tick);
      && |r.0| == Count(ts, IsActiveTreaty)
      && (forall i :: 0 <= i < |ts| ==> StepRelates(ts[i], r.1[i]))
    decreases |ts|
  {
    if ts != [] {
      var n := |ts| - 1;
      EnforceAllShape(ts[..n], regions, apply, tick);
      var r := EnforceAll(ts, regions, apply, tick);
      var prev := EnforceAll(ts[..n], regions, apply, tick);
      var step := EnforceStep(ts[n], prev.2, apply, tick);
      assert r.1 == prev.1 + [step.1];
      assert r.0 == prev.0 + (if step.0.Some? then [step.0.value] else []);
      EnforceStepRelates(ts[n], prev.2, apply, tick);
      forall i | 0 <= i < |ts| ensures StepRelates(ts[i], r.1[i]) {
        if i < n {
          assert ts[i] == ts[..n][i] && r.1[i] == prev.1[i];
        }
      }
      assert Filter(ts, IsActiveTreaty) == Filter(ts[..n], IsActiveTreaty)
        + (if IsActiveTreaty(ts[n]) then [ts[n]] else []);
    }
  }

  lemma EnforceStepRelates(t: Treaty, regions: Regions, apply: bool, tick: int)
    ensures StepRelates(t, EnforceStep(t, regions, apply, tick).1)
    ensures EnforceStep(t, regions, apply, tick).0.Some? <==> t.isActive
  {
    EnforceSingleAccounting(t, regions, apply, tick);
  }

  /** The treaties that stay in `active_treaties`, in order. */
  function KeptOf(ps: seq<Processed>): seq<Treaty> {
    if ps == [] then []
    else KeptOf(ps[..|ps| - 1]) + (if ps[|ps| - 1].Expired? then [] else [ps[|ps| - 1].treaty])
  }

  /** The treaties moved to `expired_treaties`, in order. */
  function MovedOf(ps: seq<Processed>): seq<Treaty> {
    if ps == [] then []
    else MovedOf(ps[..|ps| - 1]) + (if ps[|ps| - 1].Expired? then [ps[|ps| - 1].treaty] else [])
  }

  lemma KeptOfLast(ps: seq<Processed>)
    requires ps != []
    ensures var p := ps[|ps| - 1];
      && KeptOf(ps) == KeptOf(ps[..|ps| - 1]) + (if p.Expired? then [] else [p.treaty])
      && MovedOf(ps) == MovedOf(ps[..|ps| - 1]) + (if p.Expired? then [p.treaty] else [])
  {
  }

  /** The treaty a step leaves names the same two parties. */
  lemma StepKeepsParties(t: Treaty, p: Processed, c: Code)
    requires StepRelates(t, p)
    ensures Involves(p.treaty, c) == Involves(t, c)
  {
  }

  lemma {:induction false} ExpiryMoves(ts: seq<Treaty>, ps: seq<Processed>)
    requires |ps| == |ts|
    requires forall i :: 0 <= i < |ts| ==> StepRelates(ts[i], ps[i])
    ensures |KeptOf(ps)| + |MovedOf(ps)| == |ts|
    ensures forall t :: t in MovedOf(ps) ==> !t.isActive && t.ticksRemaining <= 0
    ensures (forall t :: t in ts ==> t.isActive) ==>
              forall t :: t in KeptOf(ps) ==> t.isActive && t.ticksRemaining > 0
  {
    if ts != [] {
      var n := |ts| - 1;
      var ts0, ps0 := ts[..n], ps[..n];
      assert forall i :: 0 <= i < n ==> ts0[i] == ts[i] && ps0[i] == ps[i];
      ExpiryMoves(ts0, ps0);
      assert StepRelates(ts[n], ps[n]);
      KeptOfLast(ps);
      assert forall t :: t in ts0 ==> t in ts;
    }
  }

  lemma {:induction false} ExpiryCountsAt(ts: seq<Treaty>, ps: seq<Processed>, c: Code)
    requires |ps| == |ts|
    requires forall i :: 0 <= i < |ts| ==> StepRelates(ts[i], ps[i])
    ensures CountInvolving(KeptOf(ps), c) <= CountInvolving(ts, c)
  {
    if ts != [] {
      var n := |ts| - 1;
      var ts0, ps0 := ts[..n], ps[..n];
      assert forall i :: 0 <= i < n ==> ts0[i] == ts[i] && ps0[i] == ps[i];
      ExpiryCountsAt(ts0, ps0, c);
      var p := ps[n];
      assert StepRelates(ts[n], p);
      KeptOfLast(ps);
      assert ts == ts0 + [ts[n]];
      assert ps0 == ps[..|ps| - 1];
      InvolvingAppendOne(ts0, ts[n], c);
      assert CountInvolving(ts, c) == CountInvolving(ts0, c) + (if Involves(ts[n], c) then 1 else 0);
      if !p.Expired? {
        assert KeptOf(ps) == KeptOf(ps0) + [p.treaty];
        InvolvingAppendOne(KeptOf(ps0), p.treaty, c);
        StepKeepsParties(ts[n], p, c);
      } else {
        assert KeptOf(ps) == KeptOf(ps0);
      }
    }
  }

  /** Expiry only moves treaties: active plus expired keeps its size, the moved
      ones are inactive with a spent countdown, the kept ones of an all-active
      list are still running, and no region gains a treaty. */
  lemma ExpiryPartitions(ts: seq<Treaty>, ps: seq<Processed>)
    requires |ps| == |ts|
    requires forall i :: 0 <= i < |ts| ==> StepRelates(ts[i], ps[i])
    ensures |KeptOf(ps)| + |MovedOf(ps)| == |ts|
    ensures forall t :: t in MovedOf(ps) ==> !t.isActive && t.ticksRemaining <= 0
    ensures (forall t :: t in ts ==> t.isActive) ==>
              forall t :: t in KeptOf(ps) ==> t.isActive && t.ticksRemaining > 0
    ensures forall c :: CountInvolving(KeptOf(ps), c) <= CountInvolving(ts, c)
  {
    ExpiryMoves(ts, ps);
    forall c ensures CountInvolving(KeptOf(ps), c) <= CountInvolving(ts, c) {
      ExpiryCountsAt(ts, ps, c);
    }
  }

  // ---------------------------------------------------------------------------
  // Region queries and limits
  // ---------------------------------------------------------------------------

  predicate Involves(t: Treaty, code: Code) {
    t.fromRegion == code || t.toRegion == code
  }

  /** `[t for t in active if t.from_region == code or t.to_region == code]`. */
  function InvolvingRegion(ts: seq<Treaty>, code: Code): (r: seq<Treaty>)
    ensures |r| <= |ts|
  {
    if ts == [] then []
    else InvolvingRegion(ts[..|ts| - 1], code) + (if Involves(ts[|ts| - 1], code) then [ts[|ts| - 1]] else [])
  }

  function CountInvolving(ts: seq<Treaty>, code: Code): nat {
    |InvolvingRegion(ts, code)|
  }

  lemma InvolvingAppendOne(ts: seq<Treaty>, t: Treaty, code: Code)
    ensures CountInvolving(ts + [t], code) == CountInvolving(ts, code) + (if Involves(t, code) then 1 else 0)
  {
    assert (ts + [t])[..|ts + [t]| - 1] == ts;
  }

  /** The region query returns exactly the listed treaties naming the code as a
      party, and keeps their order. */
  lemma {:induction false} InvolvingRegionExact(ts: seq<Treaty>, more: seq<Treaty>, code: Code)
    ensures forall t :: t in InvolvingRegion(ts, code) <==> t in ts && Involves(t, code)
    ensures InvolvingRegion(ts + more, code) == InvolvingRegion(ts, code) + InvolvingRegion(more, code)
    decreases |more|
  {
    if more == [] {
      assert ts + more == ts;
      InvolvingMembers(ts, code);
    } else {
      assert (ts + more)[..|ts + more| - 1] == ts + more[..|more| - 1];
      InvolvingRegionExact(ts, more[..|more| - 1], code);
    }
  }

  lemma {:induction false} InvolvingMembers(ts: seq<Treaty>, code: Code)
    ensures forall t :: t in InvolvingRegion(ts, code) <==> t in ts && Involves(t, code)
  {
    if ts != [] {
      InvolvingMembers(ts[..|ts| - 1], code);
      assert ts == ts[..|ts| - 1] + [ts[|ts| - 1]];
    }
  }

  // ---------------------------------------------------------------------------
  // Trust adjustments
  // ---------------------------------------------------------------------------

  /** Every region named as a party in the results. */
  function PartiesOf(results: seq<EnforcementResult>): set<Code> {
    if results == [] then {}
    else PartiesOf(results[..|results| - 1]) + {results[|results| - 1].from, results[|results| - 1].to}
  }

  /** What the source needs to avoid a KeyError: each breacher has been named as
      a party by then (always so for results produced by enforcement). */
  ghost predicate BreachersNamed(results: seq<EnforcementResult>) {
    forall i, j :: 0 <= i < |results| && 0 <= j < |results[i].breaches| ==>
      results[i].breaches[j].breacher in PartiesOf(results[..i + 1])
  }

  lemma BreachersNamedPrefix(results: seq<EnforcementResult>, k: nat)
    requires k <= |results|
    requires BreachersNamed(results)
    ensures BreachersNamed(results[..k])
  {
    forall i, j | 0 <= i < k && 0 <= j < |results[..k][i].breaches|
      ensures results[..k][i].breaches[j].breacher in PartiesOf(results[..k][..i + 1])
    {
      assert results[..k][..i + 1] == results[..i + 1];
    }
  }

  lemma ApplyBreachesStep(a: map<Code, int>, bs: seq<BreachNote>, j: nat)
    requires j < |bs| && forall k :: 0 <= k < |bs| ==> bs[k].breacher in a
    ensures var prev := ApplyBreaches(a, bs[..j]);
      ApplyBreaches(a, bs[..j + 1]) == prev[bs[j].breacher := prev[bs[j].breacher] - Config.TreatyBreachTrustPenalty]
  {
    assert bs[..j + 1][..j] == bs[..j] && bs[..j + 1][j] == bs[j];
  }

  /** One more result extends the adjustment by that result alone. */
  lemma TrustStep(results: seq<EnforcementResult>, i: nat)
    requires i < |results| && BreachersNamed(results)
    ensures BreachersNamed(results[..i]) && BreachersNamed(results[..i + 1])
    ensures var r := results[i];
      && (forall j :: 0 <= j < |r.breaches| ==> r.breaches[j].breacher in TrustSpec(results[..i]).Keys + {r.from, r.to})
      && TrustSpec(results[..i + 1]) == AdjustOne(TrustSpec(results[..i]), r)
  {
    BreachersNamedPrefix(results, i);
    BreachersNamedPrefix(results, i + 1);
    var pre := results[..i + 1];
    assert pre[..|pre| - 1] == results[..i] && pre[|pre| - 1] == results[i];
    assert PartiesOf(pre) == PartiesOf(results[..i]) + {results[i].from, results[i].to};
  }

  function Adj(a: map<Code, int>, c: Code): int {
    if c in a then a[c] else 0
  }

  function ApplyBreaches(a: map<Code, int>, bs: seq<BreachNote>): (r: map<Code, int>)
    requires forall j :: 0 <= j < |bs| ==> bs[j].breacher in a
    ensures r.Keys == a.Keys
  {
    if bs == [] then a
    else
      var a' := ApplyBreaches(a, bs[..|bs| - 1]);
      var b := bs[|bs| - 1].breacher;
      a'[b := a'[b] - Config.TreatyBreachTrustPenalty]
  }

  /** The adjustment after one more result, as the loop body computes it. */
  function AdjustOne(a: map<Code, int>, r: EnforcementResult): (a': map<Code, int>)
    requires forall j :: 0 <= j < |r.breaches| ==> r.breaches[j].breacher in a.Keys + {r.from, r.to}
    ensures a'.Keys == a.Keys + {r.from, r.to}
  {
    var a1 := if r.from in a then a else a[r.from := 0];
    var a2 := if r.to in a1 then a1 else a1[r.to := 0];
    if r.breaches != [] then ApplyBreaches(a2, r.breaches)
    else
      var a3 := a2[r.from := a2[r.from] + Config.TreatyHonorTrustBonus];
      a3[r.to := a3[r.to] + Config.TreatyHonorTrustBonus]
  }

  function TrustSpec(results: seq<EnforcementResult>): (a: map<Code, int>)
    requires BreachersNamed(results)
    ensures a.Keys == PartiesOf(results)
  {
    if results == [] then map[]
    else
      var prefix := results[..|results| - 1];
      BreachersNamedPrefix(results, |results| - 1);
      var r := results[|results| - 1];
      assert results[..|results|] == results;
      AdjustOne(TrustSpec(prefix), r)
  }

  // -- the reference definition: each result's contribution, summed ----------

  function BreachesBy(bs: seq<BreachNote>, c: Code): nat {
    if bs == [] then 0 else BreachesBy(bs[..|bs| - 1], c) + (if bs[|bs| - 1].breacher == c then 1 else 0)
  }

  /** A result without breaches is worth the honour bonus to each party (twice
      to a region that is both); a result with breaches costs each breacher the
      penalty once per breach. */
  function Contribution(r: EnforcementResult, c: Code): int {
    if r.breaches == [] then
      (if r.from == c then Config.TreatyHonorTrustBonus else 0)
      + (if r.to == c then Config.TreatyHonorTrustBonus else 0)
    else -Config.TreatyBreachTrustPenalty * BreachesBy(r.breaches, c)
  }

  function ExpectedAdjustment(results: seq<EnforcementResult>, c: Code): int {
    if results == [] then 0
    else ExpectedAdjustment(results[..|results| - 1], c) + Contribution(results[|results| - 1], c)
  }

  lemma {:induction false} ApplyBreachesValue(a: map<Code, int>, bs: seq<BreachNote>, c: Code)
    requires forall j :: 0 <= j < |bs| ==> bs[j].breacher in a
    ensures Adj(ApplyBreaches(a, bs), c) == Adj(a, c) - Config.TreatyBreachTrustPenalty * BreachesBy(bs, c)
  {
    if bs != [] {
      ApplyBreachesValue(a, bs[..|bs| - 1], c);
    }
  }

  lemma {:induction false} NonPartyUntouched(results: seq<EnforcementResult>, c: Code)
    requires BreachersNamed(results)
    requires c !in PartiesOf(results)
    ensures ExpectedAdjustment(results, c) == 0
  {
    if results != [] {
      var prefix := results[..|results| - 1];
      var r := results[|results| - 1];
      BreachersNamedPrefix(results, |results| - 1);
      NonPartyUntouched(prefix, c);
      assert results[..|results|] == results;
      NoBreachesByNonParty(r.breaches, c);
    }
  }

  lemma {:induction false} NoBreachesByNonParty(bs: seq<BreachNote>, c: Code)
    requires forall j :: 0 <= j < |bs| ==> bs[j].breacher != c
    ensures BreachesBy(bs, c) == 0
  {
    if bs != [] {
      NoBreachesByNonParty(bs[..|bs| - 1], c);
    }
  }

  /** `calculate_trust_adjustments` agrees with the reference definition: every
      party gets a key, and its value is the sum of honour bonuses and breach
      penalties it earned. */
  lemma {:induction false} TrustMatchesExpected(results: seq<EnforcementResult>, c: Code)
    requires BreachersNamed(results)
    ensures TrustSpec(results).Keys == PartiesOf(results)
    ensures Adj(TrustSpec(results), c) == ExpectedAdjustment(results, c)
  {
    if results != [] {
      var prefix := results[..|results| - 1];
      var r := results[|results| - 1];
      BreachersNamedPrefix(results, |results| - 1);
      assert results[..|results|] == results;
      TrustMatchesExpected(prefix, c);
      AdjustOneValue(TrustSpec(prefix), r, c);
    }
  }

  /** One result changes a region's adjustment by that result's contribution. */
  lemma AdjustOneValue(a: map<Code, int>, r: EnforcementResult, c: Code)
    requires forall j :: 0 <= j < |r.breaches| ==> r.breaches[j].breacher in a.Keys + {r.from, r.to}
    ensures Adj(AdjustOne(a, r), c) == Adj(a, c) + Contribution(r, c)
  {
    var a1 := if r.from in a then a else a[r.from := 0];
    var a2 := if r.to in a1 then a1 else a1[r.to := 0];
    assert Adj(a2, c) == Adj(a, c);
    if r.breaches != [] {
      ApplyBreachesValue(a2, r.breaches, c);
    }
  }

  /** Each result blames only its own two parties. */
  ghost predicate BlamesParties(results: seq<EnforcementResult>) {
    forall i, j :: 0 <= i < |results| && 0 <= j < |results[i].breaches| ==>
      results[i].breaches[j].breacher == results[i].from || results[i].breaches[j].breacher == results[i].to
  }

  lemma BlamesPartiesNamed(results: seq<EnforcementResult>)
    requires BlamesParties(results)
    ensures BreachersNamed(results)
  {
    forall i, j | 0 <= i < |results| && 0 <= j < |results[i].breaches|
      ensures results[i].breaches[j].breacher in PartiesOf(results[..i + 1])
    {
      var pre := results[..i + 1];
      assert pre[..|pre| - 1] == results[..i] && pre[|pre| - 1] == results[i];
    }
  }

  /** What enforcement returns is always fit for the trust calculation:
      every breach is blamed on a party of its own treaty. */
  lemma {:induction false} EnforceAllBlamesParties(ts: seq<Treaty>, regions: Regions, apply: bool, tick: int)
    ensures BlamesParties(EnforceAll(ts, regions, apply, tick).0)
    ensures BreachersNamed(EnforceAll(ts, regions, apply, tick).0)
    decreases |ts|
  {
    var r := EnforceAll(ts, regions, apply, tick).0;
    if ts != [] {
      var prev := EnforceAll(ts[..|ts| - 1], regions, apply, tick);
      var t := ts[|ts| - 1];
      EnforceAllBlamesParties(ts[..|ts| - 1], regions, apply, tick);
      if t.isActive {
        var e := EnforceSingleSpec(t, prev.2, apply, tick);
        EnforceSingleAccounting(t, prev.2, apply, tick);
        assert r == prev.0 + [e.0];
        forall i, j | 0 <= i < |r| && 0 <= j < |r[i].breaches|
          ensures r[i].breaches[j].breacher == r[i].from || r[i].breaches[j].breacher == r[i].to
        {
          if i == |prev.0| {
            assert r[i].breaches[j] in e.0.breaches;
          } else {
            assert r[i] == prev.0[i];
          }
        }
      }
    }
    BlamesPartiesNamed(r);
  }

  // ---------------------------------------------------------------------------
  // The manager
  // ---------------------------------------------------------------------------

  datatype TreatyProposal = TreatyProposal(
    from: Option<Code>,
    to: Option<Code>,
    perTickOffer: Option<Amounts>,
    perTickRequest: Option<Amounts>,
    durationTicks: Option<int>,
    conditions: Option<string>)

  datatype Summary = Summary(activeTreaties: nat, expiredTreaties: nat, totalCreated: nat, activeList: seq<TreatyDict>)

  function TreatyIdFor(counter: nat, from: Code, to: Code): string {
    "Treaty_" + ZeroPad(counter, 3) + "_" + from + "_" + to
  }

  class Manager {
    var activeTreaties: seq<Treaty>
    var expiredTreaties: seq<Treaty>
    var treatyCounter: nat

    /** Every created treaty is either active or expired, the active ones are
        running and the expired ones are not. */
    ghost predicate Valid()
      reads this
    {
      && |activeTreaties| + |expiredTreaties| == treatyCounter
      && (forall t :: t in activeTreaties ==> t.isActive)
      && (forall t :: t in expiredTreaties ==> !t.isActive)
    }

    /** No region is a party to more than the allowed number of active treaties. */
    ghost predicate WithinLimits()
      reads this
    {
      forall c :: CountInvolving(activeTreaties, c) <= Config.MaxActiveTreatiesPerState
    }

    constructor ()
      ensures Valid() && WithinLimits()
      ensures activeTreaties == [] && expiredTreaties == [] && treatyCounter == 0
    {
      activeTreaties := [];
      expiredTreaties := [];
      treatyCounter := 0;
    }

    /** `create_treaty`: refused (None, nothing changes) when either party is
        already in the maximum number of active treaties; otherwise the counter
        rises by one and the new treaty is appended last. */
    method CreateTreaty(p: TreatyProposal, currentTick: int) returns (t: Option<Treaty>)
      modifies this
      ensures var from, to := p.from.GetOr(""), p.to.GetOr("");
        t.None? <==> (CountInvolving(old(activeTreaties), from) >= Config.MaxActiveTreatiesPerState
                      || CountInvolving(old(activeTreaties), to) >= Config.MaxActiveTreatiesPerState)
      ensures t.None? ==> activeTreaties == old(activeTreaties) && treatyCounter == old(treatyCounter)
      ensures expiredTreaties == old(expiredTreaties)
      ensures t.Some? ==>
        var from, to := p.from.GetOr(""), p.to.GetOr("");
        && treatyCounter == old(treatyCounter) + 1
        && activeTreaties == old(activeTreaties) + [t.value]
        && t.value == NewTreaty(TreatyIdFor(treatyCounter, from, to), from, to,
                                p.perTickOffer.GetOr([]), p.perTickRequest.GetOr([]),
                                p.durationTicks.GetOr(20), p.conditions.GetOr("")).(createdTick := currentTick)
      ensures old(Valid()) ==> Valid()
      ensures old(WithinLimits()) ==> WithinLimits()
    {
      var from := p.from.GetOr("");
      var to := p.to.GetOr("");
      var fromCount := CountInvolving(activeTreaties, from);
      var toCount := CountInvolving(activeTreaties, to);
      if fromCount >= Config.MaxActiveTreatiesPerState || toCount >= Config.MaxActiveTreatiesPerState {
        return None;
      }
      treatyCounter := treatyCounter + 1;
      var treaty := NewTreaty(TreatyIdFor(treatyCounter, from, to), from, to,
                              p.perTickOffer.GetOr([]), p.perTickRequest.GetOr([]),
                              p.durationTicks.GetOr(20), p.conditions.GetOr(""));
      treaty := treaty.(createdTick := currentTick);
      ghost var before := activeTreaties;
      activeTreaties := activeTreaties + [treaty];
      forall c ensures CountInvolving(activeTreaties, c) <= CountInvolving(before, c) + 1
        && (c != from && c != to ==> CountInvolving(activeTreaties, c) == CountInvolving(before, c))
      {
        assert activeTreaties[..|activeTreaties| - 1] == before;
      }
      t := Some(treaty);
    }

    /** One leg of `_enforce_single`: `giver` pays `amount` of `res` when it
        holds that much, else the leg is a breach. */
    method EnforceLeg(regions: Regions, giver: Code, taker: Code, res: string, amount: int, apply: bool)
      returns (outcome: LegOutcome, regions': Regions)
      ensures (outcome, regions') == LegStep(regions, giver, taker, res, amount, apply)
    {
      regions' := regions;
      var available := ResourceOf(regions, giver, res);
      if available >= amount {
        if apply {
          regions' := SetResource(regions', giver, res, available - amount);
          var takerCurrent := ResourceOf(regions', taker, res);
          regions' := SetResource(regions', taker, res, takerCurrent + amount);
        }
        outcome := Delivered(res, amount);
      } else {
        outcome := Breached(res, amount, available);
      }
    }

    /** The bookkeeping of one leg: a delivery becomes a DELIVERED transfer, a
        breach a note for the result and a record for the treaty. */
    static method RecordLeg(outcome: LegOutcome, dir: string, giver: Code, tick: int,
                            transfers: seq<Transfer>, notes: seq<BreachNote>, records: seq<BreachRecord>)
      returns (transfers': seq<Transfer>, notes': seq<BreachNote>, records': seq<BreachRecord>)
      ensures transfers' == transfers + if outcome.Delivered? then [Transfer(dir, outcome.resource, outcome.amount, "DELIVERED")] else []
      ensures notes' == notes + if outcome.Breached? then [BreachNote(giver, outcome.resource, outcome.promised - outcome.available)] else []
      ensures records' == records + if outcome.Breached? then [BreachRecord(tick, giver, outcome.resource, outcome.promised, outcome.available)] else []
    {
      transfers', notes', records' := transfers, notes, records;
      match outcome {
        case Delivered(res, amount) =>
          transfers' := transfers + [Transfer(dir, res, amount, "DELIVERED")];
        case Breached(res, amount, available) =>
          records' := records + [BreachRecord(tick, giver, res, amount, available)];
          notes' := notes + [BreachNote(giver, res, amount - available)];
      }
    }

    /** The loop over one direction of `_enforce_single`: `giver` pays each leg
        it can cover, in dict order. */
    method EnforceLegs(regions: Regions, giver: Code, taker: Code, legs: Amounts, apply: bool, tick: int)
      returns (transfers: seq<Transfer>, notes: seq<BreachNote>, records: seq<BreachRecord>, regions': Regions)
      ensures var legRun := RunLegs(regions, giver, taker, legs, apply);
        && transfers == TransfersOf(legRun.0, Direction(giver, taker))
        && notes == BreachNotesOf(legRun.0, giver)
        && records == BreachRecordsOf(legRun.0, giver, tick)
        && regions' == legRun.1
    {
      transfers, notes, records := [], [], [];
      regions' := regions;
      var dir := Direction(giver, taker);
      ghost var outs: seq<LegOutcome> := [];
      var i := 0;
      while i < |legs|
        invariant 0 <= i <= |legs|
        invariant RunLegs(regions, giver, taker, legs[..i], apply).0 == outs
        invariant RunLegs(regions, giver, taker, legs[..i], apply).1 == regions'
        invariant transfers == TransfersOf(outs, dir)
        invariant notes == BreachNotesOf(outs, giver)
        invariant records == BreachRecordsOf(outs, giver, tick)
      {
        var res, amount := legs[i].0, legs[i].1;
        RunLegsStep(regions, giver, taker, legs, apply, i);
        var outcome;
        outcome, regions' := EnforceLeg(regions', giver, taker, res, amount, apply);
        OutcomesStep(outs, outcome, dir, giver, tick);
        transfers, notes, records := RecordLeg(outcome, dir, giver, tick, transfers, notes, records);
        outs := outs + [outcome];
        i := i + 1;
      }
      assert legs[..i] == legs;
    }

    /** `_enforce_single`: the offer legs, then the request legs on the holdings
        the offer legs left; breaches are appended to the treaty. */
    method EnforceSingle(t: Treaty, regions: Regions, apply: bool, tick: int)
      returns (result: EnforcementResult, t': Treaty, regions': Regions)
      ensures (result, t', regions') == EnforceSingleSpec(t, regions, apply, tick)
    {
      var transfers, notes, records, r1 := EnforceLegs(regions, t.fromRegion, t.toRegion, t.perTickOffer, apply, tick);
      var transfers2, notes2, records2, r2 := EnforceLegs(r1, t.toRegion, t.fromRegion, t.perTickRequest, apply, tick);
      result := EnforcementResult(t.treatyId, t.fromRegion, t.toRegion, transfers + transfers2, notes + notes2);
      t' := t.(breaches := t.breaches + records + records2);
      regions' := r2;
    }

    /** `enforce_treaties`: every active treaty is enforced in list order against
        the holdings the previous ones left, counted down by one, and moved to
        the expired list once its countdown reaches zero. */
    method EnforceTreaties(currentTick: int, regions: Regions, apply: bool)
      returns (results: seq<EnforcementResult>, regions': Regions)
      modifies this
      ensures var r := EnforceAll(old(activeTreaties), regions, apply, currentTick);
        && results == r.0 && regions' == r.2
        && activeTreaties == KeptOf(r.1)
        && expiredTreaties == old(expiredTreaties) + MovedOf(r.1)
      ensures treatyCounter == old(treatyCounter)
      ensures |results| == Count(old(activeTreaties), IsActiveTreaty)
      ensures |activeTreaties| + |expiredTreaties| == |old(activeTreaties)| + |old(expiredTreaties)|
      ensures old(Valid()) ==> Valid()
      ensures old(WithinLimits()) ==> WithinLimits()
    {
      var kept, moved;
      var ts := activeTreaties;
      ghost var expired := expiredTreaties;
      results, kept, moved, regions' := EnforceList(ts, regions, apply, currentTick);
      ghost var ps := EnforceAll(ts, regions, apply, currentTick).1;
      EnforceAllShape(ts, regions, apply, currentTick);
      ExpiryPartitions(ts, ps);
      activeTreaties := kept;
      expiredTreaties := expiredTreaties + moved;
      assert forall t :: t in expiredTreaties ==> t in expired || t in moved;
    }

    /** The loop of `enforce_treaties` over a snapshot of the active list:
        the results, the treaties that stay and the ones that expire. */
    method EnforceList(ts: seq<Treaty>, regions: Regions, apply: bool, tick: int)
      returns (results: seq<EnforcementResult>, kept: seq<Treaty>, moved: seq<Treaty>, regions': Regions)
      ensures var r := EnforceAll(ts, regions, apply, tick);
        results == r.0 && kept == KeptOf(r.1) && moved == MovedOf(r.1) && regions' == r.2
    {
      results, kept, moved := [], [], [];
      regions' := regions;
      ghost var ps: seq<Processed> := [];
      var i := 0;
      while i < |ts|
        invariant 0 <= i <= |ts|
        invariant EnforceAll(ts[..i], regions, apply, tick).0 == results
        invariant EnforceAll(ts[..i], regions, apply, tick).1 == ps
        invariant EnforceAll(ts[..i], regions, apply, tick).2 == regions'
        invariant kept == KeptOf(ps) && moved == MovedOf(ps)
      {
        EnforceAllStep(ts, regions, apply, tick, i);
        var res, p;
        res, p, regions' := ProcessTreaty(ts[i], regions', apply, tick);
        if res.Some? {
          results := results + [res.value];
        }
        if p.Expired? {
          moved := moved + [p.treaty];
        } else {
          kept := kept + [p.treaty];
        }
        KeptOfLast(ps + [p]);
        assert (ps + [p])[..|ps + [p]| - 1] == ps;
        ps := ps + [p];
        i := i + 1;
      }
      assert ts[..i] == ts;
    }

    /** One iteration of `enforce_treaties`: an inactive treaty is skipped; an
        active one is enforced, counted down, and expired at zero. */
    method ProcessTreaty(t: Treaty, regions: Regions, apply: bool, tick: int)
      returns (res: Option<EnforcementResult>, p: Processed, regions': Regions)
      ensures (res, p, regions') == EnforceStep(t, regions, apply, tick)
    {
      if !t.isActive {
        return None, Skipped(t), regions;
      }
      var r, t1, r1 := EnforceSingle(t, regions, apply, tick);
      t1 := t1.(ticksRemaining := t1.ticksRemaining - 1);
      if t1.ticksRemaining <= 0 {
        p := Expired(t1.(isActive := false));
      } else {
        p := Kept(t1);
      }
      res, regions' := Some(r), r1;
    }

    /** `calculate_trust_adjustments`, as its loop runs. */
    method CalculateTrustAdjustments(results: seq<EnforcementResult>) returns (adj: map<Code, int>)
      requires BreachersNamed(results)
      ensures adj == TrustSpec(results)
      ensures adj.Keys == PartiesOf(results)
      ensures forall c :: Adj(adj, c) == ExpectedAdjustment(results, c)
    {
      adj := map[];
      var i := 0;
      while i < |results|
        invariant 0 <= i <= |results|
        invariant BreachersNamed(results[..i])
        invariant adj == TrustSpec(results[..i])
      {
        TrustStep(results, i);
        adj := AdjustForResult(adj, results[i]);
        i := i + 1;
      }
      assert results[..i] == results;
      forall c ensures Adj(adj, c) == ExpectedAdjustment(results, c) {
        TrustMatchesExpected(results, c);
      }
    }

    /** The inner loop of `calculate_trust_adjustments`: each breach costs
        its breacher the penalty. */
    static method PenalizeBreaches(start: map<Code, int>, bs: seq<BreachNote>) returns (adj: map<Code, int>)
      requires forall k :: 0 <= k < |bs| ==> bs[k].breacher in start
      ensures adj == ApplyBreaches(start, bs)
    {
      adj := start;
      var j := 0;
      while j < |bs|
        invariant 0 <= j <= |bs|
        invariant adj == ApplyBreaches(start, bs[..j])
      {
        ApplyBreachesStep(start, bs, j);
        var b := bs[j].breacher;
        adj := adj[b := adj[b] - Config.TreatyBreachTrustPenalty];
        j := j + 1;
      }
      assert bs[..j] == bs;
    }

    /** The body of the loop in `calculate_trust_adjustments` for one result. */
    method AdjustForResult(adj: map<Code, int>, r: EnforcementResult) returns (adj': map<Code, int>)
      requires forall j :: 0 <= j < |r.breaches| ==> r.breaches[j].breacher in adj.Keys + {r.from, r.to}
      ensures adj' == AdjustOne(adj, r)
    {
      adj' := adj;
      if r.from !in adj' { adj' := adj'[r.from := 0]; }
      if r.to !in adj' { adj' := adj'[r.to := 0]; }
      if r.breaches != [] {
        assert adj'.Keys == adj.Keys + {r.from, r.to};
        adj' := PenalizeBreaches(adj', r.breaches);
      } else {
        adj' := adj'[r.from := adj'[r.from] + Config.TreatyHonorTrustBonus];
        adj' := adj'[r.to := adj'[r.to] + Config.TreatyHonorTrustBonus];
      }
    }

    /** `get_treaties_for_region`: the active treaties naming the code as a
        party, in list order. */
    function TreatiesForRegion(code: Code): (r: seq<Treaty>)
      reads this
      ensures forall t :: t in r <==> t in activeTreaties && Involves(t, code)
      ensures |r| <= |activeTreaties|
    {
      InvolvingMembers(activeTreaties, code);
      InvolvingRegion(activeTreaties, code)
    }

    /** `get_summary`: the list sizes, the counter and the active list in record
        form; for a valid manager the two sizes add up to the counter. */
    function GetSummary(): (s: Summary)
      reads this
      ensures s.activeTreaties == |activeTreaties| && s.expiredTreaties == |expiredTreaties|
      ensures s.totalCreated == treatyCounter
      ensures Valid() ==> s.activeTreaties + s.expiredTreaties == s.totalCreated
      ensures |s.activeList| == |activeTreaties|
      ensures forall i :: 0 <= i < |s.activeList| ==> FromDict(s.activeList[i]) == Some(activeTreaties[i])
    {
      Summary(|activeTreaties|, |expiredTreaties|, treatyCounter,
              seq(|activeTreaties|, i requires 0 <= i < |activeTreaties| reads this => ToDict(activeTreaties[i])))
    }
  }
}
