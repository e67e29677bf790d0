/** The API server's shared state: the capped dashboard logs, the queue of
    interventions, the intervention endpoint and websocket handler, the
    effect of an intervention on the region data, and the ranking and log
    slices of the broadcast payload. */
module ApiServer {
  import opened Common
  import opened Domain
  import Config
  import WorldEnv

  // ---------------------------------------------------------------------------
  // Log entries and interventions
  // ---------------------------------------------------------------------------

  /** A dashboard trade entry. */
  datatype TradeEntry = TradeEntry(from: Code, to: Code, offering: Dict<string, int>, requesting: Dict<string, int>, tick: int)

  /** A governor message; its display text is not modelled. */
  datatype GovernorMsg = GovernorMsg(state: Code, kind: string, tick: int)

  /** The GDP of a region before and after an intervention, and the change the
      log reports (the unclamped penalty or bonus). */
  datatype Impact = Impact(before: real, after: real, change: real)

  /** A climate-log entry; its display text is not modelled. */
  datatype LogEntry = LogEntry(kind: string, tick: int, gdpImpact: map<Code, Impact>)

  /** An intervention as queued: a JSON object whose keys may be missing. */
  datatype Intervention = Intervention(action: Option<string>, target: Option<string>,
                                       severity: Option<string>, description: Option<string>)

  const TradeLogCap := 50
  const GovernorLogCap := 50
  const ClimateLogCap := 30

  // ---------------------------------------------------------------------------
  // Capped logs
  // ---------------------------------------------------------------------------

  /** `log.insert(0, x); log = log[:cap]`: newest first. */
  function PushNewest<T>(log: seq<T>, x: T, cap: nat): (r: seq<T>)
    requires cap > 0
    ensures |r| == Min(|log| + 1, cap)
    ensures r[0] == x
    ensures r[1..] == log[..|r| - 1]
  {
    TakePy([x] + log, cap)
  }

  /** `log.append(x); log = log[-cap:]`: oldest first. */
  function KeepLast<T>(log: seq<T>, x: T, cap: nat): (r: seq<T>)
    requires cap > 0
    ensures |r| == Min(|log| + 1, cap)
    ensures r[|r| - 1] == x
    ensures r == (log + [x])[|log| + 1 - |r|..]
  {
    DropPy(log + [x], -(cap as int))
  }

  /** The log after several appends, one at a time. */
  function KeepLastAll<T>(log: seq<T>, xs: seq<T>, cap: nat): seq<T>
    requires cap > 0
  {
    if xs == [] then log else KeepLast(KeepLastAll(log, xs[..|xs| - 1], cap), xs[|xs| - 1], cap)
  }

  /** The log after several newest-first inserts, one at a time. */
  function PushNewestAll<T>(log: seq<T>, xs: seq<T>, cap: nat): seq<T>
    requires cap > 0
  {
    if xs == [] then log else PushNewest(PushNewestAll(log, xs[..|xs| - 1], cap), xs[|xs| - 1], cap)
  }

  /** Appending one at a time keeps the last `cap` of everything appended. */
  lemma {:induction false} KeepLastAllIsSuffix<T>(log: seq<T>, xs: seq<T>, cap: nat)
    requires cap > 0 && |log| <= cap
    ensures var all := log + xs;
      KeepLastAll(log, xs, cap) == all[|all| - Min(|all|, cap)..]
  {
    if xs != [] {
      var init := xs[..|xs| - 1];
      var x := xs[|xs| - 1];
      KeepLastAllIsSuffix(log, init, cap);
      assert log + xs == (log + init) + [x] by {
        assert xs == init + [x];
      }
      SuffixStep(log + init, x, cap);
    }
  }

  /** One more append to the last `cap` of a sequence gives the last `cap`
      of the longer one. */
  lemma SuffixStep<T>(before: seq<T>, x: T, cap: nat)
    requires cap > 0
    ensures var m := Min(|before|, cap);
      KeepLast(before[|before| - m..], x, cap) == (before + [x])[|before| + 1 - Min(|before| + 1, cap)..]
  {
    var m := Min(|before|, cap);
    var prev := before[|before| - m..];
    var all := before + [x];
    assert prev + [x] == all[|all| - (m + 1)..];
    var r := KeepLast(prev, x, cap);
    assert r == (prev + [x])[m + 1 - |r|..];
  }

  /** Inserting newest-first one at a time keeps the newest `cap` entries,
      newest first. */
  lemma {:induction false} PushNewestAllIsPrefix<T>(log: seq<T>, xs: seq<T>, cap: nat)
    requires cap > 0 && |log| <= cap
    ensures var all := Reverse(xs) + log;
      PushNewestAll(log, xs, cap) == all[..Min(|all|, cap)]
  {
    if xs != [] {
      var init := xs[..|xs| - 1];
      var x := xs[|xs| - 1];
      PushNewestAllIsPrefix(log, init, cap);
      var prev := PushNewestAll(log, init, cap);
      var all := Reverse(xs) + log;
      var prevAll := Reverse(init) + log;
      assert all == [x] + prevAll by {
        assert |all| == |[x] + prevAll|;
        forall i | 0 <= i < |all| ensures all[i] == ([x] + prevAll)[i] {
          if 0 < i < |xs| {
            assert all[i] == xs[|xs| - 1 - i] == init[|init| - 1 - (i - 1)];
          }
        }
      }
      var r := PushNewest(prev, x, cap);
      forall i | 0 <= i < |r| ensures r[i] == all[i] {
        if i > 0 {
          assert r[i] == r[1..][i - 1] == prev[i - 1];
        }
      }
    }
  }

  /** A log that starts within its cap stays within it. */
  lemma {:induction false} KeepLastAllCapped<T>(log: seq<T>, xs: seq<T>, cap: nat)
    requires cap > 0 && |log| <= cap
    ensures |KeepLastAll(log, xs, cap)| <= cap
  {
    if xs != [] {
      KeepLastAllCapped(log, xs[..|xs| - 1], cap);
    }
  }

  // ---------------------------------------------------------------------------
  // The intervention endpoint and the websocket frames
  // ---------------------------------------------------------------------------

  const TargetedActions: seq<string> := ["drought", "flood", "energy_crisis", "tech_boom", "health_crisis", "monsoon_failure"]
  const ValidActions: seq<string> := TargetedActions + ["gdp_crash", "stimulus"]

  /** The body of a POST to the intervention endpoint. */
  datatype Request = Request(action: Option<string>, target: Option<string>,
                             severity: Option<string>, description: Option<string>)

  datatype Response = Rejected(status: int) | Queued(intervention: Intervention, queueSize: nat)

  /** The intervention `intervene` queues for a request, or none for an action
      outside the whitelist. */
  function Validate(body: Request): (r: Option<Intervention>)
    ensures r.None? <==> body.action.GetOr("") !in ValidActions
    ensures r.Some? ==>
              && r.value.action == Some(body.action.GetOr("")) && r.value.target == Some(body.target.GetOr(""))
              && r.value.severity == Some(body.severity.GetOr("danger"))
              && r.value.description == Some(body.description.GetOr(""))
  {
    var action := body.action.GetOr("");
    if action !in ValidActions then None
    else Some(Intervention(Some(action), Some(body.target.GetOr("")),
                           Some(body.severity.GetOr("danger")), Some(body.description.GetOr(""))))
  }

  /** A websocket text frame after `json.loads`: not JSON at all, JSON that is
      not an object, or an object with its `type` and `payload`. */
  datatype Frame = NotJson | NotObject | Message(msgType: Option<string>, payload: Option<Intervention>)

  /** What the handler does with a frame: ignores it, queues and acknowledges
      it, or fails with an exception that ends the connection. */
  datatype FrameOutcome = Ignored | Acked(queued: Intervention) | Fails

  function HandleFrameSpec(f: Frame): (o: FrameOutcome)
    ensures o.Fails? <==> f.NotObject?
    ensures o.Acked? <==> f.Message? && f.msgType == Some("intervene")
    ensures o.Acked? ==> o.queued == f.payload.GetOr(Intervention(None, None, None, None))
  {
    match f
    case NotJson => Ignored
    case NotObject => Fails
    case Message(t, p) => if t == Some("intervene") then Acked(p.GetOr(Intervention(None, None, None, None))) else Ignored
  }

  /** The interventions a run of frames queues: every acknowledged payload, in
      order, up to the first frame that fails. */
  function QueuedBy(frames: seq<Frame>): (q: seq<Intervention>)
    ensures |q| <= |frames|
  {
    if frames == [] then []
    else
      match HandleFrameSpec(frames[0])
      case Fails => []
      case Ignored => QueuedBy(frames[1..])
      case Acked(x) => [x] + QueuedBy(frames[1..])
  }

  /** Frames that are not JSON never end the loop nor queue anything. */
  lemma {:induction false} NonJsonIgnored(frames: seq<Frame>, more: seq<Frame>)
    requires forall i :: 0 <= i < |frames| ==> frames[i].NotJson?
    ensures QueuedBy(frames + more) == QueuedBy(more)
  {
    if frames != [] {
      assert (frames + more)[0] == frames[0];
      assert HandleFrameSpec(frames[0]) == Ignored;
      assert (frames + more)[1..] == frames[1..] + more;
      assert QueuedBy(frames + more) == QueuedBy(frames[1..] + more);
      NonJsonIgnored(frames[1..], more);
    } else {
      assert frames + more == more;
    }
  }

  // ---------------------------------------------------------------------------
  // The effect of an intervention on the region data
  // ---------------------------------------------------------------------------

  /** Python's `int(x)`: truncation toward zero. */
  function Trunc(x: real): (n: int)
    ensures x >= 0.0 ==> 0 <= n && n as real <= x < n as real + 1.0
    ensures x < 0.0 ==> n <= 0 && n as real - 1.0 < x <= n as real
  {
    if x >= 0.0 then x.Floor else -((-x).Floor)
  }

  /** `int(resources.get(res, 0) * factor)`. */
  function Scaled(m: map<string, int>, res: string, factor: real): int {
    Trunc((if res in m then m[res] else 0) as real * factor)
  }

  function RMax(a: real, b: real): real { if a >= b then a else b }
  function RMin(a: real, b: real): real { if a <= b then a else b }

  /** The share of GDP a crisis destroys; the boom adds a quarter. */
  function CrisisFactor(action: string): real {
    if action == "drought" then 0.20
    else if action == "flood" then 0.23
    else if action == "energy_crisis" then 0.27
    else if action == "health_crisis" then 0.15
    else if action == "monsoon_failure" then 0.30
    else 0.0
  }

  /** The resources an action rewrites. */
  function Touched(action: string): set<string> {
    if action == "drought" then {"water"}
    else if action == "flood" then {"food", "water"}
    else if action == "energy_crisis" then {"energy"}
    else if action == "tech_boom" then {"tech"}
    else if action == "monsoon_failure" then {"water", "food"}
    else {}
  }

  /** The resources after a targeted action. */
  function ShockResources(action: string, m: map<string, int>): map<string, int> {
    if action == "drought" then m["water" := Max(0, Scaled(m, "water", 0.3))]
    else if action == "flood" then
      var m1 := m["food" := Max(0, Scaled(m, "food", 0.2))];
      m1["water" := Scaled(m1, "water", 1.5)]
    else if action == "energy_crisis" then m["energy" := Max(0, Scaled(m, "energy", 0.25))]
    else if action == "tech_boom" then m["tech" := Scaled(m, "tech", 2.5)]
    else if action == "monsoon_failure" then
      var m1 := m["water" := Max(0, Scaled(m, "water", 0.15))];
      m1["food" := Max(0, Scaled(m1, "food", 0.4))]
    else m
  }

  /** The welfare after a targeted action, from `welfare_score` (default 50). */
  function ShockWelfare(action: string, w: real): real {
    if action == "drought" then RMax(10.0, w - 12.0)
    else if action == "flood" then RMax(10.0, w - 18.0)
    else if action == "energy_crisis" then RMax(10.0, w - 10.0)
    else if action == "tech_boom" then RMin(100.0, w + 8.0)
    else if action == "health_crisis" then RMax(0.0, w - 30.0)
    else RMax(10.0, w - 20.0)
  }

  /** A targeted action on the target's region: the rewritten resources, and
      for the six named actions the new GDP and welfare. A crisis cuts GDP by
      its factor and never below 5; the boom raises it by a quarter. Any
      other action leaves the region as it was. */
  function TargetedShock(action: string, r: Region): (r': Region)
    ensures r'.(resources := r.resources, gdpScore := r.gdpScore, welfareScore := r.welfareScore) == r
    ensures action !in TargetedActions ==> r' == r
    ensures forall k :: k !in Touched(action) ==>
              (k in r'.resources <==> k in r.resources) && (k in r.resources ==> r'.resources[k] == r.resources[k])
    ensures forall k :: k in Touched(action) ==> k in r'.resources
    ensures action in TargetedActions && action != "tech_boom" ==>
              var old_ := r.gdpScore.GetOr(50.0);
              r'.gdpScore == Some(RMax(5.0, old_ * (1.0 - CrisisFactor(action))))
    ensures action == "tech_boom" ==> r'.gdpScore == Some(r.gdpScore.GetOr(50.0) * 1.25)
    ensures action in TargetedActions && action != "tech_boom" ==>
              r'.welfareScore.Some? && 0.0 <= r'.welfareScore.value <= RMax(10.0, r.welfareScore.GetOr(50.0))
    ensures action == "tech_boom" ==>
              r'.welfareScore.Some? && RMin(100.0, r.welfareScore.GetOr(50.0)) <= r'.welfareScore.value <= 100.0
  {
    if action !in TargetedActions then r
    else
      var oldGdp := r.gdpScore.GetOr(50.0);
      var gdp := if action == "tech_boom" then oldGdp + oldGdp * 0.25 else RMax(5.0, oldGdp - oldGdp * CrisisFactor(action));
      r.(resources := ShockResources(action, r.resources),
         gdpScore := Some(gdp),
         welfareScore := Some(ShockWelfare(action, r.welfareScore.GetOr(50.0))))
  }

  /** The change the log reports for a targeted action. */
  function TargetedChange(action: string, oldGdp: real): real {
    if action == "tech_boom" then oldGdp * 0.25 else -(oldGdp * CrisisFactor(action))
  }

  /** A national action on one region: `gdp_crash` takes 30% of GDP (never
      below 5) and 8 welfare (never below 10); `stimulus` adds 15% and 5
      welfare (never above 100). */
  function NationalShock(action: string, r: Region): (r': Region)
    ensures r'.(gdpScore := r.gdpScore, welfareScore := r.welfareScore) == r
    ensures action == "gdp_crash" ==> r'.gdpScore == Some(RMax(5.0, r.gdpScore.GetOr(0.0) * 0.7))
                                      && r'.welfareScore.Some? && r'.welfareScore.value >= 10.0
    ensures action == "stimulus" ==> r'.gdpScore == Some(r.gdpScore.GetOr(0.0) * 1.15)
                                     && r'.welfareScore.Some? && r'.welfareScore.value <= 100.0
  {
    var oldGdp := r.gdpScore.GetOr(0.0);
    var w := r.welfareScore.GetOr(50.0);
    if action == "gdp_crash" then r.(gdpScore := Some(RMax(5.0, oldGdp * 0.7)), welfareScore := Some(RMax(10.0, w - 8.0)))
    else r.(gdpScore := Some(oldGdp * 1.15), welfareScore := Some(RMin(100.0, w + 5.0)))
  }

  /** What one intervention does: the new region data, the governor messages
      it adds, in order, and its climate-log entry. */
  datatype Applied = Applied(regions: Regions, messages: seq<GovernorMsg>, entry: LogEntry)

  predicate HitsKnownTarget(x: Intervention, regions: Regions) {
    x.target.GetOr("") != "" && x.target.GetOr("") in regions
  }

  /** `apply_intervention` at tick `tick`; `order` is the iteration order of
      the region dict. A known target takes the targeted branch whatever the
      action; otherwise `gdp_crash` and `stimulus` touch every region. */
  function ApplyInterventionSpec(regions: Regions, order: seq<Code>, x: Intervention, tick: int): (a: Applied)
    ensures a.regions.Keys == regions.Keys
    ensures a.entry.tick == tick
  {
    var action := x.action.GetOr("");
    var target := x.target.GetOr("");
    var kind := x.severity.GetOr("danger");
    if HitsKnownTarget(x, regions) then
      var r := regions[target];
      var r' := TargetedShock(action, r);
      var impact := if action in TargetedActions
                    then map[target := Impact(r.gdpScore.GetOr(50.0), r'.gdpScore.value, TargetedChange(action, r.gdpScore.GetOr(50.0)))]
                    else map[];
      Applied(regions[target := r'], [GovernorMsg(target, "recovery", tick)],
              LogEntry(if action == "tech_boom" then "success" else kind, tick, impact))
    else if action == "gdp_crash" || action == "stimulus" then
      var regions' := map c | c in regions :: NationalShock(action, regions[c]);
      var impact := map c | c in regions ::
        Impact(regions[c].gdpScore.GetOr(0.0), regions'[c].gdpScore.value,
               if action == "gdp_crash" then -(regions[c].gdpScore.GetOr(0.0) * 0.3) else regions[c].gdpScore.GetOr(0.0) * 0.15);
      var msgs := if action == "gdp_crash" then seq(|order|, i requires 0 <= i < |order| => GovernorMsg(order[i], "recovery", tick)) else [];
      Applied(regions', msgs, LogEntry(if action == "stimulus" then "success" else kind, tick, impact))
    else
      Applied(regions, [], LogEntry(kind, tick, map[]))
  }

  /** A targeted action on a known target changes that region only and adds
      one recovery message; on an absent or unknown target it changes no
      region and adds none. */
  lemma TargetedShape(regions: Regions, order: seq<Code>, x: Intervention, tick: int)
    requires x.action.GetOr("") in TargetedActions
    ensures var a := ApplyInterventionSpec(regions, order, x, tick);
      && (HitsKnownTarget(x, regions) ==>
            && (forall c :: c in regions && c != x.target.GetOr("") ==> a.regions[c] == regions[c])
            && a.messages == [GovernorMsg(x.target.GetOr(""), "recovery", tick)]
            && a.entry.gdpImpact.Keys == {x.target.GetOr("")})
      && (!HitsKnownTarget(x, regions) ==> a.regions == regions && a.messages == [] && a.entry.gdpImpact == map[])
  {
    var action := x.action.GetOr("");
    assert action != "gdp_crash" && action != "stimulus";
  }

  /** `gdp_crash` without a known target hits every region and adds one
      recovery message per region, in dict order. */
  lemma CrashShape(regions: Regions, order: seq<Code>, x: Intervention, tick: int)
    requires x.action == Some("gdp_crash") && !HitsKnownTarget(x, regions)
    requires Distinct(order) && forall c :: c in regions <==> c in order
    ensures var a := ApplyInterventionSpec(regions, order, x, tick);
      && |a.messages| == |regions|
      && (forall i :: 0 <= i < |order| ==> a.messages[i].state == order[i] && a.messages[i].kind == "recovery")
      && (forall c :: c in regions ==> a.regions[c] == NationalShock("gdp_crash", regions[c]))
      && a.entry.gdpImpact.Keys == regions.Keys
  {
    DistinctCardinality(order, regions.Keys);
  }

  lemma {:induction false} DistinctCardinality(order: seq<Code>, keys: set<Code>)
    requires Distinct(order) && forall c :: c in keys <==> c in order
    ensures |order| == |keys|
  {
    if order != [] {
      var last := order[|order| - 1];
      var init := order[..|order| - 1];
      assert Distinct(init) by {
        forall a, b | 0 <= a < b < |init| ensures init[a] != init[b] {
          assert init[a] == order[a] && init[b] == order[b];
        }
      }
      assert last !in init by {
        forall k | 0 <= k < |init| ensures init[k] != last {
          assert init[k] == order[k];
        }
      }
      forall c ensures c in keys - {last} <==> c in init {
        if c in order && c != last {
          var k :| 0 <= k < |order| && order[k] == c;
          assert k < |order| - 1 && init[k] == c;
        }
      }
      DistinctCardinality(init, keys - {last});
    }
  }

  /** `stimulus` without a known target raises every region and adds no
      message. */
  lemma StimulusShape(regions: Regions, order: seq<Code>, x: Intervention, tick: int)
    requires x.action == Some("stimulus") && !HitsKnownTarget(x, regions)
    ensures var a := ApplyInterventionSpec(regions, order, x, tick);
      && a.messages == [] && a.entry.kind == "success"
      && (forall c :: c in regions ==> a.regions[c] == NationalShock("stimulus", regions[c]))
  {
  }

  /** A national action that names a known target takes the targeted branch:
      no GDP or welfare changes anywhere, yet one recovery message. */
  lemma NationalWithTarget(regions: Regions, order: seq<Code>, x: Intervention, tick: int)
    requires x.action == Some("gdp_crash") || x.action == Some("stimulus")
    requires HitsKnownTarget(x, regions)
    ensures var a := ApplyInterventionSpec(regions, order, x, tick);
      a.regions == regions && |a.messages| == 1 && a.entry.gdpImpact == map[]
  {
    var a := ApplyInterventionSpec(regions, order, x, tick);
    var target := x.target.GetOr("");
    assert a.regions[target] == regions[target];
    assert a.regions == regions;
  }

  /** An action outside the whitelist (reachable through the websocket, which
      does not check) changes nothing and logs one plain entry. */
  lemma UnknownActionInert(regions: Regions, order: seq<Code>, x: Intervention, tick: int)
    requires x.action.GetOr("") !in ValidActions
    ensures var a := ApplyInterventionSpec(regions, order, x, tick);
      a.regions == regions && a.entry.gdpImpact == map[] && a.entry.kind == x.severity.GetOr("danger")
      && (HitsKnownTarget(x, regions) <==> |a.messages| == 1)
      && (!HitsKnownTarget(x, regions) ==> a.messages == [])
  {
    var a := ApplyInterventionSpec(regions, order, x, tick);
    if HitsKnownTarget(x, regions) {
      var target := x.target.GetOr("");
      assert a.regions[target] == regions[target];
      assert a.regions == regions;
    }
  }

  // ---------------------------------------------------------------------------
  // The broadcast payload
  // ---------------------------------------------------------------------------

  /** One region of the payload. */
  datatype RegionPayload = RegionPayload(name: string, resources: map<string, int>, gdp: real,
                                         welfare: real, trust: int, population: int)

  function PayloadOf(code: Code, r: WorldEnv.RegionSnapshot): (p: RegionPayload)
    ensures code in Config.StateNames ==> p.name == Config.StateNames[code]
    ensures code !in Config.StateNames ==> p.name == code
    ensures p.gdp == r.gdpScore && p.trust == r.trustScore
  {
    RegionPayload(if code in Config.StateNames then Config.StateNames[code] else code,
                  r.resources, r.gdpScore, r.welfareScore, r.trustScore, r.population)
  }

  /** The payload's regions, in the snapshot's order. */
  function PayloadItems(s: WorldEnv.Snapshot): (items: seq<(Code, RegionPayload)>)
    ensures |items| == |Config.StateCodes|
    ensures forall i :: 0 <= i < |items| ==> items[i].0 == Config.StateCodes[i]
  {
    seq(|Config.StateCodes|, i requires 0 <= i < |Config.StateCodes| =>
      var c := Config.StateCodes[i];
      (c, PayloadOf(c, if c in s.regions then s.regions[c] else WorldEnv.RegionView(map[], c))))
  }

  function GdpKey(): ((Code, RegionPayload)) -> real {
    (p: (Code, RegionPayload)) => p.1.gdp
  }

  /** `gdp_ranked`: the regions by GDP, highest first, ties in payload order. */
  function Ranking(items: seq<(Code, RegionPayload)>): (r: seq<(Code, RegionPayload)>)
    ensures multiset(r) == multiset(items)
    ensures SortedDesc(r, GdpKey())
  {
    SortDescSorted(items, GdpKey());
    SortDesc(items, GdpKey())
  }

  /** `highest_gdp` and `lowest_gdp`: the ends of the ranking, or nothing. */
  function Highest(items: seq<(Code, RegionPayload)>): Option<(Code, RegionPayload)> {
    var r := Ranking(items);
    if r == [] then None else Some(r[0])
  }

  function Lowest(items: seq<(Code, RegionPayload)>): Option<(Code, RegionPayload)> {
    var r := Ranking(items);
    if r == [] then None else Some(r[|r| - 1])
  }

  /** The highest and lowest entries are regions of the payload, and no
      region's GDP is above the first or below the last; both are absent
      exactly when there are no regions. */
  lemma Extremes(items: seq<(Code, RegionPayload)>)
    ensures Highest(items).None? <==> items == []
    ensures Lowest(items).None? <==> items == []
    ensures Highest(items).Some? ==>
              Highest(items).value in items && forall i :: 0 <= i < |items| ==> items[i].1.gdp <= Highest(items).value.1.gdp
    ensures Lowest(items).Some? ==>
              Lowest(items).value in items && forall i :: 0 <= i < |items| ==> items[i].1.gdp >= Lowest(items).value.1.gdp
  {
    var r := Ranking(items);
    if r == [] {
      assert |multiset(items)| == 0;
    } else {
      assert r[0] in multiset(r) && r[|r| - 1] in multiset(r);
      forall i | 0 <= i < |items| ensures r[|r| - 1].1.gdp <= items[i].1.gdp <= r[0].1.gdp {
        assert items[i] in multiset(r);
        var k :| 0 <= k < |r| && r[k] == items[i];
        assert GdpKey()(r[0]) >= GdpKey()(r[k]) || k == 0;
        assert GdpKey()(r[k]) >= GdpKey()(r[|r| - 1]) || k == |r| - 1;
      }
    }
  }

  /** The slices of the logs a payload carries: the newest `nTrades` trades
      (the log is newest first) and the last `nGovernor` and `nClimate`
      messages and entries. */
  datatype Recent = Recent(trades: seq<TradeEntry>, governorMessages: seq<GovernorMsg>, climateEvents: seq<LogEntry>)

  function RecentLogs(trades: seq<TradeEntry>, gov: seq<GovernorMsg>, climate: seq<LogEntry>,
                      nTrades: nat, nGovernor: nat, nClimate: nat): (r: Recent)
    requires nTrades > 0 && nGovernor > 0 && nClimate > 0
    ensures r.trades == trades[..Min(nTrades, |trades|)]
    ensures |r.governorMessages| == Min(nGovernor, |gov|) && r.governorMessages == gov[|gov| - |r.governorMessages|..]
    ensures |r.climateEvents| == Min(nClimate, |climate|) && r.climateEvents == climate[|climate| - |r.climateEvents|..]
  {
    LastItems(gov, nGovernor);
    LastItems(climate, nClimate);
    Recent(TakePy(trades, nTrades), DropPy(gov, -(nGovernor as int)), DropPy(climate, -(nClimate as int)))
  }

  /** The sizes the tick broadcast and the state endpoint use. */
  const BroadcastSizes: (nat, nat, nat) := (10, 10, 15)
  const StateEndpointSizes: (nat, nat, nat) := (20, 20, 20)

  // ---------------------------------------------------------------------------
  // The shared state
  // ---------------------------------------------------------------------------

  class SimState {
    var tick: int
    var tradeLog: seq<TradeEntry>
    var governorLog: seq<GovernorMsg>
    var climateLog: seq<LogEntry>
    var interventionQueue: seq<Intervention>

    /** Every log is within its cap. */
    ghost predicate Valid()
      reads this
    {
      |tradeLog| <= TradeLogCap && |governorLog| <= GovernorLogCap && |climateLog| <= ClimateLogCap
    }

    constructor ()
      ensures Valid()
      ensures tick == 0 && tradeLog == [] && governorLog == [] && climateLog == [] && interventionQueue == []
    {
      tick := 0;
      tradeLog := [];
      governorLog := [];
      climateLog := [];
      interventionQueue := [];
    }

    /** `add_trade`. */
    method AddTrade(t: TradeEntry)
      requires Valid()
      modifies this
      ensures Valid()
      ensures tradeLog == PushNewest(old(tradeLog), t, TradeLogCap)
      ensures governorLog == old(governorLog) && climateLog == old(climateLog)
      ensures interventionQueue == old(interventionQueue) && tick == old(tick)
    {
      tradeLog := [t] + tradeLog;
      tradeLog := TakePy(tradeLog, TradeLogCap);
    }

    /** `add_governor_msg`. */
    method AddGovernorMsg(m: GovernorMsg)
      requires Valid()
      modifies this
      ensures Valid()
      ensures governorLog == KeepLast(old(governorLog), m, GovernorLogCap)
      ensures tradeLog == old(tradeLog) && climateLog == old(climateLog)
      ensures interventionQueue == old(interventionQueue) && tick == old(tick)
    {
      governorLog := governorLog + [m];
      governorLog := DropPy(governorLog, -(GovernorLogCap as int));
    }

    /** `add_climate_event`. */
    method AddClimateEvent(e: LogEntry)
      requires Valid()
      modifies this
      ensures Valid()
      ensures climateLog == KeepLast(old(climateLog), e, ClimateLogCap)
      ensures tradeLog == old(tradeLog) && governorLog == old(governorLog)
      ensures interventionQueue == old(interventionQueue) && tick == old(tick)
    {
      climateLog := climateLog + [e];
      climateLog := DropPy(climateLog, -(ClimateLogCap as int));
    }

    /** `queue_intervention`. */
    method QueueIntervention(x: Intervention)
      modifies this
      ensures interventionQueue == old(interventionQueue) + [x]
      ensures tradeLog == old(tradeLog) && governorLog == old(governorLog) && climateLog == old(climateLog)
      ensures tick == old(tick)
    {
      interventionQueue := interventionQueue + [x];
    }

    /** `pop_interventions`: everything queued, oldest first; the queue is left
        empty. */
    method PopInterventions() returns (xs: seq<Intervention>)
      modifies this
      ensures xs == old(interventionQueue) && interventionQueue == []
      ensures tradeLog == old(tradeLog) && governorLog == old(governorLog) && climateLog == old(climateLog)
      ensures tick == old(tick)
    {
      xs := interventionQueue;
      interventionQueue := [];
    }

    /** The `intervene` endpoint: a refused action is answered with status 400
        and queues nothing; an accepted one is queued and the answer carries
        the new queue size. */
    method Intervene(body: Request) returns (resp: Response)
      modifies this
      ensures resp.Rejected? <==> Validate(body).None?
      ensures resp.Rejected? ==> resp.status == 400 && interventionQueue == old(interventionQueue)
      ensures resp.Queued? ==>
                && resp.intervention == Validate(body).value
                && interventionQueue == old(interventionQueue) + [resp.intervention]
                && resp.queueSize == |interventionQueue|
      ensures tradeLog == old(tradeLog) && governorLog == old(governorLog) && climateLog == old(climateLog)
      ensures tick == old(tick)
    {
      var x := Validate(body);
      if x.None? {
        return Rejected(400);
      }
      QueueIntervention(x.value);
      resp := Queued(x.value, |interventionQueue|);
    }

    /** The websocket receive loop over the frames a client sends: each
        `intervene` message is queued and acknowledged, other frames are
        skipped, and a frame that is JSON but not an object ends the loop. */
    method ServeFrames(frames: seq<Frame>) returns (acks: nat)
      modifies this
      ensures interventionQueue == old(interventionQueue) + QueuedBy(frames)
      ensures acks == |QueuedBy(frames)|
      ensures tradeLog == old(tradeLog) && governorLog == old(governorLog) && climateLog == old(climateLog)
      ensures tick == old(tick)
    {
      acks := 0;
      var i := 0;
      while i < |frames|
        invariant 0 <= i <= |frames|
        invariant interventionQueue + QueuedBy(frames[i..]) == old(interventionQueue) + QueuedBy(frames)
        invariant acks + |QueuedBy(frames[i..])| == |QueuedBy(frames)|
        invariant tradeLog == old(tradeLog) && governorLog == old(governorLog) && climateLog == old(climateLog)
        invariant tick == old(tick)
      {
        assert frames[i..][0] == frames[i] && frames[i..][1..] == frames[i + 1..];
        var outcome := HandleFrameSpec(frames[i]);
        if outcome.Fails? {
          assert QueuedBy(frames[i..]) == [];
          return;
        }
        if outcome.Acked? {
          ghost var q := interventionQueue;
          QueueIntervention(outcome.queued);
          assert interventionQueue + QueuedBy(frames[i + 1..]) == q + QueuedBy(frames[i..]);
          acks := acks + 1;
        }
        i := i + 1;
      }
    }

    /** The logging half of `apply_intervention`: each governor message, then
        the climate-log entry, through the capped logs. */
    method Record(messages: seq<GovernorMsg>, entry: LogEntry)
      requires Valid()
      modifies this
      ensures Valid()
      ensures governorLog == KeepLastAll(old(governorLog), messages, GovernorLogCap)
      ensures climateLog == KeepLast(old(climateLog), entry, ClimateLogCap)
      ensures tradeLog == old(tradeLog) && interventionQueue == old(interventionQueue) && tick == old(tick)
    {
      var i := 0;
      while i < |messages|
        invariant 0 <= i <= |messages|
        invariant Valid()
        invariant governorLog == KeepLastAll(old(governorLog), messages[..i], GovernorLogCap)
        invariant climateLog == old(climateLog) && tradeLog == old(tradeLog)
        invariant interventionQueue == old(interventionQueue) && tick == old(tick)
      {
        assert messages[..i + 1][..i] == messages[..i];
        AddGovernorMsg(messages[i]);
        i := i + 1;
      }
      assert messages[..i] == messages;
      AddClimateEvent(entry);
    }

    /** `apply_intervention` on the environment's region data; the messages
        and the entry go through the capped logs. */
    method ApplyIntervention(world: WorldEnv.World, order: seq<Code>, x: Intervention) returns (entry: LogEntry)
      requires Valid()
      modifies this, world
      ensures Valid()
      ensures var a := ApplyInterventionSpec(old(world.regions), order, x, old(tick));
        && world.regions == a.regions && entry == a.entry
        && governorLog == KeepLastAll(old(governorLog), a.messages, GovernorLogCap)
        && climateLog == KeepLast(old(climateLog), a.entry, ClimateLogCap)
      ensures tradeLog == old(tradeLog) && interventionQueue == old(interventionQueue) && tick == old(tick)
      ensures world.currentTick == old(world.currentTick) && world.useLlm == old(world.useLlm)
    {
      var a := ApplyInterventionSpec(world.regions, order, x, tick);
      world.regions := a.regions;
      Record(a.messages, a.entry);
      entry := a.entry;
    }
  }
}
