/** The dashboard's CSV data store: the per-row indexing of the loaded rows
    (GDP and welfare by tick, the latest row per state, the trade lists, the
    climate events) and the queries the API serves from it. Rows arrive
    already parsed; a row that failed to parse is absent. */
module CsvData {
  import opened Common
  import Config

  // ---------------------------------------------------------------------------
  // State codes
  // ---------------------------------------------------------------------------

  /** The loader's own table from state name to code. */
  const NameToCode: map<string, string> := map[
    "Punjab" := "PB", "Maharashtra" := "MH", "Tamil Nadu" := "TN",
    "Karnataka" := "KA", "Gujarat" := "GJ", "Uttar Pradesh" := "UP",
    "Bihar" := "BR", "West Bengal" := "WB", "Rajasthan" := "RJ",
    "Madhya Pradesh" := "MP"]

  /** `sorted(STATE_CODES.values())`. */
  const SortedCodes: seq<string> := ["BR", "GJ", "KA", "MH", "MP", "PB", "RJ", "TN", "UP", "WB"]

  /** The sorted list is in ascending string order and holds exactly the
      table's codes, which are the simulation's ten states. */
  lemma SortedCodesFacts()
    ensures forall i :: 0 <= i < |SortedCodes| - 1 ==> StrLess(SortedCodes[i], SortedCodes[i + 1])
    ensures forall c :: c in SortedCodes <==> c in NameToCode.Values
    ensures forall c :: c in SortedCodes <==> c in Config.StateCodes
  {
    assert NameToCode["Bihar"] == "BR" && NameToCode["Gujarat"] == "GJ" && NameToCode["Karnataka"] == "KA";
    assert NameToCode["Maharashtra"] == "MH" && NameToCode["Madhya Pradesh"] == "MP" && NameToCode["Punjab"] == "PB";
    assert NameToCode["Rajasthan"] == "RJ" && NameToCode["Tamil Nadu"] == "TN" && NameToCode["Uttar Pradesh"] == "UP";
    assert NameToCode["West Bengal"] == "WB";
  }

  /** The state code of a row: the table's code for a known name, else the
      name's first two characters upper-cased. */
  function StateCodeOf(name: string): (c: string)
    ensures name in NameToCode ==> c == NameToCode[name]
    ensures name !in NameToCode ==> |c| == Min(2, |name|) && forall i :: 0 <= i < |c| ==> c[i] == UpperChar(name[i])
  {
    if name in NameToCode then NameToCode[name] else Upper(name[..Min(2, |name|)])
  }

  /** The loader's table agrees with the simulation's name table: the name of
      every state maps back to its code. */
  lemma StateCodeRoundTrip(c: string)
    requires c in Config.StateCodes
    ensures Config.StateNames[c] in NameToCode && StateCodeOf(Config.StateNames[c]) == c
  {
  }

  // ---------------------------------------------------------------------------
  // Rows and records
  // ---------------------------------------------------------------------------

  /** The columns of one CSV row the store reads, after number parsing. */
  datatype RawRow = RawRow(tick: int, stateName: string, population: int, gdp: real, welfare: real,
                           orderType: string, resourceType: string, quantity: real, price: real,
                           tradeExecuted: int, climateEvent: string, intensity: real)

  /** A parsed row: the raw columns with the state code. */
  datatype Row = Row(state: string, raw: RawRow)

  datatype TradeRec = TradeRec(tick: int, state: string, orderType: string, resource: string,
                               quantity: real, price: real, executed: bool)

  datatype ClimateRec = ClimateRec(tick: int, state: string, event: string, intensity: real)

  function Parse(raw: RawRow): Row {
    Row(StateCodeOf(raw.stateName), raw)
  }

  function TradeOf(r: Row): TradeRec {
    TradeRec(r.raw.tick, r.state, r.raw.orderType, r.raw.resourceType, r.raw.quantity, r.raw.price, r.raw.tradeExecuted == 1)
  }

  function ClimateOf(r: Row): ClimateRec {
    ClimateRec(r.raw.tick, r.state, r.raw.climateEvent, r.raw.intensity)
  }

  /** A row records a climate event unless the column reads "None", "none" or
      is empty. */
  predicate HasClimate(r: Row) {
    r.raw.climateEvent != "None" && r.raw.climateEvent != "none" && r.raw.climateEvent != ""
  }

  function HasClimateFn(): Row -> bool {
    (r: Row) => HasClimate(r)
  }

  function Executed(): TradeRec -> bool {
    (t: TradeRec) => t.executed
  }

  function ClimatesOf(rs: seq<Row>): (cs: seq<ClimateRec>)
    ensures |cs| == |rs|
    ensures forall i :: 0 <= i < |rs| ==> cs[i] == ClimateOf(rs[i])
  {
    seq(|rs|, i requires 0 <= i < |rs| => ClimateOf(rs[i]))
  }

  // ---------------------------------------------------------------------------
  // The indexes
  // ---------------------------------------------------------------------------

  /** Everything `_load` builds. */
  datatype Index = Index(
    rows: seq<Row>,
    gdpByTick: map<int, map<string, real>>,
    welfareByTick: map<int, map<string, real>>,
    trades: seq<TradeRec>,
    allTrades: seq<TradeRec>,
    climateEvents: seq<ClimateRec>,
    stateLatest: map<string, Row>,
    ticks: set<int>)

  const Empty := Index([], map[], map[], [], [], [], map[], {})

  /** `d[t][s] = v` on a default dict of dicts. */
  function Put(d: map<int, map<string, real>>, t: int, s: string, v: real): map<int, map<string, real>> {
    d[t := (if t in d then d[t] else map[])[s := v]]
  }

  /** The body of the loop of `_load` for one parsed row. */
  function Ingest(ix: Index, r: Row): Index {
    var t := r.raw.tick;
    var s := r.state;
    Index(ix.rows + [r],
          Put(ix.gdpByTick, t, s, r.raw.gdp),
          Put(ix.welfareByTick, t, s, r.raw.welfare),
          ix.trades + (if r.raw.tradeExecuted == 1 then [TradeOf(r)] else []),
          ix.allTrades + [TradeOf(r)],
          ix.climateEvents + (if HasClimate(r) then [ClimateOf(r)] else []),
          KeepLatest(ix.stateLatest, r),
          ix.ticks + {t})
  }

  /** The indexes over a sequence of parsed rows, in order. */
  function Build(rows: seq<Row>): (ix: Index)
    ensures ix.rows == rows
  {
    if rows == [] then Empty else Ingest(Build(rows[..|rows| - 1]), rows[|rows| - 1])
  }

  /** The rows that parsed, in file order. */
  function ParseAll(input: seq<Option<RawRow>>): (rows: seq<Row>)
    ensures |rows| <= |input|
  {
    if input == [] then []
    else
      var prev := ParseAll(input[..|input| - 1]);
      match input[|input| - 1]
      case None => prev
      case Some(raw) => prev + [Parse(raw)]
  }

  lemma ParseAllStep(input: seq<Option<RawRow>>, i: nat)
    requires i < |input|
    ensures ParseAll(input[..i + 1]) == ParseAll(input[..i]) + if input[i].Some? then [Parse(input[i].value)] else []
  {
    assert input[..i + 1][..i] == input[..i];
  }

  function LoadAll(input: seq<Option<RawRow>>): Index {
    Build(ParseAll(input))
  }

  lemma BuildLast(rows: seq<Row>, r: Row)
    ensures Build(rows + [r]) == Ingest(Build(rows), r)
  {
    assert (rows + [r])[..|rows|] == rows;
  }

  /** `all_trades` holds one record per row, in row order. */
  lemma {:induction false} BuildAllTrades(rows: seq<Row>)
    ensures |Build(rows).allTrades| == |rows|
    ensures forall i :: 0 <= i < |rows| ==> Build(rows).allTrades[i] == TradeOf(rows[i])
  {
    if rows != [] {
      var init := rows[..|rows| - 1];
      BuildAllTrades(init);
      assert forall i :: 0 <= i < |init| ==> init[i] == rows[i];
    }
  }

  /** `trades` is the order-preserving sub-sequence of `all_trades` whose
      executed flag is set. */
  lemma {:induction false} BuildTrades(rows: seq<Row>)
    ensures Build(rows).trades == Filter(Build(rows).allTrades, Executed())
  {
    if rows != [] {
      var init := rows[..|rows| - 1];
      BuildTrades(init);
      var a := Build(init).allTrades;
      var t := TradeOf(rows[|rows| - 1]);
      assert (a + [t])[..|a|] == a;
      assert Filter(a + [t], Executed()) == Filter(a, Executed()) + (if t.executed then [t] else []);
    }
  }

  /** The climate events are the rows with an event, in row order; none of
      them reads "None", "none" or is empty. */
  lemma {:induction false} BuildClimate(rows: seq<Row>)
    ensures Build(rows).climateEvents == ClimatesOf(Filter(rows, HasClimateFn()))
    ensures forall i :: 0 <= i < |Build(rows).climateEvents| ==>
              Build(rows).climateEvents[i].event !in {"None", "none", ""}
  {
    if rows != [] {
      var init := rows[..|rows| - 1];
      var r := rows[|rows| - 1];
      BuildClimate(init);
      assert Filter(rows, HasClimateFn()) == Filter(init, HasClimateFn()) + (if HasClimate(r) then [r] else []);
      var f := Filter(rows, HasClimateFn());
      forall i | 0 <= i < |f| ensures HasClimate(f[i]) {
        FilterMembership(rows, HasClimateFn(), f[i]);
      }
    }
  }

  /** `ticks` is the set of ticks of the rows. */
  lemma {:induction false} BuildTicks(rows: seq<Row>)
    ensures Build(rows).ticks == set i | 0 <= i < |rows| :: rows[i].raw.tick
  {
    if rows != [] {
      var init := rows[..|rows| - 1];
      BuildTicks(init);
      assert forall i :: 0 <= i < |init| ==> init[i] == rows[i];
      assert (set i | 0 <= i < |rows| :: rows[i].raw.tick)
          == (set i | 0 <= i < |init| :: init[i].raw.tick) + {rows[|rows| - 1].raw.tick};
    }
  }

  /** A row for tick `t` and state `s`. */
  ghost predicate Seen(rows: seq<Row>, t: int, s: string) {
    exists i :: 0 <= i < |rows| && rows[i].raw.tick == t && rows[i].state == s
  }

  lemma SeenLast(rows: seq<Row>, t: int, s: string)
    requires rows != []
    ensures Seen(rows, t, s) <==>
              Seen(rows[..|rows| - 1], t, s) || (rows[|rows| - 1].raw.tick == t && rows[|rows| - 1].state == s)
  {
    var init := rows[..|rows| - 1];
    if Seen(rows, t, s) {
      var i :| 0 <= i < |rows| && rows[i].raw.tick == t && rows[i].state == s;
      if i < |init| {
        assert init[i] == rows[i];
      }
    }
    if Seen(init, t, s) {
      var i :| 0 <= i < |init| && init[i].raw.tick == t && init[i].state == s;
      assert rows[i] == init[i];
    }
  }

  /** The GDP and welfare tables have an entry for tick `t` and state `s`
      exactly when some row does, and only for the loaded ticks. */
  lemma {:induction false} BuildTableKeys(rows: seq<Row>, t: int, s: string)
    ensures t in Build(rows).gdpByTick <==> t in Build(rows).ticks
    ensures t in Build(rows).welfareByTick <==> t in Build(rows).ticks
    ensures (t in Build(rows).gdpByTick && s in Build(rows).gdpByTick[t]) <==> Seen(rows, t, s)
    ensures (t in Build(rows).welfareByTick && s in Build(rows).welfareByTick[t]) <==> Seen(rows, t, s)
  {
    if rows != [] {
      BuildTableKeys(rows[..|rows| - 1], t, s);
      SeenLast(rows, t, s);
    }
  }

  /** The table entry for a tick and state is taken from the last row for
      that tick and state. */
  lemma {:induction false} BuildTableLast(rows: seq<Row>, k: nat)
    requires k < |rows|
    requires forall j :: k < j < |rows| ==> !(rows[j].raw.tick == rows[k].raw.tick && rows[j].state == rows[k].state)
    ensures var t, s := rows[k].raw.tick, rows[k].state;
      && t in Build(rows).gdpByTick && s in Build(rows).gdpByTick[t]
      && Build(rows).gdpByTick[t][s] == rows[k].raw.gdp
      && t in Build(rows).welfareByTick && s in Build(rows).welfareByTick[t]
      && Build(rows).welfareByTick[t][s] == rows[k].raw.welfare
  {
    var init := rows[..|rows| - 1];
    if k < |rows| - 1 {
      assert init[k] == rows[k];
      assert forall j :: k < j < |init| ==> init[j] == rows[j];
      BuildTableLast(init, k);
    }
  }

  /** `state_latest[s] = parsed` when the state has no row yet or the row's
      tick is later. */
  function KeepLatest(m: map<string, Row>, r: Row): map<string, Row> {
    if r.state !in m || r.raw.tick > m[r.state].raw.tick then m[r.state := r] else m
  }

  /** The latest-row table over a sequence of rows. */
  function LatestOf(rows: seq<Row>): map<string, Row> {
    if rows == [] then map[] else KeepLatest(LatestOf(rows[..|rows| - 1]), rows[|rows| - 1])
  }

  lemma {:induction false} BuildLatestOf(rows: seq<Row>)
    ensures Build(rows).stateLatest == LatestOf(rows)
  {
    if rows != [] {
      BuildLatestOf(rows[..|rows| - 1]);
    }
  }

  /** A state has a latest row exactly when some row names it; that row is
      one of the rows, names the state, and no row of the state has a later
      tick. */
  lemma {:induction false} LatestFacts(rows: seq<Row>, s: string)
    ensures s in LatestOf(rows) <==> exists i :: 0 <= i < |rows| && rows[i].state == s
    ensures s in LatestOf(rows) ==>
              && LatestOf(rows)[s] in rows
              && LatestOf(rows)[s].state == s
              && forall j :: 0 <= j < |rows| && rows[j].state == s ==> rows[j].raw.tick <= LatestOf(rows)[s].raw.tick
  {
    if rows != [] {
      var init := rows[..|rows| - 1];
      LatestFacts(init, s);
      assert forall j :: 0 <= j < |init| ==> init[j] == rows[j];
      if exists i :: 0 <= i < |rows| && rows[i].state == s {
        var i :| 0 <= i < |rows| && rows[i].state == s;
        if i < |init| {
          assert init[i].state == s;
        }
      }
    }
  }

  /** On equal ticks the earliest row wins: the first row with the greatest
      tick of its state is the latest. */
  lemma {:induction false} LatestIs(rows: seq<Row>, k: nat)
    requires k < |rows|
    requires forall j :: 0 <= j < k && rows[j].state == rows[k].state ==> rows[j].raw.tick < rows[k].raw.tick
    requires forall j :: k < j < |rows| && rows[j].state == rows[k].state ==> rows[j].raw.tick <= rows[k].raw.tick
    ensures rows[k].state in LatestOf(rows) && LatestOf(rows)[rows[k].state] == rows[k]
  {
    var init := rows[..|rows| - 1];
    if k < |rows| - 1 {
      assert init[k] == rows[k];
      assert forall j :: 0 <= j < |init| ==> init[j] == rows[j];
      LatestIs(init, k);
    } else {
      var s := rows[k].state;
      if s in LatestOf(init) {
        LatestFacts(init, s);
        var l := LatestOf(init)[s];
        var j :| 0 <= j < |init| && init[j] == l;
        assert rows[j] == l;
      }
    }
  }

  // ---------------------------------------------------------------------------
  // History sampling
  // ---------------------------------------------------------------------------

  ghost predicate StrictlyAscending(s: seq<int>) {
    forall i, j :: 0 <= i < j < |s| ==> s[i] < s[j]
  }

  ghost function MinOf(s: set<int>): (m: int)
    requires s != {}
    ensures m in s && forall x :: x in s ==> m <= x
    decreases |s|
  {
    if forall y :: y !in s then assert false; 0
    else
      var y :| y in s;
      if s == {y} then
        assert forall x :: x in s ==> x == y;
        y
      else
        assert forall x :: x in s ==> x == y || x in s - {y};
        var m := MinOf(s - {y});
        if y < m then y else m
  }

  /** The least element of a non-empty set. */
  function SetMin(s: set<int>): (m: int)
    requires s != {}
    ensures m in s && forall x :: x in s ==> m <= x
  {
    var w := MinOf(s);
    var m :| m in s && forall x :: x in s ==> m <= x; m
  }

  /** `sorted(ticks)`. */
  function SortedTicks(s: set<int>): (r: seq<int>)
    ensures |r| == |s|
    ensures forall x :: x in r <==> x in s
    ensures StrictlyAscending(r)
    decreases |s|
  {
    if s == {} then []
    else
      var m := SetMin(s);
      var rest := SortedTicks(s - {m});
      assert forall i :: 0 <= i < |rest| ==> m < rest[i] by {
        forall i | 0 <= i < |rest| ensures m < rest[i] {
          assert rest[i] in s - {m};
        }
      }
      [m] + rest
  }

  /** The ticks a history shows: all of them, or when there are more than
      `limit`, every `len // limit`-th one, at most `limit` of them. */
  function Sample(ts: seq<int>, limit: int): seq<int>
    requires limit > 0
  {
    if |ts| > limit then TakePy(Stride(ts, |ts| / limit), limit) else ts
  }

  lemma DivAtLeast(a: int, k: int, q: int)
    requires k > 0 && q * k <= a
    ensures a / k >= q
  {
    var d, m := a / k, a % k;
    assert a == d * k + m && 0 <= m < k;
    if d < q {
      MulMono(d + 1, q, k);
    }
  }

  /** The sampling step is at least 1 and strides far enough to leave
      `limit` ticks. */
  lemma SampleStep(n: int, limit: int)
    requires 0 < limit < n
    ensures n / limit >= 1
    ensures (n + n / limit - 1) / (n / limit) >= limit
  {
    var k := n / limit;
    assert n == k * limit + n % limit;
    DivAtLeast(n, limit, 1);
    DivAtLeast(n + k - 1, k, limit);
  }

  lemma SampleAt(ts: seq<int>, limit: int, i: nat)
    requires 0 < limit < |ts| && i < |Sample(ts, limit)|
    ensures i * (|ts| / limit) < |ts| && Sample(ts, limit)[i] == ts[i * (|ts| / limit)]
  {
    SampleStep(|ts|, limit);
    StrideAt(ts, |ts| / limit, i);
  }

  lemma SampleAscending(ts: seq<int>, limit: int, i: nat, j: nat)
    requires StrictlyAscending(ts)
    requires 0 < limit < |ts| && i < j < |Sample(ts, limit)|
    ensures Sample(ts, limit)[i] < Sample(ts, limit)[j]
  {
    var k := |ts| / limit;
    SampleAt(ts, limit, i);
    SampleAt(ts, limit, j);
    MulMono(i + 1, j, k);
    assert (i + 1) * k == i * k + k;
    assert i * k < j * k;
  }

  /** Exactly min(#ticks, limit) ticks, in ascending order, each a known tick. */
  lemma SampleShape(ts: seq<int>, limit: int)
    requires limit > 0
    ensures |Sample(ts, limit)| == Min(|ts|, limit)
    ensures forall i :: 0 <= i < |Sample(ts, limit)| ==> Sample(ts, limit)[i] in ts
    ensures StrictlyAscending(ts) ==> StrictlyAscending(Sample(ts, limit))
  {
    if |ts| > limit {
      var k := |ts| / limit;
      SampleStep(|ts|, limit);
      StrideLength(ts, k);
      var r := Sample(ts, limit);
      assert |r| == limit;
      forall i | 0 <= i < |r| ensures r[i] in ts {
        SampleAt(ts, limit, i);
      }
      if StrictlyAscending(ts) {
        forall i, j | 0 <= i < j < |r| ensures r[i] < r[j] {
          SampleAscending(ts, limit, i, j);
        }
      }
    }
  }

  /** One entry of a history: the tick and every state's value at it,
      defaulting to 0, times `scale`. */
  datatype HistoryEntry = HistoryEntry(tick: int, values: map<string, real>)

  function ValueAt(byTick: map<int, map<string, real>>, t: int, s: string): real {
    if t in byTick && s in byTick[t] then byTick[t][s] else 0.0
  }

  /** The entry for tick `t`: every state's value, defaulting to 0, times
      `scale`. */
  function Entry(byTick: map<int, map<string, real>>, t: int, scale: real): (e: HistoryEntry)
    ensures e.tick == t
    ensures forall s :: s in e.values <==> s in SortedCodes
    ensures forall s :: s in e.values ==> e.values[s] == ValueAt(byTick, t, s) * scale
  {
    HistoryEntry(t, map s | s in SortedCodes :: ValueAt(byTick, t, s) * scale)
  }

  function History(byTick: map<int, map<string, real>>, ticks: set<int>, limit: int, scale: real): (h: seq<HistoryEntry>)
    requires limit > 0
    ensures |h| == Min(|ticks|, limit)
    ensures forall i :: 0 <= i < |h| ==> h[i].tick in ticks
    ensures forall i, j :: 0 <= i < j < |h| ==> h[i].tick < h[j].tick
    ensures forall i :: 0 <= i < |h| ==> h[i] == Entry(byTick, h[i].tick, scale)
  {
    var ts := Sample(SortedTicks(ticks), limit);
    SampleShape(SortedTicks(ticks), limit);
    seq(|ts|, i requires 0 <= i < |ts| => Entry(byTick, ts[i], scale))
  }

  // ---------------------------------------------------------------------------
  // Counting
  // ---------------------------------------------------------------------------

  function BidBy(s: string): TradeRec -> bool {
    (t: TradeRec) => t.state == s && t.orderType == "BID"
  }

  function AskBy(s: string): TradeRec -> bool {
    (t: TradeRec) => t.state == s && t.orderType != "BID"
  }

  function ByState(s: string): TradeRec -> bool {
    (t: TradeRec) => t.state == s
  }

  datatype Activity = Activity(state: string, bids: nat, asks: nat)

  /** `counts[k] += 1` on an insertion-ordered dict of counts. */
  function Bump(d: Dict<string, nat>, k: string): (r: Dict<string, nat>)
    ensures |r| == |d| || |r| == |d| + 1
  {
    if d == [] then [(k, 1)]
    else if d[0].0 == k then [(k, d[0].1 + 1)] + d[1..]
    else [d[0]] + Bump(d[1..], k)
  }

  /** Bumping adds no key other than `k`. */
  lemma {:induction false} BumpKeys(d: Dict<string, nat>, k: string)
    ensures forall i :: 0 <= i < |Bump(d, k)| ==> Bump(d, k)[i].0 == k || Bump(d, k)[i].0 in KeysOf(d)
  {
    if d != [] && d[0].0 != k {
      BumpKeys(d[1..], k);
      assert forall j :: 0 <= j < |d| - 1 ==> KeysOf(d[1..])[j] == KeysOf(d)[j + 1];
      var r := Bump(d, k);
      forall i | 0 <= i < |r| ensures r[i].0 == k || r[i].0 in KeysOf(d) {
        if i > 0 {
          assert r[i] == Bump(d[1..], k)[i - 1];
        }
      }
    }
  }

  function SumCounts(d: Dict<string, nat>): nat {
    if d == [] then 0 else d[0].1 + SumCounts(d[1..])
  }

  function Is(k: string): string -> bool {
    (x: string) => x == k
  }

  /** The count dict of `get_climate_summary`, before sorting. */
  function Tally(names: seq<string>): Dict<string, nat> {
    if names == [] then [] else Bump(Tally(names[..|names| - 1]), names[|names| - 1])
  }

  lemma DistinctTail(d: Dict<string, nat>)
    requires d != [] && DistinctKeys(d)
    ensures DistinctKeys(d[1..])
    ensures d[0].0 !in KeysOf(d[1..])
  {
    forall i, j | 0 <= i < j < |d[1..]| ensures d[1..][i].0 != d[1..][j].0 {
      assert d[1..][i] == d[i + 1] && d[1..][j] == d[j + 1];
    }
    forall j | 0 <= j < |d| - 1 ensures KeysOf(d[1..])[j] != d[0].0 {
      assert KeysOf(d[1..])[j] == d[j + 1].0;
    }
  }

  lemma {:induction false} BumpDistinct(d: Dict<string, nat>, k: string)
    requires DistinctKeys(d)
    ensures DistinctKeys(Bump(d, k))
  {
    if d != [] && d[0].0 != k {
      DistinctTail(d);
      BumpDistinct(d[1..], k);
      BumpKeys(d[1..], k);
      var rest := Bump(d[1..], k);
      var r := [d[0]] + rest;
      forall i, j | 0 <= i < j < |r| ensures r[i].0 != r[j].0 {
        if i > 0 {
          assert r[i] == rest[i - 1] && r[j] == rest[j - 1];
        } else {
          assert r[j] == rest[j - 1];
        }
      }
    } else if d != [] {
      var r := Bump(d, k);
      forall i, j | 0 <= i < j < |r| ensures r[i].0 != r[j].0 {
        assert r[i].0 == d[i].0 && r[j].0 == d[j].0;
      }
    }
  }

  lemma {:induction false} BumpSum(d: Dict<string, nat>, k: string)
    ensures SumCounts(Bump(d, k)) == SumCounts(d) + 1
  {
    if d != [] && d[0].0 != k {
      BumpSum(d[1..], k);
      assert ([d[0]] + Bump(d[1..], k))[1..] == Bump(d[1..], k);
    } else if d != [] {
      assert Bump(d, k)[1..] == d[1..];
    }
  }

  lemma {:induction false} BumpLookupSame(d: Dict<string, nat>, k: string)
    ensures Lookup(Bump(d, k), k) == Some(if Lookup(d, k).Some? then Lookup(d, k).value + 1 else 1)
  {
    var r := Bump(d, k);
    if d == [] {
      assert r == [(k, 1)];
      assert Lookup(r, k) == Some(1);
    } else if d[0].0 == k {
      assert r[0] == (k, d[0].1 + 1);
      assert Lookup(r, k) == Some(d[0].1 + 1);
      assert Lookup(d, k) == Some(d[0].1);
    } else {
      BumpLookupSame(d[1..], k);
      assert r[1..] == Bump(d[1..], k) && r[0] == d[0];
      assert Lookup(r, k) == Lookup(r[1..], k);
      assert Lookup(d, k) == Lookup(d[1..], k);
    }
  }

  lemma {:induction false} BumpLookupOther(d: Dict<string, nat>, k: string, key: string)
    requires key != k
    ensures Lookup(Bump(d, k), key) == Lookup(d, key)
  {
    var r := Bump(d, k);
    if d == [] {
      assert r[1..] == [];
    } else if d[0].0 == k {
      assert r[1..] == d[1..];
      assert Lookup(r, key) == Lookup(d[1..], key);
    } else if d[0].0 != key {
      BumpLookupOther(d[1..], k, key);
      assert r[1..] == Bump(d[1..], k) && r[0] == d[0];
      assert Lookup(r, key) == Lookup(r[1..], key);
    }
  }

  /** Every name is counted once under its own key, keys are distinct, and
      the counts add up to the number of names. */
  lemma {:induction false} TallyFacts(names: seq<string>)
    ensures DistinctKeys(Tally(names))
    ensures SumCounts(Tally(names)) == |names|
  {
    if names != [] {
      var init := names[..|names| - 1];
      TallyFacts(init);
      BumpDistinct(Tally(init), names[|names| - 1]);
      BumpSum(Tally(init), names[|names| - 1]);
    }
  }

  /** Each name's entry is its number of occurrences; names that never occur
      have none. */
  lemma {:induction false} TallyCounts(names: seq<string>, k: string)
    ensures Lookup(Tally(names), k) == if Count(names, Is(k)) > 0 then Some(Count(names, Is(k))) else None
  {
    if names != [] {
      var init := names[..|names| - 1];
      var x := names[|names| - 1];
      TallyCounts(init, k);
      if x == k {
        BumpLookupSame(Tally(init), x);
      } else {
        BumpLookupOther(Tally(init), x, k);
      }
      assert Count(names, Is(k)) == Count(init, Is(k)) + if x == k then 1 else 0;
    }
  }

  function CountKey(): ((string, nat)) -> real {
    (p: (string, nat)) => p.1 as real
  }

  lemma {:induction false} SumCountsAppend(d: Dict<string, nat>, x: (string, nat))
    ensures SumCounts(d + [x]) == SumCounts(d) + x.1
  {
    if d != [] {
      assert (d + [x])[1..] == d[1..] + [x];
      SumCountsAppend(d[1..], x);
    }
  }

  lemma {:induction false} SumCountsInsert(x: (string, nat), d: Dict<string, nat>)
    ensures SumCounts(InsertDesc(x, d, CountKey())) == SumCounts(d) + x.1
  {
    if d != [] && CountKey()(d[0]) >= CountKey()(x) {
      SumCountsInsert(x, d[1..]);
      assert InsertDesc(x, d, CountKey())[1..] == InsertDesc(x, d[1..], CountKey());
    }
  }

  lemma {:induction false} SumCountsSorted(d: Dict<string, nat>)
    ensures SumCounts(SortDesc(d, CountKey())) == SumCounts(d)
  {
    if d != [] {
      var init := d[..|d| - 1];
      SumCountsSorted(init);
      SumCountsInsert(d[|d| - 1], SortDesc(init, CountKey()));
      SumCountsAppend(init, d[|d| - 1]);
      assert init + [d[|d| - 1]] == d;
    }
  }

  function EventNames(es: seq<ClimateRec>): (names: seq<string>)
    ensures |names| == |es|
    ensures forall i :: 0 <= i < |es| ==> names[i] == es[i].event
  {
    seq(|es|, i requires 0 <= i < |es| => es[i].event)
  }

  /** `get_climate_summary` on a list of events. */
  function ClimateSummary(es: seq<ClimateRec>): Dict<string, nat> {
    SortDesc(Tally(EventNames(es)), CountKey())
  }

  /** The summary is sorted by count, highest first, its counts add up to the
      number of events, and it is a reordering of the per-event counts. */
  lemma ClimateSummaryFacts(es: seq<ClimateRec>)
    ensures SortedDesc(ClimateSummary(es), CountKey())
    ensures SumCounts(ClimateSummary(es)) == |es|
    ensures multiset(ClimateSummary(es)) == multiset(Tally(EventNames(es)))
  {
    SortDescSorted(Tally(EventNames(es)), CountKey());
    SumCountsSorted(Tally(EventNames(es)));
    TallyFacts(EventNames(es));
  }

  // ---------------------------------------------------------------------------
  // The store
  // ---------------------------------------------------------------------------

  class Store {
    var rows: seq<Row>
    var gdpByTick: map<int, map<string, real>>
    var welfareByTick: map<int, map<string, real>>
    var trades: seq<TradeRec>
    var allTrades: seq<TradeRec>
    var climateEvents: seq<ClimateRec>
    var stateLatest: map<string, Row>
    var ticks: set<int>

    function Contents(): Index
      reads this
    {
      Index(rows, gdpByTick, welfareByTick, trades, allTrades, climateEvents, stateLatest, ticks)
    }

    /** `__init__` and `_load`: the indexes of the rows that parsed, in file
        order (a missing file gives no rows). */
    constructor (input: seq<Option<RawRow>>)
      ensures Contents() == LoadAll(input)
    {
      rows, gdpByTick, welfareByTick := [], map[], map[];
      trades, allTrades, climateEvents := [], [], [];
      stateLatest, ticks := map[], {};
      new;
      var i := 0;
      while i < |input|
        invariant 0 <= i <= |input|
        invariant Contents() == Build(ParseAll(input[..i]))
      {
        ParseAllStep(input, i);
        if input[i].Some? {
          var row := Parse(input[i].value);
          BuildLast(ParseAll(input[..i]), row);
          Add(row);
        }
        i := i + 1;
      }
      assert input[..i] == input;
    }

    /** The body of the loop of `_load` for one parsed row. */
    method Add(r: Row)
      modifies this
      ensures Contents() == Ingest(old(Contents()), r)
    {
      var t, s := r.raw.tick, r.state;
      rows := rows + [r];
      ticks := ticks + {t};
      gdpByTick := Put(gdpByTick, t, s, r.raw.gdp);
      welfareByTick := Put(welfareByTick, t, s, r.raw.welfare);
      if s !in stateLatest || t > stateLatest[s].raw.tick {
        stateLatest := stateLatest[s := r];
      }
      assert stateLatest == KeepLatest(old(stateLatest), r);
      var rec := TradeOf(r);
      allTrades := allTrades + [rec];
      if r.raw.tradeExecuted == 1 {
        trades := trades + [rec];
      }
      assert trades == old(trades) + if r.raw.tradeExecuted == 1 then [rec] else [];
      if HasClimate(r) {
        climateEvents := climateEvents + [ClimateOf(r)];
      }
      assert climateEvents == old(climateEvents) + if HasClimate(r) then [ClimateOf(r)] else [];
    }

    /** `get_gdp_history`. */
    function GetGdpHistory(limit: int): (h: seq<HistoryEntry>)
      requires limit > 0
      reads this
      ensures |h| == Min(|ticks|, limit)
      ensures forall i :: 0 <= i < |h| ==> h[i].tick in ticks
      ensures forall i, j :: 0 <= i < j < |h| ==> h[i].tick < h[j].tick
      ensures forall i :: 0 <= i < |h| ==> h[i] == Entry(gdpByTick, h[i].tick, 1.0)
    {
      History(gdpByTick, ticks, limit, 1.0)
    }

    /** `get_welfare_history`: welfare as a percentage. */
    function GetWelfareHistory(limit: int): (h: seq<HistoryEntry>)
      requires limit > 0
      reads this
      ensures |h| == Min(|ticks|, limit)
      ensures forall i :: 0 <= i < |h| ==> h[i].tick in ticks
      ensures forall i, j :: 0 <= i < j < |h| ==> h[i].tick < h[j].tick
      ensures forall i :: 0 <= i < |h| ==> h[i] == Entry(welfareByTick, h[i].tick, 100.0)
    {
      History(welfareByTick, ticks, limit, 100.0)
    }

    /** `get_trade_history`: the last `limit` executed trades in order (with a
        limit of 0, Python's `[-0:]` is all of them). */
    function GetTradeHistory(limit: int): (r: seq<TradeRec>)
      reads this
      ensures limit > 0 ==> |r| == Min(limit, |trades|) && r == trades[|trades| - |r|..]
      ensures limit == 0 ==> r == trades
    {
      DropPy(trades, -limit)
    }

    /** `get_all_trades`. */
    function GetAllTrades(limit: int): (r: seq<TradeRec>)
      reads this
      ensures limit > 0 ==> |r| == Min(limit, |allTrades|) && r == allTrades[|allTrades| - |r|..]
      ensures limit == 0 ==> r == allTrades
    {
      DropPy(allTrades, -limit)
    }

    /** `get_climate_summary`, counting in a loop. */
    method GetClimateSummary() returns (r: Dict<string, nat>)
      ensures r == ClimateSummary(climateEvents)
      ensures SortedDesc(r, CountKey()) && SumCounts(r) == |climateEvents|
    {
      var counts: Dict<string, nat> := [];
      var names := EventNames(climateEvents);
      var i := 0;
      while i < |climateEvents|
        invariant 0 <= i <= |climateEvents|
        invariant counts == Tally(names[..i])
      {
        assert names[..i + 1][..i] == names[..i];
        counts := Bump(counts, climateEvents[i].event);
        i := i + 1;
      }
      assert names[..i] == names;
      r := SortDesc(counts, CountKey());
      ClimateSummaryFacts(climateEvents);
    }

    /** `get_state_trade_activity`: the ten codes in sorted order, each with
        its executed bids and its executed orders of any other type. */
    method GetStateTradeActivity() returns (r: seq<Activity>)
      ensures |r| == |SortedCodes|
      ensures forall i :: 0 <= i < |r| ==>
                && r[i].state == SortedCodes[i]
                && r[i].bids == Count(trades, BidBy(SortedCodes[i]))
                && r[i].asks == Count(trades, AskBy(SortedCodes[i]))
                && r[i].bids + r[i].asks == Count(trades, ByState(SortedCodes[i]))
    {
      var buys, sells := CountOrders(trades);
      r := seq(|SortedCodes|, k requires 0 <= k < |SortedCodes| =>
        Activity(SortedCodes[k], Tallied(buys, SortedCodes[k]), Tallied(sells, SortedCodes[k])));
      forall k | 0 <= k < |SortedCodes|
        ensures Count(trades, BidBy(SortedCodes[k])) + Count(trades, AskBy(SortedCodes[k])) == Count(trades, ByState(SortedCodes[k]))
      {
        FilterPartition(trades, ByState(SortedCodes[k]), BidBy(SortedCodes[k]), AskBy(SortedCodes[k]));
      }
    }
  }

  /** A tally's count for `s`, 0 when absent. */
  function Tallied(m: map<string, nat>, s: string): nat {
    if s in m then m[s] else 0
  }

  lemma CountStep(ts: seq<TradeRec>, i: nat, s: string)
    requires i < |ts|
    ensures Count(ts[..i + 1], BidBy(s)) == Count(ts[..i], BidBy(s)) + (if BidBy(s)(ts[i]) then 1 else 0)
    ensures Count(ts[..i + 1], AskBy(s)) == Count(ts[..i], AskBy(s)) + (if AskBy(s)(ts[i]) then 1 else 0)
  {
    FilterPrefixStep(ts, i, BidBy(s));
    FilterPrefixStep(ts, i, AskBy(s));
  }

  /** The tally loop of `get_state_trade_activity`: a "BID" counts as a bid
      for its state, any other order type as an ask. */
  method CountOrders(ts: seq<TradeRec>) returns (buys: map<string, nat>, sells: map<string, nat>)
    ensures forall s :: Tallied(buys, s) == Count(ts, BidBy(s))
    ensures forall s :: Tallied(sells, s) == Count(ts, AskBy(s))
  {
    buys, sells := map[], map[];
    var i := 0;
    while i < |ts|
      invariant 0 <= i <= |ts|
      invariant forall s :: Tallied(buys, s) == Count(ts[..i], BidBy(s))
      invariant forall s :: Tallied(sells, s) == Count(ts[..i], AskBy(s))
    {
      var t := ts[i];
      forall s {
        CountStep(ts, i, s);
      }
      if t.orderType == "BID" {
        buys := buys[t.state := Tallied(buys, t.state) + 1];
      } else {
        sells := sells[t.state := Tallied(sells, t.state) + 1];
      }
      i := i + 1;
    }
    assert ts[..i] == ts;
  }
}
