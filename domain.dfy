/** The records the simulation engine passes between its parts: the cached
    region data (`regions_data`) and the FinOps state reports. */
module Domain {
  import opened Common

  /** A two-letter state code such as "PB". */
  type Code = string

  /** One entry of `regions_data`. Keys the source reads with `.get(key, default)`
      and that a region may lack are optional; the per-read defaults differ
      (welfare is 50 for a migrating region and 0 for a destination, trust is
      100, GDP is 0 in a snapshot). */
  datatype Region = Region(
    resources: map<string, int>,
    generationRates: map<string, int>,
    consumptionRates: map<string, int>,
    population: Option<int>,
    gdpScore: Option<real>,
    welfareScore: Option<real>,
    trustScore: Option<int>)

  type Regions = map<Code, Region>

  /** `regions_data.get(code, {}).get("resources", {}).get(res, 0)`. */
  function ResourceOf(regions: Regions, code: Code, res: string): int {
    if code in regions && res in regions[code].resources then regions[code].resources[res] else 0
  }

  /** `_update_region_resources_local(code, {res: val})`: a known region gets the
      new holding, an unknown code changes nothing. */
  function SetResource(regions: Regions, code: Code, res: string, val: int): (r: Regions)
    ensures r.Keys == regions.Keys
    ensures forall c :: c in regions && c != code ==> r[c] == regions[c]
    ensures code in regions ==> r[code] == regions[code].(resources := regions[code].resources[res := val])
    ensures code !in regions ==> r == regions
  {
    if code in regions then regions[code := regions[code].(resources := regions[code].resources[res := val])]
    else regions
  }

  /** An entry of a report's `surpluses`. */
  datatype Surplus = Surplus(amountAvailable: Option<int>)

  /** An entry of a report's `trade_recommendations`. */
  datatype TradeRecommendation = TradeRecommendation(
    action: Option<string>,
    offerResource: Option<string>,
    requestResource: Option<string>,
    offerAmount: Option<int>,
    requestAmount: Option<int>)

  /** The FinOps analysis of one region; produced outside the core. A missing
      `deficits`, `surpluses` or `trade_recommendations` reads as empty. */
  datatype StateReport = StateReport(
    regionName: Option<string>,
    gdpScore: Option<real>,
    healthScore: Option<real>,
    deficits: seq<string>,
    surpluses: Dict<string, Surplus>,
    tradeRecommendations: seq<TradeRecommendation>)
}
