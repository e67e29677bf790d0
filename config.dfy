/** The simulation constants the core reads from the central configuration. */
module Config {

  /** The ten regions, in the fixed order every per-state loop follows. */
  const StateCodes: seq<string> := ["PB", "MH", "TN", "KA", "GJ", "UP", "BR", "WB", "RJ", "MP"]

  /** STATE_NAMES: the display name of each state. */
  const StateNames: map<string, string> := map[
    "PB" := "Punjab", "MH" := "Maharashtra", "TN" := "Tamil Nadu", "KA" := "Karnataka",
    "GJ" := "Gujarat", "UP" := "Uttar Pradesh", "BR" := "Bihar", "WB" := "West Bengal",
    "RJ" := "Rajasthan", "MP" := "Madhya Pradesh"]

  const MaxActiveTreatiesPerState := 5
  const TreatyBreachTrustPenalty := 15
  const TreatyHonorTrustBonus := 2

  const FederalAssemblyInterval := 50
  /** FEDERAL_ASSEMBLY_MAJORITY = 0.6 = MajorityNumerator / MajorityDenominator. */
  const MajorityNumerator := 3
  const MajorityDenominator := 5

  const ClimateMinInterval := 5

  const WelfareMigrationThreshold: real := 35.0
  /** MIGRATION_RATE = 0.02 = 1 / MigrationDivisor. */
  const MigrationDivisor := 50

  /** The resources the produce/consume step rewrites, in its order. */
  const ResourceKinds: seq<string> := ["water", "energy", "food", "tech"]

  predicate IsStateCode(c: string) {
    c in StateCodes
  }

  lemma StateCodesDistinct()
    ensures forall i, j :: 0 <= i < j < |StateCodes| ==> StateCodes[i] != StateCodes[j]
  {
  }
}
