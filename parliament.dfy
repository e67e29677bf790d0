/** The Federal Assembly: every governor with a state report proposes a
    national policy, the first three proposals are put to a vote of the same
    governors, and a proposal passes with a three-fifths majority. What a
    governor proposes and how it votes come from outside the core and are
    inputs here. */
module Parliament {
  import opened Common
  import opened Domain
  import Config

  /** The fields of a proposal the assembly reads; each may be missing. */
  datatype Proposal = Proposal(policyName: Option<string>, proposer: Option<string>, durationTicks: Option<int>)

  /** One entry of the national summary every governor sees. */
  datatype SummaryEntry = SummaryEntry(name: string, gdp: real, health: real, deficits: seq<string>, surpluses: seq<string>)

  /** The outcome of one vote; the yes and no counts are the lengths of the
      two lists. */
  datatype VoteRecord = VoteRecord(
    policyName: string, proposer: string,
    yesVotes: seq<Code>, noVotes: seq<Code>,
    passed: bool, proposal: Proposal)

  datatype Resolution = Resolution(name: string, proposal: Proposal, tickPassed: int)

  datatype MeetingResult = MeetingResult(
    meetingId: string, tick: int, proposalsCount: nat,
    votingResults: seq<VoteRecord>, passedResolutions: seq<string>)

  /** How a governor produces its proposal from its own report and the
      national summary. */
  type Proposer = (Code, StateReport, map<Code, SummaryEntry>) -> Proposal
  /** The `vote` field of a governor's answer on a proposal, if any. */
  type Voter = (Code, Proposal) -> Option<string>

  /** `_build_national_summary`: one entry per report, with the region name
      falling back to the code and the scores to 0. */
  function NationalSummary(reports: map<Code, StateReport>): (r: map<Code, SummaryEntry>)
    ensures r.Keys == reports.Keys
    ensures forall c :: c in r ==>
              && r[c].deficits == reports[c].deficits
              && r[c].surpluses == KeysOf(reports[c].surpluses)
              && (reports[c].regionName.None? ==> r[c].name == c)
  {
    map c | c in reports :: SummaryEntry(
      reports[c].regionName.GetOr(c),
      reports[c].gdpScore.GetOr(0.0),
      reports[c].healthScore.GetOr(0.0),
      reports[c].deficits,
      KeysOf(reports[c].surpluses))
  }

  /** A state takes part when it has both a governor and a report. */
  function Eligible(governors: set<Code>, reports: map<Code, StateReport>): Code -> bool {
    c => c in governors && c in reports
  }

  /** The participants, in the fixed state order. */
  function Participants(governors: set<Code>, reports: map<Code, StateReport>): seq<Code> {
    Filter(Config.StateCodes, Eligible(governors, reports))
  }

  /** The proposal loop over a prefix of the state order. */
  function ProposalsOf(codes: seq<Code>, governors: set<Code>, reports: map<Code, StateReport>, propose: Proposer): (r: seq<Proposal>)
    ensures |r| == |Filter(codes, Eligible(governors, reports))|
  {
    if codes == [] then []
    else
      var c := codes[|codes| - 1];
      ProposalsOf(codes[..|codes| - 1], governors, reports, propose)
        + (if c in governors && c in reports then [propose(c, reports[c], NationalSummary(reports))] else [])
  }

  /** The proposal list has one proposal per participant, the i-th from the
      i-th participant. */
  lemma {:induction false} ProposalsFromParticipants(codes: seq<Code>, governors: set<Code>, reports: map<Code, StateReport>, propose: Proposer, i: nat)
    requires i < |Filter(codes, Eligible(governors, reports))|
    ensures var c := Filter(codes, Eligible(governors, reports))[i];
      c in reports && ProposalsOf(codes, governors, reports, propose)[i] == propose(c, reports[c], NationalSummary(reports))
  {
    var init := codes[..|codes| - 1];
    var c := codes[|codes| - 1];
    if i < |Filter(init, Eligible(governors, reports))| {
      ProposalsFromParticipants(init, governors, reports, propose, i);
    } else {
      FilterMembership(codes, Eligible(governors, reports), Filter(codes, Eligible(governors, reports))[i]);
    }
  }

  /** A vote counts as NO exactly when it reads NO in capitals; a missing or
      unrecognised vote counts as YES. */
  predicate IsNo(v: Option<string>) {
    Upper(v.GetOr("YES")) == "NO"
  }

  function VotesYes(governors: set<Code>, reports: map<Code, StateReport>, vote: Voter, p: Proposal): Code -> bool {
    c => c in governors && c in reports && !IsNo(vote(c, p))
  }

  function VotesNo(governors: set<Code>, reports: map<Code, StateReport>, vote: Voter, p: Proposal): Code -> bool {
    c => c in governors && c in reports && IsNo(vote(c, p))
  }

  /** FEDERAL_ASSEMBLY_MAJORITY applied to the YES share; nobody voting
      gives a share of 0. */
  predicate Passes(yes: nat, total: nat) {
    (if total > 0 then (yes as real) / (total as real) else 0.0) >= 0.6
  }

  /** The share test is exactly "at least three in five". */
  lemma PassesIsThreeFifths(yes: nat, total: nat)
    ensures Passes(yes, total) <==>
              total > 0 && Config.MajorityDenominator * yes >= Config.MajorityNumerator * total
  {
    if total > 0 {
      var q := (yes as real) / (total as real);
      assert q * (total as real) == yes as real;
      if q >= 0.6 {
        assert (yes as real) >= 0.6 * (total as real);
      }
      if 5 * yes >= 3 * total {
        assert (yes as real) >= 0.6 * (total as real);
        assert q * (total as real) >= 0.6 * (total as real);
      }
    }
  }

  /** The vote on one proposal. */
  function Tally(governors: set<Code>, reports: map<Code, StateReport>, vote: Voter, p: Proposal): VoteRecord {
    var yes := Filter(Config.StateCodes, VotesYes(governors, reports, vote, p));
    var no := Filter(Config.StateCodes, VotesNo(governors, reports, vote, p));
    VoteRecord(p.policyName.GetOr("Unknown Policy"), p.proposer.GetOr("??"), yes, no,
               Passes(|yes|, |yes| + |no|), p)
  }

  /** Every participant casts exactly one vote, nobody else votes, and the
      proposal passes exactly when at least three in five participants vote
      YES. */
  lemma TallyCounts(governors: set<Code>, reports: map<Code, StateReport>, vote: Voter, p: Proposal)
    ensures var t := Tally(governors, reports, vote, p);
      var n := |Participants(governors, reports)|;
      && |t.yesVotes| + |t.noVotes| == n
      && (forall c :: c in t.yesVotes <==> c in Participants(governors, reports) && !IsNo(vote(c, p)))
      && (forall c :: c in t.noVotes <==> c in Participants(governors, reports) && IsNo(vote(c, p)))
      && (t.passed <==> n > 0 && 5 * |t.yesVotes| >= 3 * n)
  {
    var t := Tally(governors, reports, vote, p);
    var el := Eligible(governors, reports);
    FilterPartition(Config.StateCodes, el, VotesYes(governors, reports, vote, p), VotesNo(governors, reports, vote, p));
    forall c ensures (c in t.yesVotes <==> c in Participants(governors, reports) && !IsNo(vote(c, p)))
      && (c in t.noVotes <==> c in Participants(governors, reports) && IsNo(vote(c, p)))
    {
      FilterMembership(Config.StateCodes, VotesYes(governors, reports, vote, p), c);
      FilterMembership(Config.StateCodes, VotesNo(governors, reports, vote, p), c);
      FilterMembership(Config.StateCodes, el, c);
    }
    PassesIsThreeFifths(|t.yesVotes|, |t.yesVotes| + |t.noVotes|);
  }

  function TallyAll(ps: seq<Proposal>, governors: set<Code>, reports: map<Code, StateReport>, vote: Voter): (r: seq<VoteRecord>)
    ensures |r| == |ps|
    ensures forall i :: 0 <= i < |ps| ==> r[i] == Tally(governors, reports, vote, ps[i])
  {
    if ps == [] then []
    else TallyAll(ps[..|ps| - 1], governors, reports, vote) + [Tally(governors, reports, vote, ps[|ps| - 1])]
  }

  /** The names of the passed proposals, in voting order. */
  function PassedNames(records: seq<VoteRecord>): seq<string> {
    if records == [] then []
    else
      var r := records[|records| - 1];
      PassedNames(records[..|records| - 1]) + (if r.passed then [r.policyName] else [])
  }

  /** The resolutions a meeting adds to the assembly's record. */
  function NewResolutions(records: seq<VoteRecord>, tick: int): (r: seq<Resolution>)
    ensures |r| == |PassedNames(records)|
    ensures forall i :: 0 <= i < |r| ==> r[i].name == PassedNames(records)[i] && r[i].tickPassed == tick
  {
    if records == [] then []
    else
      var last := records[|records| - 1];
      NewResolutions(records[..|records| - 1], tick)
        + (if last.passed then [Resolution(last.policyName, last.proposal, tick)] else [])
  }

  /** A name is listed as passed exactly when some record with that name passed. */
  lemma {:induction false} PassedNamesMembership(records: seq<VoteRecord>, name: string)
    ensures name in PassedNames(records) <==> exists i :: 0 <= i < |records| && records[i].passed && records[i].policyName == name
  {
    if records != [] {
      var init := records[..|records| - 1];
      PassedNamesMembership(init, name);
      if name in PassedNames(init) {
        var i :| 0 <= i < |init| && init[i].passed && init[i].policyName == name;
        assert records[i] == init[i];
      }
      if exists i :: 0 <= i < |records| && records[i].passed && records[i].policyName == name {
        var i :| 0 <= i < |records| && records[i].passed && records[i].policyName == name;
        if i < |init| {
          assert init[i] == records[i];
        }
      }
    }
  }

  /** `convene_assembly` as a value: meeting number `count`. */
  function MeetingSpec(count: nat, governors: set<Code>, reports: map<Code, StateReport>, tick: int,
                       propose: Proposer, vote: Voter): MeetingResult
  {
    var proposals := ProposalsOf(Config.StateCodes, governors, reports, propose);
    var records := TallyAll(TakePy(proposals, 3), governors, reports, vote);
    MeetingResult("meeting_" + ZeroPad(count, 3), tick, |proposals|, records, PassedNames(records))
  }

  /** A meeting counts every participant's proposal, votes on the first
      three of them in order, and passes at most three. */
  lemma MeetingShape(count: nat, governors: set<Code>, reports: map<Code, StateReport>, tick: int,
                     propose: Proposer, vote: Voter)
    ensures var m := MeetingSpec(count, governors, reports, tick, propose, vote);
      && m.proposalsCount == |Participants(governors, reports)|
      && |m.votingResults| == Min(3, m.proposalsCount)
      && |m.passedResolutions| <= |m.votingResults|
      && forall i :: 0 <= i < |m.votingResults| ==>
           var c := Participants(governors, reports)[i];
           c in reports
           && m.votingResults[i] == Tally(governors, reports, vote, propose(c, reports[c], NationalSummary(reports)))
  {
    var m := MeetingSpec(count, governors, reports, tick, propose, vote);
    PassedNamesAtMost(m.votingResults);
    forall i | 0 <= i < |m.votingResults|
      ensures var c := Participants(governors, reports)[i];
        c in reports
        && m.votingResults[i] == Tally(governors, reports, vote, propose(c, reports[c], NationalSummary(reports)))
    {
      ProposalsFromParticipants(Config.StateCodes, governors, reports, propose, i);
    }
  }

  lemma {:induction false} PassedNamesAtMost(records: seq<VoteRecord>)
    ensures |PassedNames(records)| <= |records|
  {
    if records != [] {
      PassedNamesAtMost(records[..|records| - 1]);
    }
  }

  /** Whether a resolution is still in force: fewer ticks have passed since
      it was adopted than its proposal's duration (or the default one). */
  function InForce(current: int, defaultDuration: int): Resolution -> bool {
    (r: Resolution) => current - r.tickPassed < r.proposal.durationTicks.GetOr(defaultDuration)
  }

  /** A resolution that has lapsed stays lapsed. */
  lemma LapsedStaysLapsed(r: Resolution, current: int, later: int, defaultDuration: int)
    requires current <= later && !InForce(current, defaultDuration)(r)
    ensures !InForce(later, defaultDuration)(r)
  {
  }

  /** A resolution is in force from the tick it passes for exactly its
      duration. */
  lemma InForceWindow(r: Resolution, current: int, defaultDuration: int)
    requires current >= r.tickPassed
    ensures InForce(current, defaultDuration)(r)
      <==> current < r.tickPassed + r.proposal.durationTicks.GetOr(defaultDuration)
  {
  }

  /** Appending the meeting numbered one past the history keeps every
      meeting numbered by its position. */
  lemma HistoryStep(h: seq<MeetingResult>, m: MeetingResult)
    requires forall i :: 0 <= i < |h| ==> h[i].meetingId == "meeting_" + ZeroPad(i + 1, 3)
    requires m.meetingId == "meeting_" + ZeroPad(|h| + 1, 3)
    ensures forall i :: 0 <= i < |h + [m]| ==> (h + [m])[i].meetingId == "meeting_" + ZeroPad(i + 1, 3)
  {
    forall i | 0 <= i < |h + [m]| ensures (h + [m])[i].meetingId == "meeting_" + ZeroPad(i + 1, 3) {
      if i < |h| {
        assert (h + [m])[i] == h[i];
      }
    }
  }

  /** The proposal loop of `convene_assembly`. */
  method CollectProposals(governors: set<Code>, reports: map<Code, StateReport>, propose: Proposer)
    returns (proposals: seq<Proposal>)
    ensures proposals == ProposalsOf(Config.StateCodes, governors, reports, propose)
  {
    var summary := NationalSummary(reports);
    proposals := [];
    var i := 0;
    while i < |Config.StateCodes|
      invariant 0 <= i <= |Config.StateCodes|
      invariant proposals == ProposalsOf(Config.StateCodes[..i], governors, reports, propose)
    {
      var code := Config.StateCodes[i];
      assert Config.StateCodes[..i + 1][..i] == Config.StateCodes[..i];
      if code in governors && code in reports {
        proposals := proposals + [propose(code, reports[code], summary)];
      }
      i := i + 1;
    }
    assert Config.StateCodes[..i] == Config.StateCodes;
  }

  /** The vote on one proposal, in state order. */
  method VoteOn(governors: set<Code>, reports: map<Code, StateReport>, vote: Voter, p: Proposal)
    returns (record: VoteRecord)
    ensures record == Tally(governors, reports, vote, p)
  {
    var yes: seq<Code> := [];
    var no: seq<Code> := [];
    var i := 0;
    while i < |Config.StateCodes|
      invariant 0 <= i <= |Config.StateCodes|
      invariant yes == Filter(Config.StateCodes[..i], VotesYes(governors, reports, vote, p))
      invariant no == Filter(Config.StateCodes[..i], VotesNo(governors, reports, vote, p))
    {
      var code := Config.StateCodes[i];
      FilterPrefixStep(Config.StateCodes, i, VotesYes(governors, reports, vote, p));
      FilterPrefixStep(Config.StateCodes, i, VotesNo(governors, reports, vote, p));
      if code in governors && code in reports {
        var v := Upper(vote(code, p).GetOr("YES"));
        if v == "NO" {
          no := no + [code];
        } else {
          yes := yes + [code];
        }
      }
      i := i + 1;
    }
    assert Config.StateCodes[..i] == Config.StateCodes;
    var total := |yes| + |no|;
    var ratio := if total > 0 then (|yes| as real) / (total as real) else 0.0;
    record := VoteRecord(p.policyName.GetOr("Unknown Policy"), p.proposer.GetOr("??"), yes, no, ratio >= 0.6, p);
  }

  /** The voting loop of `convene_assembly`: the records, the names of the
      passed proposals and the resolutions they become at `tick`. */
  method VoteOnAll(top: seq<Proposal>, governors: set<Code>, reports: map<Code, StateReport>, vote: Voter, tick: int)
    returns (records: seq<VoteRecord>, passed: seq<string>, adopted: seq<Resolution>)
    ensures records == TallyAll(top, governors, reports, vote)
    ensures passed == PassedNames(records)
    ensures adopted == NewResolutions(records, tick)
  {
    records := [];
    passed := [];
    adopted := [];
    var i := 0;
    while i < |top|
      invariant 0 <= i <= |top|
      invariant records == TallyAll(top[..i], governors, reports, vote)
      invariant passed == PassedNames(records)
      invariant adopted == NewResolutions(records, tick)
    {
      var record := VoteOn(governors, reports, vote, top[i]);
      VotingStep(top, i, governors, reports, vote, tick, records, record);
      records := records + [record];
      if record.passed {
        passed := passed + [record.policyName];
        adopted := adopted + [Resolution(record.policyName, record.proposal, tick)];
      }
      i := i + 1;
    }
    assert top[..i] == top;
  }

  lemma VotingStep(top: seq<Proposal>, i: nat, governors: set<Code>, reports: map<Code, StateReport>, vote: Voter,
                   tick: int, records: seq<VoteRecord>, record: VoteRecord)
    requires i < |top| && records == TallyAll(top[..i], governors, reports, vote)
    requires record == Tally(governors, reports, vote, top[i])
    ensures records + [record] == TallyAll(top[..i + 1], governors, reports, vote)
    ensures PassedNames(records + [record]) == PassedNames(records) + if record.passed then [record.policyName] else []
    ensures NewResolutions(records + [record], tick)
      == NewResolutions(records, tick) + if record.passed then [Resolution(record.policyName, record.proposal, tick)] else []
  {
    assert top[..i + 1][..i] == top[..i];
    assert (records + [record])[..|records|] == records;
  }

  class Assembly {
    var meetingCount: nat
    var passedResolutions: seq<Resolution>
    var meetingHistory: seq<MeetingResult>

    /** Every meeting is numbered and kept. */
    ghost predicate Valid()
      reads this
    {
      meetingCount == |meetingHistory|
      && forall i :: 0 <= i < |meetingHistory| ==> meetingHistory[i].meetingId == "meeting_" + ZeroPad(i + 1, 3)
    }

    constructor ()
      ensures Valid()
      ensures meetingCount == 0 && passedResolutions == [] && meetingHistory == []
    {
      meetingCount := 0;
      passedResolutions := [];
      meetingHistory := [];
    }

    /** `convene_assembly`: hold the next meeting, record the resolutions it
        passes at `tick`, and keep the meeting. */
    method ConveneAssembly(governors: set<Code>, reports: map<Code, StateReport>, tick: int,
                           propose: Proposer, vote: Voter)
      returns (m: MeetingResult)
      requires Valid()
      modifies this
      ensures Valid()
      ensures meetingCount == old(meetingCount) + 1
      ensures m == MeetingSpec(meetingCount, governors, reports, tick, propose, vote)
      ensures passedResolutions == old(passedResolutions) + NewResolutions(m.votingResults, tick)
      ensures meetingHistory == old(meetingHistory) + [m]
    {
      meetingCount := meetingCount + 1;
      var meetingId := "meeting_" + ZeroPad(meetingCount, 3);
      var proposals := CollectProposals(governors, reports, propose);
      var top := TakePy(proposals, 3);
      var records, passed, adopted := VoteOnAll(top, governors, reports, vote, tick);
      passedResolutions := passedResolutions + adopted;
      m := MeetingResult(meetingId, tick, |proposals|, records, passed);
      HistoryStep(meetingHistory, m);
      meetingHistory := meetingHistory + [m];
    }

    /** `get_active_resolutions`: the recorded resolutions still in force, in
        the order they passed. */
    method GetActiveResolutions(current: int, defaultDuration: int) returns (active: seq<Resolution>)
      ensures active == Filter(passedResolutions, InForce(current, defaultDuration))
      ensures forall r :: r in active <==> r in passedResolutions && InForce(current, defaultDuration)(r)
    {
      var all := passedResolutions;
      active := [];
      var i := 0;
      while i < |all|
        invariant 0 <= i <= |all|
        invariant active == Filter(all[..i], InForce(current, defaultDuration))
      {
        assert all[..i + 1][..i] == all[..i];
        var res := all[i];
        var duration := res.proposal.durationTicks.GetOr(defaultDuration);
        if current - res.tickPassed < duration {
          active := active + [res];
        }
        i := i + 1;
      }
      assert all[..i] == all;
      forall r ensures r in active <==> r in all && InForce(current, defaultDuration)(r) {
        FilterMembership(all, InForce(current, defaultDuration), r);
      }
    }
  }
}
