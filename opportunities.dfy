/**
 * The sales pipeline view: searching opportunities, the overview with one card per stage
 * (how many opportunities are in it and their total value), the probability colour bands
 * and the stage badge text.
 */
module Opportunities {

  import opened Seqs
  import opened Text

  datatype Stage = Prospecting | Qualification | Proposal | Negotiation | ClosedWon | ClosedLost

  /** An opportunity; `value` is a whole amount of dollars here, `probability` a percentage. */
  datatype Opportunity = Opportunity(
    id: int,
    title: string,
    company: string,
    value: int,
    stage: Stage,
    probability: int,
    closeDate: string,
    contact: string,
    description: string)

  /** The stage as the source stores it. */
  function StageId(s: Stage): string
  {
    match s
    case Prospecting => "prospecting"
    case Qualification => "qualification"
    case Proposal => "proposal"
    case Negotiation => "negotiation"
    case ClosedWon => "closed-won"
    case ClosedLost => "closed-lost"
  }

  /** An entry of the `stages` list: the stage and the heading of its overview card. */
  datatype StageInfo = StageInfo(id: Stage, name: string)

  /** The `stages` list, in pipeline order. */
  const Stages: seq<StageInfo> := [
    StageInfo(Prospecting, "Prospecting"),
    StageInfo(Qualification, "Qualification"),
    StageInfo(Proposal, "Proposal"),
    StageInfo(Negotiation, "Negotiation"),
    StageInfo(ClosedWon, "Closed Won"),
    StageInfo(ClosedLost, "Closed Lost")]

  /** Where a stage sits in `stages`. */
  function StageIndex(s: Stage): (i: nat)
    ensures i < |Stages| && Stages[i].id == s
  {
    match s
    case Prospecting => 0
    case Qualification => 1
    case Proposal => 2
    case Negotiation => 3
    case ClosedWon => 4
    case ClosedLost => 5
  }

  /** Every stage has exactly one entry in `stages`: the one `StageIndex` finds. */
  lemma StagesListEachOnce()
    ensures forall i :: 0 <= i < |Stages| ==> StageIndex(Stages[i].id) == i
    ensures forall i, j :: 0 <= i < j < |Stages| ==> Stages[i].id != Stages[j].id
  {
  }

  /** No two stages are stored under the same text. */
  lemma StageIdInjective(a: Stage, b: Stage)
    ensures StageId(a) == StageId(b) ==> a == b
  {
    if StageId(a) == StageId(b) {
      assert StageId(a)[..|StageId(a)|] == StageId(b)[..|StageId(b)|];
      if |StageId(a)| == 10 {
        assert StageId(a)[7] == StageId(b)[7];
      }
    }
  }

  // ---------------------------------------------------------------------------
  // Search

  /** The search box test: the query occurs, ignoring case, in the title, company or contact. */
  predicate Matches(o: Opportunity, query: string)
  {
    ContainsIgnoreCase(o.title, query) ||
    ContainsIgnoreCase(o.company, query) ||
    ContainsIgnoreCase(o.contact, query)
  }

  function MatchesQuery(query: string): Opportunity -> bool
  {
    o => Matches(o, query)
  }

  /** `filteredOpportunities`: the opportunities the query matches, in their order. */
  function FilteredOpportunities(os: seq<Opportunity>, query: string): (r: seq<Opportunity>)
    ensures forall i :: 0 <= i < |r| ==> r[i] in os && Matches(r[i], query)
    ensures forall i :: 0 <= i < |os| && Matches(os[i], query) ==> os[i] in r
    ensures forall o :: multiset(r)[o] == if Matches(o, query) then multiset(os)[o] else 0
    ensures IsSubsequence(r, os)
  {
    FilterMembers(MatchesQuery(query), os);
    FilterMultiplicity(MatchesQuery(query), os);
    Filter(MatchesQuery(query), os)
  }

  /** The empty query keeps every opportunity. */
  lemma EmptyQueryKeepsAll(os: seq<Opportunity>)
    ensures FilteredOpportunities(os, "") == os
  {
    forall i | 0 <= i < |os| ensures MatchesQuery("")(os[i]) {
      EmptyQueryMatches(os[i].title);
    }
    FilterKeepsAll(MatchesQuery(""), os);
  }

  /** Searching for the upper-cased query finds the same opportunities. */
  lemma SearchIgnoresQueryCase(os: seq<Opportunity>, query: string)
    ensures FilteredOpportunities(os, Upper(query)) == FilteredOpportunities(os, query)
  {
    forall i | 0 <= i < |os| ensures MatchesQuery(Upper(query))(os[i]) == MatchesQuery(query)(os[i]) {
      QueryCaseIgnored(os[i].title, query);
      QueryCaseIgnored(os[i].company, query);
      QueryCaseIgnored(os[i].contact, query);
    }
    FilterSame(MatchesQuery(Upper(query)), MatchesQuery(query), os);
  }

  // ---------------------------------------------------------------------------
  // The pipeline overview

  /** `reduce((sum, opp) => sum + opp.value, 0)`. */
  function TotalValue(os: seq<Opportunity>): int
    decreases |os|
  {
    if |os| == 0 then 0 else os[0].value + TotalValue(os[1..])
  }

  /** With no negative values, a part of the list is worth no more than the list. */
  lemma {:induction false} FilterValueBounded(p: Opportunity -> bool, os: seq<Opportunity>)
    ensures (forall i :: 0 <= i < |os| ==> os[i].value >= 0) ==>
              0 <= TotalValue(Filter(p, os)) <= TotalValue(os)
    decreases |os|
  {
    if |os| > 0 && forall i :: 0 <= i < |os| ==> os[i].value >= 0 {
      assert forall i :: 0 <= i < |os[1..]| ==> os[1..][i].value >= 0 by {
        forall i | 0 <= i < |os[1..]| ensures os[1..][i].value >= 0 {
          assert os[1..][i] == os[i + 1];
        }
      }
      FilterValueBounded(p, os[1..]);
      if p(os[0]) {
        assert Filter(p, os) == [os[0]] + Filter(p, os[1..]);
        assert ([os[0]] + Filter(p, os[1..]))[1..] == Filter(p, os[1..]);
      }
    }
  }

  function InStage(s: Stage): Opportunity -> bool
  {
    (o: Opportunity) => o.stage == s
  }

  /** One overview card: its stage, how many opportunities it holds and their total value. */
  datatype StageSummary = StageSummary(stage: StageInfo, count: nat, value: int)

  /**
   * The card of one stage: `stageOpps.length`, the number of positions holding an
   * opportunity of that stage, and `stageValue`.
   */
  function Summarize(stage: StageInfo, filtered: seq<Opportunity>): (r: StageSummary)
    ensures r.stage == stage
    ensures r.count == IndexCount(InStage(stage.id), filtered)
    ensures r.value == StageValue(stage.id, filtered)
  {
    var opps := Filter(InStage(stage.id), filtered);
    FilterLength(InStage(stage.id), filtered);
    ValueInIsStageValue(stage.id, filtered);
    StageSummary(stage, |opps|, TotalValue(opps))
  }

  /**
   * A card counts zero opportunities exactly when none is in its stage, and then reports a
   * value of zero; with no negative values its value lies between zero and the total of the
   * list.
   */
  lemma SummaryBounds(stage: StageInfo, filtered: seq<Opportunity>)
    ensures Summarize(stage, filtered).count <= |filtered|
    ensures Summarize(stage, filtered).count == 0 <==>
              forall k :: 0 <= k < |filtered| ==> filtered[k].stage != stage.id
    ensures Summarize(stage, filtered).count == 0 ==> Summarize(stage, filtered).value == 0
    ensures (forall k :: 0 <= k < |filtered| ==> filtered[k].value >= 0) ==>
              0 <= Summarize(stage, filtered).value <= TotalValue(filtered)
  {
    FilterEmpty(InStage(stage.id), filtered);
    FilterValueBounded(InStage(stage.id), filtered);
  }

  /** The overview: one card per entry of `stages`, in pipeline order. */
  function Overview(filtered: seq<Opportunity>): (r: seq<StageSummary>)
    ensures |r| == |Stages|
    ensures forall i :: 0 <= i < |r| ==> r[i].stage == Stages[i]
  {
    seq(|Stages|, i requires 0 <= i < |Stages| => Summarize(Stages[i], filtered))
  }

  function SumCounts(cards: seq<StageSummary>): int
    decreases |cards|
  {
    if |cards| == 0 then 0 else cards[0].count + SumCounts(cards[1..])
  }

  function SumValues(cards: seq<StageSummary>): int
    decreases |cards|
  {
    if |cards| == 0 then 0 else cards[0].value + SumValues(cards[1..])
  }

  /** The number of opportunities in stage `s`. */
  function CountIn(s: Stage, os: seq<Opportunity>): nat
  {
    |Filter(InStage(s), os)|
  }

  /** The value of the opportunities in stage `s`. */
  function ValueIn(s: Stage, os: seq<Opportunity>): int
  {
    TotalValue(Filter(InStage(s), os))
  }

  /** Peels the first opportunity off the count of one stage. */
  lemma CountInCons(s: Stage, os: seq<Opportunity>)
    requires |os| > 0
    ensures CountIn(s, os) == (if os[0].stage == s then 1 else 0) + CountIn(s, os[1..])
  {
    if os[0].stage == s {
      assert Filter(InStage(s), os) == [os[0]] + Filter(InStage(s), os[1..]);
    }
  }

  /** Every opportunity is in exactly one of the six stages. */
  lemma {:induction false} StageCountsAddUp(os: seq<Opportunity>)
    ensures CountIn(Prospecting, os) + CountIn(Qualification, os) + CountIn(Proposal, os) +
            CountIn(Negotiation, os) + CountIn(ClosedWon, os) + CountIn(ClosedLost, os) == |os|
    decreases |os|
  {
    if |os| > 0 {
      StageCountsAddUp(os[1..]);
      CountInCons(Prospecting, os);
      CountInCons(Qualification, os);
      CountInCons(Proposal, os);
      CountInCons(Negotiation, os);
      CountInCons(ClosedWon, os);
      CountInCons(ClosedLost, os);
    }
  }

  /** Peels the first opportunity off the value of one stage. */
  lemma ValueInCons(s: Stage, os: seq<Opportunity>)
    requires |os| > 0
    ensures ValueIn(s, os) == (if os[0].stage == s then os[0].value else 0) + ValueIn(s, os[1..])
  {
    if os[0].stage == s {
      var t := Filter(InStage(s), os[1..]);
      assert Filter(InStage(s), os) == [os[0]] + t;
      assert ([os[0]] + t)[1..] == t;
    }
  }

  /**
   * The value of stage `s` summed position by position, each opportunity adding its value
   * when it is in `s` and nothing otherwise; independent of the filter the page uses.
   */
  function StageValue(s: Stage, os: seq<Opportunity>): int
    decreases |os|
  {
    if |os| == 0 then 0
    else (if os[0].stage == s then os[0].value else 0) + StageValue(s, os[1..])
  }

  /** Filtering by stage and then summing gives the position-by-position value. */
  lemma {:induction false} ValueInIsStageValue(s: Stage, os: seq<Opportunity>)
    ensures ValueIn(s, os) == StageValue(s, os)
    decreases |os|
  {
    if |os| > 0 {
      ValueInCons(s, os);
      ValueInIsStageValue(s, os[1..]);
    }
  }

  /** Every opportunity's value is in exactly one of the six stages. */
  lemma {:induction false} StageValuesAddUp(os: seq<Opportunity>)
    ensures ValueIn(Prospecting, os) + ValueIn(Qualification, os) + ValueIn(Proposal, os) +
            ValueIn(Negotiation, os) + ValueIn(ClosedWon, os) + ValueIn(ClosedLost, os) ==
            TotalValue(os)
    decreases |os|
  {
    if |os| > 0 {
      StageValuesAddUp(os[1..]);
      ValueInCons(Prospecting, os);
      ValueInCons(Qualification, os);
      ValueInCons(Proposal, os);
      ValueInCons(Negotiation, os);
      ValueInCons(ClosedWon, os);
      ValueInCons(ClosedLost, os);
    }
  }

  lemma CountsOfSix(cards: seq<StageSummary>)
    requires |cards| == 6
    ensures SumCounts(cards) == cards[0].count + cards[1].count + cards[2].count +
                                cards[3].count + cards[4].count + cards[5].count
  {
    assert SumCounts(cards[5..]) == cards[5].count by { assert cards[5..][1..] == []; }
    assert SumCounts(cards[4..]) == cards[4].count + SumCounts(cards[5..]) by { assert cards[4..][1..] == cards[5..]; }
    assert SumCounts(cards[3..]) == cards[3].count + SumCounts(cards[4..]) by { assert cards[3..][1..] == cards[4..]; }
    assert SumCounts(cards[2..]) == cards[2].count + SumCounts(cards[3..]) by { assert cards[2..][1..] == cards[3..]; }
    assert SumCounts(cards[1..]) == cards[1].count + SumCounts(cards[2..]) by { assert cards[1..][1..] == cards[2..]; }
  }

  lemma ValuesOfSix(cards: seq<StageSummary>)
    requires |cards| == 6
    ensures SumValues(cards) == cards[0].value + cards[1].value + cards[2].value +
                                cards[3].value + cards[4].value + cards[5].value
  {
    assert SumValues(cards[5..]) == cards[5].value by { assert cards[5..][1..] == []; }
    assert SumValues(cards[4..]) == cards[4].value + SumValues(cards[5..]) by { assert cards[4..][1..] == cards[5..]; }
    assert SumValues(cards[3..]) == cards[3].value + SumValues(cards[4..]) by { assert cards[3..][1..] == cards[4..]; }
    assert SumValues(cards[2..]) == cards[2].value + SumValues(cards[3..]) by { assert cards[2..][1..] == cards[3..]; }
    assert SumValues(cards[1..]) == cards[1].value + SumValues(cards[2..]) by { assert cards[1..][1..] == cards[2..]; }
  }

  lemma OverviewCard(filtered: seq<Opportunity>, i: int)
    requires 0 <= i < |Stages|
    ensures Overview(filtered)[i] ==
              StageSummary(Stages[i], CountIn(Stages[i].id, filtered), ValueIn(Stages[i].id, filtered))
  {
  }

  /** Every filtered opportunity is counted on exactly one card. */
  lemma OverviewCountsAddUp(filtered: seq<Opportunity>)
    ensures SumCounts(Overview(filtered)) == |filtered|
  {
    var r := Overview(filtered);
    CountsOfSix(r);
    StageCountsAddUp(filtered);
    OverviewCard(filtered, 0);
    OverviewCard(filtered, 1);
    OverviewCard(filtered, 2);
    OverviewCard(filtered, 3);
    OverviewCard(filtered, 4);
    OverviewCard(filtered, 5);
  }

  /** The card values add up to the value of all filtered opportunities. */
  lemma OverviewValuesAddUp(filtered: seq<Opportunity>)
    ensures SumValues(Overview(filtered)) == TotalValue(filtered)
  {
    var r := Overview(filtered);
    ValuesOfSix(r);
    StageValuesAddUp(filtered);
    OverviewCard(filtered, 0);
    OverviewCard(filtered, 1);
    OverviewCard(filtered, 2);
    OverviewCard(filtered, 3);
    OverviewCard(filtered, 4);
    OverviewCard(filtered, 5);
    assert r[0].value + r[1].value + r[2].value + r[3].value + r[4].value + r[5].value ==
           ValueIn(Prospecting, filtered) + ValueIn(Qualification, filtered) +
           ValueIn(Proposal, filtered) + ValueIn(Negotiation, filtered) +
           ValueIn(ClosedWon, filtered) + ValueIn(ClosedLost, filtered);
  }

  // ---------------------------------------------------------------------------
  // Probability bands and the stage badge

  datatype Band = Low | Medium | High

  /** `getProbabilityColor`: green from 70, yellow from 40, red below. */
  function ProbabilityBand(probability: int): (r: Band)
    ensures r == High <==> probability >= 70
    ensures r == Medium <==> 40 <= probability < 70
    ensures r == Low <==> probability < 40
  {
    if probability >= 70 then High
    else if probability >= 40 then Medium
    else Low
  }

  function BandRank(b: Band): int
  {
    match b
    case Low => 0
    case Medium => 1
    case High => 2
  }

  /** A higher probability never gets a lower band. */
  lemma BandMonotone(p: int, q: int)
    requires p <= q
    ensures BandRank(ProbabilityBand(p)) <= BandRank(ProbabilityBand(q))
  {
  }

  /**
   * The badge text made from a stored stage text: its first character upper-cased, then the
   * rest with its first `-` turned into a space.
   */
  function Badge(id: string): (r: string)
    requires |id| > 0
    ensures |r| == |id| && r[0] == UpperChar(id[0])
  {
    [UpperChar(id[0])] + ReplaceFirst(id[1..], '-', ' ')
  }

  /** The badge on an opportunity card. */
  function StageLabel(s: Stage): string
  {
    Badge(StageId(s))
  }

  /** The badge of a text made of `c`, then `a` holding no `-`, a `-` and `b`. */
  lemma DashedBadge(id: string, c: char, a: string, b: string)
    requires id == [c] + a + "-" + b
    requires forall i :: 0 <= i < |a| ==> a[i] != '-'
    ensures Badge(id) == [UpperChar(c)] + a + " " + b
  {
    var rest := a + "-" + b;
    assert id[1..] == rest;
    ReplaceFirstAt(rest, |a|, '-', ' ');
    assert rest[..|a|] == a && rest[|a| + 1..] == b;
  }

  /** The badge of a text made of `c`, then `a` holding no `-`. */
  lemma PlainBadge(id: string, c: char, a: string)
    requires id == [c] + a
    requires forall i :: 0 <= i < |a| ==> a[i] != '-'
    ensures Badge(id) == [UpperChar(c)] + a
  {
    assert id[1..] == a;
    ReplaceFirstAbsent(a, '-', ' ');
  }

  lemma ClosedWonBadge()
    ensures Badge(StageId(ClosedWon)) == [UpperChar('c')] + "losed" + " " + "won"
  {
    DashedBadge(StageId(ClosedWon), 'c', "losed", "won");
  }

  lemma ClosedLostBadge()
    ensures Badge(StageId(ClosedLost)) == [UpperChar('c')] + "losed" + " " + "lost"
  {
    DashedBadge(StageId(ClosedLost), 'c', "losed", "lost");
  }

  lemma ClosedWonText()
    ensures [UpperChar('c')] + "losed" + " " + "won" == "Closed won" != Stages[4].name
  {
    assert "Closed won"[7] != "Closed Won"[7];
  }

  lemma ClosedLostText()
    ensures [UpperChar('c')] + "losed" + " " + "lost" == "Closed lost" != Stages[5].name
  {
    assert "Closed lost"[7] != "Closed Lost"[7];
  }

  /** `closed-won` reads `Closed won` on the badge, not `Closed Won` as its overview heading. */
  lemma ClosedWonLabel()
    ensures StageLabel(ClosedWon) == "Closed won" != Stages[4].name
  {
    ClosedWonBadge();
    ClosedWonText();
  }

  /** `closed-lost` reads `Closed lost` on the badge, not `Closed Lost` as its overview heading. */
  lemma ClosedLostLabel()
    ensures StageLabel(ClosedLost) == "Closed lost" != Stages[5].name
  {
    ClosedLostBadge();
    ClosedLostText();
  }

  /** `prospecting` reads `Prospecting` on the badge, as its overview heading does. */
  lemma ProspectingLabel()
    ensures StageLabel(Prospecting) == "Prospecting" == Stages[0].name
  {
    PlainLabel(Prospecting, 'p', "rospecting", "Prospecting");
  }

  /** `qualification` reads `Qualification` on the badge, as its overview heading does. */
  lemma QualificationLabel()
    ensures StageLabel(Qualification) == "Qualification" == Stages[1].name
  {
    PlainLabel(Qualification, 'q', "ualification", "Qualification");
  }

  /** `proposal` reads `Proposal` on the badge, as its overview heading does. */
  lemma ProposalLabel()
    ensures StageLabel(Proposal) == "Proposal" == Stages[2].name
  {
    PlainLabel(Proposal, 'p', "roposal", "Proposal");
  }

  /** `negotiation` reads `Negotiation` on the badge, as its overview heading does. */
  lemma NegotiationLabel()
    ensures StageLabel(Negotiation) == "Negotiation" == Stages[3].name
  {
    PlainLabel(Negotiation, 'n', "egotiation", "Negotiation");
  }

  lemma PlainLabel(s: Stage, c: char, a: string, name: string)
    requires StageId(s) == [c] + a
    requires forall i :: 0 <= i < |a| ==> a[i] != '-'
    requires name == [UpperChar(c)] + a
    ensures StageLabel(s) == name
  {
    PlainBadge(StageId(s), c, a);
  }
}
