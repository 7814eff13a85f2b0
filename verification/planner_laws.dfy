/**
 * Properties of every plan the planner can return: what each decision
 * names, how the days add up, how the remaining days shrink, which price
 * ceiling each pass obeyed, and why each pick was made.
 */
module PlannerLaws {
  import opened Results
  import opened Crops
  import opened Planner

  /** Growth days of the candidate row called `name` (0 when there is none). */
  function DaysOf(cands: seq<Crop>, name: string): int {
    match IndexOfName(cands, name)
    case Some(k) => cands[k].days
    case None => 0
  }

  /** Seed price of the candidate row called `name` (0 when there is none). */
  function PriceOf(cands: seq<Crop>, name: string): real {
    match IndexOfName(cands, name)
    case Some(k) => cands[k].seedBuyPrice
    case None => 0.0
  }

  /** Total growth days of the crops `plan` plants. */
  function SumDays(cands: seq<Crop>, plan: seq<Decision>): int
    decreases |plan|
  {
    if |plan| == 0 then 0
    else SumDays(cands, plan[..|plan| - 1]) + DaysOf(cands, plan[|plan| - 1].seed)
  }

  /** With unique names, the row a decision names is the row that justified it. */
  lemma {:induction false} PickIsNamedRow(cands: seq<Crop>, fastest: int, avail: int, ceiling: real, d: Decision)
    requires NamesUnique(cands) && avail > 0
    requires IsPick(cands, fastest, avail, ceiling, d)
    ensures IndexOfName(cands, d.seed).Some?
    ensures ChosenAt(cands, fastest, avail, ceiling, IndexOfName(cands, d.seed).value, d)
  {
    var k :| ChosenAt(cands, fastest, avail, ceiling, k, d);
    IndexOfUnique(cands, k);
  }

  /** Pass `i` of a valid run: its guard held and it justified decision `i`. */
  lemma {:induction false} PassAt(cands: seq<Crop>, fastest: int, avail0: int, pps: real, plan: seq<Decision>, i: int)
    requires StepsValid(cands, fastest, avail0, pps, plan)
    requires 0 <= i < |plan|
    ensures StepsValid(cands, fastest, avail0, pps, plan[..i])
    ensures 1 <= fastest <= FinalAvail(avail0, plan[..i])
    ensures IsPick(cands, fastest, FinalAvail(avail0, plan[..i]), CeilingAt(pps, i), plan[i])
    decreases |plan|
  {
    var prev := plan[..|plan| - 1];
    if i < |plan| - 1 {
      PassAt(cands, fastest, avail0, pps, prev, i);
      assert prev[..i] == plan[..i];
    } else {
      assert prev == plan[..i];
    }
  }

  /**
   * Each decision's figures are those of the row it names: the row was
   * affordable and fit the days left, the decision records the row's
   * adjusted profit and the days it leaves, and no affordable candidate
   * that fits has a higher adjusted profit.
   */
  lemma {:induction false} SelectionRule(cands: seq<Crop>, fastest: int, avail0: int, pps: real, plan: seq<Decision>, i: int)
    requires NamesUnique(cands)
    requires StepsValid(cands, fastest, avail0, pps, plan)
    requires 0 <= i < |plan|
    ensures 1 <= fastest <= FinalAvail(avail0, plan[..i])
    ensures IndexOfName(cands, plan[i].seed).Some?
    ensures
      var avail := FinalAvail(avail0, plan[..i]);
      var row := cands[IndexOfName(cands, plan[i].seed).value];
      && Affordable(row, avail, CeilingAt(pps, i))
      && plan[i].dailyProfit == Adjusted(row, avail, fastest)
      && plan[i].seasonRemaining == avail - row.days
    ensures forall j :: 0 <= j < |cands| && Affordable(cands[j], FinalAvail(avail0, plan[..i]), CeilingAt(pps, i)) ==>
      Adjusted(cands[j], FinalAvail(avail0, plan[..i]), fastest) <= plan[i].dailyProfit
  {
    PassAt(cands, fastest, avail0, pps, plan, i);
    PickIsNamedRow(cands, fastest, FinalAvail(avail0, plan[..i]), CeilingAt(pps, i), plan[i]);
  }

  /**
   * Only the first pass is held to the caller's price ceiling (plus one);
   * every later pick costs at most one more than the reset ceiling.
   */
  lemma {:induction false} PriceScope(cands: seq<Crop>, fastest: int, avail0: int, pps: real, plan: seq<Decision>)
    requires NamesUnique(cands)
    requires StepsValid(cands, fastest, avail0, pps, plan)
    ensures |plan| > 0 ==> PriceOf(cands, plan[0].seed) <= pps + 1.0
    ensures forall i :: 1 <= i < |plan| ==> PriceOf(cands, plan[i].seed) <= ResetCeiling + 1.0
  {
    if |plan| > 0 {
      SelectionRule(cands, fastest, avail0, pps, plan, 0);
    }
    forall i | 1 <= i < |plan|
      ensures PriceOf(cands, plan[i].seed) <= ResetCeiling + 1.0
    {
      SelectionRule(cands, fastest, avail0, pps, plan, i);
    }
  }

  /**
   * Day conservation: the growth days of the planted crops add up to the
   * days available at the start minus the days left at the end, and a
   * non-empty plan never overdraws the season.
   */
  lemma {:induction false} DayConservation(cands: seq<Crop>, fastest: int, avail0: int, pps: real, plan: seq<Decision>)
    requires NamesUnique(cands)
    requires StepsValid(cands, fastest, avail0, pps, plan)
    ensures SumDays(cands, plan) == avail0 - FinalAvail(avail0, plan)
    ensures |plan| > 0 ==> 0 <= FinalAvail(avail0, plan)
    decreases |plan|
  {
    if |plan| > 0 {
      var n := |plan| - 1;
      var prev := plan[..n];
      PassAt(cands, fastest, avail0, pps, plan, n);
      DayConservation(cands, fastest, avail0, pps, prev);
      SelectionRule(cands, fastest, avail0, pps, plan, n);
    }
  }

  /**
   * With every crop taking at least a day, the days left after each
   * decision are never negative and strictly decrease along the plan.
   */
  lemma {:induction false} RemainingDecreases(cands: seq<Crop>, fastest: int, avail0: int, pps: real, plan: seq<Decision>)
    requires AllGrow(cands)
    requires StepsValid(cands, fastest, avail0, pps, plan)
    ensures forall i :: 0 <= i < |plan| ==> 0 <= plan[i].seasonRemaining
    ensures forall i, j :: 0 <= i < j < |plan| ==> plan[j].seasonRemaining < plan[i].seasonRemaining
    decreases |plan|
  {
    if |plan| > 0 {
      var n := |plan| - 1;
      var prev := plan[..n];
      RemainingDecreases(cands, fastest, avail0, pps, prev);
      PassAt(cands, fastest, avail0, pps, plan, n);
      var avail := FinalAvail(avail0, prev);
      assert prev == plan[..n];
      var k :| ChosenAt(cands, fastest, avail, CeilingAt(pps, n), k, plan[n]);
      assert cands[k] in cands;
      assert plan[n].seasonRemaining < avail;
      forall i | 0 <= i < n
        ensures plan[n].seasonRemaining < plan[i].seasonRemaining
      {
        assert prev[i] == plan[i];
        if i < n - 1 {
          assert prev[n - 1] == plan[n - 1];
        }
      }
    }
  }

  /**
   * `name` belongs to a row of the table that passes every filter of the
   * candidate table: right season, a rank the player may buy, not
   * excluded, single-harvest when multi-harvest crops are not allowed,
   * and grown within `avail` days.
   */
  predicate Offered(table: seq<Crop>, avail: int, rank: int, season: string, exclude: seq<string>, multi: bool, name: string) {
    exists c :: c in table && c.name == name && Admissible(c, rank, season, exclude, multi) && c.days <= avail
  }

  /** Every decision of a plan over the candidate table plants an offered crop. */
  lemma {:induction false} PlanFilterLaw(table: seq<Crop>, avail0: int, rank: int, season: string, exclude: seq<string>, multi: bool,
                                         fastest: int, pps: real, plan: seq<Decision>)
    requires StepsValid(Candidates(table, avail0, rank, season, exclude, multi), fastest, avail0, pps, plan)
    ensures forall i :: 0 <= i < |plan| ==> Offered(table, avail0, rank, season, exclude, multi, plan[i].seed)
  {
    var cands := Candidates(table, avail0, rank, season, exclude, multi);
    forall i | 0 <= i < |plan|
      ensures Offered(table, avail0, rank, season, exclude, multi, plan[i].seed)
    {
      PassAt(cands, fastest, avail0, pps, plan, i);
      var k :| ChosenAt(cands, fastest, FinalAvail(avail0, plan[..i]), CeilingAt(pps, i), k, plan[i]);
      assert cands[k] in cands;
    }
  }

  /**
   * A complete plan over a candidate table whose rows all fit: it has at
   * least one decision and at most one per available day, its crops'
   * growth days sum to the days used, and it stops with fewer days left
   * than the fastest crop needs.
   */
  lemma {:induction false} PlanBounds(cands: seq<Crop>, avail0: int, pps: real, plan: seq<Decision>)
    requires |cands| > 0 && NamesUnique(cands) && AllGrow(cands) && FitIn(cands, avail0)
    requires ValidPlan(cands, MinDays(cands), avail0, pps, plan)
    ensures 1 <= |plan| <= avail0
    ensures SumDays(cands, plan) == avail0 - FinalAvail(avail0, plan)
    ensures SumDays(cands, plan) <= avail0
    ensures 0 <= FinalAvail(avail0, plan) < MinDays(cands)
  {
    var fastest := MinDays(cands);
    var k :| 0 <= k < |cands| && cands[k].days == fastest;
    assert cands[k] in cands;
    DayConservation(cands, fastest, avail0, pps, plan);
    CountBound(cands, fastest, avail0, pps, plan);
  }

  /** Each decision consumes at least one day. */
  lemma {:induction false} CountBound(cands: seq<Crop>, fastest: int, avail0: int, pps: real, plan: seq<Decision>)
    requires NamesUnique(cands) && AllGrow(cands)
    requires StepsValid(cands, fastest, avail0, pps, plan)
    ensures |plan| <= SumDays(cands, plan)
    decreases |plan|
  {
    if |plan| > 0 {
      var n := |plan| - 1;
      CountBound(cands, fastest, avail0, pps, plan[..n]);
      SelectionRule(cands, fastest, avail0, pps, plan, n);
      var k := IndexOfName(cands, plan[n].seed).value;
      assert cands[k] in cands;
      assert DaysOf(cands, plan[n].seed) >= 1;
    }
  }

  /**
   * The laws above for a plan `GibCrops` returns: at least one and at most
   * `28 - date` decisions, growth days summing to the days used, and
   * every seed an offered crop of the table.
   */
  lemma {:induction false} GibCropsLaws(table: seq<Crop>, date: int, rank: int, season: string, exclude: seq<string>, multi: bool,
                                        pps: real, plan: seq<Decision>)
    requires AllGrow(BaseCandidates(table, rank, season, exclude, multi))
    requires CompletePlan(Candidates(table, SeasonLength - date, rank, season, exclude, multi), SeasonLength - date, pps, plan)
    ensures 1 <= |plan| <= SeasonLength - date
    ensures SumDays(Candidates(table, SeasonLength - date, rank, season, exclude, multi), plan)
            == SeasonLength - date - FinalAvail(SeasonLength - date, plan)
    ensures forall i :: 0 <= i < |plan| ==> Offered(table, SeasonLength - date, rank, season, exclude, multi, plan[i].seed)
  {
    var avail0 := SeasonLength - date;
    var cands := Candidates(table, avail0, rank, season, exclude, multi);
    assert NamesUnique(cands);
    assert |cands| > 0 && ValidPlan(cands, MinDays(cands), avail0, pps, plan);
    CandidatesGrowAndFit(table, avail0, rank, season, exclude, multi);
    PlanBounds(cands, avail0, pps, plan);
    PlanFilterLaw(table, avail0, rank, season, exclude, multi, MinDays(cands), pps, plan);
  }
}
