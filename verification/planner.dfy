/**
 * The greedy crop planner. Each pass picks, among the candidates that are
 * affordable and still fit, one whose (possibly season-end adjusted)
 * profit per day is highest, records it and consumes its growth days.
 */
module Planner {
  import opened Results
  import opened Seqs
  import opened Crops

  /** Every season lasts this many days. */
  const SeasonLength: int := 28

  /** The price ceiling applied from the second pick on. */
  const ResetCeiling: real := 300.0

  /** One planting decision, in the order the crops are planted. */
  datatype Decision = Decision(seed: string, dailyProfit: real, seasonRemaining: int)

  /** Why no plan was produced. */
  datatype PlanError =
    | NoViableCrop  // no admissible crop fits before the season ends: the minimum of an empty column
    | NoCandidate   // a pass found nothing affordable that fits: the first row of an empty table

  /** The per-pass test: the seed costs at most one more than the ceiling and the crop fits. */
  predicate Affordable(c: Crop, avail: int, ceiling: real) {
    c.seedBuyPrice <= ceiling + 1.0 && c.days <= avail
  }

  /**
   * The profit per day a pass compares. A crop that leaves room for the
   * fastest crop keeps its table value; otherwise its one harvest's margin
   * is spread over all remaining days, since nothing follows it.
   */
  function Adjusted(c: Crop, avail: int, fastest: int): (p: real)
    requires avail > 0
    ensures avail - c.days >= fastest ==> p == c.profitPerDay
    ensures avail - c.days < fastest ==> p * (avail as real) == c.saleValue - c.seedBuyPrice
  {
    if avail - c.days >= fastest then c.profitPerDay
    else (c.saleValue - c.seedBuyPrice) / (avail as real)
  }

  /** A position of `rows` whose adjusted profit is highest. */
  function BestIndex(rows: seq<Crop>, avail: int, fastest: int): (k: nat)
    requires |rows| > 0 && avail > 0
    ensures k < |rows|
    ensures forall j :: 0 <= j < |rows| ==> Adjusted(rows[j], avail, fastest) <= Adjusted(rows[k], avail, fastest)
  {
    if |rows| == 1 then 0
    else
      var k := BestIndex(rows[1..], avail, fastest);
      if Adjusted(rows[k + 1], avail, fastest) <= Adjusted(rows[0], avail, fastest) then 0 else k + 1
  }

  /** Days left after the last decision of `plan`, or `avail0` when nothing was planted. */
  function FinalAvail(avail0: int, plan: seq<Decision>): int {
    if |plan| == 0 then avail0 else plan[|plan| - 1].seasonRemaining
  }

  /** The price ceiling of pass `i`: the caller's for the first pass, the reset value after. */
  function CeilingAt(pps: real, i: nat): real {
    if i == 0 then pps else ResetCeiling
  }

  /**
   * Decision `d` is what a pass with `avail` days and price ceiling
   * `ceiling` records when it picks candidate `k`: `k` is affordable and
   * fits, no affordable candidate has a higher adjusted profit, and the
   * decision carries `k`'s name, adjusted profit and the days it leaves.
   */
  ghost predicate ChosenAt(cands: seq<Crop>, fastest: int, avail: int, ceiling: real, k: int, d: Decision)
    requires avail > 0
  {
    && 0 <= k < |cands|
    && Affordable(cands[k], avail, ceiling)
    && d == Decision(cands[k].name, Adjusted(cands[k], avail, fastest), avail - cands[k].days)
    && forall j :: 0 <= j < |cands| && Affordable(cands[j], avail, ceiling) ==>
         Adjusted(cands[j], avail, fastest) <= d.dailyProfit
  }

  /** Some candidate justifies decision `d` for this pass. */
  ghost predicate IsPick(cands: seq<Crop>, fastest: int, avail: int, ceiling: real, d: Decision)
    requires avail > 0
  {
    exists k :: ChosenAt(cands, fastest, avail, ceiling, k, d)
  }

  /**
   * Every decision of `plan` was made by a pass that the loop guard let
   * run, given the days the earlier decisions left.
   */
  ghost predicate StepsValid(cands: seq<Crop>, fastest: int, avail0: int, pps: real, plan: seq<Decision>)
    decreases |plan|
  {
    && 1 <= fastest
    && (|plan| == 0 ||
        var prev := plan[..|plan| - 1];
        && StepsValid(cands, fastest, avail0, pps, prev)
        && fastest <= FinalAvail(avail0, prev)
        && IsPick(cands, fastest, FinalAvail(avail0, prev), CeilingAt(pps, |prev|), plan[|plan| - 1]))
  }

  /** A finished plan: valid passes, after which fewer days remain than the fastest crop needs. */
  ghost predicate ValidPlan(cands: seq<Crop>, fastest: int, avail0: int, pps: real, plan: seq<Decision>) {
    StepsValid(cands, fastest, avail0, pps, plan) && FinalAvail(avail0, plan) < fastest
  }

  /** Some run of valid passes ends stuck. */
  ghost predicate GetsStuck(cands: seq<Crop>, fastest: int, avail0: int, pps: real) {
    exists p :: Stuck(cands, fastest, avail0, pps, p)
  }

  /** Valid passes, after which the loop runs again but no candidate is affordable and fits. */
  ghost predicate Stuck(cands: seq<Crop>, fastest: int, avail0: int, pps: real, plan: seq<Decision>) {
    && StepsValid(cands, fastest, avail0, pps, plan)
    && fastest <= FinalAvail(avail0, plan)
    && forall j :: 0 <= j < |cands| ==> !Affordable(cands[j], FinalAvail(avail0, plan), CeilingAt(pps, |plan|))
  }

  /**
   * One pass of the planner's loop with `avail` days left: among the
   * candidates the ceiling affords that fit, a row of highest adjusted
   * profit, recorded with its name, that profit and the days it leaves;
   * `None` when nothing is affordable (the source's `iloc[0]` of an empty
   * table).
   */
  function Pass(cands: seq<Crop>, fastest: int, avail: int, ceiling: real): (r: Option<Decision>)
    requires avail > 0
    ensures r.None? ==> forall j :: 0 <= j < |cands| ==> !Affordable(cands[j], avail, ceiling)
    ensures r.Some? ==> IsPick(cands, fastest, avail, ceiling, r.value)
  {
    var elig := Filter(cands, (c: Crop) => Affordable(c, avail, ceiling));
    if |elig| == 0 then
      assert forall j :: 0 <= j < |cands| ==> !Affordable(cands[j], avail, ceiling) by {
        forall j | 0 <= j < |cands| ensures !Affordable(cands[j], avail, ceiling) {
          assert cands[j] in cands;
        }
      }
      None
    else
      var row := elig[BestIndex(elig, avail, fastest)];
      var d := Decision(row.name, Adjusted(row, avail, fastest), avail - row.days);
      assert IsPick(cands, fastest, avail, ceiling, d) by {
        assert row in cands;
        var kc :| 0 <= kc < |cands| && cands[kc] == row;
        forall j | 0 <= j < |cands| && Affordable(cands[j], avail, ceiling)
          ensures Adjusted(cands[j], avail, fastest) <= d.dailyProfit
        {
          assert cands[j] in elig;
        }
        assert ChosenAt(cands, fastest, avail, ceiling, kc, d);
      }
      Some(d)
  }

  /**
   * The loop of the planner: passes over the candidate table while at
   * least `fastest` days remain, resetting the price ceiling after the
   * first pick.
   */
  method RunPasses(cands: seq<Crop>, fastest: int, avail0: int, pps: real)
    returns (r: Result<seq<Decision>, PlanError>)
    requires 1 <= fastest
    requires AllGrow(cands)
    ensures r.Ok? ==> ValidPlan(cands, fastest, avail0, pps, r.value)
    ensures r.Err? ==> r.error == NoCandidate && GetsStuck(cands, fastest, avail0, pps)
  {
    var avail := avail0;
    var ceiling := pps;
    var plan: seq<Decision> := [];
    while fastest <= avail
      invariant StepsValid(cands, fastest, avail0, pps, plan)
      invariant avail == FinalAvail(avail0, plan)
      invariant ceiling == CeilingAt(pps, |plan|)
      decreases avail
    {
      var next := Pass(cands, fastest, avail, ceiling);
      if next.None? {
        assert Stuck(cands, fastest, avail0, pps, plan);
        return Err(NoCandidate);
      }
      var d := next.value;
      ghost var kc :| ChosenAt(cands, fastest, avail, ceiling, kc, d);
      assert cands[kc] in cands;
      ExtendSteps(cands, fastest, avail0, pps, plan, kc, d);
      plan := plan + [d];
      avail := d.seasonRemaining;
      ceiling := ResetCeiling;
    }
    return Ok(plan);
  }

  /** A finished greedy plan over non-empty candidates, paced by their fastest crop. */
  ghost predicate CompletePlan(cands: seq<Crop>, avail0: int, pps: real, plan: seq<Decision>) {
    |cands| > 0 && ValidPlan(cands, MinDays(cands), avail0, pps, plan)
  }

  /** Greedy planning over non-empty candidates reaches a pass with nothing to plant. */
  ghost predicate StuckPlan(cands: seq<Crop>, avail0: int, pps: real) {
    |cands| > 0 && GetsStuck(cands, MinDays(cands), avail0, pps)
  }

  /**
   * Plans the rest of the season from day `date`. Requires every row that
   * passes the filters to take at least one day to grow: a zero-day
   * candidate makes `fastest` zero, and the loop can then pick it forever
   * (see `PlannerExample.ZeroDayPassRepeats`).
   */
  method GibCrops(table: seq<Crop>, date: int, rank: int, season: string, exclude: seq<string>, pps: real, multi: bool)
    returns (r: Result<seq<Decision>, PlanError>)
    requires AllGrow(BaseCandidates(table, rank, season, exclude, multi))
    ensures r == Err(NoViableCrop) <==> |Candidates(table, SeasonLength - date, rank, season, exclude, multi)| == 0
    ensures r.Ok? ==> CompletePlan(Candidates(table, SeasonLength - date, rank, season, exclude, multi), SeasonLength - date, pps, r.value)
    ensures r == Err(NoCandidate) ==> StuckPlan(Candidates(table, SeasonLength - date, rank, season, exclude, multi), SeasonLength - date, pps)
  {
    var cands := Candidates(table, SeasonLength - date, rank, season, exclude, multi);
    if |cands| == 0 {
      return Err(NoViableCrop);
    }
    assert AllGrow(cands) by {
      forall c | c in cands ensures c.days >= 1 {
        assert c in BaseCandidates(table, rank, season, exclude, multi);
      }
    }
    var fastest := MinDays(cands);
    r := RunPasses(cands, fastest, SeasonLength - date, pps);
  }

  /** No admissible row of the table grows within `avail` days. */
  predicate NoneFits(table: seq<Crop>, avail: int, rank: int, season: string, exclude: seq<string>, multi: bool) {
    forall c :: c in table && Admissible(c, rank, season, exclude, multi) ==> c.days > avail
  }

  /** The candidate table is empty exactly when no admissible row fits in the days left. */
  lemma {:induction false} NoViableCropIff(table: seq<Crop>, avail: int, rank: int, season: string, exclude: seq<string>, multi: bool)
    ensures |Candidates(table, avail, rank, season, exclude, multi)| == 0 <==> NoneFits(table, avail, rank, season, exclude, multi)
  {
    var cands := Candidates(table, avail, rank, season, exclude, multi);
    if |cands| > 0 {
      assert cands[0] in cands;
    }
  }

  /** Appending a decision justified at the current pass keeps every pass valid. */
  lemma {:induction false} ExtendSteps(cands: seq<Crop>, fastest: int, avail0: int, pps: real, plan: seq<Decision>, k: int, d: Decision)
    requires StepsValid(cands, fastest, avail0, pps, plan)
    requires fastest <= FinalAvail(avail0, plan)
    requires ChosenAt(cands, fastest, FinalAvail(avail0, plan), CeilingAt(pps, |plan|), k, d)
    ensures StepsValid(cands, fastest, avail0, pps, plan + [d])
    ensures FinalAvail(avail0, plan + [d]) == d.seasonRemaining
  {
    assert (plan + [d])[..|plan|] == plan;
  }
}
