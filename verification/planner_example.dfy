/**
 * A worked example: two summer crops of equal seed price, a 4-day one
 * earning 10 a day and an 8-day one earning 15, planned from day 11.
 * The 8-day crop wins the first pass on its table profit; on the second
 * pass it no longer leaves room to replant, and its margin spread over
 * the 9 days left still beats the 4-day crop.
 */
module PlannerExample {
  import opened Results
  import opened Seqs
  import opened Crops
  import opened Planner
  import opened PlannerLaws

  const Quick: Crop := Crop("tomato", "summer", 6, 4, false, 90.0, 50.0, 10.0)
  const Slow: Crop := Crop("corn", "summer", 6, 8, false, 170.0, 50.0, 15.0)

  /** The only finished plan over these two candidates with 17 days and ceiling 1000. */
  lemma SummerExample(plan: seq<Decision>)
    requires ValidPlan([Quick, Slow], 4, 17, 1000.0, plan)
    ensures plan == [Decision("corn", 15.0, 9), Decision("corn", 120.0 / 9.0, 1)]
  {
    var cands := [Quick, Slow];
    assert NamesUnique(cands);
    assert |plan| >= 1;
    PassAt(cands, 4, 17, 1000.0, plan, 0);
    assert plan[..0] == [];
    var k0 :| ChosenAt(cands, 4, 17, 1000.0, k0, plan[0]);
    assert Adjusted(Slow, 17, 4) == 15.0;
    assert Adjusted(Quick, 17, 4) == 10.0;
    assert Affordable(cands[1], 17, 1000.0);
    assert plan[0].dailyProfit >= 15.0;
    assert k0 == 1;
    assert plan[0] == Decision("corn", 15.0, 9);
    assert FinalAvail(17, plan[..1]) == 9;
    assert |plan| >= 2;
    PassAt(cands, 4, 17, 1000.0, plan, 1);
    var k1 :| ChosenAt(cands, 4, 9, ResetCeiling, k1, plan[1]);
    assert Adjusted(Slow, 9, 4) == 120.0 / 9.0;
    assert Adjusted(Quick, 9, 4) == 10.0;
    assert Affordable(cands[1], 9, ResetCeiling);
    assert plan[1].dailyProfit >= 120.0 / 9.0;
    assert k1 == 1;
    assert plan[1] == Decision("corn", 120.0 / 9.0, 1);
    assert |plan| == 2 by {
      if |plan| > 2 {
        PassAt(cands, 4, 17, 1000.0, plan, 2);
      }
    }
  }

  /** The plan `SummerExample` pins down is a complete plan, so exactly one exists. */
  lemma {:induction false} SummerExampleExists()
    ensures ValidPlan([Quick, Slow], 4, 17, 1000.0, [Decision("corn", 15.0, 9), Decision("corn", 120.0 / 9.0, 1)])
  {
    var cands := [Quick, Slow];
    var d0 := Decision("corn", 15.0, 9);
    var d1 := Decision("corn", 120.0 / 9.0, 1);
    assert StepsValid(cands, 4, 17, 1000.0, []);
    assert Adjusted(Quick, 17, 4) == 10.0 && Adjusted(Slow, 17, 4) == 15.0;
    assert ChosenAt(cands, 4, 17, 1000.0, 1, d0);
    ExtendSteps(cands, 4, 17, 1000.0, [], 1, d0);
    assert [] + [d0] == [d0];
    assert Adjusted(Quick, 9, 4) == 10.0 && Adjusted(Slow, 9, 4) == 120.0 / 9.0;
    assert ChosenAt(cands, 4, 9, ResetCeiling, 1, d1);
    ExtendSteps(cands, 4, 17, 1000.0, [d0], 1, d1);
    assert [d0] + [d1] == [d0, d1];
  }

  /** A seed-table row that grows in zero days. */
  const Sprout: Crop := Crop("sprout", "spring", 6, 0, false, 10.0, 5.0, 2.0)

  /** The zero-day row passes every filter, and it is the only row of its candidate table. */
  lemma {:induction false} SproutCandidates(avail: int)
    requires avail >= 0
    ensures Sprout in Candidates([Sprout], avail, 6, "spring", [], true)
    ensures forall c :: c in Candidates([Sprout], avail, 6, "spring", [], true) ==> c == Sprout
  {
    var cands := Candidates([Sprout], avail, 6, "spring", [], true);
    assert Sprout in [Sprout];
    assert Dominated(cands, Sprout);
    var k := IndexOfName(cands, Sprout.name).value;
    assert cands[k] in cands;
  }

  /**
   * The loop as written, on a table whose only row grows in zero days:
   * the row survives the filters, `fastest` is 0, and every pass the
   * ceiling allows picks it and leaves the days unchanged. The loop guard
   * `fastest <= avail` then holds again in the same state, so the
   * source's loop never ends.
   */
  lemma {:induction false} ZeroDayPassRepeats(avail: int, ceiling: real)
    requires avail > 0 && ceiling >= 4.0
    ensures |Candidates([Sprout], avail, 6, "spring", [], true)| > 0
    ensures MinDays(Candidates([Sprout], avail, 6, "spring", [], true)) == 0
    ensures Pass(Candidates([Sprout], avail, 6, "spring", [], true), 0, avail, ceiling) == Some(Decision("sprout", 2.0, avail))
  {
    SproutCandidates(avail);
    var cands := Candidates([Sprout], avail, 6, "spring", [], true);
    var m := MinDays(cands);
    var j :| 0 <= j < |cands| && cands[j].days == m;
    assert cands[j] in cands;
    var elig := Filter(cands, (c: Crop) => Affordable(c, avail, ceiling));
    assert Sprout in elig;
    var row := elig[BestIndex(elig, avail, 0)];
    assert row in elig;
  }
}
