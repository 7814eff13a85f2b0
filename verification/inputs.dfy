/** The two input conversions the form applies before calling the planner. */
module Inputs {
  import opened Results

  /** Town rank labels, best first; a label's position is its ordinal. */
  const RankLabels: seq<string> := ["S", "A", "B", "C", "D", "E", "F"]

  /**
   * The fixed label-to-ordinal lookup. An unknown label is a failed
   * dictionary lookup, modelled as `None`.
   */
  function TownRank(code: string): (r: Option<int>)
    ensures r.Some? <==> code in RankLabels
    ensures r.Some? ==> 0 <= r.value < |RankLabels| && RankLabels[r.value] == code
  {
    if code == "S" then Some(0)
    else if code == "A" then Some(1)
    else if code == "B" then Some(2)
    else if code == "C" then Some(3)
    else if code == "D" then Some(4)
    else if code == "E" then Some(5)
    else if code == "F" then Some(6)
    else None
  }

  /** Every ordinal 0..6 is reached, by the label at that position. */
  lemma {:induction false} TownRankOnto(n: int)
    requires 0 <= n < |RankLabels|
    ensures TownRank(RankLabels[n]) == Some(n)
  {
    assert RankLabels[n] in RankLabels;
  }

  /** Distinct labels never share an ordinal. */
  lemma TownRankInjective(a: string, b: string)
    requires TownRank(a).Some? && TownRank(a) == TownRank(b)
    ensures a == b
  {
  }

  /**
   * The per-seed price ceiling: one gold more than the budget, shared
   * among the minimum number of seeds. A zero seed count is the source's
   * division by zero, modelled as `None`.
   */
  function Budget(gold: int, minSeedQty: int): (r: Option<real>)
    ensures r.None? <==> minSeedQty == 0
    ensures r.Some? ==> r.value * (minSeedQty as real) == (gold + 1) as real
  {
    if minSeedQty == 0 then None
    else Some((gold + 1) as real / (minSeedQty as real))
  }
}
