/**
 * The crop reference table and the queries the planner runs over it:
 * the season/rank/exclusion/multi-harvest filter, the per-name
 * deduplication that keeps a most profitable row, the shortest growth
 * time, and the list of names offered for exclusion.
 */
module Crops {
  import opened Results
  import opened Seqs

  /** One row of the seed table. Money and profit are exact reals. */
  datatype Crop = Crop(
    name: string,
    season: string,
    townRank: int,
    days: int,
    isMultiHarvest: bool,
    saleValue: real,
    seedBuyPrice: real,
    profitPerDay: real)

  /** The season and town-rank tests: the row's rank ordinal must be at least the player's. */
  predicate InSeasonAndRank(c: Crop, rank: int, season: string) {
    c.season == season && c.townRank >= rank
  }

  /** All the tests a row must pass before growth time is considered. */
  predicate Admissible(c: Crop, rank: int, season: string, exclude: seq<string>, multi: bool) {
    && InSeasonAndRank(c, rank, season)
    && c.name !in exclude
    && (multi || !c.isMultiHarvest)
  }

  /** Rows of the table that pass the season, rank, exclusion and multi-harvest filters. */
  function BaseCandidates(table: seq<Crop>, rank: int, season: string, exclude: seq<string>, multi: bool): (r: seq<Crop>)
    ensures forall c :: c in r <==> c in table && Admissible(c, rank, season, exclude, multi)
  {
    Filter(table, c => Admissible(c, rank, season, exclude, multi))
  }

  /** Each name occurs on at most one row. */
  predicate NamesUnique(rows: seq<Crop>) {
    forall i, j :: 0 <= i < j < |rows| ==> rows[i].name != rows[j].name
  }

  /** The position of the first row called `name`, if any. */
  function IndexOfName(rows: seq<Crop>, name: string): (r: Option<nat>)
    ensures r.Some? ==> r.value < |rows| && rows[r.value].name == name
    ensures r.Some? ==> forall j :: 0 <= j < r.value ==> rows[j].name != name
    ensures r.None? ==> forall j :: 0 <= j < |rows| ==> rows[j].name != name
  {
    if |rows| == 0 then None
    else if rows[0].name == name then Some(0)
    else match IndexOfName(rows[1..], name)
      case None => None
      case Some(i) => Some(i + 1)
  }

  /** In a table with unique names, a row's own name leads back to it. */
  lemma IndexOfUnique(rows: seq<Crop>, k: int)
    requires NamesUnique(rows) && 0 <= k < |rows|
    ensures IndexOfName(rows, rows[k].name) == Some(k)
  {
  }

  /** The row `rows` keeps under the name of `x` has at least `x`'s profit per day. */
  predicate Dominated(rows: seq<Crop>, x: Crop) {
    match IndexOfName(rows, x.name)
    case Some(k) => x.profitPerDay <= rows[k].profitPerDay
    case None => false
  }

  /**
   * Adds `c` to a table with unique names: a new name is appended, an
   * existing row is replaced only when `c` is strictly more profitable.
   */
  function Keep(acc: seq<Crop>, c: Crop): (r: seq<Crop>)
    requires NamesUnique(acc)
    ensures NamesUnique(r)
    ensures forall x :: x in r ==> x in acc || x == c
    ensures Dominated(r, c)
    ensures forall y :: Dominated(acc, y) ==> Dominated(r, y)
  {
    match IndexOfName(acc, c.name)
    case None =>
      var r := acc + [c];
      assert r[|acc|] == c;
      assert forall k :: 0 <= k < |acc| ==> r[k] == acc[k];
      IndexOfUnique(r, |acc|);
      assert forall y :: Dominated(acc, y) ==> Dominated(r, y) by {
        forall y | Dominated(acc, y) ensures Dominated(r, y) {
          var k := IndexOfName(acc, y.name).value;
          IndexOfUnique(r, k);
        }
      }
      r
    case Some(i) =>
      if acc[i].profitPerDay < c.profitPerDay then
        var r := acc[i := c];
        assert r[i] == c;
        assert forall k :: 0 <= k < |acc| && k != i ==> r[k] == acc[k];
        IndexOfUnique(r, i);
        assert forall y :: Dominated(acc, y) ==> Dominated(r, y) by {
          forall y | Dominated(acc, y) ensures Dominated(r, y) {
            var k := IndexOfName(acc, y.name).value;
            IndexOfUnique(r, k);
          }
        }
        r
      else
        acc
  }

  /**
   * Deduplication by name keeping a row of highest profit per day. The
   * source sorts with an unstable sort before keeping the first row per
   * name, so which of several equally profitable rows survives is not
   * specified; the contract says only that the survivor is maximal.
   */
  function Dedup(rows: seq<Crop>): (r: seq<Crop>)
    ensures NamesUnique(r)
    ensures forall x :: x in r ==> x in rows
    ensures forall x :: x in rows ==> Dominated(r, x)
  {
    if |rows| == 0 then []
    else
      var init := rows[..|rows| - 1];
      var last := rows[|rows| - 1];
      var r := Keep(Dedup(init), last);
      assert forall x :: x in rows ==> x in init || x == last;
      r
  }

  /**
   * The deduplicated set of admissible rows that fit in `avail` days:
   * the planner's candidate table.
   */
  function Candidates(table: seq<Crop>, avail: int, rank: int, season: string, exclude: seq<string>, multi: bool): (r: seq<Crop>)
    ensures NamesUnique(r)
    ensures forall c :: c in r ==> c in table && Admissible(c, rank, season, exclude, multi) && c.days <= avail
    ensures forall c :: c in table && Admissible(c, rank, season, exclude, multi) && c.days <= avail ==> Dominated(r, c)
  {
    Dedup(Filter(BaseCandidates(table, rank, season, exclude, multi), (c: Crop) => c.days <= avail))
  }

  /** Every row takes at least one day to grow. */
  predicate AllGrow(rows: seq<Crop>) {
    forall c :: c in rows ==> c.days >= 1
  }

  /** Every row grows within `avail` days. */
  predicate FitIn(rows: seq<Crop>, avail: int) {
    forall c :: c in rows ==> c.days <= avail
  }

  /**
   * When every row passing the filters takes at least a day, so does every
   * candidate; and every candidate fits in the days left.
   */
  lemma {:induction false} CandidatesGrowAndFit(table: seq<Crop>, avail: int, rank: int, season: string, exclude: seq<string>, multi: bool)
    requires AllGrow(BaseCandidates(table, rank, season, exclude, multi))
    ensures AllGrow(Candidates(table, avail, rank, season, exclude, multi))
    ensures FitIn(Candidates(table, avail, rank, season, exclude, multi), avail)
  {
    var cands := Candidates(table, avail, rank, season, exclude, multi);
    forall c | c in cands ensures c.days >= 1 {
      assert c in BaseCandidates(table, rank, season, exclude, multi);
    }
  }

  /** The shortest growth time among `rows`. */
  function MinDays(rows: seq<Crop>): (r: int)
    requires |rows| > 0
    ensures exists k :: 0 <= k < |rows| && rows[k].days == r
    ensures forall k :: 0 <= k < |rows| ==> r <= rows[k].days
  {
    if |rows| == 1 then rows[0].days
    else
      var m := MinDays(rows[1..]);
      if rows[0].days <= m then rows[0].days else m
  }

  /** Each name carried by some row of `rows`, exactly once. */
  function DistinctNames(rows: seq<Crop>): (r: seq<string>)
    ensures Distinct(r)
    ensures forall x :: x in r <==> exists c :: c in rows && c.name == x
  {
    if |rows| == 0 then []
    else
      var init := rows[..|rows| - 1];
      var last := rows[|rows| - 1];
      var rest := DistinctNames(init);
      assert forall c :: c in rows <==> c in init || c == last;
      if last.name in rest then rest else rest + [last.name]
  }

  /** Names of the crops on offer in a season at a rank, each once. */
  function AvailCropList(table: seq<Crop>, rank: int, season: string): (r: seq<string>)
    ensures Distinct(r)
    ensures forall x :: x in r <==> exists c :: c in table && InSeasonAndRank(c, rank, season) && c.name == x
  {
    DistinctNames(Filter(table, c => InSeasonAndRank(c, rank, season)))
  }
}
