# Coral Island crop planner: a Dafny model

`coral_crops.py` recommends what a Coral Island farmer should plant for the rest of a
28-day season. Its core is `gib_crops`, which works in two steps:

1. It filters the seed table by season, town rank, excluded names and (optionally)
   multi-harvest crops. It keeps only crops that mature in the days left. For each
   name it keeps the row with the highest profit per day.
2. It then plans greedily, one planting after another. Each pass keeps only the seeds
   the per-seed budget can buy. If a crop would leave too little time for another
   planting, its profit per day becomes its one-off margin spread over the days left.
   The pass picks a crop with the highest such profit and spends its growing days. The
   budget is then reset to 300 gold for every later pass.

Alongside it sit three helpers: `town_rank`, which maps a rank letter to a number;
`budget`, the per-seed budget; and `avail_crop_list`, the distinct crop names for a
season and rank.

The model is pure and functional:

- `results.dfy`: `Option` and `Result`.
- `seqs.dfy`: a generic `Filter` and `Distinct`.
- `crops.dfy` (module `Crops`): the seed row `Crop`, the admissibility filter, the
  keep-the-best-row-per-name deduplication, `min` over days, and `avail_crop_list`.
- `inputs.dfy` (module `Inputs`): `town_rank` and `budget`.
- `planner.dfy` (module `Planner`): one pass of the greedy loop, the loop itself
  (`RunPasses`), `gib_crops` (`GibCrops`), and a relational description of every plan
  the greedy rule allows (`ValidPlan`, `Stuck`). The loop is proved against that
  description.
- `planner_laws.dfy` (module `PlannerLaws`): properties of every allowed plan,
  including which row each pick is, the selection rule, the price ceiling per pass,
  day conservation, the decreasing remaining days, and the length bound.
- `planner_example.dfy`: a two-crop worked example whose plan is pinned down exactly,
  and a zero-day crop on which the source's loop never ends (see "## Findings").

The source reads the seed table from a CSV file. The model takes the table as a
parameter instead, as a sequence of `Crop` rows.

Pandas sorts with an unstable sort, so when two rows tie on profit the source's choice
depends on row order. The model therefore promises only *some* row of maximal profit,
both in the deduplication and in each pass. `BestIndex` happens to take the first such
row.

Two failures of the source are modelled as errors:

- `min` of an empty column (line 39) becomes `PlanError.NoViableCrop`.
- `.iloc[0]` on a pass where no crop is affordable (line 52) becomes
  `PlanError.NoCandidate`.

A `KeyError` in `town_rank` and a division by zero in `budget` become `None`.

The rank filter is the code's comparison `town_rank >= rank` (line 27). S is rank 0,
the best rank, so a crop is offered to every player whose rank number is at most the
crop's.

## Model

| member | source | states |
|---|---|---|
| Seqs.Filter | coral_crops.py:25-34 | the boolean-mask filter: the result holds exactly the elements that satisfy the predicate, and it is no longer than the input |
| Crops.BaseCandidates | coral_crops.py:25-32 | a row survives the season, `town_rank >= rank`, `name not in exclude` and multi-harvest filters iff it is in the table and passes all four tests |
| Crops.IndexOfName | coral_crops.py:36 | a helper that states the deduplication rather than modelling a line of it: the position of the first row with a given name, in range and holding that name with no earlier row holding it; not found means no row has it |
| Crops.IndexOfUnique | coral_crops.py:36 | when names are unique, looking up the name of row k finds exactly row k |
| Crops.Keep | coral_crops.py:35-36 | adding one row keeps names unique, adds no foreign row, leaves the new row dominated by the kept row of its name, and loses no earlier domination |
| Crops.Dedup | coral_crops.py:35-36 | `sort_values(profit_per_day desc).drop_duplicates(name, keep=first)`: names are unique, every kept row is an input row, and every input row is matched by a kept row of the same name with at least its profit per day |
| Crops.Candidates | coral_crops.py:25-37 | the deduplicated table: names unique; every row is in the table, admissible and fits in the days left; every admissible fitting table row is dominated by the candidate of its name |
| Crops.CandidatesGrowAndFit | coral_crops.py:25-37 | when every row passing the season, rank, exclusion and multi-harvest filters grows for at least one day, so does every candidate, and every candidate fits in the days left |
| Crops.MinDays | coral_crops.py:39 | `fastest` is the growing time of some candidate and no candidate grows faster |
| Crops.DistinctNames | coral_crops.py:63 | `list(set(names))`: no name repeats, and a name is listed iff some row has it |
| Crops.AvailCropList | coral_crops.py:60-64 | the listed names are distinct, and a name is listed iff some table row of that season with `town_rank >= rank` has it |
| Inputs.TownRank | coral_crops.py:8-12 | a rank letter maps to a number iff it is one of S, A, B, C, D, E, F, and it maps to the letter's position in that list |
| Inputs.TownRankOnto | coral_crops.py:8-12 | every position 0..6 is the rank of its letter |
| Inputs.TownRankInjective | coral_crops.py:8-12 | two letters with the same rank are the same letter |
| Inputs.Budget | coral_crops.py:15-17 | a budget exists iff the minimum seed quantity is non-zero, and multiplied by that quantity it gives back `gold + 1` |
| Planner.Adjusted | coral_crops.py:46-50 | a crop that leaves at least `fastest` days keeps its table profit per day; otherwise its profit times the days left equals its sale value minus its seed price |
| Planner.BestIndex | coral_crops.py:51-53 | the chosen row is in range and no row has a higher adjusted profit |
| Planner.Pass | coral_crops.py:42-56 | one pass of the loop: `None` exactly when no candidate is affordable and fits, otherwise a decision some affordable candidate of highest adjusted profit justifies |
| Planner.ExtendSteps | coral_crops.py:52-56 | appending a valid pick to a valid prefix gives a valid prefix whose days left are the pick's remaining days |
| Planner.RunPasses | coral_crops.py:41-57 | the loop either returns a plan that follows the greedy rule on every pass and ends with fewer days left than `fastest`, or fails with `NoCandidate`, and then some valid prefix of greedy picks leaves no affordable fitting crop |
| Planner.GibCrops | coral_crops.py:20-58 | for tables whose filtered rows all take at least one day: `NoViableCrop` iff no candidate survives the filters; otherwise the result is a complete greedy plan over the candidates, starting from `28 - date` days with `fastest = min(days)`, or `NoCandidate` when such a plan gets stuck |
| Planner.NoViableCropIff | coral_crops.py:25-39 | there are no candidates iff every admissible table row needs more days than are left |
| PlannerLaws.PickIsNamedRow | coral_crops.py:52-54 | every pick names a candidate row, and it is the pick that row yields |
| PlannerLaws.PassAt | coral_crops.py:41-56 | pass i of a valid plan starts from a valid prefix with at least `fastest` days left and makes a greedy pick there |
| PlannerLaws.SelectionRule | coral_crops.py:44-55 | pass i picks an affordable candidate that fits; its daily profit is that row's adjusted profit, its remaining days are the days left minus its growing time, and no affordable fitting candidate has a higher adjusted profit |
| PlannerLaws.PriceScope | coral_crops.py:44-57 | the first pick's seed costs at most `pps + 1`, and every later pick costs at most 301 |
| PlannerLaws.DayConservation | coral_crops.py:22-55 | the growing days of the picks add up to the days spent, and the days left never go negative |
| PlannerLaws.RemainingDecreases | coral_crops.py:46-55 | the remaining days after each pick are non-negative and strictly decrease from pick to pick |
| PlannerLaws.PlanFilterLaw | coral_crops.py:25-37 | every picked seed is not excluded and is the name of a table row of the season, with `town_rank >= rank`, allowed by the multi-harvest switch, that fits in `28 - date` days |
| PlannerLaws.CountBound | coral_crops.py:41-56 | a plan has no more picks than the days its picks spend |
| PlannerLaws.PlanBounds | coral_crops.py:39-56 | a complete plan over non-empty candidates has between 1 and `28 - date` picks, spends no more than the days available, and ends with fewer days left than `fastest` |
| PlannerLaws.GibCropsLaws | coral_crops.py:20-58 | a complete plan over the candidates `gib_crops` builds has between 1 and `28 - date` decisions, its growth days add up to the days used, and every seed is an offered crop of the table |
| PlannerExample.SummerExample | coral_crops.py:41-57 | with a 4-day crop at 10 a day and an 8-day crop at 15 a day over 17 days, any complete plan picks the 8-day crop at 15 with 9 days left, then again at 120/9 with 1 day left |
| PlannerExample.SummerExampleExists | coral_crops.py:41-57 | that plan is complete, so it is the only complete plan |
| PlannerExample.SproutCandidates | coral_crops.py:25-37 | a zero-day spring row passes every filter and is the only kind of row in its candidate table |
| PlannerExample.ZeroDayPassRepeats | coral_crops.py:39-57 | on that table `fastest` is 0 and every pass whose ceiling affords the seed picks it and leaves the days unchanged, so the loop state repeats |

## Left out

- The Streamlit page (`coral_crops.py:67-138`) is not modelled. This covers the input
  widgets, the table output, and the page's own guard that prints "no seeds are
  available" when `pps <= 15` (line 120). That guard happens before `gib_crops` is
  called and is not part of it.
- Loading `seed_df_clean.csv` (line 6) is not modelled: the seed table is a parameter.
- The script entry point at the end of the file is not modelled.
- Default argument values (`exclude_crops=[]`, `pps=300`, `multi=True`) are not
  modelled: every argument is explicit.
- Floating point is not modelled: prices and profits are exact reals, so rounding in
  `(sale_value - seed_buy_price) / avail_days` and in `budget` is not reproduced.
  NaN cells are not modelled either.
- Which of several tied rows pandas keeps is not modelled. The contracts promise only
  a row of maximal profit, because the source's sort is not stable.
- Planner.GibCrops: assumes every row that passes the season, rank, exclusion and
  multi-harvest filters grows for at least one day. A zero-day candidate makes
  `fastest = 0`, and the loop at lines 41-57 can then pick it forever (see "## Findings").
- Planner.Pass: requires at least one day left. The loop reaches a pass with no days
  left only when `fastest` is 0, that is, only with a zero-day candidate.
- Planner.GibCrops: the source keeps the partial plan up to the pass where nothing is
  affordable and then raises. The model returns `NoCandidate` with no payload, and
  `GetsStuck` states that such a partial plan exists.
- Planner.RunPasses: the same holds for the error it returns.
- Inputs.Budget: takes integer gold and seed quantity as the page supplies them. The
  lower bounds the page enforces on those widgets are not modelled.

## Findings

| source | as written | input that shows it | evidently intended | confidence | as-written member | corrected member |
|---|---|---|---|---|---|---|
| coral_crops.py:39-57 | the loop runs while `avail_days >= fastest` and subtracts the picked crop's `days` | a candidate with `days == 0` that the budget affords, for example the only row of a spring table: `fastest` is 0, and each pass picks it with `rem_days == avail_days` | every pass spends at least one day, so the loop ends | not executed; matters only if the seed table holds a zero-day row | PlannerExample.ZeroDayPassRepeats | Planner.GibCrops |

`Planner.GibCrops` assumes every filtered row grows for at least one day. Under that
assumption, its loop `Planner.RunPasses` terminates (its `decreases avail` is proved),
and every plan it returns is complete.

