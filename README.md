# Short-burst bookkeeping for Georgia redistricting

A verified Dafny model of the bookkeeping in `Markov_Chain_Precincts.py`, a
research script that searches districting plans for Georgia. The script runs
"short bursts": fixed-length Markov-chain walks over valid plans. It counts the
majority-minority districts of every plan a burst visits, keeps the plan with the
most, and restarts the next burst from it.

The model covers the script's own logic:

- the total and ideal district population (`Population`, `population.dfy`);
- the majority-minority count of one plan, and the `mm` entry its zip loop
  leaves behind (`MajorityMinority`, `majority_minority.dfy`);
- the recording of `list_of_mm` during one burst (`BurstRecord`, `burst_record.dfy`);
- the best-of-burst running maximum (`BestOfBurst`, `best_of_burst.dfy`);
- the outer loop over bursts, with the compactness bound and the carry-forward
  of the seed plan (`ShortBursts`, `short_bursts.dfy`).

A districting plan is an opaque type parameter `P`, and a district label is `L`.
The script's state lives in local variables of top-level code, so each loop is a
method with local variables and invariants. Each method is proved equal to a
recursive specification function (`Total`, `ScorePrefix`, `Recorded`,
`BestIndex`, `RunAfter`), and lemmas state the properties of those functions.
The script has no error handling of its own. Each exception it can raise is a
`Fault` in a `Result`:

- a node index with no node (KeyError);
- a zipped VAP of 0 (ZeroDivisionError);
- `mm` appended before it was ever bound (NameError);
- `max1[1]` on the sentinel of an empty burst (IndexError); only a chain that
  yields no plan at all reaches this.

How the model reads the code:

- The BVAP and VAP tallies are lists of (label, total) items. They are paired by
  position with `zip`, never by label, and the pairing stops at the shorter list.
- `BVAP/VAP >= 0.5` is stated with exact real division. Python divides two
  integers with correct rounding and 0.5 is exact, so for |VAP| below 2^53 the
  float test and the exact test agree. The loop uses the equivalent integer
  comparison, whose direction depends on the sign of VAP (`HalfTestIsIntegral`).
- `list_of_mm += [mm]` runs on every step, while `mm` is only rewritten when a
  district qualifies, and is never reset between bursts. A step with no qualifying
  district therefore appends an older entry again, so the list always has one
  entry per step. Within a burst that entry belongs to an earlier step. It can
  belong to an earlier burst only for a chain whose first plan does not qualify,
  which the library's chain does not produce after the first burst (see
  "## Left out").
- Each burst's Markov chain is a function `Chain` of the burst index, the seed plan
  and the compactness bound. It returns the plans the chain yields, each with its
  BVAP and VAP items. The script fixes its random seed, so the whole run is
  determined, and the burst index is enough to stand for the generator's state.

## Model

| member | source | states |
|---|---|---|
| `Population.TotalPopulation` | Markov_Chain_Precincts.py:53-56 | Succeeds exactly when every index 0..len(nodes)-1 is a node id, and then returns the sum of POPULATION over those nodes. Otherwise it fails at the first missing index, and every smaller index is a node. |
| `Population.IdealPopulation` | Markov_Chain_Precincts.py:57 | The ideal population multiplied by the number of districts gives back the total. |
| `Population.IndexedCoversAllNodes` | Markov_Chain_Precincts.py:54-56 | When the loop succeeds, the node ids are exactly 0..len(nodes)-1, so the total covers every node of the graph exactly once. |
| `Population.TotalNonNegative` | Markov_Chain_Precincts.py:53-57 | Non-negative node populations give a non-negative total and ideal population. |
| `MajorityMinority.HalfTestIsIntegral` | Markov_Chain_Precincts.py:167-168 | For VAP other than 0, BVAP/VAP >= 0.5 holds exactly when 2·BVAP >= VAP (VAP > 0) or 2·BVAP <= VAP (VAP < 0). |
| `MajorityMinority.ZipLength` | Markov_Chain_Precincts.py:165 | `zip` pairs as many items as the shorter of the two tallies has. |
| `MajorityMinority.ScorePrefix` | Markov_Chain_Precincts.py:163-169 | The zip loop over its first n pairs; `Score` is this over all zipped pairs. Over the first n zipped pairs, succeeds exactly when no VAP is 0 and then gives a count of at most n. On failure it names the first zero-VAP position. |
| `MajorityMinority.ScoreCountsQualifying` | Markov_Chain_Precincts.py:165-169 | The count is the number of zipped positions whose BVAP/VAP >= 0.5: each pair adds 1 exactly when it qualifies. |
| `MajorityMinority.ScoreBounds` | Markov_Chain_Precincts.py:163-169 | A plan's count is between 0 and the number of zipped pairs. Counting fails exactly when a zipped VAP is 0. |
| `MajorityMinority.ScoreStep` | Markov_Chain_Precincts.py:160-173 | The zip loop returns the plan's count `Score`, or the division error. Afterwards `mm` holds `[count, part]` with the step's final count when the count is positive, and is unchanged otherwise; this is the spec function `AfterStep` (lines 168-173). |
| `MajorityMinority.ScoreExamples` | Markov_Chain_Precincts.py:165-169 | BVAP 60 of VAP 100 counts as one majority-minority district. A zero VAP stops the step at its position. |
| `BurstRecord.Recorded` | Markov_Chain_Precincts.py:148-176 | A recorded burst prefix has one entry per step, and `mm` afterwards is the last entry (or the carried-in `mm` when no step has run). |
| `BurstRecord.RecordBurst` | Markov_Chain_Precincts.py:148-176 | The per-burst loop, starting from `list_of_mm = []` and the carried-in `mm`, computes exactly `Recorded` over all the burst's steps. |
| `BurstRecord.RecordedFailsFrom` | Markov_Chain_Precincts.py:157-176 | Once a step fails, the burst fails with that same fault. |
| `BurstRecord.RecordedPrefix` | Markov_Chain_Precincts.py:176 | `list_of_mm` only grows: every shorter prefix of a recorded burst is recorded, and its list is a prefix of the longer list. |
| `BurstRecord.RecordedEntry` | Markov_Chain_Precincts.py:168-176 | Entry k is `[count, plan]` of step k when step k qualifies. Otherwise it is entry k-1 again, or for k = 0 the `mm` carried in from earlier bursts. |
| `BurstRecord.RecordedOkIff` | Markov_Chain_Precincts.py:165-176 | A burst records without error exactly when no zipped VAP of any step is 0 and `mm` is bound at the first step: carried in, or set because the first plan qualifies. |
| `BurstRecord.StaleBurst` | Markov_Chain_Precincts.py:148-176 | A burst with no qualifying step records the entry carried in from an earlier burst at every position. |
| `BurstRecord.RecordedProvenance` | Markov_Chain_Precincts.py:168-176 | Every entry is either the carried-in `mm` or was produced by a qualifying step at or before its own position. |
| `BurstRecord.FreshStartBurst` | Markov_Chain_Precincts.py:168-176 | When the first plan of a burst qualifies, every entry the burst records was produced by one of its own qualifying steps, at or before the entry's position; nothing carried in from an earlier burst is appended. |
| `BurstRecord.StaleEntryExample` | Markov_Chain_Precincts.py:168-176 | A qualifying step followed by a non-qualifying one records the first step's count and plan twice. |
| `BestOfBurst.BestIndexIsLastMax` | Markov_Chain_Precincts.py:179-192 | The selected position holds the largest count, and every later position holds a strictly smaller count, so ties go to the later step. |
| `BestOfBurst.SelectBest` | Markov_Chain_Precincts.py:179-197 | Fails with IndexError exactly when `list_of_mm` is empty. Otherwise it returns the last position of the maximum count and the entry there (the sentinel `[0]` is always replaced); that position is the spec function `BestIndex` (lines 179-192). |
| `ShortBursts.BurstShape` | Markov_Chain_Precincts.py:146-197 | A completed burst has one entry per yielded plan. It ends with `mm` on its last entry and seeds the next burst with the plan at `max1_a`. |
| `ShortBursts.RunShortBursts` | Markov_Chain_Precincts.py:144-197 | The loop over `num_bursts` computes exactly the spec function `RunAfter`, one `Burst` (lines 146-197) after another, with the bound computed once from the original seed. |
| `ShortBursts.RunFailsFrom` | Markov_Chain_Precincts.py:146-197 | Once a burst fails, the run fails with that same fault. |
| `ShortBursts.BoundFixedAcrossBursts` | Markov_Chain_Precincts.py:122-125 | Every burst runs under 2 × the original seed's cut-edge count, however often `initial_partition` is reassigned. This holds by construction: `RunShortBursts` computes the bound once, before its loop, and passes the same value to every burst. |
| `ShortBursts.SeedIsLastBest` | Markov_Chain_Precincts.py:179-197 | After a burst, the next seed is the plan at `max1_a`, the last position of the burst's largest count. |
| `ShortBursts.BurstProvenance` | Markov_Chain_Precincts.py:148-197 | If the carried-in `mm` was produced before burst j, every entry burst j records was produced by a qualifying step of some burst up to j. |
| `ShortBursts.ProvenanceStep` | Markov_Chain_Precincts.py:146-197 | One burst preserves the run's provenance invariant. |
| `ShortBursts.RunProvenance` | Markov_Chain_Precincts.py:146-197 | After k bursts, `mm` and every entry of `list_of_mm` were produced by a qualifying step of some earlier burst. Every seed after the first is a plan the chain visited, though not necessarily in the latest burst. |
| `ShortBursts.FirstBurstNeedsQualifyingStart` | Markov_Chain_Precincts.py:146-176 | The first burst completes only if its first plan has a majority-minority district; otherwise `mm` is unbound. |
| `ShortBursts.StaleBurstReseedsFromEarlier` | Markov_Chain_Precincts.py:146-197 | A burst with no qualifying plan re-seeds the next burst with the plan `mm` held before it, which comes from an earlier burst, and `max1_a` is its last step. |

## Left out

- Loading the graph from JSON or pickle, and the inspection script `gerry.py` (I/O and library inspection only).
- The seed partition built by `recursive_tree_part`, the ReCom proposal, the `MarkovChain` iteration and the `UpperBound` and population constraint objects. These are calls into the external redistricting library, driven by its random generator. The chain is a `Chain` function parameter, and the original seed plan and its cut-edge count are parameters.
- `random.seed(48)`, the plotting and numeric imports, and the unused `total_steps` constant.
- `list_of_max`, which is initialised and never used.
- All console output (`print`), which is informational.
- IEEE floating point. Tallies are integers, the ideal population is an exact real, and the ratio test is exact. For |VAP| of 2^53 or more, a ratio within half an ulp below 0.5 rounds to 0.5 and is counted by the script but not by the model (`MeetsHalf`, `Score`). Python's int-to-float overflow for huge tallies is not modelled either.
- `Chain` is not required to yield its seed plan first, nor to yield `burst_length` plans. The library's chain yields its initial state first. The seed of every burst after the first is a qualifying plan (`RunProvenance`), so the first step of such a burst qualifies again and rewrites `mm` (`FreshStartBurst`). So `StaleBurst` with an entry carried in from an earlier burst, `StaleBurstReseedsFromEarlier`, and the `NoPlanToCarry` fault arise only for chains that break these two rules. The model keeps them because it does not assume the chain's behaviour.
- The burst index `i` being shadowed by the inner `for i, j` loop. The outer `for` rebinds it, so behaviour is unaffected.
- Node attributes other than POPULATION. A node without a POPULATION attribute (another KeyError) cannot occur in the model.
