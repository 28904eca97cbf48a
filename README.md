# Drought triage and tanker dispatch — a Dafny model

This project models the core of a drought-warning backend. The backend tracks
drought stress across villages and sends water tankers to the worst-hit ones.
The model covers four pieces:

- **Stress scorer** (`Crud.StressIndex`). It turns a reading's rainfall
  deviation (mm, negative means a deficit) and groundwater depth (m) into a
  0–10 stress index. `Crud.Database.AddWaterData` stores that index with each
  new reading.
- **Stressed-reading selector** (`Crud.StressedVillages`). It joins every
  reading with its village, keeps the readings whose index is at least the
  threshold, and orders them by index, highest first. It returns every
  qualifying reading, not just the latest one per village.
- **Triage ranker** (`Dashboard.CrisisDashboard`). It gives each selected row a
  priority of `min(100, round(stress * (1 + population / 100000), 2))`. It
  builds one record per row in an append loop, then sorts the records in place
  by priority, highest first. The sort is stable.
- **Dispatch matcher** (`Crud.Database.DispatchTanker`). It looks up the
  village and scans the tankers. It skips unavailable tankers and tankers with
  no reported position. It keeps the strictly nearest tanker within the
  radius, so on a tie the first one scanned wins. It then marks that tanker
  unavailable. If the village is unknown or no tanker qualifies, it fails and
  changes nothing.

Layout, one module per file:

- `Records.dfy`: the village, reading and tanker records, `Option`, and the
  lookup of a village by primary key.
- `Rounding.dfy`: Python's `round(x, n)` on exact reals. It rounds to the
  nearest multiple of `1/10^n`, with ties going to the even multiple.
- `Sorting.dfy`: a stable descending insertion sort by a real key. It exists as
  a function (`SortDesc`) and as an in-place array method proved equal to it.
- `Crud.dfy`: the scorer, the selector, the dispatch scan (`Nearest`) and the
  in-memory store class `Database`.
- `Dashboard.dfy`: the priority formula and the dashboard method.

The store's tables are sequences held by a `Database` object. The two
operations that write (`AddWaterData`, `DispatchTanker`) are its methods. The
read-only queries are functions over the table contents.

Points where the code's behaviour is easy to misread:

- Tanker distance ties: the strict `<` at backend/crud.py:78 keeps the first
  tanker scanned among those at the minimum distance. `IsNearest` states
  exactly that.
- Which readings are selected: the comment at backend/crud.py:52 speaks of the
  latest reading with stress above the threshold. The query returns every
  reading with stress at or above it. `StressedVillagesMembership` and
  `StressedVillagesCount` state the query's behaviour.
- Population weighting: the factor at backend/main.py:65 is
  `1 + population / 100000`. A village of 100,000 people doubles its stress
  score; one of 1,000,000 people multiplies it by 11.
- Defaults: the threshold of `get_stressed_villages` (7.0), the dashboard's
  threshold (6.0) and the dispatch radius (500 km) are default parameter
  values of `StressedVillages`, `CrisisDashboard` and `DispatchTanker`.

## Model

| member | source | states |
|---|---|---|
| Records.FindVillage | backend/crud.py:61-63 | The result is a village of the table carrying the requested id; it is absent exactly when no village has that id |
| Rounding.RoundHalfEven | backend/crud.py:26 | The result is an integer within 0.5 of the input; on an exact half it is the even neighbour |
| Rounding.RoundTo | backend/crud.py:26 | Rounding to `1/scale` moves the value by at most half a unit |
| Rounding.RoundToMonotone | backend/crud.py:26 | Rounding never reverses the order of two values |
| Rounding.RoundToNonNegative | backend/crud.py:26 | Rounding a non-negative value gives a non-negative value |
| Crud.ClampAtZero | backend/crud.py:20-23 | `max(0, v)`: the result is non-negative, at least `v`, and equal to `v` or 0 |
| Crud.StressIndex | backend/crud.py:15-26 | The stress index always lies in [0, 10] |
| Crud.StressIndexSurplusIgnored | backend/crud.py:19-20 | A non-negative rainfall deviation (surplus) gives the same index as no deviation |
| Crud.StressIndexMonotoneInDeficit | backend/crud.py:19-26 | A larger rainfall deficit never lowers the index |
| Crud.StressIndexMonotoneInDepth | backend/crud.py:22-26 | A deeper groundwater level never lowers the index |
| Crud.StressIndexExamples | backend/crud.py:20-26 | Deviation -80 mm at depth 55 m scores 9.5; deviation +10 mm at depth 5 m scores 0.5 |
| Crud.Qualifying | backend/crud.py:54-55 | The join yields at most one row per reading |
| Crud.QualifyingCount | backend/crud.py:54-55 | Each row occurs in the join as many times as its reading is stored if the reading reaches the threshold and the row pairs it with its own village, and never otherwise: one row per qualifying reading |
| Crud.QualifyingMembership | backend/crud.py:54-55 | A row is in the join iff its reading is stored, reaches the threshold and its village is the one with the reading's village id |
| Crud.StressedVillages | backend/crud.py:51-56 | The selector returns one row for each row of the filtered join |
| Crud.StressedVillagesOrdered | backend/crud.py:54-56 | The selector's rows are ordered by stress index, descending, and are a permutation of the filtered join |
| Crud.StressedVillagesMembership | backend/crud.py:51-56 | A row is returned iff its reading reaches the threshold and is paired with its own village, so every qualifying reading appears, not just the latest |
| Crud.StressedVillagesCount | backend/crud.py:51-56 | The selector returns each qualifying reading, with its village, exactly as often as it is stored; nothing else |
| Crud.Nearest | backend/crud.py:66-80 | The scan's choice, when there is one, is an available, positioned tanker within the radius |
| Crud.NearestIsNearest | backend/crud.py:71-80 | The chosen tanker is no farther than any other in-range tanker and strictly nearer than every in-range tanker scanned before it |
| Crud.NearestNone | backend/crud.py:66-80 | The scan chooses nothing iff no tanker is available, positioned and within the radius |
| Crud.IsNearestUnique | backend/crud.py:78-80 | At most one index satisfies the nearest-first rule, so the choice is deterministic |
| Crud.MarkDispatched | backend/crud.py:82-83 | Only the chosen tanker changes; only its availability flag changes, and it becomes false |
| Crud.MarkDispatchedCount | backend/crud.py:82-83 | Dispatching an available tanker lowers the number of available tankers by exactly one |
| Crud.NoRedispatch | backend/crud.py:66-83 | A tanker just dispatched cannot be chosen again by a following request |
| Crud.Database.AddWaterData | backend/crud.py:38-49 | Appends one reading whose stress index is `StressIndex` of its own deviation and depth; keeps every stored index in [0, 10] |
| Crud.Database.DispatchTanker | backend/crud.py:58-92 | Unknown village: fails, tankers unchanged. No tanker in range: fails with radius and village name, tankers unchanged. Otherwise: reports the `Nearest` tanker's plate and its distance rounded to 0.1 km, and marks exactly that tanker unavailable |
| Sorting.SortDesc | backend/main.py:80 | The stable descending insertion sort by a key; it returns as many elements as it is given (sortedness, permutation and stability are the lemmas below) |
| Sorting.SortDescSorted | backend/main.py:80 | The sort's result is ordered by key, descending, and is a permutation of its input |
| Sorting.SortDescStable | backend/main.py:80 | For every key value, the elements with that key appear in the same order as in the input |
| Sorting.SortDescTiesOrdered | backend/main.py:80 | If the input is ordered by a second key, elements with equal first key stay ordered by that second key |
| Sorting.SortDescInPlace | backend/main.py:80 | The in-place insertion sort leaves the array equal to `SortDesc` of its old contents |
| Sorting.InsertInPlace | backend/main.py:80 | One insertion step turns the prefix up to `i` into `InsertDesc` of the old prefix and element `i`, and leaves the rest untouched |
| Dashboard.Priority | backend/main.py:64-65 | Every priority score is at most 100 |
| Dashboard.PriorityMonotoneInPopulation | backend/main.py:64-65 | For a fixed non-negative stress, a larger population never lowers the priority |
| Dashboard.PriorityNonNegative | backend/main.py:65 | A non-negative stress in a village with non-negative population gets a non-negative priority |
| Dashboard.EntryOf | backend/main.py:65-77 | The record for a row copies the village id, population and stress index unchanged, and carries the row's triage priority, which is at most 100 |
| Dashboard.Entries | backend/main.py:63-77 | Exactly one record is built per selected row |
| Dashboard.CrisisDashboard | backend/main.py:57-81 | Returns one record per selected row. The records are a permutation of the built ones, ordered by priority, descending. Equal priorities keep the stress-descending order of the selector. Each record has priority ≤ 100 and stress ≥ threshold |
| Dashboard.RankingProperties | backend/main.py:60-80 | The ranked records are sorted by priority, are exactly the built records, keep ties in stress order, and each comes from a row at or above the threshold |

## Left out

- Great-circle distance (backend/crud.py:6-13): the haversine trigonometry is
  not modelled. Distance is a function parameter `dist`, and the dispatch rule
  depends only on comparing its values. Its symmetry and its zero on equal
  points are not stated.
- Floating point: all arithmetic is on exact reals. `round` is modelled as
  exact half-to-even rounding of the real value, so a case where IEEE
  arithmetic (e.g. `0.05` not being exactly representable) rounds differently
  is not captured.
- The initial `float('inf')` nearest distance (backend/crud.py:69) is modelled
  as "no tanker kept yet". This matches the code because every modelled
  distance is finite.
- The formatted `message` strings (backend/crud.py:63, 90, 92) are left out.
  The outcome carries the plate, the distance rounded to one decimal, the
  radius and the village name. The success message's whole-kilometre figure
  (backend/crud.py:90) is formatted from the unrounded distance, so it cannot
  always be recovered from the outcome: 13.46 km is reported as 13.5 but the
  message says 13.
- Session plumbing (`db.add`, `commit`, `refresh`) is left out; the tables are
  in-memory sequences.
- Row orders the database leaves open. The model fixes one admissible order
  for each:
  - The tanker query at backend/crud.py:66 has no `ORDER BY`, so the order
    the loop at backend/crud.py:71 sees is unspecified. The model scans the
    tanker table in table order and skips unavailable tankers. The first-wins
    tie rule that `IsNearest` states is relative to that order.
  - The join's row order before `ORDER BY` is taken to be reading-table order.
  - Ties in `ORDER BY stress_index DESC` (backend/crud.py:56) are broken
    stably.
- Concurrency: dispatch takes no lock. Racing requests are not modelled;
  `NoRedispatch` covers only requests that follow one another.
- Database-assigned row ids of new readings, and the clock behind
  `record_date`, are not modelled. The timestamp is a parameter of
  `AddWaterData`. `predicted_stress_index` is copied through but never
  computed, as in the code.
- `create_village`, `get_villages`, the FastAPI application, CORS and the
  trivial routes (backend/main.py:1-55) are left out as I/O glue. That
  includes the 404 check in `create_water_data`.
- backend/seed.py, backend/init_db.py, backend/config.py and the frontend are
  left out. Seeding repeats the scorer's formula with random inputs.
