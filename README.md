# Timeline load-test harness, modelled in Dafny

The repository benchmarks the timeline endpoint (`GET /api/timeline?user=…&limit=…`) of a small
photo-sharing service. This model covers four of its parts:

- **Concurrency sweep** (`bench_conc.py`). For each PARAM value and each run, it fires one request per
  test identity `prefix1 … prefixPARAM` at the same time. It waits for all of them and folds the
  outcomes into `(avg_ms, failed)`. It writes one `PARAM,AVG_TIME,RUN,FAILED` row per configuration
  under a fresh header. Before any of this, a safety check refuses a PARAM larger than the number of
  seeded users.
- **Fan-out sweep** (`bench_fanout.py`). It uses the same probe and fold, but always with a fixed
  number of identities; PARAM is only recorded. It writes the header only when the table does not yet
  exist, and otherwise appends.
- **Table loader** (`load_and_prepare` in `make_plots.py`). It detects whether the first row is a
  header and names the columns. It drops the `FAILED != 0` rows and converts AVG_TIME to
  milliseconds (`10ms`, `0.01s`, `0,5`). It groups the rows by PARAM into mean and standard deviation,
  then sorts the groups by numeric PARAM.
- **Seeding tool** (`seed_improved.py`). It creates the users `prefix1 … prefixN` in the key-value
  store and gives each a random set of other users to follow. It then builds the posts with
  decreasing timestamps and writes them in batches. A dry run writes nothing.

Modules, one concept each:

| file | module | models |
|---|---|---|
| `wrappers.dfy` | `Wrappers` | `Option` and `Result` |
| `decimal.dfy` | `Decimal` | `str(int)`, decimal digit strings, numeric parsing |
| `identity.dfy` | `Identity` | `make_usernames` |
| `timeline.dfy` | `Timeline` | the probe's URL and the outcome of one probe |
| `stats.dfy` | `Stats` | sum and mean of a sample |
| `runner.dfy` | `Runner` | `run_one_config`: gather, then fold |
| `sweep.dfy` | `Sweep` | both drivers' `main`: plan, rows, safety check, header/append |
| `lex.dfy` | `Lex` | Python's string order |
| `plots.dfy` | `Plots` | `load_and_prepare` as a pipeline of functions over the parsed rows |
| `seed.dfy` | `Seed` | the store as a class `Datastore` (users map and post list), updated in place |

Both drivers turn I/O into parameters:

- **The network** is a function from (configuration number, request) to the outcome of that probe:
  it raised, or it finished with a latency and an HTTP status.
- **The output table** is its sequence of rows; `None` stands for a file that does not exist.

The seeding tool's store is a class whose methods change its two fields:

- `users` maps each user name to its follows list.
- `posts` holds the posts written so far.

The nondeterministic parts of the seeding tool are modelled as follows:

- `random.randint` and `random.sample` are nondeterministic choices within the bounds the program
  gives them.
- `datetime.utcnow()` is an integer number of seconds, passed in.
- Whether `put_multi` succeeds for batch `n` is an oracle `putOk(n)`.

The loader's header rule is the one in make_plots.py lines 23-28:

- The comment at line 23 describes a header as a first row holding non-numeric values such as PARAM.
- Lines 25-28 make that precise: the first row is a header iff SOME cell is a string that is not all
  digits once `.` and `-` are deleted. Numeric cells never make a header.
- So a first row like `PARAM,1,2,3` is a header, and so is `1e3,x` (`x` is not digits).

## Model

| member | source | states |
|---|---|---|
| Timeline.RStrip | bench_conc.py:24 | `rstrip('/')` removes exactly the trailing run of slashes: the result is a prefix of the input that does not end in a slash, and everything cut off is a slash |
| Timeline.UrlIgnoresTrailingSlashes | bench_conc.py:24 | a base address with any number of trailing slashes yields the same timeline URL as without them |
| Timeline.UrlOfCleanBase | bench_conc.py:24 | a base address without a trailing slash gets `/api/timeline` appended unchanged |
| Timeline.Classify | bench_conc.py:28-38 | a probe that raised becomes a crash (an `Exception` instance in the gathered results); a finished probe keeps its measured latency and is ok iff the reply status is 200 |
| Runner.Aggregate | bench_conc.py:59-76 | the fold loop returns the mean of the latencies of all non-crashed probes, refused ones included (NaN iff there are none), and counts crashed plus not-ok probes as failed |
| Runner.FailuresSplit | bench_conc.py:62-69 | failures are exactly crashes plus refusals, so never more than the number of probes |
| Runner.SampleSize | bench_conc.py:62-69 | the latency sample holds one value per probe that did not crash |
| Runner.SampleKeepsOrder | bench_conc.py:62-69 | the fold works piecewise: latencies are kept in result order and failure counts add up over any split of the results |
| Runner.AllCrashedIff | bench_conc.py:62-65 | every probe crashed iff the crash count equals the number of probes |
| Runner.NanIffAllCrashed | bench_conc.py:71-74 | AVG_TIME is NaN iff every probe crashed, and then every probe is counted as failed |
| Runner.AnyFailureIff | bench_conc.py:62-69 | the failure count is positive iff some probe crashed or was not ok (the condition behind FAILED = 1) |
| Runner.SummaryOrderIndependent | bench_conc.py:57-76 | the completion order of the concurrent probes does not matter: any permutation of the results gives the same `(avg_ms, failed)` |
| Runner.FoldPermutation | bench_conc.py:62-74 | permuted results have the same failure count, sample size and latency sum |
| Runner.RunOneConfig | bench_conc.py:51-57 | exactly one request per username, in username order, each to the timeline URL with that user and the limit; the summary is the fold of all their joined outcomes |
| Runner.OneRefusedOfFive | bench_conc.py:59-76 | four clean 15 ms probes and one refused probe of latency l give AVG_TIME (60 + l) / 5 and one failure: a refused probe's latency still counts in the mean |
| Stats.Mean | bench_conc.py:71-74 | the mean is undefined (NaN) exactly for an empty sample |
| Stats.SumAppend | bench_conc.py:72 | the sum of a concatenation is the sum of the parts |
| Stats.MeanBetween | bench_conc.py:72 | the mean of a non-empty sample lies between any lower and upper bound of its values |
| Decimal.NatToString | bench_conc.py:85 | `str(n)` is a non-empty digit string without a leading zero |
| Decimal.DigitsValueOfNatToString | bench_conc.py:85 | reading `str(n)` back as digits gives `n` |
| Decimal.IntToStringInjective | bench_conc.py:85 | different integers have different decimal texts |
| Decimal.DecimalOfDigits | make_plots.py:67 | `float` of a digit string is its value |
| Decimal.DotOfParts | make_plots.py:67 | the only dot of `w.f`, for digit strings `w` and `f`, is the one between them |
| Decimal.DecimalOfParts | make_plots.py:67 | `float("w.f")` is the whole part plus the fraction; either part may be empty, not both |
| Decimal.DecimalAtDot | make_plots.py:67 | text of digits and one dot reads as the digits before the dot plus the fraction after it |
| Decimal.ParseNumberOfIntToString | make_plots.py:80 | a numeric conversion reads `str(i)` back as `i`, sign included |
| Identity.UsernamesDistinct | bench_conc.py:79-85 | `make_usernames` returns `max(count, 0)` names, the i-th being `prefix + str(start + i)`, and no two are equal |
| Identity.UsernamesPrefix | bench_conc.py:85 | the names of a smaller count are the first names of a larger one |
| Sweep.RunSweep | bench_conc.py:151-174 | the nested loops append exactly one data row per (PARAM, RUN) pair, in parameter-major, run-minor order, after the rows already in the file, and send exactly that configuration's requests |
| Sweep.RunParam | bench_conc.py:152-174 | the inner loop over RUN = 1..runs extends the file and the traffic by one configuration per run |
| Sweep.PlanExtend | bench_conc.py:151-174 | one more configuration adds exactly its row and its requests at the end |
| Sweep.MaxIsUpperBound | bench_conc.py:136 | `max(params)` bounds every parameter and is one of them |
| Sweep.RejectedIff | bench_conc.py:136-139 | the safety check aborts iff the list is empty (where `max` raises) or some PARAM exceeds `max_users`; a PARAM equal to it passes |
| Sweep.ConcurrencyMain | bench_conc.py:135-174 | a rejected sweep leaves the file as it was and sends nothing; otherwise the file is rewritten as the header followed by one row per configuration |
| Sweep.PlanLength | bench_conc.py:151-152 | the sweep runs `len(params) * max(runs, 0)` configurations |
| Sweep.PlanOrder | bench_conc.py:151-152 | configuration `i * runs + j` is PARAM `params[i]` with RUN `j + 1` |
| Sweep.PlanMembers | bench_conc.py:151-152 | every configuration's PARAM is one of the given parameters and its RUN lies in 1..runs |
| Sweep.RowsAreData | bench_conc.py:174 | the sweep itself only writes data rows, never a header |
| Sweep.RowFacts | bench_conc.py:162-174 | each row records its configuration's PARAM and RUN; FAILED is 1 iff some probe of that configuration crashed or was not ok, else 0; AVG_TIME is NaN iff every probe crashed |
| Sweep.ConfigIdentities | bench_conc.py:155 | a configuration probes `max(count, 0)` distinct identities, the j-th being `prefix + str(j + 1)`, each at the timeline URL with the configured limit |
| Sweep.ProvisionedIdentitiesSuffice | bench_conc.py:136-155 | a sweep that passes the safety check only probes identities among `prefix1 … prefix{max_users}` |
| Sweep.FanoutMain | bench_fanout.py:114-138 | the header is written iff the table did not exist; an existing table keeps all its rows and gains only data rows (no second header); every run uses the fixed concurrency |
| Sweep.FanoutIgnoresParam | bench_fanout.py:124 | every fan-out configuration sends the same `concurrency` requests, whatever its PARAM |
| Plots.StripLeft | make_plots.py:32 | left stripping removes exactly the leading whitespace |
| Plots.StripRight | make_plots.py:32 | right stripping removes exactly the trailing whitespace |
| Plots.Upper | make_plots.py:32 | upper-casing maps every character and keeps the length |
| Plots.Lower | make_plots.py:61 | lower-casing maps every character and keeps the length |
| Plots.CleanIdempotent | make_plots.py:32-44 | normalising a label a second time (line 44 after line 32) changes nothing |
| Plots.Remove | make_plots.py:26 | `replace(c, '')` leaves exactly the characters other than `c` |
| Plots.HeaderRule | make_plots.py:24-28 | the first row is a header iff some cell is a string that has no digit, or has a character other than a digit, `.` or `-` |
| Plots.DigitTextAfterRemoval | make_plots.py:26 | a string is all digits after deleting `.` and `-` iff it has a digit and nothing but digits, dots and dashes |
| Plots.DigitsLeftMeanNumber | make_plots.py:26 | digits left after the deletions mean the string was made of digits, dots and dashes with at least one digit |
| Plots.NumberLeavesDigits | make_plots.py:26 | a string made of digits, dots and dashes with a digit leaves only digits after the deletions |
| Plots.HeaderNames | make_plots.py:32 | a header gives one label per cell: a text cell's label is its text stripped and upper-cased, and a numeric cell keeps its value as its label |
| Plots.ExtraNames | make_plots.py:41 | the extra default names are the `n - 2` labels `COL2` … `COL{n-1}`: the j-th is `COL` followed by `str(j + 2)` |
| Plots.DefaultNamesShape | make_plots.py:35-41 | without a header the names fit any width of at least two and start with PARAM, AVG_TIME; FAILED is among them only for four columns and RUN only for three or four |
| Plots.Normalize | make_plots.py:44 | every text label is stripped and upper-cased again and a numeric label is kept, one label per column |
| Plots.Prepare | make_plots.py:21-44 | naming fails iff the table is empty or has no header and fewer than two columns. Under a header, each text cell of the first row gives its stripped, upper-cased text as its column's label, a numeric cell keeps its value, and the data are the rows after it. Without a header the labels are exactly the default names for the width, and the data are all rows |
| Plots.CleanFixed | make_plots.py:44 | a label with no whitespace at either end and no lower-case letter is unchanged by `strip().upper()` |
| Plots.HeaderNamesClean | make_plots.py:32-44 | the second normalisation at line 44 leaves the header labels exactly as line 32 made them |
| Plots.DefaultNamesClean | make_plots.py:36-44 | the default names are already clean, so line 44 leaves them unchanged |
| Plots.CountedNameClean | make_plots.py:41-44 | a `COL{k}` label is already clean |
| Plots.Find | make_plots.py:46-47 | a label is found iff it is present, and then at a position that holds it |
| Plots.FilterExactly | make_plots.py:56 | a boolean mask filters piecewise and keeps exactly the rows that pass, in order |
| Plots.FilterMembers | make_plots.py:56 | a kept row is a row of the input that passes the mask |
| Plots.KeepSucceededExactly | make_plots.py:53-56 | the FAILED filter keeps exactly the rows whose FAILED cell coerces to 0 (unparsable cells count as 0), in order |
| Plots.Survivors | make_plots.py:53-56 | the rows that survive the filter are rows of the table |
| Plots.LeadingRun | make_plots.py:63 | the leading run is the longest prefix made of digits, dots and commas |
| Plots.FirstRun | make_plots.py:63-65 | the pattern finds no match iff the text has no digit, dot or comma; a match is never empty |
| Plots.FirstRunLeftmost | make_plots.py:63 | a match starts at a digit, dot or comma with none before it, and is the longest run of them from there: `re.search` takes the leftmost match and `+` is greedy |
| Plots.FirstRunAt | make_plots.py:63 | when position `i` holds the first digit, dot or comma of the text, the match is the longest run starting at `i` |
| Plots.FirstRunAfter | make_plots.py:63 | text without digits, dots or commas in front of a run does not change the match |
| Plots.FirstNumChar | make_plots.py:63 | text that has a digit, dot or comma has a first one |
| Plots.Replace | make_plots.py:66 | replacing one character by another maps every position and keeps the length |
| Plots.ToMs | make_plots.py:60-75 | a conversion error is always the parse error of `float` on the matched run; a numeric cell converts to its magnitude, since the pattern skips the minus sign |
| Plots.ToMsNaN | make_plots.py:63-65 | a cell becomes NaN exactly when it is text without any digit, dot or comma |
| Plots.ToMsOfCleanText | make_plots.py:61 | stripping and lower-casing text that is already clean changes nothing |
| Plots.ToMsBare | make_plots.py:74-75 | any run of digits, dots and commas that `float` accepts once its commas are dots (such as `15`, `0.5` or `0,5`), standing alone, is taken as that many milliseconds |
| Plots.ToMsMillis | make_plots.py:70-71 | such a number followed by `ms`, with or without blanks between, keeps its value |
| Plots.ToMsSeconds | make_plots.py:72-73 | such a number followed by `s`, with or without blanks between, is seconds, multiplied by 1000 |
| Plots.TextToMsOfRun | make_plots.py:60-75 | in cleaned text with no digit, dot or comma before a number and none right after it, the number (commas read as dots) is what `to_ms` converts, with the unit rule applied to the whole text |
| Plots.RunInText | make_plots.py:63 | in such text the match is exactly that number |
| Plots.TextToMsOfFirstRun | make_plots.py:63-75 | once the match reads as `v`, the result is `v` under the unit rule |
| Plots.UnitAfterRun | make_plots.py:63-73 | a number followed by blanks and a lower-case unit converts to that number under the unit rule |
| Plots.CleanRun | make_plots.py:61 | a number, blanks and a lower-case unit are unchanged by `strip().lower()` |
| Plots.CleanNumber | make_plots.py:61 | a bare number is unchanged by `strip().lower()` |
| Plots.FirstRunWhole | make_plots.py:63 | a text made only of digits, dots and commas is its own match |
| Plots.NoMillis | make_plots.py:70 | text without an `m` contains no `ms` |
| Plots.HasMillis | make_plots.py:70 | text with `m` then `s` at some position contains `ms` |
| Plots.ReadsInteger | make_plots.py:66-67 | a digit string reads as its value |
| Plots.ReadsDecimal | make_plots.py:66-67 | `w.f` and `w,f` both read as the whole part plus the fraction, since the comma becomes a dot |
| Plots.ToMsExampleMillis | make_plots.py:59 | `10ms` converts to 10 ms |
| Plots.ToMsExampleSpacedMillis | make_plots.py:59 | `10 ms` converts to 10 ms |
| Plots.ToMsExampleSeconds | make_plots.py:59 | `0.01s` converts to 10 ms |
| Plots.ToMsExampleCommaSeconds | make_plots.py:59 | `0,01s` converts to 10 ms |
| Plots.ToMsExampleComma | make_plots.py:66-75 | `0,5` converts to 0.5 ms |
| Plots.LeadingRunStops | make_plots.py:63 | the run stops exactly where the digits, dots and commas end |
| Plots.ColumnCells | make_plots.py:77 | a column holds the k-th cell of every row, in row order |
| Plots.Collect | make_plots.py:77 | mapping fails iff some cell fails, with that cell's error; otherwise each PARAM is paired with its converted time |
| Plots.Convert | make_plots.py:77 | converting the kept rows fails iff some AVG_TIME fails to parse; otherwise each row's PARAM is paired with its converted time |
| Plots.Select | make_plots.py:46-77 | selection fails iff PARAM or AVG_TIME is missing (reported as missing columns) or some surviving row's AVG_TIME is refused by `float` (reported as a parse error); otherwise every surviving row contributes its PARAM and its converted AVG_TIME, in order |
| Plots.Dedup | make_plots.py:83-84 | the distinct PARAM values, each once |
| Plots.Variance | make_plots.py:85-91 | the square of the standard deviation is never negative, and is 0 below two values |
| Plots.SumSquaresNonNegative | make_plots.py:85 | a sum of squared deviations is never negative |
| Plots.GroupBy | make_plots.py:83-88 | there is one group per distinct PARAM value and no other; each group holds the mean and variance of the non-NaN AVG_TIME values of its PARAM |
| Plots.GroupsPartition | make_plots.py:83-88 | the groups partition the measured values: every non-NaN AVG_TIME lands in exactly one group |
| Plots.KeysPartition | make_plots.py:83-88 | any duplicate-free grouping covering every PARAM counts every measured value once |
| Plots.BeforeTotal | make_plots.py:95 | any two groups are ordered one way or the other |
| Plots.BeforeTransitive | make_plots.py:95 | the sort order is transitive |
| Plots.Insert | make_plots.py:95 | inserting into a sorted list keeps it sorted and adds exactly the new group |
| Plots.SortGroups | make_plots.py:93-95 | the result is sorted by PARAM_NUM (NaN last, PARAM as tie-break) and is a permutation of the groups |
| Plots.SortKeepsDistinct | make_plots.py:95 | sorting keeps one group per PARAM value |
| Plots.SortedMeaning | make_plots.py:95 | in a sorted list, numeric PARAMs come first, in ascending numeric order |
| Lex.LexLtOrder | make_plots.py:95 | Python's string order, the PARAM tie-break, is a strict total order |
| Plots.LoadErrors | make_plots.py:21-77 | each error has exactly its cause: an empty table; no header and fewer than two columns; no PARAM or AVG_TIME column after naming; a surviving AVG_TIME that `float` refuses |
| Plots.LoadedGroups | make_plots.py:10-97 | a loaded table holds one line per PARAM value, numeric PARAMs first in ascending order, each line carrying its own PARAM_NUM |
| Plots.CanonicalHeaderIsHeader | make_plots.py:23-28 | the drivers' header `PARAM,AVG_TIME,RUN,FAILED` is detected as a header |
| Plots.CanonicalHeaderNames | make_plots.py:30-44 | that header names the columns exactly as the defaults for four columns do |
| Plots.HeaderOptional | make_plots.py:21-44 | a four-column table without a header loads exactly like the same rows under the drivers' header |
| Seed.SeedNames | seed_improved.py:127 | the seeded names are `make_usernames(prefix, users, 1)` |
| Seed.SeedNamesDistinct | seed_improved.py:127 | there are `max(users, 0)` seeded names and no two are equal |
| Seed.InsertName | seed_improved.py:68 | inserting a name into a strictly sorted list keeps it strictly sorted and adds exactly that name |
| Seed.SortedSet | seed_improved.py:68 | `sorted(set(xs))` is strictly sorted and holds exactly the names of `xs` |
| Seed.SortedSetUnique | seed_improved.py:68 | two strictly sorted lists with the same names are equal, so `sorted(set(…))` is determined |
| Seed.MergeFollows | seed_improved.py:67-68 | the new follows list is strictly sorted and holds exactly the old follows and the selection |
| Seed.AddUsers | seed_improved.py:40-51 | user creation adds exactly the missing names, each with no follows, and leaves existing users as they were |
| Seed.NewCountIsNewNames | seed_improved.py:40-51 | a real run counts each distinct missing name exactly once |
| Seed.DryCountMatches | seed_improved.py:45-50 | on distinct names the dry-run count equals the real count |
| Seed.DryCountsRepeats | seed_improved.py:45-50 | on a repeated missing name the dry run counts 2 where a real run creates 1 |
| Seed.EnsureUsersIdempotent | seed_improved.py:40-51 | once the names exist, creating the users again changes nothing and reports 0 |
| Seed.AddUsersTwice | seed_improved.py:40-51 | a second creation pass changes nothing and creates nothing |
| Seed.Others | seed_improved.py:61 | the others of a user are exactly the other names |
| Seed.OthersDistinct | seed_improved.py:61 | the others of duplicate-free names are duplicate-free |
| Seed.DrawNeverSelf | seed_improved.py:61-65 | a user never draws themself: every selected name is another seeded name |
| Seed.DrawDistinct | seed_improved.py:65 | a selection drawn from duplicate-free names has no duplicates |
| Seed.Sample | seed_improved.py:65 | `random.sample` returns `k` elements taken from distinct positions of the pool |
| Seed.Draw | seed_improved.py:64-65 | a draw picks between `min(fmin, n)` and `min(fmax, n)` of the `n` other names; it raises only on an empty range or a negative count, and always succeeds when `0 <= fmin <= fmax` |
| Seed.CoverPick | seed_improved.py:55-65 | a draw for the user just looked up keeps every looked-up user covered |
| Seed.FollowsStep | seed_improved.py:67-71 | storing one merged list keeps the keys, changes only that user, loses no follow, adds only other seeded names and leaves the list sorted |
| Seed.PicksStoredStep | seed_improved.py:67-71 | after a store every selection drawn so far is among its user's follows |
| Seed.Applied | seed_improved.py:67-71 | applying picks in order stores, for each pick whose user exists, the merge of that user's list with the selection; it never adds or removes a user |
| Seed.AppliedPick | seed_improved.py:67-71 | with one pick per user, a picked user ends with exactly the merge of their old list and their selection |
| Seed.AppliedUntouched | seed_improved.py:55-63 | a user without a pick keeps their old list |
| Seed.AppliedStep | seed_improved.py:67-71 | one more pick updates only its user, with the merge of that user's current list and the selection |
| Seed.PickStep | seed_improved.py:55 | each pick belongs to a name already visited, and distinct names give one pick per user |
| Seed.ChunkSizes | seed_improved.py:100-101 | every batch holds between 1 and `batch_size` posts |
| Seed.ChunksFlatten | seed_improved.py:100-101 | the batches put back together are all the posts, in order |
| Seed.ChunksCount | seed_improved.py:98 | there are `(len + batch_size - 1) // batch_size` batches, the count the program prints |
| Seed.CeilDiv | seed_improved.py:98 | the least number of batches covering the posts is `(len + batch_size - 1) // batch_size` |
| Seed.ChunkAt | seed_improved.py:100-102 | batch `k` is the slice starting at `k * batch_size`, and a batch `k` exists iff that offset is inside the list |
| Seed.StoredBound | seed_improved.py:106-112 | the posts stored by the first `k` batches are at most those posts, and are exactly them when every put succeeds |
| Seed.WrittenBound | seed_improved.py:106-112 | a non-dry run writes at most all posts, and writes exactly all of them, in order, when every batch put succeeds |
| Seed.WrittenNothing | seed_improved.py:96-112 | no posts means nothing is written |
| Seed.TimestampsDecrease | seed_improved.py:90-93 | the generated posts have strictly decreasing timestamps in list order |
| Seed.BuildPosts | seed_improved.py:84-94 | post `i` is written by one of the users, reads `Seed post {i+1} by {author}` and is stamped `base - i` seconds |
| Seed.Datastore.constructor | seed_improved.py:125 | a client starts on the given store contents |
| Seed.Datastore.EnsureUsers | seed_improved.py:40-51 | a real run adds the missing users with empty follows and counts them once each; a dry run writes nothing and counts every missing occurrence |
| Seed.Datastore.AssignFollows | seed_improved.py:54-71 | a real run ends with exactly the lists obtained by applying the picks in name order, each pick merging its selection into its user's list; keys never change, no follow is lost, new follows are other seeded names and changed lists are sorted; a dry run writes nothing; every stored user with another name to follow got a valid draw, at most one per user when the names are distinct; it succeeds whenever `0 <= fmin <= fmax` |
| Seed.Datastore.WriteBatches | seed_improved.py:96-116 | the posts of every successful batch are appended in batch order, and the count is their number |
| Seed.Datastore.CreatePosts | seed_improved.py:74-120 | no users or no posts gives 0 and writes nothing; a dry run reports all planned posts and writes none; a zero batch size raises; a negative one writes nothing; otherwise the successful batches are written and counted |
| Seed.Datastore.Run | seed_improved.py:74-145 | a dry run leaves the store unchanged and reports every planned post as created. A real run ends with exactly the old users plus the seeded ones, and their lists are the old lists with the picks applied. The reported new-user count is the number of distinct missing names. There are `posts` planned posts when there are users and `posts` is positive, none otherwise, and post `i` is by a seeded user, reads `Seed post {i+1} by {author}` and is stamped `base - i`. A real run appends exactly the posts of the successful batches when the batch size is positive and nothing otherwise, and reports their number. A failed run writes no post; it fails only with a follow-range error, which needs `fmin < 0` or `fmin > fmax`, or with a zero-batch-size error, which needs a real run with users, a positive post count and batch size 0. The run succeeds whenever `0 <= fmin <= fmax` and, in a real run, the batch size is not 0, and with valid bounds a real run with users, posts and batch size 0 fails with the zero-batch-size error |

## Left out

- HTTP, `aiohttp`, `asyncio` and `time.perf_counter` are left out. A probe's outcome and latency come from the network oracle, so concurrency and timing themselves are not modelled.
- The `print` progress lines, the `%.2f` formatting of AVG_TIME and the `nan` literal are left out. AVG_TIME is kept as an exact real, or `None` for NaN.
- Argument parsing, `os.makedirs` and the CSV writer are left out. Arguments are parameters, and the table is a sequence of rows.
- The loader's separator sniffing and the CSV reader's typing of cells are left out. The loader starts from rows of typed cells, all of one width; a ragged file is not modelled.
- The loader's `FileNotFoundError` is not modelled, because the file system is not part of this model.
- Python's float repr is not modelled: `to_ms` on a numeric cell works on its value, not on `str(x)`. Exponent forms such as `1e-05` are left out.
- Case mapping and digits cover ASCII only: Unicode `upper`, `lower` and `isdigit` are not modelled. `strip` removes Python's full set of whitespace characters.
- `pd.to_numeric` is modelled for an optional sign followed by digits with at most one dot. Exponents, `inf` and `nan` texts are left out.
- Plots.HeaderNames: a numeric cell in a detected header keeps its value as a numeric label, whereas line 32 turns it into the text label `str(x).strip().upper()` (such as `1.0`), because the float repr is not modelled.
- Plots.HeaderOptional: the lemma is about the model's typed cells. The real CSV reader, seeing the header line in a column, types every cell of that column as text, so a headered file gives text cells where the headerless file gives numbers.
- Plots.GroupBy: an empty PARAM cell (NaN in pandas, whose `groupby` drops it) is not modelled, because cells are numbers or text.
- Plots.Select: duplicate column names are not modelled; the first column with a label is used.
- Plots.Variance: it is the square of pandas' `std`, since the square root of a real is not modelled. A single-sample group gives 0, as `fillna(0.0)` does.
- Plots.SortGroups: ties between a numeric and a text PARAM label with the same PARAM_NUM are ordered by a fixed rule (numbers first), not by pandas' mixed-type comparison.
- `make_barplot` and the plotting `main` in make_plots.py are not modelled, because they only draw charts.
- reset_datastore.py is not part of this model.
- Seed.Datastore.WriteBatches: a failed `put_multi` is taken to write none of its batch, although the real store may commit part of it.
- `time.sleep(0.5)` after every tenth batch is not modelled, because it only delays the run.
- `datetime.utcnow()` and `timedelta` are an integer count of seconds passed in as `base`.
- `random.choice`, `random.randint` and `random.sample` are nondeterministic choices. The model proves every result is within their bounds, not how likely it is.
- The seeding tool's uncaught exceptions are modelled as a `Failure` result. A raising `randint`/`sample` is `FollowRange`, and `// 0` on a zero batch size is `ZeroBatchSize`.
- Seed.Datastore.AssignFollows: it stops at the first raising draw but keeps the lists already stored, as the program does before it aborts.
- Timeline.Classify: `Raised` stands for an `Exception` instance delivered by `asyncio.gather`. A gathered `BaseException` that is not an `Exception`, such as `asyncio.CancelledError`, is not modelled.
- Runner.Aggregate: such a `BaseException` fails the `isinstance(r, Exception)` test at bench_conc.py line 63 (bench_fanout.py line 43), so the unpack `latency_ms, ok = r` raises `TypeError` and aborts the whole run. The model has no aborted outcome for it; Runner.RunOneConfig and the sweeps inherit that gap.
- bench_fanout.py repeats `fetch_timeline`, `run_one_config` and `make_usernames` from bench_conc.py with the same logic, so they are modelled once.
- The google-cloud `datastore` client is modelled by the `users` map and the `posts` list. Keys, entities and the project's configuration are not modelled.
