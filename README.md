# TV show length: a verified model

The repository is a pair of small programs.

- **TvShowLength** (`TvShowLength/Program.cs`) is a command-line tool. It takes a show title as its first argument. It searches the TVmaze catalog for that title and picks the hit with the most recent premiere date. It then fetches that show's episodes, sums their runtimes in minutes and prints the total. Exit code 0 means success, 10 means no show was found, and 1 means any failure.
- **tv-time** (`tv-time.py`) is a batch driver. It reads titles from standard input, one per line, and runs the tool once per title. It keeps the runs that printed an integer, then prints the shortest and the longest show in hours and minutes. When there are no titles or no usable runtime, it exits 1.

The model has these modules:

- `Options`: an `Option` type.
- `Selection`: `KeptIndices`, the positions an order-preserving filter keeps.
- `TvShowLength`: the tool's `Main`, as a pure function `Run` of the arguments and of the two HTTP calls. The calls are parameters that return already-parsed responses. `Run` returns a `Trace`: the requests it issued and how the run ended (`Ok(total)`, `Fail` or `NotFound`). `ExitCode` and `Stdout` turn the outcome into the exit code and the output.
  - The sort in `OrderByDescending(premiered).First()` is modelled by a stable insertion sort. It is proved sorted and a permutation of its input, and its first element is proved to be the first of the latest-premiered shows (`LatestIndex`). A missing or null date sorts below every date, as `Comparer<DateTime?>.Default` orders them.
  - The runtime sum follows `Enumerable.Sum` on `int`. The addition is checked, so any partial sum outside the 32-bit range fails the run. A present runtime the `(int)` conversion rejects, JSON null included, also fails the run.
- `PyStr`: the two Python string operations the driver relies on, `str.strip()` and `int()` of a string.
- `TvTime`: the driver.
  - `load_data` and the task loop are loop methods, `LoadData` and `GatherResults`. Each is proved against a specification function.
  - `get_show_runtime` is the function `ShowRuntime` of a completed run (its exit code and decoded output). The tool itself is a parameter.
  - The rest of `main` is `Summarise`, proved to report the first shortest and the first longest show.
- `Pipeline`: the two programs together. The driver reads back from the tool's output exactly the total the tool computed, and records no runtime when the tool failed or found nothing.

An episode whose `runtime` is JSON null is not skipped. The filter `episode["runtime"] != null` (`TvShowLength/Program.cs:81`) compares the token to a null reference. A JSON null is a token, not a null reference, so it passes the filter, and the `(int)` cast at line 82 then throws: the run exits 1. `NullRuntimeFails` states this case, and `AbsentRuntimesAddNothing` states the case of a missing key.

## Model

| member | source | states |
|---|---|---|
| TvShowLength.ExitCode | TvShowLength/Program.cs:23-93 | The exit code of the `return` statements at lines 23, 48, 58, 73, 86 and 93 is 0, 1 or 10: 0 exactly for a printed total, 10 exactly for "show not found" |
| TvShowLength.Run | TvShowLength/Program.cs:17-95 | Wrong argument count: no request and failure. Otherwise the first request searches for the first argument, and a failed search ends there with failure. "Not found" exactly when the search succeeds with an empty array. A second request is made exactly when the search succeeds with readable hits and the first latest-premiered hit has an id, and it asks for the episodes of that id. A failed episode request fails the run. Success exactly when that listing converts and sums without overflow, and the total is then the sum of the runtimes |
| TvShowLength.ListEpisodes | TvShowLength/Program.cs:67-86 | Once a show is selected, the run has asked for the search and then for that show's episodes. It succeeds exactly when the listing succeeds, every present runtime converts and no partial sum overflows, and the total is then the sum of the runtimes. It never ends with "not found" |
| TvShowLength.OrderByDescending | TvShowLength/Program.cs:62-63 | The ordered shows are a permutation of the hits, in descending premiere order, with a missing date below every date |
| TvShowLength.Insert | TvShowLength/Program.cs:62-63 | Inserting a show adds exactly that show, and the head is either the new show or the old head |
| TvShowLength.InsertSorted | TvShowLength/Program.cs:62-63 | Inserting into a descending sequence keeps it descending |
| TvShowLength.NotBeforeChains | TvShowLength/Program.cs:63 | "Not before" on nullable dates is transitive, so the comparer is a strict weak order |
| TvShowLength.PremieredBefore | TvShowLength/Program.cs:63 | `Comparer<DateTime?>.Default` on premiere dates: a missing date is before every date, and no date is before itself |
| TvShowLength.PremieredBeforeAsymmetric | TvShowLength/Program.cs:63 | Of two dates at most one is before the other |
| TvShowLength.LatestIndex | TvShowLength/Program.cs:62-64 | The selected position has a date no other hit is later than, every earlier hit is strictly earlier, a dated hit implies a dated selection at least as late, and with no date the first hit is selected |
| TvShowLength.FirstOrderedIsLatest | TvShowLength/Program.cs:62-64 | `First()` of the ordered shows is the hit at `LatestIndex` |
| TvShowLength.ReadShows | TvShowLength/Program.cs:62-63 | The sort keys can be read exactly when every hit is readable, and then the i-th show is the `show` object of the i-th hit |
| TvShowLength.CheckedSum | TvShowLength/Program.cs:80-82 | The checked `Sum` continued from a running total: when it succeeds, its value is that total plus the sum of the converted runtimes (the conditions for success are in `CheckedSumMeaning`) |
| TvShowLength.CheckedSumMeaning | TvShowLength/Program.cs:80-82 | The checked left-to-right sum succeeds exactly when every present runtime converts and every partial sum fits in an `int`, and its value is the true sum |
| TvShowLength.PartialSumsStep | TvShowLength/Program.cs:82 | All partial sums fit exactly when the running total fits and all partial sums of the rest fit from the next total |
| TvShowLength.RuntimeSumSplit | TvShowLength/Program.cs:82 | The sum of the runtimes splits at any position into the sums of the two parts |
| TvShowLength.NonNegativeSum | TvShowLength/Program.cs:82 | Non-negative runtimes have a non-negative sum |
| TvShowLength.NonNegativeFits | TvShowLength/Program.cs:82 | With non-negative runtimes, only the final total can overflow |
| TvShowLength.TotalRuntime | TvShowLength/Program.cs:80-82 | The printed total exists exactly when nothing throws, and it equals the sum of the converted runtimes, missing keys adding nothing. With non-negative runtimes, it exists whenever the sum is at most `int.MaxValue` |
| TvShowLength.AbsentRuntimesAddNothing | TvShowLength/Program.cs:81 | No episodes sum to 0, and episodes without a runtime key are skipped (30, missing, 22 give 52) |
| TvShowLength.NullRuntimeFails | TvShowLength/Program.cs:81-82 | A JSON-null runtime passes the filter and makes the conversion throw, so the total fails |
| TvShowLength.DecimalDigits | TvShowLength/Program.cs:84 | The decimal rendering of a magnitude is non-empty and made of digits |
| TvShowLength.FormatInt | TvShowLength/Program.cs:84 | `Console.WriteLine(int)` renders a non-empty text that starts with a minus sign exactly for a negative number; `Pipeline.ParseFormatted` proves it reads back as the number |
| TvShowLength.Stdout | TvShowLength/Program.cs:84-86 | Output is written exactly when the run succeeds |
| PyStr.StripLeftMeaning | tv-time.py:27 | Stripping the start leaves a suffix, removes only whitespace and stops at the first non-whitespace character |
| PyStr.StripRightMeaning | tv-time.py:27 | Stripping the end leaves a prefix, removes only whitespace and stops at the last non-whitespace character |
| PyStr.StripBoth | tv-time.py:27 | Stripping both ends leaves the slice between the leading and the trailing whitespace |
| PyStr.SpacesBeyond | tv-time.py:27 | Whitespace at the end of a suffix is whitespace at the end of the whole string |
| PyStr.StripMeaning | tv-time.py:27-28 | `strip()` gives a slice with only whitespace around it. A non-empty result neither starts nor ends with whitespace, and the result is empty exactly when the line is all whitespace |
| PyStr.StripIdempotent | tv-time.py:27 | Stripping twice is stripping once |
| PyStr.StripTrailingSpace | tv-time.py:50 | A string without surrounding whitespace, followed by a newline, strips back to itself |
| PyStr.IsSpace | tv-time.py:27 | The whitespace set of `str.isspace()`, which `strip()` removes; no digit, sign or underscore is whitespace |
| PyStr.StripLeft | tv-time.py:27 | Removing leading whitespace never lengthens the text; what it removes and where it stops is stated by `StripLeftMeaning` |
| PyStr.StripRight | tv-time.py:27 | Removing trailing whitespace never lengthens the text; what it removes and where it stops is stated by `StripRightMeaning` |
| PyStr.Strip | tv-time.py:27 | `str.strip()` as used at lines 27 and 50: never lengthens the text; its full meaning (the slice between the surrounding whitespace) is stated by `StripMeaning` and `StripIdempotent` |
| PyStr.ParseInt | tv-time.py:50-54 | `int()` of already-stripped text: a result only for text that neither starts nor ends with whitespace, and a negative value only with a leading minus sign. Anything else is a `ValueError` (None) |
| PyStr.ParseNegative | tv-time.py:50 | A minus sign followed by well-formed digits parses as the negated digit value |
| TvTime.ExitStatus | tv-time.py:31-33 | The driver exits 0 exactly when it prints the two report lines, otherwise 1 |
| TvTime.TitlesAt | tv-time.py:26-29 | The k-th title is the stripped k-th non-blank line, and there is one title per non-blank line |
| TvTime.TitlesSnoc | tv-time.py:26-29 | A further line adds its stripped form exactly when it is not blank |
| TvTime.TitlesEmpty | tv-time.py:31 | There are no titles exactly when every line is blank |
| TvTime.TitlesAreStripped | tv-time.py:27-29 | Every title is non-empty and has no surrounding whitespace |
| TvTime.LoadData | tv-time.py:22-35 | `load_data` returns the titles, and fails (exit 1) exactly when every line is blank |
| TvTime.ShowRuntime | tv-time.py:39-57 | A show keeps its name. It gets a runtime exactly when the tool exited 0 and its stripped output parses as an integer, and the runtime is that integer |
| TvTime.GatherResults | tv-time.py:62-68 | There is one result per title, in title order, each the result of that title's run |
| TvTime.ValidResults | tv-time.py:71 | The valid results are the results with a runtime, in their original order: the k-th valid result is the result at the k-th kept position. There are none exactly when no result has a runtime |
| TvTime.ShortestFrom | tv-time.py:78 | The scan ends at a runtime no result is below, and every earlier result is strictly longer, so it is the first shortest |
| TvTime.LongestFrom | tv-time.py:79 | The scan ends at a runtime no result exceeds, and every earlier result is strictly shorter, so it is the first longest |
| TvTime.Shortest | tv-time.py:78 | `min(valid_results, key=runtime)`: a valid result no other is shorter than, with every earlier one strictly longer, so the first shortest |
| TvTime.Longest | tv-time.py:79 | `max(valid_results, key=runtime)`: a valid result no other is longer than, with every earlier one strictly shorter, so the first longest |
| TvTime.LineFor | tv-time.py:82-86 | The line for a result keeps its name, and its hours and minutes recombine to its runtime with minutes in 0..59 |
| TvTime.HoursAndMinutes | tv-time.py:85-86 | `divmod(runtime, 60)` gives hours and minutes that recombine to the runtime, with minutes in 0..59 |
| TvTime.HoursAndMinutesUnique | tv-time.py:85-86 | These are the only hours and minutes with that property |
| TvTime.ValidResultIsFirst | tv-time.py:71-79 | A valid result with no earlier equal runtime is the first result in the whole list with that runtime |
| TvTime.ValidResultsCover | tv-time.py:71 | Every result with a runtime is among the valid results |
| TvTime.ExtremesReported | tv-time.py:77-90 | The two lines report the first shortest and the first longest result, and every runtime lies between them |
| TvTime.Summarise | tv-time.py:70-90 | There is no valid data exactly when no result has a runtime. Otherwise the two printed lines name the first shortest and the first longest show, every runtime lies between them, and the minutes are below 60 |
| TvTime.Run | tv-time.py:60-90 | `main` reports what `ReportFor` determines from the input and the tool, and ends with "no shows" exactly when every input line is blank |
| Pipeline.DigitsRoundTrip | tv-time.py:50 | The digits the tool prints are well-formed for `int()` and read back as the number printed |
| Pipeline.ToolRun | tv-time.py:40-46 | What the driver reads back from one run of the tool: exit code 0 exactly when the tool succeeded, 10 exactly when no show was found, and non-empty output exactly on success |
| Pipeline.ParseDigits | tv-time.py:50 | `int()` of a printed non-negative total is that total |
| Pipeline.ParseNegatedDigits | tv-time.py:50 | `int()` of a minus sign and printed digits is the negated number |
| Pipeline.ParseFormatted | tv-time.py:50 | `int()` of any printed total, sign included, is that total |
| Pipeline.StdoutReadsBack | tv-time.py:50 | The tool's output line, stripped and parsed, is the total it printed |
| Pipeline.ToolResultClassified | tv-time.py:48-57 | The driver records a runtime for a title exactly when the tool printed a total, and that runtime is the total. A failure or "not found" leaves the title without one |

## Left out

- The HTTP client setup is not modelled: the base address, the `Accept` header, and the query inserted into the URL without escaping. The two GET calls are parameters of `TvShowLength.Run`, keyed by their path argument.
- JSON parsing and the conversion of `premiered` to `DateTime?` are abstracted. A body that is not a JSON array is `body == None`. A hit whose sort key cannot be computed is `Unreadable`. A runtime the `(int)` cast rejects is `Other`. Dates are day numbers, because only their order matters.
- The two report lines (`tv-time.py:89-90`) are not rendered as text: the model keeps each as a `Line(name, hours, minutes)` record.
- The tool is modelled as a function of the title (`tool: string -> Completed`), so two input lines with the same title get the same run. The driver starts one process per line (`tv-time.py:65-68`), and two lookups of one title can differ. No proved property depends on this: `Summarise` is stated over any results.
- The message texts written to standard error are not modelled, and neither is `CalculateX598HashAsync`, which only throws and is never called.
- The `GET_TVSHOW_TOTAL_LENGTH_BIN` environment variable check and the process spawn are not modelled: the tool run is a parameter of `TvTime.Run`.
- `asyncio` concurrency is not modelled. `asyncio.gather` returns results in task order, which is what `GatherResults` states.
- An exception escaping a task (for example a failed process spawn) is not modelled.
- A failure of `stdout.decode()` on bytes that are not UTF-8 is not modelled: the output is given as already-decoded text.
- PyStr.ParseInt: does not skip surrounding whitespace as `int()` does; its only use is on `Strip(...)` output. It does not accept non-ASCII Unicode decimal digits, which `int()` also accepts; the tool prints only ASCII digits. It has no digit-count limit, whereas `int()` raises ValueError beyond `sys.get_int_max_str_digits()` digits (4300 by default); the tool prints at most ten digits.
- `TvShowLength.Stdout` assumes the invariant culture's minus sign and a `"\n"` line ending. On Windows the ending is `"\r\n"`, which `strip()` also removes.
- `TvShowLength.OrderByDescending` is proved sorted and a permutation, but its stability is stated only through its first element (`FirstOrderedIsLatest`), the only element the program uses.
