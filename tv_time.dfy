/**
 * The batch driver (tv-time.py): read show titles from standard input, run the
 * lookup tool once per title, keep the runs that printed a runtime, and report
 * the shortest and the longest show in hours and minutes.
 *
 * Standard input is the sequence of its lines; the tool is a parameter mapping
 * a title to what its run left behind (exit status and decoded standard
 * output).
 */
module TvTime {
  import opened Options
  import opened PyStr
  import opened Selection

  /** What one run of the lookup tool left behind. */
  datatype Completed = Completed(exitCode: int, stdout: string)

  /** The `(show_name, runtime)` pair `get_show_runtime` returns; runtime None stands for Python's None. */
  datatype ShowResult = ShowResult(name: string, runtime: Option<int>)

  /** One printed line: a show and its runtime as whole hours and remaining minutes. */
  datatype Line = Line(name: string, hours: int, minutes: int)

  /** How the driver ends: no titles, no usable runtime (both exit 1), or the two report lines. */
  datatype Report = NoShows | NoValidData | Extremes(shortest: Line, longest: Line)

  function ExitStatus(report: Report): (status: int)
    ensures status == 0 || status == 1
    ensures status == 0 <==> report.Extremes?
  {
    if report.Extremes? then 0 else 1
  }

  // ---------------------------------------------------------------------------
  // load_data

  predicate IsTitleLine(line: string) {
    Strip(line) != []
  }

  /** The stripped forms of the lines that are not blank, in input order (see TitlesAt). */
  function Titles(lines: seq<string>): (titles: seq<string>)
    ensures |titles| <= |lines|
  {
    if lines == [] then []
    else
      var last := Strip(lines[|lines| - 1]);
      Titles(lines[..|lines| - 1]) + (if last != [] then [last] else [])
  }

  /**
   * The titles are exactly the stripped forms of the non-blank lines, in
   * input order: the `k`-th title comes from the `k`-th non-blank line.
   */
  lemma {:induction false} TitlesAt(lines: seq<string>)
    ensures var idx := KeptIndices(lines, IsTitleLine);
      |Titles(lines)| == |idx| && forall k :: 0 <= k < |idx| ==> Titles(lines)[k] == Strip(lines[idx[k]])
  {
    if lines != [] {
      var n := |lines| - 1;
      var init := lines[..n];
      TitlesAt(init);
      var titles, titles0 := Titles(lines), Titles(init);
      var idx, idx0 := KeptIndices(lines, IsTitleLine), KeptIndices(init, IsTitleLine);
      assert idx == idx0 + (if IsTitleLine(lines[n]) then [n] else []);
      assert titles == titles0 + (if IsTitleLine(lines[n]) then [Strip(lines[n])] else []);
      forall k | 0 <= k < |idx| ensures titles[k] == Strip(lines[idx[k]]) {
        if k < |idx0| {
          assert titles[k] == titles0[k] == Strip(init[idx0[k]]);
          assert init[idx0[k]] == lines[idx[k]];
        } else {
          assert idx[k] == n && titles[k] == Strip(lines[n]);
        }
      }
    }
  }

  /** A line added at the end contributes its stripped form when it is not blank. */
  lemma TitlesSnoc(init: seq<string>, line: string)
    ensures Titles(init + [line]) == Titles(init) + (if Strip(line) != [] then [Strip(line)] else [])
  {
    assert (init + [line])[..|init|] == init;
  }

  /** No titles exactly when every line is blank. */
  lemma TitlesEmpty(lines: seq<string>)
    ensures Titles(lines) == [] <==> forall i :: 0 <= i < |lines| ==> Strip(lines[i]) == []
  {
    TitlesAt(lines);
  }

  /** Every title is non-empty and has no surrounding whitespace. */
  lemma TitlesAreStripped(lines: seq<string>)
    ensures forall k :: 0 <= k < |Titles(lines)| ==>
              Titles(lines)[k] != [] && Strip(Titles(lines)[k]) == Titles(lines)[k]
  {
    TitlesAt(lines);
    var idx := KeptIndices(lines, IsTitleLine);
    forall k | 0 <= k < |Titles(lines)|
      ensures Titles(lines)[k] != [] && Strip(Titles(lines)[k]) == Titles(lines)[k]
    {
      StripIdempotent(lines[idx[k]]);
    }
  }

  /** `load_data`: the titles, or None where it prints "No shows provided." and exits 1. */
  method LoadData(lines: seq<string>) returns (shows: Option<seq<string>>)
    ensures shows.None? <==> forall i :: 0 <= i < |lines| ==> Strip(lines[i]) == []
    ensures shows.Some? ==> shows.value == Titles(lines)
  {
    var collected: seq<string> := [];
    for i := 0 to |lines|
      invariant collected == Titles(lines[..i])
    {
      var stripped := Strip(lines[i]);
      assert lines[..i + 1] == lines[..i] + [lines[i]];
      TitlesSnoc(lines[..i], lines[i]);
      if stripped != [] {
        collected := collected + [stripped];
      }
    }
    assert lines[..|lines|] == lines;
    TitlesEmpty(lines);
    if collected == [] {
      return None;
    }
    return Some(collected);
  }

  // ---------------------------------------------------------------------------
  // get_show_runtime

  /** A runtime only when the run exited 0 and its stripped output parses as an integer. */
  function ShowRuntime(name: string, run: Completed): (r: ShowResult)
    ensures r.name == name
    ensures r.runtime.Some? <==> run.exitCode == 0 && ParseInt(Strip(run.stdout)).Some?
    ensures r.runtime.Some? ==> r.runtime == ParseInt(Strip(run.stdout))
  {
    if run.exitCode == 0 then
      match ParseInt(Strip(run.stdout))
      case Some(n) => ShowResult(name, Some(n))
      case None => ShowResult(name, None)
    else ShowResult(name, None)
  }

  /**
   * The task loop of `main` with `asyncio.gather`: one result per title, in
   * the order of the titles.
   */
  method GatherResults(names: seq<string>, tool: string -> Completed) returns (results: seq<ShowResult>)
    ensures |results| == |names|
    ensures forall i :: 0 <= i < |names| ==> results[i] == ShowRuntime(names[i], tool(names[i]))
  {
    results := [];
    for i := 0 to |names|
      invariant |results| == i
      invariant forall k :: 0 <= k < i ==> results[k] == ShowRuntime(names[k], tool(names[k]))
    {
      results := results + [ShowRuntime(names[i], tool(names[i]))];
    }
  }

  // ---------------------------------------------------------------------------
  // valid_results, min, max, divmod

  predicate HasRuntime(r: ShowResult) {
    r.runtime.Some?
  }

  predicate AllTimed(rs: seq<ShowResult>) {
    forall i :: 0 <= i < |rs| ==> rs[i].runtime.Some?
  }

  /** The results that carry a runtime, in their original order. */
  function ValidResults(results: seq<ShowResult>): (valid: seq<ShowResult>)
    ensures AllTimed(valid)
    ensures |valid| == |KeptIndices(results, HasRuntime)|
    ensures forall k :: 0 <= k < |valid| ==> valid[k] == results[KeptIndices(results, HasRuntime)[k]]
    ensures valid == [] <==> forall i :: 0 <= i < |results| ==> results[i].runtime.None?
  {
    var idx := KeptIndices(results, HasRuntime);
    seq(|idx|, k requires 0 <= k < |idx| => results[idx[k]])
  }

  /**
   * The scan `min(valid, key=runtime)` performs from position `i`, `best`
   * being the smallest so far: a later result replaces it only when strictly
   * smaller.
   */
  function ShortestFrom(rs: seq<ShowResult>, best: nat, i: nat): (k: nat)
    requires AllTimed(rs) && best < i <= |rs|
    requires forall j :: 0 <= j < i ==> rs[best].runtime.value <= rs[j].runtime.value
    requires forall j :: 0 <= j < best ==> rs[j].runtime.value > rs[best].runtime.value
    ensures k < |rs|
    ensures forall j :: 0 <= j < |rs| ==> rs[k].runtime.value <= rs[j].runtime.value
    ensures forall j :: 0 <= j < k ==> rs[j].runtime.value > rs[k].runtime.value
    decreases |rs| - i
  {
    if i == |rs| then best
    else if rs[i].runtime.value < rs[best].runtime.value then ShortestFrom(rs, i, i + 1)
    else ShortestFrom(rs, best, i + 1)
  }

  /** The scan `max(valid, key=runtime)` performs: a later result replaces the best only when strictly longer. */
  function LongestFrom(rs: seq<ShowResult>, best: nat, i: nat): (k: nat)
    requires AllTimed(rs) && best < i <= |rs|
    requires forall j :: 0 <= j < i ==> rs[best].runtime.value >= rs[j].runtime.value
    requires forall j :: 0 <= j < best ==> rs[j].runtime.value < rs[best].runtime.value
    ensures k < |rs|
    ensures forall j :: 0 <= j < |rs| ==> rs[k].runtime.value >= rs[j].runtime.value
    ensures forall j :: 0 <= j < k ==> rs[j].runtime.value < rs[k].runtime.value
    decreases |rs| - i
  {
    if i == |rs| then best
    else if rs[i].runtime.value > rs[best].runtime.value then LongestFrom(rs, i, i + 1)
    else LongestFrom(rs, best, i + 1)
  }

  /** `divmod(runtime, 60)`: Python's floor division and remainder by 60. */
  function HoursAndMinutes(runtime: int): (hm: (int, int))
    ensures hm.0 * 60 + hm.1 == runtime && 0 <= hm.1 < 60
  {
    (runtime / 60, runtime % 60)
  }

  /** The quotient and remainder are the only pair with these two properties. */
  lemma HoursAndMinutesUnique(runtime: int, hours: int, minutes: int)
    requires hours * 60 + minutes == runtime && 0 <= minutes < 60
    ensures HoursAndMinutes(runtime) == (hours, minutes)
  {
  }

  function TotalMinutes(line: Line): int {
    line.hours * 60 + line.minutes
  }

  /** `line` reports the first result whose runtime is its total and whose name is its name. */
  ghost predicate FirstWith(results: seq<ShowResult>, line: Line) {
    exists i :: 0 <= i < |results| && FirstAt(results, line, i)
  }

  ghost predicate FirstAt(results: seq<ShowResult>, line: Line, i: nat) {
    && i < |results|
    && results[i].name == line.name
    && results[i].runtime == Some(TotalMinutes(line))
    && forall j :: 0 <= j < i ==> results[j].runtime != Some(TotalMinutes(line))
  }

  /**
   * `shortest` and `longest` report the first shortest and the first longest
   * of the results with a runtime, with minutes below 60.
   */
  ghost predicate ReportsExtremes(results: seq<ShowResult>, shortest: Line, longest: Line) {
    && 0 <= shortest.minutes < 60
    && 0 <= longest.minutes < 60
    && TotalMinutes(shortest) <= TotalMinutes(longest)
    && FirstWith(results, shortest)
    && FirstWith(results, longest)
    && forall i :: 0 <= i < |results| && results[i].runtime.Some? ==>
         TotalMinutes(shortest) <= results[i].runtime.value <= TotalMinutes(longest)
  }

  /** The line reporting `valid[k]`, where no earlier valid result has the same runtime, is the first with it in `results`. */
  lemma ValidResultIsFirst(results: seq<ShowResult>, k: nat, line: Line)
    requires k < |ValidResults(results)|
    requires var valid := ValidResults(results);
      && line.name == valid[k].name && TotalMinutes(line) == valid[k].runtime.value
      && forall m :: 0 <= m < k ==> valid[m].runtime != valid[k].runtime
    ensures FirstWith(results, line)
  {
    var valid := ValidResults(results);
    var idx := KeptIndices(results, HasRuntime);
    var i := idx[k];
    forall j | 0 <= j < i ensures results[j].runtime != Some(TotalMinutes(line)) {
      if results[j].runtime.Some? {
        assert j in idx;
        var m :| 0 <= m < |idx| && idx[m] == j;
        assert m < k;
        assert valid[m] == results[j];
      }
    }
    assert FirstAt(results, line, i);
  }

  /** Every result with a runtime is one of the valid results. */
  lemma ValidResultsCover(results: seq<ShowResult>, i: nat)
    requires i < |results| && results[i].runtime.Some?
    ensures exists m :: 0 <= m < |ValidResults(results)| && ValidResults(results)[m] == results[i]
  {
    var idx := KeptIndices(results, HasRuntime);
    assert i in idx;
    var m :| 0 <= m < |idx| && idx[m] == i;
    assert ValidResults(results)[m] == results[i];
  }

  /** `min(valid, key=runtime)`: the position of the first shortest. */
  function Shortest(valid: seq<ShowResult>): (k: nat)
    requires AllTimed(valid) && |valid| > 0
    ensures k < |valid|
    ensures forall j :: 0 <= j < |valid| ==> valid[k].runtime.value <= valid[j].runtime.value
    ensures forall j :: 0 <= j < k ==> valid[j].runtime.value > valid[k].runtime.value
  {
    ShortestFrom(valid, 0, 1)
  }

  /** `max(valid, key=runtime)`: the position of the first longest. */
  function Longest(valid: seq<ShowResult>): (k: nat)
    requires AllTimed(valid) && |valid| > 0
    ensures k < |valid|
    ensures forall j :: 0 <= j < |valid| ==> valid[k].runtime.value >= valid[j].runtime.value
    ensures forall j :: 0 <= j < k ==> valid[j].runtime.value < valid[k].runtime.value
  {
    LongestFrom(valid, 0, 1)
  }

  /** The printed line for a result: its name and its runtime as `divmod(runtime, 60)`. */
  function LineFor(r: ShowResult): (line: Line)
    requires r.runtime.Some?
    ensures line.name == r.name && TotalMinutes(line) == r.runtime.value && 0 <= line.minutes < 60
  {
    var (hours, minutes) := HoursAndMinutes(r.runtime.value);
    Line(r.name, hours, minutes)
  }

  /** The lines for the first shortest and the first longest valid result report the extremes of all results. */
  lemma ExtremesReported(results: seq<ShowResult>)
    requires ValidResults(results) != []
    ensures var valid := ValidResults(results);
      ReportsExtremes(results, LineFor(valid[Shortest(valid)]), LineFor(valid[Longest(valid)]))
  {
    var valid := ValidResults(results);
    var s, l := Shortest(valid), Longest(valid);
    var shortest, longest := LineFor(valid[s]), LineFor(valid[l]);
    ValidResultIsFirst(results, s, shortest);
    ValidResultIsFirst(results, l, longest);
    forall i | 0 <= i < |results| && results[i].runtime.Some?
      ensures TotalMinutes(shortest) <= results[i].runtime.value <= TotalMinutes(longest)
    {
      ValidResultsCover(results, i);
    }
  }

  /**
   * The rest of `main`: filter the results, and report the first shortest
   * and the first longest show, each in hours and minutes.
   */
  function Summarise(results: seq<ShowResult>): (report: Report)
    ensures report != NoShows
    ensures report == NoValidData <==> forall i :: 0 <= i < |results| ==> results[i].runtime.None?
    ensures report.Extremes? ==> ReportsExtremes(results, report.shortest, report.longest)
  {
    var valid := ValidResults(results);
    if valid == [] then NoValidData
    else
      ExtremesReported(results);
      Extremes(LineFor(valid[Shortest(valid)]), LineFor(valid[Longest(valid)]))
  }

  // ---------------------------------------------------------------------------
  // main

  /** What the driver reports for this standard input when every title's run is `tool(title)`. */
  function ReportFor(lines: seq<string>, tool: string -> Completed): Report {
    var titles := Titles(lines);
    if titles == [] then NoShows
    else Summarise(seq(|titles|, i requires 0 <= i < |titles| => ShowRuntime(titles[i], tool(titles[i]))))
  }

  /** `main`: load the titles, run the tool for each, and summarise. */
  method Run(lines: seq<string>, tool: string -> Completed) returns (report: Report)
    ensures report == ReportFor(lines, tool)
    ensures report == NoShows <==> forall i :: 0 <= i < |lines| ==> Strip(lines[i]) == []
  {
    TitlesEmpty(lines);
    var names := LoadData(lines);
    if names.None? {
      return NoShows;
    }
    var results := GatherResults(names.value, tool);
    assert results == seq(|names.value|, i requires 0 <= i < |names.value| => ShowRuntime(names.value[i], tool(names.value[i])));
    report := Summarise(results);
  }
}
