/**
 * The two programs together: the driver runs the lookup tool with the title
 * as its only argument and reads back what the tool printed.
 */
module Pipeline {
  import opened Options
  import PyStr
  import TvShowLength
  import TvTime

  /** What the driver sees of one run of the lookup tool for `title`. */
  function ToolRun(title: string, search: string -> TvShowLength.Response<TvShowLength.SearchHit>,
                   episodes: string -> TvShowLength.Response<TvShowLength.Episode>): (run: TvTime.Completed)
    ensures var o := TvShowLength.Run([title], search, episodes).outcome;
      && (run.exitCode == 0 <==> o.Ok?)
      && (run.exitCode == 10 <==> o.NotFound?)
      && (run.stdout != [] <==> o.Ok?)
  {
    var o := TvShowLength.Run([title], search, episodes).outcome;
    TvTime.Completed(TvShowLength.ExitCode(o), TvShowLength.Stdout(o))
  }

  /** The decimal digits the tool prints read back, through `int()`, as the number they came from. */
  lemma {:induction false} DigitsRoundTrip(n: nat)
    ensures PyStr.WellFormedDigits(TvShowLength.DecimalDigits(n))
    ensures PyStr.DigitsValue(TvShowLength.DecimalDigits(n)) == n
  {
    var s := TvShowLength.DecimalDigits(n);
    if n >= 10 {
      DigitsRoundTrip(n / 10);
      assert s[..|s| - 1] == TvShowLength.DecimalDigits(n / 10);
    }
    assert forall i :: 0 <= i < |s| ==> PyStr.IsDigit(s[i]);
  }

  /** `int()` of a non-negative printed total is the total. */
  lemma ParseDigits(n: nat)
    ensures PyStr.ParseInt(TvShowLength.DecimalDigits(n)) == Some(n)
  {
    var s := TvShowLength.DecimalDigits(n);
    DigitsRoundTrip(n);
    assert '0' <= s[0] <= '9';
  }

  /** `int()` of a minus sign and the digits of `m` is `-m`. */
  lemma ParseNegatedDigits(m: nat)
    ensures PyStr.ParseInt("-" + TvShowLength.DecimalDigits(m)) == Some(0 - m)
  {
    DigitsRoundTrip(m);
    PyStr.ParseNegative(TvShowLength.DecimalDigits(m));
  }

  /** `int()` of the printed total is the total, a leading minus sign included. */
  lemma ParseFormatted(n: int)
    ensures PyStr.ParseInt(TvShowLength.FormatInt(n)) == Some(n)
  {
    if n < 0 {
      var m: nat := -n;
      ParseNegatedDigits(m);
      assert TvShowLength.FormatInt(n) == "-" + TvShowLength.DecimalDigits(m);
    } else {
      ParseDigits(n);
    }
  }

  /** The tool's output line, stripped and parsed, is the total it printed. */
  lemma StdoutReadsBack(total: TvShowLength.Int32)
    ensures PyStr.ParseInt(PyStr.Strip(TvShowLength.Stdout(TvShowLength.Ok(total)))) == Some(total as int)
  {
    var text := TvShowLength.FormatInt(total);
    ParseFormatted(total);
    PyStr.StripTrailingSpace(text, '\n');
  }

  /**
   * The driver records a runtime for a title exactly when the tool printed a
   * total for it, and that runtime is the total; a failure or "not found"
   * leaves it without one.
   */
  lemma ToolResultClassified(title: string, search: string -> TvShowLength.Response<TvShowLength.SearchHit>,
                             episodes: string -> TvShowLength.Response<TvShowLength.Episode>)
    ensures var o := TvShowLength.Run([title], search, episodes).outcome;
      TvTime.ShowRuntime(title, ToolRun(title, search, episodes)).runtime
        == if o.Ok? then Some(o.total as int) else None
  {
    var o := TvShowLength.Run([title], search, episodes).outcome;
    if o.Ok? {
      StdoutReadsBack(o.total);
    }
  }
}
