/**
 * The lookup-and-sum tool (TvShowLength/Program.cs): check the arguments, search
 * the catalog for the title, pick the most recently premiered show, fetch its
 * episodes and sum their runtimes, ending with exit code 0, 1 or 10.
 *
 * The two HTTP calls are parameters: each maps the request's path argument to
 * the response it gets back, already parsed. The run records which requests it
 * issued, so that "no request" and "never reached" can be stated.
 */
module TvShowLength {
  import opened Options

  /** A premiere date as a day number: only the order of dates matters here. */
  type Date = int

  const INT32_MIN: int := -0x8000_0000
  const INT32_MAX: int := 0x7FFF_FFFF

  /** A value of C#'s `int`. */
  type Int32 = x: int | IsInt32(x)

  predicate IsInt32(x: int) {
    INT32_MIN <= x <= INT32_MAX
  }

  /**
   * The nested `show` object of one search hit: `id` is the text its `id`
   * token renders to (None when the key is missing, which makes `.ToString()`
   * throw), `premiered` is the `DateTime?` the key converts to (None for a
   * missing key or a JSON null).
   */
  datatype Show = Show(id: Option<string>, premiered: Option<Date>)

  /**
   * One element of the search response's array. `Unreadable` stands for an
   * element whose sort key cannot be computed: not an object, no `show`
   * object, or a `premiered` value that does not convert to a date.
   */
  datatype SearchHit = Readable(show: Show) | Unreadable

  /**
   * The `runtime` key of one episode: missing, a value the `(int)` conversion
   * turns into `minutes`, or anything the conversion rejects (JSON null, an
   * object, a string that is not a number, a number out of range; an element
   * that is not an object throws at the same point and is modelled as Other).
   */
  datatype Runtime = Absent | Int(minutes: Int32) | Other
  datatype Episode = Episode(runtime: Runtime)

  /** An HTTP response: whether its status is a success, and its body as a JSON array (None: not an array). */
  datatype Response<T> = Response(success: bool, body: Option<seq<T>>)

  /** The two GET requests the tool can issue, by their path argument. */
  datatype Request = SearchShows(query: string) | ShowEpisodes(showId: string)

  /** How a run ends: the total is printed, a failure, or no show found. */
  datatype Outcome = Ok(total: Int32) | Fail | NotFound

  datatype Trace = Trace(requests: seq<Request>, outcome: Outcome)

  /** The process exit code of an outcome. */
  function ExitCode(o: Outcome): (code: int)
    ensures code == 0 || code == 1 || code == 10
    ensures code == 0 <==> o.Ok?
    ensures code == 10 <==> o.NotFound?
  {
    match o
    case Ok(_) => 0
    case Fail => 1
    case NotFound => 10
  }

  // ---------------------------------------------------------------------------
  // Show selection: OrderByDescending(premiered).First()

  /**
   * The order `Comparer<DateTime?>.Default` puts on premiere dates: a missing
   * date comes before every date, and two missing dates are equal.
   */
  predicate PremieredBefore(a: Option<Date>, b: Option<Date>)
    ensures a.None? && b.Some? ==> PremieredBefore(a, b)
    ensures a == b ==> !PremieredBefore(a, b)
  {
    b.Some? && (a.None? || a.value < b.value)
  }

  /** Of two dates at most one is before the other. */
  lemma PremieredBeforeAsymmetric(a: Option<Date>, b: Option<Date>)
    ensures !(PremieredBefore(a, b) && PremieredBefore(b, a))
  {
  }

  predicate SortedDescending(shows: seq<Show>) {
    forall i, j :: 0 <= i < j < |shows| ==> !PremieredBefore(shows[i].premiered, shows[j].premiered)
  }

  /**
   * Inserts `s` into a descending sequence ahead of the first element whose
   * date is not later than its own; `s` thus stays ahead of the equal dates
   * that followed it in the input.
   */
  function Insert(s: Show, sorted: seq<Show>): (r: seq<Show>)
    ensures |r| == |sorted| + 1 && (r[0] == s || (sorted != [] && r[0] == sorted[0]))
    ensures multiset(r) == multiset(sorted) + multiset{s}
  {
    if sorted == [] || !PremieredBefore(s.premiered, sorted[0].premiered) then [s] + sorted
    else
      assert sorted == [sorted[0]] + sorted[1..];
      [sorted[0]] + Insert(s, sorted[1..])
  }

  /** Dates that are not before one another chain: the order is a strict weak order. */
  lemma NotBeforeChains(a: Option<Date>, b: Option<Date>, c: Option<Date>)
    requires !PremieredBefore(a, b) && !PremieredBefore(b, c)
    ensures !PremieredBefore(a, c)
  {
  }

  lemma {:induction false} InsertSorted(s: Show, sorted: seq<Show>)
    requires SortedDescending(sorted)
    ensures SortedDescending(Insert(s, sorted))
  {
    var r := Insert(s, sorted);
    if sorted == [] || !PremieredBefore(s.premiered, sorted[0].premiered) {
      forall i, j | 0 <= i < j < |r| ensures !PremieredBefore(r[i].premiered, r[j].premiered) {
        if i == 0 && j > 1 {
          NotBeforeChains(s.premiered, sorted[0].premiered, sorted[j - 1].premiered);
        }
      }
    } else {
      var tail := Insert(s, sorted[1..]);
      InsertSorted(s, sorted[1..]);
      assert !PremieredBefore(sorted[0].premiered, tail[0].premiered);
      forall i, j | 0 <= i < j < |r| ensures !PremieredBefore(r[i].premiered, r[j].premiered) {
        if i == 0 && j > 1 {
          NotBeforeChains(sorted[0].premiered, tail[0].premiered, tail[j - 1].premiered);
        }
      }
    }
  }

  /** A stable sort of the shows, latest premiere first. */
  function OrderByDescending(shows: seq<Show>): (r: seq<Show>)
    ensures multiset(r) == multiset(shows)
    ensures SortedDescending(r)
  {
    if shows == [] then []
    else
      assert shows == [shows[0]] + shows[1..];
      InsertSorted(shows[0], OrderByDescending(shows[1..]));
      Insert(shows[0], OrderByDescending(shows[1..]))
  }

  /**
   * The position of the show the tool picks: its date is not before any
   * other's, and every earlier show's date is strictly before it, so it is the
   * first of the latest.
   */
  function LatestIndex(shows: seq<Show>): (k: nat)
    requires |shows| > 0
    ensures k < |shows|
    ensures forall j :: 0 <= j < |shows| ==> !PremieredBefore(shows[k].premiered, shows[j].premiered)
    ensures forall j :: 0 <= j < k ==> PremieredBefore(shows[j].premiered, shows[k].premiered)
    ensures forall j :: 0 <= j < |shows| && shows[j].premiered.Some? ==>
              shows[k].premiered.Some? && shows[j].premiered.value <= shows[k].premiered.value
    ensures shows[k].premiered.None? ==> k == 0
  {
    if |shows| == 1 then 0
    else
      var k := 1 + LatestIndex(shows[1..]);
      if PremieredBefore(shows[0].premiered, shows[k].premiered) then k else 0
  }

  /** `First()` of the ordered shows is the first of the latest. */
  lemma {:induction false} FirstOrderedIsLatest(shows: seq<Show>)
    requires |shows| > 0
    ensures |OrderByDescending(shows)| == |shows|
    ensures OrderByDescending(shows)[0] == shows[LatestIndex(shows)]
  {
    assert |multiset(OrderByDescending(shows))| == |multiset(shows)|;
    if |shows| > 1 {
      FirstOrderedIsLatest(shows[1..]);
    }
  }

  /** The shows of the search hits, or None when some hit cannot be read. */
  function ReadShows(hits: seq<SearchHit>): (shows: Option<seq<Show>>)
    ensures shows.Some? <==> forall i :: 0 <= i < |hits| ==> hits[i].Readable?
    ensures shows.Some? ==> |shows.value| == |hits|
    ensures shows.Some? ==> forall i :: 0 <= i < |hits| ==> shows.value[i] == hits[i].show
  {
    if forall i :: 0 <= i < |hits| ==> hits[i].Readable?
    then Some(seq(|hits|, i requires 0 <= i < |hits| => hits[i].show))
    else None
  }

  // ---------------------------------------------------------------------------
  // Runtime sum: Where(runtime != null).Sum((int)runtime)

  /** What an episode adds to the total when its runtime converts. */
  function Contribution(rt: Runtime): int {
    if rt.Int? then rt.minutes else 0
  }

  /** The sum of the converted runtimes, as an unbounded integer. */
  function RuntimeSum(eps: seq<Episode>): int {
    if eps == [] then 0 else Contribution(eps[0].runtime) + RuntimeSum(eps[1..])
  }

  /** No present runtime is rejected by the `(int)` conversion. */
  predicate Convertible(eps: seq<Episode>) {
    forall i :: 0 <= i < |eps| ==> !eps[i].runtime.Other?
  }

  predicate NonNegative(eps: seq<Episode>) {
    forall i :: 0 <= i < |eps| ==> Contribution(eps[i].runtime) >= 0
  }

  /** Every running total of the checked `int` addition, starting from `acc`, fits in an `int`. */
  ghost predicate PartialSumsFit(acc: int, eps: seq<Episode>) {
    forall k :: 0 <= k <= |eps| ==> IsInt32(acc + RuntimeSum(eps[..k]))
  }

  /**
   * `Enumerable.Sum` over the episodes with a runtime key, continued from
   * `acc`: left to right, None when a conversion throws or a partial sum
   * overflows (the addition is checked).
   */
  function CheckedSum(acc: Int32, eps: seq<Episode>): (r: Option<Int32>)
    ensures r.Some? ==> r.value == acc + RuntimeSum(eps)
    decreases |eps|
  {
    if eps == [] then Some(acc)
    else match eps[0].runtime
      case Absent => CheckedSum(acc, eps[1..])
      case Other => None
      case Int(n) => if IsInt32(acc + n) then CheckedSum(acc + n, eps[1..]) else None
  }

  lemma PartialSumsStep(acc: int, eps: seq<Episode>)
    requires eps != []
    ensures PartialSumsFit(acc, eps) <==>
              IsInt32(acc) && PartialSumsFit(acc + Contribution(eps[0].runtime), eps[1..])
  {
    var c := Contribution(eps[0].runtime);
    assert eps[..0] == [];
    forall k | 0 <= k < |eps|
      ensures RuntimeSum(eps[..k + 1]) == c + RuntimeSum(eps[1..][..k])
    {
      assert eps[..k + 1][1..] == eps[1..][..k];
    }
    if PartialSumsFit(acc, eps) {
      forall k | 0 <= k <= |eps[1..]|
        ensures IsInt32(acc + c + RuntimeSum(eps[1..][..k]))
      {
        assert IsInt32(acc + RuntimeSum(eps[..k + 1]));
      }
    }
    if IsInt32(acc) && PartialSumsFit(acc + c, eps[1..]) {
      forall k | 0 <= k <= |eps|
        ensures IsInt32(acc + RuntimeSum(eps[..k]))
      {
        if k > 0 {
          assert IsInt32(acc + c + RuntimeSum(eps[1..][..k - 1]));
        }
      }
    }
  }

  /** The checked sum succeeds exactly when nothing throws, and then it is the true sum. */
  lemma {:induction false} CheckedSumMeaning(acc: Int32, eps: seq<Episode>)
    ensures CheckedSum(acc, eps).Some? <==> Convertible(eps) && PartialSumsFit(acc, eps)
    ensures CheckedSum(acc, eps).Some? ==> CheckedSum(acc, eps).value == acc + RuntimeSum(eps)
    decreases |eps|
  {
    if eps == [] {
      assert eps[..0] == [];
    } else {
      PartialSumsStep(acc, eps);
      assert Convertible(eps) <==> !eps[0].runtime.Other? && Convertible(eps[1..]) by {
        if Convertible(eps[1..]) && !eps[0].runtime.Other? {
          forall i | 0 <= i < |eps| ensures !eps[i].runtime.Other? {
            if i > 0 { assert eps[i] == eps[1..][i - 1]; }
          }
        }
      }
      match eps[0].runtime
      case Absent => CheckedSumMeaning(acc, eps[1..]);
      case Other =>
      case Int(n) =>
        if IsInt32(acc + n) {
          CheckedSumMeaning(acc + n, eps[1..]);
        } else {
          assert eps[..1] == [eps[0]];
          assert !IsInt32(acc + RuntimeSum(eps[..1]));
        }
    }
  }

  lemma {:induction false} RuntimeSumSplit(eps: seq<Episode>, k: nat)
    requires k <= |eps|
    ensures RuntimeSum(eps) == RuntimeSum(eps[..k]) + RuntimeSum(eps[k..])
  {
    if k > 0 {
      RuntimeSumSplit(eps[1..], k - 1);
      assert eps[..k][1..] == eps[1..][..k - 1];
      assert eps[k..] == eps[1..][k - 1..];
    } else {
      assert eps[..0] == [] && eps[0..] == eps;
    }
  }

  lemma {:induction false} NonNegativeSum(eps: seq<Episode>)
    requires NonNegative(eps)
    ensures RuntimeSum(eps) >= 0
  {
    if eps != [] {
      assert NonNegative(eps[1..]) by {
        forall i | 0 <= i < |eps[1..]| ensures Contribution(eps[1..][i].runtime) >= 0 {
          assert eps[1..][i] == eps[i + 1];
        }
      }
      NonNegativeSum(eps[1..]);
    }
  }

  /** With no negative runtime, only the final total can overflow. */
  lemma NonNegativeFits(eps: seq<Episode>)
    ensures NonNegative(eps) && RuntimeSum(eps) <= INT32_MAX ==> PartialSumsFit(0, eps)
  {
    if !(NonNegative(eps) && RuntimeSum(eps) <= INT32_MAX) {
      return;
    }
    forall k | 0 <= k <= |eps| ensures IsInt32(RuntimeSum(eps[..k])) {
      RuntimeSumSplit(eps, k);
      assert NonNegative(eps[..k]) && NonNegative(eps[k..]) by {
        forall i | 0 <= i < |eps[..k]| ensures Contribution(eps[..k][i].runtime) >= 0 {
          assert eps[..k][i] == eps[i];
        }
        forall i | 0 <= i < |eps[k..]| ensures Contribution(eps[k..][i].runtime) >= 0 {
          assert eps[k..][i] == eps[k + i];
        }
      }
      NonNegativeSum(eps[..k]);
      NonNegativeSum(eps[k..]);
    }
  }

  /**
   * The printed total: the sum of the converted runtimes, skipping episodes
   * without a runtime key; None (exit 1) when a present runtime does not
   * convert or a partial sum leaves the `int` range.
   */
  function TotalRuntime(eps: seq<Episode>): (r: Option<Int32>)
    ensures r.Some? <==> Convertible(eps) && PartialSumsFit(0, eps)
    ensures r.Some? ==> r.value == RuntimeSum(eps)
    ensures Convertible(eps) && NonNegative(eps) && RuntimeSum(eps) <= INT32_MAX ==>
              r == Some(RuntimeSum(eps))
  {
    CheckedSumMeaning(0, eps);
    NonNegativeFits(eps);
    CheckedSum(0, eps)
  }

  /** Episodes without a runtime key add nothing, and no episodes sum to 0. */
  lemma AbsentRuntimesAddNothing()
    ensures TotalRuntime([]) == Some(0)
    ensures TotalRuntime([Episode(Int(30)), Episode(Absent), Episode(Int(22))]) == Some(52)
  {
  }

  /** A present JSON-null runtime passes the key filter and fails the conversion. */
  lemma NullRuntimeFails()
    ensures TotalRuntime([Episode(Int(30)), Episode(Other), Episode(Int(22))]) == None
  {
  }

  // ---------------------------------------------------------------------------
  // The whole run

  /** The search succeeded with readable, non-empty hits whose first latest show has id `id`. */
  ghost predicate SelectsShow(found: Response<SearchHit>, id: string) {
    && found.success
    && found.body.Some?
    && |found.body.value| > 0
    && ReadShows(found.body.value).Some?
    && var shows := ReadShows(found.body.value).value;
       shows[LatestIndex(shows)].id == Some(id)
  }

  /** The episode listing succeeded and sums without an exception. */
  ghost predicate SumsCleanly(listed: Response<Episode>) {
    listed.success && listed.body.Some? && Convertible(listed.body.value) && PartialSumsFit(0, listed.body.value)
  }

  /**
   * `Main`: `args` are the command-line arguments, `search` answers
   * `search/shows?q=<title>` and `episodes` answers `shows/<id>/episodes`.
   */
  function Run(args: seq<string>, search: string -> Response<SearchHit>, episodes: string -> Response<Episode>): (r: Trace)
    ensures |args| < 1 || |args| > 2 ==> r == Trace([], Fail)
    ensures 1 <= |args| <= 2 ==> 1 <= |r.requests| <= 2 && r.requests[0] == SearchShows(args[0])
    ensures 1 <= |args| <= 2 && !search(args[0]).success ==> r == Trace([SearchShows(args[0])], Fail)
    ensures r.outcome.NotFound? <==>
              1 <= |args| <= 2 && search(args[0]).success && search(args[0]).body == Some([])
    ensures |r.requests| == 2 ==>
              1 <= |args| <= 2 && r.requests[1].ShowEpisodes? && SelectsShow(search(args[0]), r.requests[1].showId)
    ensures |r.requests| == 2 && !episodes(r.requests[1].showId).success ==> r.outcome == Fail
    ensures r.outcome.Ok? <==> |r.requests| == 2 && SumsCleanly(episodes(r.requests[1].showId))
    ensures r.outcome.Ok? ==> r.outcome.total == RuntimeSum(episodes(r.requests[1].showId).body.value)
    ensures forall id :: 1 <= |args| <= 2 && SelectsShow(search(args[0]), id) ==>
              r.requests == [SearchShows(args[0]), ShowEpisodes(id)]
  {
    if |args| < 1 || |args| > 2 then Trace([], Fail)
    else
      var title := args[0];
      var found := search(title);
      var asked := [SearchShows(title)];
      if !found.success || found.body.None? then Trace(asked, Fail)
      else if |found.body.value| == 0 then Trace(asked, NotFound)
      else match ReadShows(found.body.value)
        case None => Trace(asked, Fail)
        case Some(shows) =>
          FirstOrderedIsLatest(shows);
          var selected := OrderByDescending(shows)[0];
          if selected.id.None? then Trace(asked, Fail)
          else
            var id := selected.id.value;
            ListEpisodes(title, id, episodes(id))
  }

  /** The run once the show `id` is selected: request its episodes and sum their runtimes. */
  function ListEpisodes(title: string, id: string, listed: Response<Episode>): (r: Trace)
    ensures r.requests == [SearchShows(title), ShowEpisodes(id)]
    ensures r.outcome.Ok? <==> SumsCleanly(listed)
    ensures r.outcome.Ok? ==> r.outcome.total == RuntimeSum(listed.body.value)
    ensures !r.outcome.NotFound?
  {
    var asked := [SearchShows(title), ShowEpisodes(id)];
    if !listed.success || listed.body.None? then Trace(asked, Fail)
    else match TotalRuntime(listed.body.value)
      case None => Trace(asked, Fail)
      case Some(total) => Trace(asked, Ok(total))
  }

  // ---------------------------------------------------------------------------
  // Standard output

  /** The decimal digits of `n`, most significant first, as `Int32.ToString()` writes them. */
  function DecimalDigits(n: nat): (s: string)
    ensures |s| > 0
    ensures forall i :: 0 <= i < |s| ==> '0' <= s[i] <= '9'
  {
    if n < 10 then [DigitChar(n)] else DecimalDigits(n / 10) + [DigitChar(n % 10)]
  }

  /** The character for a decimal digit. */
  function DigitChar(d: nat): (c: char)
    requires d < 10
    ensures '0' <= c <= '9' && c as int - '0' as int == d
  {
    ('0' as int + d) as char
  }

  /** `Int32.ToString()`: a minus sign exactly for a negative number, then the digits of its magnitude. */
  function FormatInt(n: int): (s: string)
    ensures |s| > 0 && (s[0] == '-' <==> n < 0)
  {
    if n < 0 then "-" + DecimalDigits(-n) else DecimalDigits(n)
  }

  /** What the run writes to standard output: the total on its own line on success, nothing otherwise. */
  function Stdout(o: Outcome): (out: string)
    ensures out != [] <==> o.Ok?
  {
    if o.Ok? then FormatInt(o.total) + "\n" else ""
  }
}
