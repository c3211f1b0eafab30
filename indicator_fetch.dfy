/** Fetching a ticker's indicator history from the technical-analysis API,
    aligning the twelve returned series into rows, and the per-ticker retry
    loop with its doubling delay and its split of failures into permanent and
    retriable ones. The network, the clock and the file system are inputs: a
    request's outcome, an attempt's outcome and whether a save succeeded are
    given, and the delays slept are returned instead of slept. */
module IndicatorFetch {
  import opened Frames
  import Binomial

  /** How many bars every request asks for. */
  const Requested: nat := 90

  /** What one request gave: the parsed body, an HTTP error status, or another
      failure (no connection, a timeout, a body that is not JSON). */
  datatype Response = Body(json: Json) | HttpStatus(code: int) | Broken

  /** One row of the history: the bar's timestamp and the twelve indicator values. */
  datatype Row = Row(
    timestamp: Json, close: Json, rsi: Json, macd: Json, macdSignal: Json,
    ema50: Json, ema200: Json, stochK: Json, stochD: Json,
    bbUpper: Json, bbMiddle: Json, bbLower: Json, obv: Json)

  /** What `fetch_all_indicators` ends with: a table, `None`, or a re-raised HTTP error. */
  datatype FetchResult = Table(rows: seq<Row>) | NoTable | Raised(code: int)

  /** `extract_list`: the list under `key` when the response is an object
      holding a list there, and the empty list otherwise. */
  function ExtractList(response: Json, key: string): (r: seq<Json>)
    ensures response.JObject? && key in response.fields && response.fields[key].JArray? ==>
      r == response.fields[key].items
    ensures r != [] ==> response.JObject? && key in response.fields && response.fields[key] == JArray(r)
  {
    match response
    case JObject(fields) => if key in fields && fields[key].JArray? then fields[key].items else []
    case _ => []
  }

  /** The first failed request, if any; the requests after it are never made. */
  function Failure(rs: seq<Response>): (f: Option<Response>)
    ensures f == None <==> forall i :: 0 <= i < |rs| ==> rs[i].Body?
    ensures f.Some? ==> !f.value.Body?
    ensures f.Some? ==> exists i :: 0 <= i < |rs| && rs[i] == f.value && (forall j :: 0 <= j < i ==> rs[j].Body?)
  {
    if rs == [] then None
    else if !rs[0].Body? then Some(rs[0])
    else
      var f := Failure(rs[1..]);
      assert f.Some? ==> exists i :: 1 <= i < |rs| && rs[i] == f.value && forall j :: 1 <= j < i ==> rs[j].Body? by {
        if f.Some? {
          var i :| 0 <= i < |rs[1..]| && rs[1..][i] == f.value && forall j :: 0 <= j < i ==> rs[1..][j].Body?;
          assert forall j :: 1 <= j < i + 1 ==> rs[j] == rs[1..][j - 1];
        }
      }
      f
  }

  /** The twelve series, in the order the rows are built from: RSI, MACD, MACD
      signal, EMA 50, EMA 200, %K, %D, the three Bollinger bands, OBV, price.
      The eight responses come in the order they are requested: RSI, MACD,
      EMA 50, EMA 200, stochastic, Bollinger bands, OBV, price. */
  function Series(rs: seq<Response>): (lists: seq<seq<Json>>)
    requires |rs| == 8 && forall i :: 0 <= i < 8 ==> rs[i].Body?
    ensures |lists| == 12
  {
    [ExtractList(rs[0].json, "value"),
     ExtractList(rs[1].json, "valueMACD"),
     ExtractList(rs[1].json, "valueMACDSignal"),
     ExtractList(rs[2].json, "value"),
     ExtractList(rs[3].json, "value"),
     ExtractList(rs[4].json, "valueK"),
     ExtractList(rs[4].json, "valueD"),
     ExtractList(rs[5].json, "valueUpperBand"),
     ExtractList(rs[5].json, "valueMiddleBand"),
     ExtractList(rs[5].json, "valueLowerBand"),
     ExtractList(rs[6].json, "value"),
     ExtractList(rs[7].json, "value")]
  }

  /** The number of rows: the length of the shortest series, and at most 90. */
  function Shortest(lists: seq<seq<Json>>): (m: nat)
    ensures m <= Requested && forall k :: 0 <= k < |lists| ==> m <= |lists[k]|
    ensures m == Requested || exists k :: 0 <= k < |lists| && m == |lists[k]|
  {
    if lists == [] then Requested
    else
      var rest := Shortest(lists[..|lists| - 1]);
      var last := |lists[|lists| - 1]|;
      assert forall k :: 0 <= k < |lists| - 1 ==> lists[..|lists| - 1][k] == lists[k];
      if last < rest then last else rest
  }

  /** Row `i`: element `i` of every series. The timestamp is always null: the
      price response is a JSON object, whose keys are strings, and it is
      looked up with the integer `i`. */
  function RowAt(lists: seq<seq<Json>>, i: nat): (row: Row)
    requires |lists| == 12 && forall k :: 0 <= k < 12 ==> i < |lists[k]|
    ensures row.timestamp == JNull
  {
    Row(JNull, lists[11][i], lists[0][i], lists[1][i], lists[2][i], lists[3][i], lists[4][i],
        lists[5][i], lists[6][i], lists[7][i], lists[8][i], lists[9][i], lists[10][i])
  }

  /** `fetch_all_indicators` on the eight responses it receives. Only an
      unauthorised request (401) escapes; every other failure gives no table,
      and so do series with no common bar. */
  function FetchAll(rs: seq<Response>): (r: FetchResult)
    requires |rs| == 8
    ensures r.Raised? <==> Failure(rs) == Some(HttpStatus(401))
    ensures r.Raised? ==> r.code == 401
    ensures r.Table? <==> Failure(rs) == None && Shortest(Series(rs)) > 0
    ensures r.Table? ==> 1 <= |r.rows| == Shortest(Series(rs)) <= Requested
    ensures r.Table? ==> forall i :: 0 <= i < |r.rows| ==> r.rows[i] == RowAt(Series(rs), i)
  {
    match Failure(rs)
    case Some(f) => if f == HttpStatus(401) then Raised(401) else NoTable
    case None =>
      var lists := Series(rs);
      var m := Shortest(lists);
      if m == 0 then NoTable
      else Table(seq(m, i requires 0 <= i < m => RowAt(lists, i)))
  }

  /** The `min_length` loop: 90, lowered to the length of every shorter series. */
  method MinLength(lists: seq<seq<Json>>) returns (m: nat)
    ensures m == Shortest(lists)
  {
    m := Requested;
    var k := 0;
    while k < |lists|
      invariant 0 <= k <= |lists|
      invariant m == Shortest(lists[..k])
    {
      assert lists[..k + 1][..k] == lists[..k];
      if |lists[k]| < m {
        m := |lists[k]|;
      }
      k := k + 1;
    }
    assert lists[..k] == lists;
  }

  /** The row loop: one row per bar up to `m`, elements past `m` ignored. */
  method BuildRows(lists: seq<seq<Json>>, m: nat) returns (rows: seq<Row>)
    requires |lists| == 12 && forall k :: 0 <= k < 12 ==> m <= |lists[k]|
    ensures |rows| == m && forall i :: 0 <= i < m ==> rows[i] == RowAt(lists, i)
  {
    rows := [];
    var i := 0;
    while i < m
      invariant 0 <= i <= m
      invariant |rows| == i && forall j :: 0 <= j < i ==> rows[j] == RowAt(lists, j)
    {
      rows := rows + [RowAt(lists, i)];
      i := i + 1;
    }
  }

  /** `fetch_all_indicators`: the eight requests in order, then the alignment. */
  method FetchAllIndicators(rs: seq<Response>) returns (r: FetchResult)
    requires |rs| == 8
    ensures r == FetchAll(rs)
  {
    var failure := Failure(rs);
    if failure.Some? {
      if failure.value == HttpStatus(401) {
        return Raised(401);
      }
      return NoTable;
    }
    var lists := Series(rs);
    var m := MinLength(lists);
    if m == 0 {
      return NoTable;
    }
    var rows := BuildRows(lists, m);
    return Table(rows);
  }

  /** The evident intent of the caller, which treats 403, 404 and 422 as
      permanent: every HTTP error is passed on, not only 401. */
  function FetchAllPropagating(rs: seq<Response>): (r: FetchResult)
    requires |rs| == 8
    ensures forall c :: Failure(rs) == Some(HttpStatus(c)) <==> r == Raised(c)
    ensures Failure(rs) != Some(HttpStatus(401)) && !r.Raised? ==> r == FetchAll(rs)
  {
    var f := Failure(rs);
    if f.Some? && f.value.HttpStatus? then Raised(f.value.code) else FetchAll(rs)
  }

  // ---------------------------------------------------------------------
  // run_for_tickers

  /** How one attempt for a ticker went, as the retry loop sees it. */
  datatype Attempt =
    | Fetched(saved: bool)   // a non-empty table; `saved` says whether writing its JSON file worked
    | Empty                  // `None` or an empty table
    | HttpError(code: int)   // an HTTP error escaped the fetch
    | Failed                 // any other exception escaped the fetch

  /** The attempt a fetch result makes. */
  function AttemptOf(r: FetchResult, saved: bool): (a: Attempt)
    ensures a.HttpError? <==> r.Raised?
    ensures a.Fetched? <==> r.Table? && r.rows != []
  {
    match r
    case Raised(c) => HttpError(c)
    case NoTable => Empty
    case Table(rows) => if rows == [] then Empty else Fetched(saved)
  }

  /** HTTP statuses after which a ticker is not retried. */
  predicate Permanent(code: int) {
    code == 401 || code == 403 || code == 404 || code == 422
  }

  const MaxRetries: nat := 5
  const FirstDelay: nat := 5

  /** How a ticker's attempts end. */
  datatype Fate = Saved | SaveFailed | Hard | Exhausted

  /** The fate of the ticker at position `i`, from its attempt `k` on;
      `attempts(i, k)` is how its `k`-th attempt goes. */
  function TickerFate(attempts: (nat, nat) -> Attempt, i: nat, k: nat, maxRetries: nat): Fate
    decreases maxRetries - k
  {
    if k >= maxRetries then Exhausted
    else match attempts(i, k)
      case Fetched(saved) => if saved then Saved else SaveFailed
      case HttpError(code) => if Permanent(code) then Hard else TickerFate(attempts, i, k + 1, maxRetries)
      case _ => TickerFate(attempts, i, k + 1, maxRetries)
  }

  /** An attempt after which the ticker is not tried again: a table was
      fetched (saved or not), or a permanent HTTP error escaped. */
  predicate Decisive(a: Attempt) {
    a.Fetched? || (a.HttpError? && Permanent(a.code))
  }

  /** The index of the attempt that decides the ticker's fate, from attempt
      `k` on, or `maxRetries` when every attempt fails in a retriable way. */
  function DecidingAttempt(attempts: (nat, nat) -> Attempt, i: nat, k: nat, maxRetries: nat): nat
    decreases maxRetries - k
  {
    if k >= maxRetries then k
    else if Decisive(attempts(i, k)) then k
    else DecidingAttempt(attempts, i, k + 1, maxRetries)
  }

  /** The deciding attempt is the first decisive one: every earlier attempt is
      retriable, and the fate is the one that attempt gives, or `Exhausted`
      when no attempt decides. */
  lemma {:induction false} DecidedAt(attempts: (nat, nat) -> Attempt, i: nat, k: nat, maxRetries: nat)
    requires k <= maxRetries
    ensures var d := DecidingAttempt(attempts, i, k, maxRetries);
      k <= d <= maxRetries &&
      (forall j :: k <= j < d ==> !Decisive(attempts(i, j))) &&
      (d == maxRetries <==> TickerFate(attempts, i, k, maxRetries) == Exhausted) &&
      (d < maxRetries ==>
        Decisive(attempts(i, d)) &&
        TickerFate(attempts, i, k, maxRetries) ==
          (match attempts(i, d)
           case Fetched(saved) => if saved then Saved else SaveFailed
           case _ => Hard))
    decreases maxRetries - k
  {
    if k < maxRetries && !Decisive(attempts(i, k)) {
      DecidedAt(attempts, i, k + 1, maxRetries);
    }
  }

  /** One attempt decides the fate, or passes it on to the next attempt. */
  lemma FateAt(attempts: (nat, nat) -> Attempt, i: nat, k: nat, maxRetries: nat)
    requires k < maxRetries
    ensures attempts(i, k).HttpError? && Permanent(attempts(i, k).code) ==> TickerFate(attempts, i, k, maxRetries) == Hard
    ensures attempts(i, k).Fetched? ==>
      TickerFate(attempts, i, k, maxRetries) == if attempts(i, k).saved then Saved else SaveFailed
    ensures !attempts(i, k).Fetched? && !(attempts(i, k).HttpError? && Permanent(attempts(i, k).code)) ==>
      TickerFate(attempts, i, k, maxRetries) == TickerFate(attempts, i, k + 1, maxRetries)
    ensures Decisive(attempts(i, k)) ==> DecidingAttempt(attempts, i, k, maxRetries) == k
    ensures !Decisive(attempts(i, k)) ==>
      DecidingAttempt(attempts, i, k, maxRetries) == DecidingAttempt(attempts, i, k + 1, maxRetries)
  {
  }

  /** A ticker whose every attempt fails in a retriable way uses up all its attempts. */
  lemma {:induction false} RetriableExhausts(attempts: (nat, nat) -> Attempt, i: nat, k: nat, maxRetries: nat)
    requires forall j: nat :: k <= j < maxRetries ==>
      !attempts(i, j).Fetched? && !(attempts(i, j).HttpError? && Permanent(attempts(i, j).code))
    ensures TickerFate(attempts, i, k, maxRetries) == Exhausted
    decreases maxRetries - k
  {
    if k < maxRetries {
      RetriableExhausts(attempts, i, k + 1, maxRetries);
    }
  }

  /** The retry loop for the ticker at position `i`: it stops at a saved table,
      a failed save or a permanent HTTP error, and otherwise sleeps and tries
      again with the delay doubled, at most `maxRetries` times in all. */
  method TryTicker(attempts: (nat, nat) -> Attempt, i: nat, maxRetries: nat) returns (fate: Fate, waits: seq<nat>)
    ensures fate == TickerFate(attempts, i, 0, maxRetries)
    ensures forall j :: 0 <= j < |waits| ==> waits[j] == Delay(j)
    ensures |waits| <= maxRetries && (fate == Exhausted <==> |waits| == maxRetries)
    ensures |waits| == DecidingAttempt(attempts, i, 0, maxRetries)
  {
    var retries := 0;
    var retryDelay := FirstDelay;
    var success := false;
    waits := [];
    fate := Exhausted;
    while retries < maxRetries && !success
      invariant retries <= maxRetries && |waits| == retries
      invariant retryDelay == Delay(retries)
      invariant forall j :: 0 <= j < |waits| ==> waits[j] == Delay(j)
      invariant success ==> fate == Saved && fate == TickerFate(attempts, i, 0, maxRetries) && retries < maxRetries
      invariant !success ==> fate == Exhausted && TickerFate(attempts, i, retries, maxRetries) == TickerFate(attempts, i, 0, maxRetries)
      invariant success ==> retries == DecidingAttempt(attempts, i, 0, maxRetries)
      invariant !success ==> DecidingAttempt(attempts, i, retries, maxRetries) == DecidingAttempt(attempts, i, 0, maxRetries)
      decreases maxRetries - retries, if success then 0 else 1
    {
      var a := attempts(i, retries);
      FateAt(attempts, i, retries, maxRetries);
      if a.HttpError? && Permanent(a.code) {
        fate := Hard;
        break;
      }
      if a.Fetched? {
        if a.saved {
          success := true;
          fate := Saved;
        } else {
          fate := SaveFailed;
          break;
        }
      } else {
        retries := retries + 1;
        waits := waits + [retryDelay];
        retryDelay := retryDelay * 2;
        Doubling(retries - 1);
      }
    }
  }

  /** The delay slept after the `r`-th failed attempt: 5 seconds, doubled each time. */
  function Delay(r: nat): nat {
    FirstDelay * Binomial.Pow2(r)
  }

  lemma Doubling(r: nat)
    ensures Delay(r + 1) == 2 * Delay(r)
  {
  }

  /** The two lists `run_for_tickers` returns. */
  datatype Failures = Failures(failed: seq<string>, hard: seq<string>)

  /** How a ticker's fate extends the lists. A failed save appends the ticker
      in the loop and once more after it; any other failure appends it once,
      unless the ticker is already a hard failure. */
  function Record(acc: Failures, ticker: string, fate: Fate): (r: Failures)
  {
    match fate
    case Saved => acc
    case Hard => Failures(acc.failed, acc.hard + [ticker])
    case SaveFailed =>
      if ticker in acc.hard then Failures(acc.failed + [ticker], acc.hard)
      else Failures(acc.failed + [ticker, ticker], acc.hard)
    case Exhausted =>
      if ticker in acc.hard then acc else Failures(acc.failed + [ticker], acc.hard)
  }

  /** The lists after the first `n` tickers. */
  function RunPrefix(tickers: seq<string>, attempts: (nat, nat) -> Attempt, maxRetries: nat, n: nat): Failures
    requires n <= |tickers|
  {
    if n == 0 then Failures([], [])
    else Record(RunPrefix(tickers, attempts, maxRetries, n - 1), tickers[n - 1],
                TickerFate(attempts, n - 1, 0, maxRetries))
  }

  /** `run_for_tickers`: every ticker in turn, its fate recorded in the two lists. */
  method RunForTickers(tickers: seq<string>, attempts: (nat, nat) -> Attempt, maxRetries: nat)
    returns (failed: seq<string>, hard: seq<string>)
    ensures Failures(failed, hard) == RunPrefix(tickers, attempts, maxRetries, |tickers|)
  {
    failed, hard := [], [];
    var n := 0;
    while n < |tickers|
      invariant 0 <= n <= |tickers|
      invariant Failures(failed, hard) == RunPrefix(tickers, attempts, maxRetries, n)
    {
      var ticker := tickers[n];
      var fate, waits := TryTicker(attempts, n, maxRetries);
      if fate == Hard {
        hard := hard + [ticker];
      } else if fate == SaveFailed {
        failed := failed + [ticker];
      }
      if fate != Saved && ticker !in hard {
        failed := failed + [ticker];
      }
      n := n + 1;
    }
  }

  /** A hard failure is exactly a ticker one of whose runs met a permanent HTTP error. */
  lemma {:induction false} HardFailures(tickers: seq<string>, attempts: (nat, nat) -> Attempt, maxRetries: nat, n: nat, t: string)
    requires n <= |tickers|
    ensures t in RunPrefix(tickers, attempts, maxRetries, n).hard <==>
      exists i :: 0 <= i < n && tickers[i] == t && TickerFate(attempts, i, 0, maxRetries) == Hard
  {
    if n > 0 {
      HardFailures(tickers, attempts, maxRetries, n - 1, t);
    }
  }

  /** A ticker is listed as failed exactly when one of its runs failed to save,
      or used up its attempts at a time it was not yet a hard failure. */
  lemma {:induction false} FailedTickers(tickers: seq<string>, attempts: (nat, nat) -> Attempt, maxRetries: nat, n: nat, t: string)
    requires n <= |tickers|
    ensures t in RunPrefix(tickers, attempts, maxRetries, n).failed <==>
      exists i :: 0 <= i < n && tickers[i] == t &&
        (TickerFate(attempts, i, 0, maxRetries) == SaveFailed ||
         (TickerFate(attempts, i, 0, maxRetries) == Exhausted && t !in RunPrefix(tickers, attempts, maxRetries, i).hard))
  {
    if n > 0 {
      FailedTickers(tickers, attempts, maxRetries, n - 1, t);
    }
  }

  /** A single ticker that fetched its table but could not save it is listed twice. */
  lemma SaveFailureListedTwice(ticker: string, attempts: (nat, nat) -> Attempt, maxRetries: nat)
    requires TickerFate(attempts, 0, 0, maxRetries) == SaveFailed
    ensures RunPrefix([ticker], attempts, maxRetries, 1) == Failures([ticker, ticker], [])
  {
    assert RunPrefix([ticker], attempts, maxRetries, 0) == Failures([], []);
  }

  /** Only the given tickers are ever listed. */
  lemma {:induction false} ListedAreGiven(tickers: seq<string>, attempts: (nat, nat) -> Attempt, maxRetries: nat, n: nat)
    requires n <= |tickers|
    ensures forall t :: t in RunPrefix(tickers, attempts, maxRetries, n).failed ==> t in tickers[..n]
    ensures forall t :: t in RunPrefix(tickers, attempts, maxRetries, n).hard ==> t in tickers[..n]
  {
    if n > 0 {
      ListedAreGiven(tickers, attempts, maxRetries, n - 1);
      assert tickers[..n] == tickers[..n - 1] + [tickers[n - 1]];
    }
  }

  // ---------------------------------------------------------------------
  // retry_failed_tickers_until_success

  /** The tickers worth another round: the failed ones that are not hard failures, in order. */
  function Retryable(failed: seq<string>, hard: seq<string>): (r: seq<string>)
    ensures forall t :: t in r <==> t in failed && t !in hard
    ensures |r| <= |failed|
  {
    if failed == [] then []
    else if failed[0] !in hard then [failed[0]] + Retryable(failed[1..], hard)
    else Retryable(failed[1..], hard)
  }

  /** How attempt `k` of the `i`-th pending ticker goes in round `r`, when
      `attempts(r, i, k)` gives every round's attempts. */
  function RoundOracle(attempts: (nat, nat, nat) -> Attempt, r: nat): (nat, nat) -> Attempt {
    (i: nat, k: nat) => attempts(r, i, k)
  }

  /** The two lists that round `r` of the retry loop ends with on `pending`. */
  function RoundResult(pending: seq<string>, attempts: (nat, nat, nat) -> Attempt, r: nat): Failures {
    RunPrefix(pending, RoundOracle(attempts, r), MaxRetries, |pending|)
  }

  /** The tickers still pending after round `r`. */
  function NextPending(pending: seq<string>, attempts: (nat, nat, nat) -> Attempt, r: nat): seq<string> {
    var f := RoundResult(pending, attempts, r);
    Retryable(f.failed, f.hard)
  }

  /** Where the retry loop ends: the tickers still pending, those set aside as
      inactive, and the round counter. */
  datatype Outcome = Outcome(pending: seq<string>, inactive: seq<string>, rounds: nat)

  /** The retry loop entered at round `r` with `pending` and `inactive`. The
      counter is not advanced by the round that leaves nothing pending. */
  function RoundsFrom(pending: seq<string>, inactive: seq<string>, attempts: (nat, nat, nat) -> Attempt,
                      maxRounds: nat, r: nat): Outcome
    decreases maxRounds - r
  {
    if pending == [] || r >= maxRounds then Outcome(pending, inactive, r)
    else
      var next := NextPending(pending, attempts, r);
      var inactive' := inactive + RoundResult(pending, attempts, r).hard;
      if next == [] then Outcome([], inactive', r)
      else RoundsFrom(next, inactive', attempts, maxRounds, r + 1)
  }

  /** The pending lists the rounds run on, entering at round `r`: the `j`-th is
      run as round `r + j`. */
  function Trace(pending: seq<string>, attempts: (nat, nat, nat) -> Attempt, maxRounds: nat, r: nat): seq<seq<string>>
    decreases maxRounds - r
  {
    if pending == [] || r >= maxRounds then []
    else
      var next := NextPending(pending, attempts, r);
      if next == [] then [pending]
      else [pending] + Trace(next, attempts, maxRounds, r + 1)
  }

  /** The rounds run on the given tickers first, then each on what the one
      before left pending; none is run on an empty list, nor past `maxRounds`. */
  lemma {:induction false} TraceLinks(pending: seq<string>, attempts: (nat, nat, nat) -> Attempt, maxRounds: nat, r: nat)
    ensures var t := Trace(pending, attempts, maxRounds, r);
      (t == [] <==> pending == [] || r >= maxRounds) &&
      (t != [] ==> t[0] == pending) &&
      (r <= maxRounds ==> r + |t| <= maxRounds) &&
      (forall j :: 0 <= j < |t| ==> t[j] != []) &&
      (forall j :: 0 <= j < |t| - 1 ==> t[j + 1] == NextPending(t[j], attempts, r + j))
    decreases maxRounds - r
  {
    if pending != [] && r < maxRounds {
      var next := NextPending(pending, attempts, r);
      if next != [] {
        TraceLinks(next, attempts, maxRounds, r + 1);
        var t := Trace(pending, attempts, maxRounds, r);
        var u := Trace(next, attempts, maxRounds, r + 1);
        assert t == [pending] + u;
        forall j | 0 <= j < |t| - 1
          ensures t[j + 1] == NextPending(t[j], attempts, r + j)
        {
          if j > 0 {
            assert t[j] == u[j - 1] && t[j + 1] == u[j];
          }
        }
      }
    }
  }

  /** The loop ends with what its last round left pending, and with the counter
      at the number of rounds run, less the one that left nothing pending. */
  lemma {:induction false} LastRound(pending: seq<string>, inactive: seq<string>, attempts: (nat, nat, nat) -> Attempt,
                                     maxRounds: nat, r: nat)
    ensures var t := Trace(pending, attempts, maxRounds, r);
      var o := RoundsFrom(pending, inactive, attempts, maxRounds, r);
      (t == [] ==> o.pending == pending && o.rounds == r && o.inactive == inactive) &&
      (t != [] ==> o.pending == NextPending(t[|t| - 1], attempts, r + |t| - 1)) &&
      (t != [] ==> o.rounds == if o.pending == [] then r + |t| - 1 else r + |t|)
    decreases maxRounds - r
  {
    if pending != [] && r < maxRounds {
      var next := NextPending(pending, attempts, r);
      var inactive' := inactive + RoundResult(pending, attempts, r).hard;
      if next != [] {
        LastRound(next, inactive', attempts, maxRounds, r + 1);
        var t := Trace(pending, attempts, maxRounds, r);
        var u := Trace(next, attempts, maxRounds, r + 1);
        assert t == [pending] + u;
        if u != [] {
          assert t[|t| - 1] == u[|u| - 1];
        }
      }
    }
  }

  /** `x` is, in round `r`, a pending ticker that meets a permanent HTTP error. */
  predicate HardInRound(pending: seq<string>, attempts: (nat, nat, nat) -> Attempt, r: nat, x: string) {
    exists i :: 0 <= i < |pending| && pending[i] == x && TickerFate(RoundOracle(attempts, r), i, 0, MaxRetries) == Hard
  }

  /** `x` meets a permanent HTTP error in one of the rounds of `t`, the first run as round `r`. */
  predicate HardInTrace(t: seq<seq<string>>, attempts: (nat, nat, nat) -> Attempt, r: nat, x: string) {
    exists j :: 0 <= j < |t| && HardInRound(t[j], attempts, r + j, x)
  }

  lemma HardInTraceCons(p: seq<string>, u: seq<seq<string>>, attempts: (nat, nat, nat) -> Attempt, r: nat, x: string)
    ensures HardInTrace([p] + u, attempts, r, x) <==> HardInRound(p, attempts, r, x) || HardInTrace(u, attempts, r + 1, x)
  {
    var t := [p] + u;
    if HardInRound(p, attempts, r, x) {
      assert t[0] == p && r + 0 == r && HardInRound(t[0], attempts, r + 0, x);
    }
    if HardInTrace(u, attempts, r + 1, x) {
      var j :| 0 <= j < |u| && HardInRound(u[j], attempts, r + 1 + j, x);
      assert t[j + 1] == u[j] && r + (j + 1) == r + 1 + j;
    }
    if HardInTrace(t, attempts, r, x) {
      var j :| 0 <= j < |t| && HardInRound(t[j], attempts, r + j, x);
      if j > 0 {
        assert u[j - 1] == t[j] && r + 1 + (j - 1) == r + j;
      }
    }
  }

  /** A ticker ends up inactive exactly when it was inactive on entry or met a
      permanent HTTP error in one of the rounds run. */
  lemma {:induction false} InactiveAreHard(pending: seq<string>, inactive: seq<string>, attempts: (nat, nat, nat) -> Attempt,
                                           maxRounds: nat, r: nat, x: string)
    ensures x in RoundsFrom(pending, inactive, attempts, maxRounds, r).inactive <==>
      x in inactive || HardInTrace(Trace(pending, attempts, maxRounds, r), attempts, r, x)
    decreases maxRounds - r
  {
    if pending != [] && r < maxRounds {
      var next := NextPending(pending, attempts, r);
      var inactive' := inactive + RoundResult(pending, attempts, r).hard;
      HardFailures(pending, RoundOracle(attempts, r), MaxRetries, |pending|, x);
      assert x in inactive' <==> x in inactive || HardInRound(pending, attempts, r, x);
      if next == [] {
        HardInTraceCons(pending, [], attempts, r, x);
        assert [pending] + [] == [pending];
      } else {
        InactiveAreHard(next, inactive', attempts, maxRounds, r + 1, x);
        HardInTraceCons(pending, Trace(next, attempts, maxRounds, r + 1), attempts, r, x);
      }
    }
  }

  /** `retry_failed_tickers_until_success`: run the pending tickers, set the
      hard failures aside as inactive, keep the rest pending, and stop when none
      is pending or after `maxRounds` rounds. `attempts(r, i, k)` is how attempt
      `k` of the `i`-th pending ticker goes in round `r`. */
  method RetryUntilSuccess(tickers: seq<string>, attempts: (nat, nat, nat) -> Attempt, maxRounds: nat)
    returns (pending: seq<string>, inactive: seq<string>, rounds: nat)
    ensures Outcome(pending, inactive, rounds) == RoundsFrom(tickers, [], attempts, maxRounds, 0)
    ensures rounds <= maxRounds
    ensures forall t :: t in pending ==> t in tickers
    ensures forall t :: t in inactive ==> t in tickers
    ensures forall t :: t in pending ==> t !in inactive
    ensures pending != [] ==> rounds == maxRounds
  {
    pending, inactive, rounds := tickers, [], 0;
    while pending != [] && rounds < maxRounds
      invariant rounds <= maxRounds
      invariant forall t :: t in pending ==> t in tickers
      invariant forall t :: t in inactive ==> t in tickers
      invariant forall t :: t in pending ==> t !in inactive
      invariant RoundsFrom(pending, inactive, attempts, maxRounds, rounds) == RoundsFrom(tickers, [], attempts, maxRounds, 0)
      decreases maxRounds - rounds
    {
      var oracle := RoundOracle(attempts, rounds);
      var failed, hard := RunForTickers(pending, oracle, MaxRetries);
      ListedAreGiven(pending, oracle, MaxRetries, |pending|);
      assert pending[..|pending|] == pending;
      inactive := inactive + hard;
      pending := Retryable(failed, hard);
      if pending == [] {
        break;
      }
      rounds := rounds + 1;
    }
  }

  // ---------------------------------------------------------------------
  // Finding: permanent HTTP errors never reach the retry loop

  /** As written, a request answered with 404 makes the fetch return no table,
      which the retry loop treats as retriable. */
  lemma NotFoundLooksEmpty(rs: seq<Response>, saved: bool)
    requires |rs| == 8 && Failure(rs) == Some(HttpStatus(404))
    ensures AttemptOf(FetchAll(rs), saved) == Empty
  {
  }

  /** So a delisted ticker, answered with 404 on every attempt, uses up all its
      attempts and is never recorded as a hard failure. */
  lemma DelistedTickerRetried(rs: seq<Response>, ticker: string, maxRetries: nat)
    requires |rs| == 8 && Failure(rs) == Some(HttpStatus(404))
    ensures var attempts := (i: nat, k: nat) => AttemptOf(FetchAll(rs), true);
      TickerFate(attempts, 0, 0, maxRetries) == Exhausted &&
      ticker !in RunPrefix([ticker], attempts, maxRetries, 1).hard
  {
    var attempts := (i: nat, k: nat) => AttemptOf(FetchAll(rs), true);
    RetriableExhausts(attempts, 0, 0, maxRetries);
    assert RunPrefix([ticker], attempts, maxRetries, 0) == Failures([], []);
  }

  /** Passing every HTTP error on makes a 404 a hard failure on the first attempt. */
  lemma DelistedTickerHardWhenPropagated(rs: seq<Response>, ticker: string, maxRetries: nat)
    requires |rs| == 8 && Failure(rs) == Some(HttpStatus(404)) && maxRetries > 0
    ensures var attempts := (i: nat, k: nat) => AttemptOf(FetchAllPropagating(rs), true);
      TickerFate(attempts, 0, 0, maxRetries) == Hard &&
      RunPrefix([ticker], attempts, maxRetries, 1) == Failures([], [ticker])
  {
    var attempts := (i: nat, k: nat) => AttemptOf(FetchAllPropagating(rs), true);
    assert attempts(0, 0) == HttpError(404);
    assert RunPrefix([ticker], attempts, maxRetries, 0) == Failures([], []);
  }
}
