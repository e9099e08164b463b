/**
 * The bounded retry loop that fetches a Wikipedia page summary
 * (`get_wikipedia_content` in demo.py).
 *
 * The Wikipedia call of each attempt is replaced by an oracle: a sequence
 * whose entry `k` is what attempt `k` observes. `time.sleep` becomes a
 * `Sleep` step in the trace of the run, next to an `Attempt` step for each
 * consultation of the oracle.
 */
module Retry {
  import opened Wrappers
  import Decimal
  import Strings

  /** What one attempt observes: the page exists (with its summary), the page
      does not exist, a connection error was raised, or another exception was
      raised (with its `str` text). */
  datatype Outcome =
    | PageExists(summary: string)
    | PageMissing
    | ConnectionError
    | OtherError(detail: string)

  /** The outcomes the loop retries after; the other two end the loop. */
  predicate Transient(o: Outcome) {
    o.ConnectionError? || o.OtherError?
  }

  /** One observable step of a run: consulting the oracle, or sleeping. */
  datatype Step = Attempt(index: nat) | Sleep(seconds: nat)

  /** What a call returns (`None` when the loop body never runs) and the steps it took. */
  datatype Run = Run(result: Option<string>, trace: seq<Step>)

  const DefaultRetries: int := 3
  const DefaultDelay: nat := 2
  const ConnectionErrorDetail: string := "Connection error"

  function NotFoundMessage(title: string): string {
    "Page '" + title + "' not found on Wikipedia"
  }

  function GiveUpMessage(retries: int, detail: string): string {
    "Failed after " + Decimal.IntToString(retries) + " attempts: " + detail
  }

  /** The text reported when the last attempt fails with `o`. */
  function GiveUpDetail(o: Outcome): string
    requires Transient(o)
  {
    if o.ConnectionError? then ConnectionErrorDetail else o.detail
  }

  /** The loop from attempt number `attempt` on. */
  function Loop(title: string, retries: int, delay: nat, oracle: seq<Outcome>, attempt: nat): (run: Run)
    requires retries <= |oracle|
    ensures attempt < retries ==> run.result.Some? && |run.trace| > 0
    ensures forall i :: 0 <= i < |run.trace| && run.trace[i].Attempt? ==>
              attempt <= run.trace[i].index < retries
    decreases retries - attempt
  {
    if retries <= attempt then Run(None, [])
    else
      var outcome := oracle[attempt];
      match outcome
      case PageExists(summary) => Run(Some(summary), [Attempt(attempt)])
      case PageMissing => Run(Some(NotFoundMessage(title)), [Attempt(attempt)])
      case _ =>
        if attempt < retries - 1 then
          var rest := Loop(title, retries, delay, oracle, attempt + 1);
          Run(rest.result, [Attempt(attempt), Sleep(delay)] + rest.trace)
        else
          Run(Some(GiveUpMessage(retries, GiveUpDetail(outcome))), [Attempt(attempt)])
  }

  /** `get_wikipedia_content(title, retries, delay)` against the given oracle:
      a string exactly when an attempt is allowed, and no attempt numbered
      `retries` or above. */
  function GetWikipediaContent(title: string, retries: int, delay: nat, oracle: seq<Outcome>): (run: Run)
    requires retries <= |oracle|
    ensures 0 < retries <==> run.result.Some?
    ensures retries <= 0 ==> run.trace == []
    ensures forall i :: 0 <= i < |run.trace| && run.trace[i].Attempt? ==> run.trace[i].index < retries
  {
    Loop(title, retries, delay, oracle, 0)
  }

  /** A run whose first steps `done` were already taken. */
  function Resume(done: seq<Step>, run: Run): Run {
    Run(run.result, done + run.trace)
  }

  /** One pass of the loop body, seen from a run that already took the steps `done`. */
  lemma ResumeStep(title: string, retries: int, delay: nat, oracle: seq<Outcome>, attempt: nat, done: seq<Step>)
    requires attempt < retries <= |oracle|
    ensures var here := Resume(done, Loop(title, retries, delay, oracle, attempt));
            var tried := done + [Attempt(attempt)];
            match oracle[attempt]
            case PageExists(summary) => here == Run(Some(summary), tried)
            case PageMissing => here == Run(Some(NotFoundMessage(title)), tried)
            case _ =>
              if attempt < retries - 1 then
                here == Resume(tried + [Sleep(delay)], Loop(title, retries, delay, oracle, attempt + 1))
              else
                here == Run(Some(GiveUpMessage(retries, GiveUpDetail(oracle[attempt]))), tried)
  {
    if Transient(oracle[attempt]) && attempt < retries - 1 {
      var rest := Loop(title, retries, delay, oracle, attempt + 1);
      assert done + ([Attempt(attempt), Sleep(delay)] + rest.trace)
             == done + [Attempt(attempt)] + [Sleep(delay)] + rest.trace;
    }
  }

  /** The loop as `get_wikipedia_content` in demo.py writes it: a counted
      loop that returns from inside its body. */
  method FetchWithRetry(title: string, retries: int, delay: nat, oracle: seq<Outcome>)
    returns (result: Option<string>, trace: seq<Step>)
    requires retries <= |oracle|
    ensures Run(result, trace) == GetWikipediaContent(title, retries, delay, oracle)
  {
    trace := [];
    var attempt: nat := 0;
    while attempt < retries
      invariant GetWikipediaContent(title, retries, delay, oracle)
                == Resume(trace, Loop(title, retries, delay, oracle, attempt))
      decreases retries - attempt
    {
      ResumeStep(title, retries, delay, oracle, attempt, trace);
      trace := trace + [Attempt(attempt)];
      match oracle[attempt] {
        case PageExists(summary) =>
          return Some(summary), trace;
        case PageMissing =>
          return Some(NotFoundMessage(title)), trace;
        case _ =>
          if attempt < retries - 1 {
            trace := trace + [Sleep(delay)];
          } else {
            return Some(GiveUpMessage(retries, GiveUpDetail(oracle[attempt]))), trace;
          }
      }
      attempt := attempt + 1;
    }
    assert trace + [] == trace;
    return None, trace;
  }

  // ---------------------------------------------------------------------------
  // A non-recursive description of every run
  // ---------------------------------------------------------------------------

  /** The loop makes exactly `n` attempts: each earlier attempt failed
      transiently, and attempt `n - 1` either settled the question (the page
      exists or is missing) or was the last one allowed. */
  predicate StopsAfter(oracle: seq<Outcome>, retries: int, n: nat) {
    && 0 < n <= retries <= |oracle|
    && (forall j :: 0 <= j < n - 1 ==> Transient(oracle[j]))
    && (n == retries || !Transient(oracle[n - 1]))
  }

  /** The string returned when the last attempt made observes `last`. */
  function Verdict(title: string, retries: int, last: Outcome): string {
    match last
    case PageExists(summary) => summary
    case PageMissing => NotFoundMessage(title)
    case ConnectionError => GiveUpMessage(retries, ConnectionErrorDetail)
    case OtherError(detail) => GiveUpMessage(retries, detail)
  }

  /** `count` attempts numbered from `from`, with one sleep of `delay` between
      each two consecutive attempts and none after the last. */
  function Schedule(from: nat, count: nat, delay: nat): seq<Step> {
    if count == 0 then []
    else seq(2 * count - 1, i requires 0 <= i < 2 * count - 1 =>
           if i % 2 == 0 then Attempt(from + i / 2) else Sleep(delay))
  }

  function AttemptCount(trace: seq<Step>): nat {
    if trace == [] then 0 else (if trace[0].Attempt? then 1 else 0) + AttemptCount(trace[1..])
  }

  function SleepCount(trace: seq<Step>): nat {
    if trace == [] then 0 else (if trace[0].Sleep? then 1 else 0) + SleepCount(trace[1..])
  }

  /** Number of attempts the loop makes when at least one is allowed. */
  function AttemptsMade(oracle: seq<Outcome>, retries: int, from: nat): (n: nat)
    requires from < retries <= |oracle|
    requires forall j :: 0 <= j < from ==> Transient(oracle[j])
    ensures StopsAfter(oracle, retries, n)
    ensures from < n
    decreases retries - from
  {
    if from == retries - 1 || !Transient(oracle[from]) then from + 1
    else AttemptsMade(oracle, retries, from + 1)
  }

  lemma ScheduleOne(from: nat, delay: nat)
    ensures Schedule(from, 1, delay) == [Attempt(from)]
  {
  }

  lemma ScheduleStep(from: nat, count: nat, delay: nat)
    requires 1 <= count
    ensures Schedule(from, count + 1, delay) == [Attempt(from), Sleep(delay)] + Schedule(from + 1, count, delay)
  {
    var lhs := Schedule(from, count + 1, delay);
    var rhs := [Attempt(from), Sleep(delay)] + Schedule(from + 1, count, delay);
    assert |lhs| == |rhs|;
    forall i | 0 <= i < |lhs|
      ensures lhs[i] == rhs[i]
    {
      if i >= 2 {
        assert rhs[i] == Schedule(from + 1, count, delay)[i - 2];
      }
    }
  }

  lemma {:induction false} ScheduleCounts(from: nat, count: nat, delay: nat)
    requires 1 <= count
    ensures AttemptCount(Schedule(from, count, delay)) == count
    ensures SleepCount(Schedule(from, count, delay)) == count - 1
    decreases count
  {
    if count == 1 {
      ScheduleOne(from, delay);
    } else {
      var rest := Schedule(from + 1, count - 1, delay);
      ScheduleStep(from, count - 1, delay);
      ScheduleCounts(from + 1, count - 1, delay);
      var t := [Attempt(from), Sleep(delay)] + rest;
      assert t[1..] == [Sleep(delay)] + rest;
      assert t[1..][1..] == rest;
    }
  }

  /** The loop started at `attempt` follows the schedule up to attempt `n - 1`
      and returns the verdict on that attempt's outcome. */
  lemma {:induction false} LoopFollowsSchedule(title: string, retries: int, delay: nat, oracle: seq<Outcome>, attempt: nat, n: nat)
    requires StopsAfter(oracle, retries, n)
    requires attempt < n
    ensures Loop(title, retries, delay, oracle, attempt)
            == Run(Some(Verdict(title, retries, oracle[n - 1])), Schedule(attempt, n - attempt, delay))
    decreases n - attempt
  {
    ScheduleOne(attempt, delay);
    if attempt < n - 1 {
      assert Transient(oracle[attempt]);
      LoopFollowsSchedule(title, retries, delay, oracle, attempt + 1, n);
      ScheduleStep(attempt, n - attempt - 1, delay);
    }
  }

  // ---------------------------------------------------------------------------
  // Properties of get_wikipedia_content
  // ---------------------------------------------------------------------------

  /** Every run with at least one allowed attempt is described by the number
      of attempts it makes: the trace is that schedule and the result is the
      verdict on the last attempt. */
  lemma RunIsScheduled(title: string, retries: int, delay: nat, oracle: seq<Outcome>, n: nat)
    requires StopsAfter(oracle, retries, n)
    ensures GetWikipediaContent(title, retries, delay, oracle)
            == Run(Some(Verdict(title, retries, oracle[n - 1])), Schedule(0, n, delay))
  {
    LoopFollowsSchedule(title, retries, delay, oracle, 0, n);
  }

  /** The number of attempts is determined by the oracle. */
  lemma StopsAfterUnique(oracle: seq<Outcome>, retries: int, n: nat, m: nat)
    requires StopsAfter(oracle, retries, n) && StopsAfter(oracle, retries, m)
    ensures n == m
  {
  }

  /** With `retries <= 0` the loop body never runs and the call returns `None`. */
  lemma NoAttemptsWithoutRetries(title: string, retries: int, delay: nat, oracle: seq<Outcome>)
    requires retries <= 0 && retries <= |oracle|
    ensures GetWikipediaContent(title, retries, delay, oracle) == Run(None, [])
  {
  }

  /** At most `retries` attempts are made, every one of them returns a
      string, and no attempt numbered `retries` or above is made. */
  lemma AttemptBound(title: string, retries: int, delay: nat, oracle: seq<Outcome>)
    requires retries <= |oracle|
    ensures var run := GetWikipediaContent(title, retries, delay, oracle);
            && AttemptCount(run.trace) <= (if retries < 0 then 0 else retries)
            && (forall i :: 0 <= i < |run.trace| && run.trace[i].Attempt? ==> run.trace[i].index < retries)
            && (0 < retries <==> run.result.Some?)
  {
    if 0 < retries {
      var n := AttemptsMade(oracle, retries, 0);
      RunIsScheduled(title, retries, delay, oracle, n);
      ScheduleCounts(0, n, delay);
    }
  }

  /** The run depends only on the oracle's first `retries` entries. */
  lemma {:induction false} LoopReadsOnlyAllowedAttempts(title: string, retries: int, delay: nat, oracle: seq<Outcome>, other: seq<Outcome>, attempt: nat)
    requires retries <= |oracle| && retries <= |other|
    requires forall j :: attempt <= j < retries ==> oracle[j] == other[j]
    ensures Loop(title, retries, delay, oracle, attempt) == Loop(title, retries, delay, other, attempt)
    decreases retries - attempt
  {
    if attempt < retries - 1 {
      LoopReadsOnlyAllowedAttempts(title, retries, delay, oracle, other, attempt + 1);
    }
  }

  lemma OracleBeyondRetriesIgnored(title: string, retries: int, delay: nat, oracle: seq<Outcome>, other: seq<Outcome>)
    requires 0 <= retries <= |oracle| && retries <= |other|
    requires oracle[..retries] == other[..retries]
    ensures GetWikipediaContent(title, retries, delay, oracle) == GetWikipediaContent(title, retries, delay, other)
  {
    forall j | 0 <= j < retries
      ensures oracle[j] == other[j]
    {
      assert oracle[..retries][j] == other[..retries][j];
    }
    LoopReadsOnlyAllowedAttempts(title, retries, delay, oracle, other, 0);
  }

  /** Shared shape of the two short circuits: attempt `k` settles the
      question after `k` transient failures. */
  lemma SettledAt(title: string, retries: int, delay: nat, oracle: seq<Outcome>, k: nat)
    requires k < retries <= |oracle|
    requires !Transient(oracle[k])
    requires forall j :: 0 <= j < k ==> Transient(oracle[j])
    ensures var run := GetWikipediaContent(title, retries, delay, oracle);
            && run.result == Some(Verdict(title, retries, oracle[k]))
            && run.trace == Schedule(0, k + 1, delay)
            && AttemptCount(run.trace) == k + 1
            && SleepCount(run.trace) == k
            && run.trace[|run.trace| - 1] == Attempt(k)
  {
    RunIsScheduled(title, retries, delay, oracle, k + 1);
    ScheduleCounts(0, k + 1, delay);
  }

  /** A page found on attempt `k` is returned at once: `k + 1` attempts,
      `k` sleeps, and the last step is that attempt (no sleep after it). */
  lemma SuccessShortCircuits(title: string, retries: int, delay: nat, oracle: seq<Outcome>, k: nat)
    requires k < retries <= |oracle|
    requires oracle[k].PageExists?
    requires forall j :: 0 <= j < k ==> Transient(oracle[j])
    ensures var run := GetWikipediaContent(title, retries, delay, oracle);
            && run.result == Some(oracle[k].summary)
            && AttemptCount(run.trace) == k + 1
            && SleepCount(run.trace) == k
            && run.trace[|run.trace| - 1] == Attempt(k)
  {
    SettledAt(title, retries, delay, oracle, k);
  }

  /** A missing page ends the loop on that attempt with the not-found message,
      however many attempts remain. */
  lemma NotFoundShortCircuits(title: string, retries: int, delay: nat, oracle: seq<Outcome>, k: nat)
    requires k < retries <= |oracle|
    requires oracle[k] == PageMissing
    requires forall j :: 0 <= j < k ==> Transient(oracle[j])
    ensures var run := GetWikipediaContent(title, retries, delay, oracle);
            && run.result == Some("Page '" + title + "' not found on Wikipedia")
            && AttemptCount(run.trace) == k + 1
            && SleepCount(run.trace) == k
            && run.trace[|run.trace| - 1] == Attempt(k)
  {
    SettledAt(title, retries, delay, oracle, k);
  }

  /** Connection errors on every attempt: all `retries` attempts are made,
      with `retries - 1` sleeps of `delay`, and the fixed message is returned. */
  lemma AllConnectionErrors(title: string, retries: int, delay: nat, oracle: seq<Outcome>)
    requires 0 < retries <= |oracle|
    requires forall j :: 0 <= j < retries ==> oracle[j] == ConnectionError
    ensures var run := GetWikipediaContent(title, retries, delay, oracle);
            && run.result == Some("Failed after " + Decimal.IntToString(retries) + " attempts: Connection error")
            && AttemptCount(run.trace) == retries
            && SleepCount(run.trace) == retries - 1
            && (forall i :: 0 <= i < |run.trace| && run.trace[i].Sleep? ==> run.trace[i].seconds == delay)
  {
    var run := GetWikipediaContent(title, retries, delay, oracle);
    assert StopsAfter(oracle, retries, retries);
    RunIsScheduled(title, retries, delay, oracle, retries);
    ScheduleCounts(0, retries, delay);
    SleepsLastDelay(title, retries, delay, oracle);
    assert run.result == Some(GiveUpMessage(retries, ConnectionErrorDetail));
    assert GiveUpMessage(retries, ConnectionErrorDetail)
           == "Failed after " + Decimal.IntToString(retries) + " attempts: Connection error";
  }

  /** Another exception on the last allowed attempt, after transient failures
      only, returns that exception's text; earlier errors only cost a sleep. */
  lemma FinalOtherError(title: string, retries: int, delay: nat, oracle: seq<Outcome>, detail: string)
    requires 0 < retries <= |oracle|
    requires forall j :: 0 <= j < retries - 1 ==> Transient(oracle[j])
    requires oracle[retries - 1] == OtherError(detail)
    ensures var run := GetWikipediaContent(title, retries, delay, oracle);
            && run.result == Some("Failed after " + Decimal.IntToString(retries) + " attempts: " + detail)
            && AttemptCount(run.trace) == retries
            && SleepCount(run.trace) == retries - 1
  {
    RunIsScheduled(title, retries, delay, oracle, retries);
    ScheduleCounts(0, retries, delay);
  }

  /** In a schedule every sleep lies between two consecutive attempts. */
  lemma ScheduleSleepsBetweenAttempts(count: nat, delay: nat, i: nat)
    requires i < |Schedule(0, count, delay)| && Schedule(0, count, delay)[i].Sleep?
    ensures var t := Schedule(0, count, delay);
            && 0 < i < |t| - 1
            && (i - 1) / 2 < count - 1
            && t[i].seconds == delay
            && t[i - 1] == Attempt((i - 1) / 2)
            && t[i + 1] == Attempt((i - 1) / 2 + 1)
  {
  }

  /** A run that made any attempt slept exactly one time fewer than it attempted. */
  lemma SleepCountIsAttemptsMinusOne(title: string, retries: int, delay: nat, oracle: seq<Outcome>)
    requires retries <= |oracle|
    ensures var run := GetWikipediaContent(title, retries, delay, oracle);
            run.trace != [] ==> SleepCount(run.trace) == AttemptCount(run.trace) - 1
  {
    if 0 < retries {
      var n := AttemptsMade(oracle, retries, 0);
      RunIsScheduled(title, retries, delay, oracle, n);
      ScheduleCounts(0, n, delay);
    }
  }

  /** Each sleep follows a transiently failed attempt that was not the last
      allowed one, lasts `delay`, and is followed by the next attempt. */
  lemma SleepsOnlyBetweenAttempts(title: string, retries: int, delay: nat, oracle: seq<Outcome>, i: nat)
    requires retries <= |oracle|
    requires i < |GetWikipediaContent(title, retries, delay, oracle).trace|
    requires GetWikipediaContent(title, retries, delay, oracle).trace[i].Sleep?
    ensures var t := GetWikipediaContent(title, retries, delay, oracle).trace;
            && 0 < i < |t| - 1
            && t[i].seconds == delay
            && t[i - 1].Attempt?
            && t[i - 1].index < retries - 1
            && Transient(oracle[t[i - 1].index])
            && t[i + 1] == Attempt(t[i - 1].index + 1)
  {
    var n := AttemptsMade(oracle, retries, 0);
    RunIsScheduled(title, retries, delay, oracle, n);
    ScheduleSleepsBetweenAttempts(n, delay, i);
  }

  // ---------------------------------------------------------------------------
  // The returned strings
  // ---------------------------------------------------------------------------

  /** The not-found message names the page it was about. */
  lemma NotFoundMessageDetermines(title: string, title': string)
    requires NotFoundMessage(title) == NotFoundMessage(title')
    ensures title == title'
  {
    var suffix := "' not found on Wikipedia";
    assert NotFoundMessage(title) == "Page '" + (title + suffix);
    assert NotFoundMessage(title') == "Page '" + (title' + suffix);
    Strings.StripPrefix("Page '", title + suffix, title' + suffix);
    Strings.StripSuffix(title, title', suffix);
  }

  /** The give-up message determines the attempt count and the error text. */
  lemma GiveUpMessageDetermines(retries: int, detail: string, retries': int, detail': string)
    requires GiveUpMessage(retries, detail) == GiveUpMessage(retries', detail')
    ensures retries == retries' && detail == detail'
  {
    var prefix := "Failed after ";
    var d, d' := Decimal.IntToString(retries), Decimal.IntToString(retries');
    var rest, rest' := " attempts: " + detail, " attempts: " + detail';
    assert GiveUpMessage(retries, detail) == prefix + (d + rest);
    assert GiveUpMessage(retries', detail') == prefix + (d' + rest');
    Strings.StripPrefix(prefix, d + rest, d' + rest');
    Decimal.NumberThenTextDetermined(retries, retries', rest, rest');
    Strings.StripPrefix(" attempts: ", detail, detail');
  }

  /** A not-found message is never a give-up message. */
  lemma NotFoundIsNotGiveUp(title: string, retries: int, detail: string)
    ensures NotFoundMessage(title) != GiveUpMessage(retries, detail)
  {
    assert NotFoundMessage(title)[0] == 'P';
    assert GiveUpMessage(retries, detail)[0] == 'F';
  }

  // ---------------------------------------------------------------------------
  // The default arguments
  // ---------------------------------------------------------------------------

  /** `get_wikipedia_content(title)` with `retries` and `delay` left at their
      defaults 3 and 2: at most three attempts, a string always returned, and
      every sleep two seconds long. */
  function GetWikipediaContentDefaults(title: string, oracle: seq<Outcome>): (run: Run)
    requires DefaultRetries <= |oracle|
    ensures run.result.Some?
    ensures AttemptCount(run.trace) <= DefaultRetries
    ensures forall i :: 0 <= i < |run.trace| && run.trace[i].Sleep? ==> run.trace[i].seconds == DefaultDelay
  {
    AttemptBound(title, DefaultRetries, DefaultDelay, oracle);
    SleepsLastDelay(title, DefaultRetries, DefaultDelay, oracle);
    GetWikipediaContent(title, DefaultRetries, DefaultDelay, oracle)
  }

  /** Every sleep of a run lasts `delay`. */
  lemma SleepsLastDelay(title: string, retries: int, delay: nat, oracle: seq<Outcome>)
    requires retries <= |oracle|
    ensures var t := GetWikipediaContent(title, retries, delay, oracle).trace;
            forall i :: 0 <= i < |t| && t[i].Sleep? ==> t[i].seconds == delay
  {
    var t := GetWikipediaContent(title, retries, delay, oracle).trace;
    forall i | 0 <= i < |t| && t[i].Sleep?
      ensures t[i].seconds == delay
    {
      SleepsOnlyBetweenAttempts(title, retries, delay, oracle, i);
    }
  }
}
