# ReAct agent tools: retry loop and search projection, in Dafny

This project models the two pieces of the ReAct agent's tool layer that have
logic of their own:

- **`get_wikipedia_content`** (demo.py): a bounded retry loop that fetches a
  Wikipedia page summary. Each attempt ends in one of four ways: the page
  exists, the page is missing, a connection error is raised, or some other
  exception is raised. The model replaces the Wikipedia call with an
  *oracle*, a sequence whose entry `k` is what attempt `k` observes. It
  replaces `time.sleep` with a `Sleep` step in the run's trace, next to an
  `Attempt` step for each use of the oracle (module `Retry`).
- **The search tool** (src/tools/serp.py): the parameters `SerpAPIClient`
  sends, and the projection `format_top_search_results`. The projection keeps
  the first `top_n` organic results and maps each to a record with the keys
  `position`, `title`, `link` and `snippet`. `search` then either wraps the
  records under `top_results` or reports `error` (module `Serp`). JSON is
  modelled as a value (module `Json`), not as text.

Supporting modules: `Wrappers` (`Option`, `Result`), `Decimal` (Python's
`str` applied to an `int`, with its inverse), and `Strings` (reading fixed
text back out of a concatenation).

How the runs are described: `Retry.Loop` is the recursive definition.
`Retry.FetchWithRetry` is the counted loop of `get_wikipedia_content`, proved
equal to `Loop`. `Retry.StopsAfter`, `Retry.Verdict` and `Retry.Schedule` give
a second, non-recursive description: how many attempts are made, what string
is returned, and which attempts and sleeps happen in which order.
`Retry.RunIsScheduled` proves that the two descriptions agree.

Two places where the code does less than its own text suggests; the model
follows the code:
- The error text is formatted as `status code {status_code}`
  (src/tools/serp.py:61), but the client only ever returns `(0, str(e))`
  (src/tools/serp.py:29-31), so the reported code is always 0
  (`Serp.CallClient`, `Serp.SearchFailureShape`).
- The docstring of `get_wikipedia_content` promises a `str` (demo.py:18-19),
  but with `retries <= 0` the loop at demo.py:24 never runs and the function
  returns `None` (`Retry.GetWikipediaContent`, `Retry.NoAttemptsWithoutRetries`).

## Model

| member | source | states |
|---|---|---|
| Retry.Loop | demo.py:24-62 | once at least one attempt is allowed, the loop always returns a string; every attempt it makes is numbered from the current one up to `retries - 1` |
| Retry.FetchWithRetry | demo.py:24-62 | the counted loop with returns inside its body produces exactly the result and the trace of the recursive definition |
| Retry.GetWikipediaContent | demo.py:9-62 | a string is returned exactly when `retries > 0`; with `retries <= 0` nothing is attempted; no attempt numbered `retries` or above is made |
| Retry.AttemptsMade | demo.py:24-62 | when `retries > 0`, some attempt count `n` satisfies the stopping rule: attempts before `n - 1` failed transiently, and attempt `n - 1` settled the question or was the last allowed |
| Retry.RunIsScheduled | demo.py:24-62 | a run that stops after `n` attempts has trace Attempt 0, Sleep, Attempt 1, …, Attempt `n-1`, and returns the verdict on attempt `n - 1` |
| Retry.NoAttemptsWithoutRetries | demo.py:24 | with `retries <= 0`, no attempt is made and the function falls through to `None` |
| Retry.AttemptBound | demo.py:24 | at most `retries` attempts, none numbered `retries` or higher; a string is returned exactly when `retries > 0` |
| Retry.OracleBeyondRetriesIgnored | demo.py:24-39 | oracles that agree on their first `retries` entries give the same run: nothing past attempt `retries - 1` is consulted |
| Retry.SuccessShortCircuits | demo.py:42-44 | if attempt `k` finds the page after `k` transient failures, its summary is returned; there are `k + 1` attempts and `k` sleeps, and the last step is attempt `k` (no sleep after it) |
| Retry.NotFoundShortCircuits | demo.py:45-46 | a missing page on attempt `k` returns exactly `Page '<title>' not found on Wikipedia` on that attempt, with no retry, however many attempts remain |
| Retry.AllConnectionErrors | demo.py:48-54 | connection errors on every attempt: exactly `retries` attempts and `retries - 1` sleeps, each of `delay`; the result is `Failed after <retries> attempts: Connection error` |
| Retry.FinalOtherError | demo.py:56-62 | another exception on the last allowed attempt, after transient failures only, returns `Failed after <retries> attempts: <str(e)>` with that exception's text, after `retries` attempts and `retries - 1` sleeps |
| Retry.SleepCountIsAttemptsMinusOne | demo.py:50-60 | every run that made an attempt slept exactly one time fewer than it attempted, whichever way it ended |
| Retry.SleepsOnlyBetweenAttempts | demo.py:48-60 | each sleep lasts `delay`, follows a transiently failed attempt numbered below `retries - 1`, and is followed by the next attempt |
| Retry.NotFoundMessageDetermines | demo.py:46 | the not-found message determines the title |
| Retry.GiveUpMessageDetermines | demo.py:54-62 | the give-up message determines both the attempt count and the error text |
| Retry.NotFoundIsNotGiveUp | demo.py:46-62 | a not-found message never equals a give-up message |
| Retry.SleepsLastDelay | demo.py:50-60 | every sleep of a run lasts exactly `delay` |
| Retry.GetWikipediaContentDefaults | demo.py:9 | with the defaults `retries=3, delay=2`, a string is always returned after at most three attempts, and every sleep lasts two seconds |
| Decimal.ParseIntToString | demo.py:54 | the decimal rendering of the attempt count (Python `str` on an `int`) reads back to the same number |
| Serp.RequestParams | src/tools/serp.py:18-24 | the request parameters are exactly `engine`, `q`, `api_key` and `location`, holding the given values |
| Serp.CallClient | src/tools/serp.py:25-31 | the client fails exactly when the request raises, and then returns status 0 with the exception text; otherwise it returns the decoded document unchanged |
| Serp.ProjectEach | src/tools/serp.py:40-48 | the comprehension succeeds exactly when every taken element is an object; it then gives one record per element, in order, record `i` projecting element `i` |
| Serp.Project | src/tools/serp.py:41-46 | a projected record has exactly the keys `position`, `title`, `link` and `snippet`; each holds the upstream value, or null when that key is absent |
| Serp.ProjectIgnoresOtherKeys | src/tools/serp.py:41-46 | results that agree on the four keys project to the same record, so every other upstream key is dropped |
| Serp.SliceStop | src/tools/serp.py:47 | the slice `[:n]` keeps exactly the indices Python's rule keeps: index `k` stays when `k < n`, or, for a negative `n`, when `k < len + n`; the stop never exceeds the length |
| Serp.FormatTopSearchResults | src/tools/serp.py:39-48 | no `organic_results` key gives the empty list; for `top_n >= 0` at most `top_n` records come out, exactly `min(top_n, len)` for a list; for a list there are as many records as `[:top_n]` keeps, and record `i` is the projection of upstream result `i` |
| Serp.FormatFailsExactly | src/tools/serp.py:39-48 | the projection succeeds exactly when `organic_results` is absent, or is a list whose taken elements are all objects, or is a string whose slice is empty |
| Serp.FormatIgnoresResultsPastTopN | src/tools/serp.py:47 | upstream lists that agree on the taken prefix give the same outcome; later entries are never inspected |
| Serp.Search | src/tools/serp.py:51-63 | `search` sends engine `google` with its query, key and location; it raises exactly when a delivered document's projection raises, and otherwise returns an object with a single key |
| Serp.SearchWithDefaultLocation | src/tools/serp.py:51 | with `location` left at its default, the request sends `location` as the empty string and engine `google` |
| Serp.SearchSuccessShape | src/tools/serp.py:56-58 | a delivered document yields an object whose only key is `top_results`: at most ten records, in upstream order, each as its four-key object |
| Serp.SearchFailureShape | src/tools/serp.py:59-61 | a failed request yields an object whose only key is `error`, with text `Search failed with status code 0: <message>` |
| Serp.SearchPropagatesFormatError | src/tools/serp.py:56-58 | an exception in the projection escapes `search` unchanged |
| Serp.ErrorTextDetermines | src/tools/serp.py:61 | the error text determines both the status code and the message |

## Left out

- src/llm/gemini.py: a thin wrapper over the Gemini SDK with fixed configuration constants and "empty text or exception gives None"; nothing in it is more than a foreign call.
- The `requests.Session`, the User-Agent header, `session.timeout` and the `wikipediaapi.Wikipedia` object (demo.py:22 and demo.py:26-39): these are foreign library calls, replaced by the per-attempt oracle. Which exceptions count as `requests.exceptions.ConnectionError` is the oracle's choice.
- `time.sleep`: modelled only as a `Sleep(delay)` step, recorded for every natural-number `delay`. `time.sleep` raises `ValueError` on a negative delay and `OverflowError` on a delay too large for its 64-bit nanosecond clock (about 9.2 × 10^9 seconds or more); the call sits inside the `except` handlers (demo.py:52, demo.py:60), so either exception escapes `get_wikipedia_content`. The model takes `delay` as a natural number and does not model the overflow: for such a delay it goes on to the next attempt where the source raises. Fractional delays are not modelled.
- All `print` and `logger` output: these are side effects with no bearing on the results.
- HTTP, TLS, `certifi` and the global `ssl` context override (src/tools/serp.py:6-8, 26): I/O and changes to library state. The exchange is a `Transport` value: a decoded JSON object, or a `RequestException` with its text.
- `load_api_key` and the YAML credentials file (src/tools/serp.py:34-36, 52): file I/O through a helper that is not part of this model. The key is a parameter of `Serp.Search`.
- The text produced by `json.dumps(..., indent=2)`: the output is modelled as a JSON value, so key order and whitespace are not modelled.
- A 2xx response whose JSON body is not an object: `search` would try to unpack it as a `(status, message)` pair. Such a body is not modelled, because the client's reply is taken to be a JSON object.
- JSON numbers are integers in the model. Values are copied through unchanged, so no property depends on this.
- A `top_n` that is not an `int` is not modelled. A negative `top_n` is modelled with Python's slice rule (`Serp.SliceStop`).
