/**
 * The web-search tool (src/tools/serp.py): the request parameters the
 * client sends, the projection of the backend's `organic_results` onto a
 * four-field record, and the success/error dispatch of `search`.
 *
 * The HTTP exchange (`requests.get`, `raise_for_status`, `response.json()`)
 * is replaced by its outcome, a `Transport` value; the JSON document is
 * kept as a value, not as its text.
 */
module Serp {
  import opened Wrappers
  import opened Json
  import Decimal
  import Strings

  const DefaultEngine: string := "google"
  const DefaultLocation: string := ""
  const DefaultTopN: int := 10
  const OrganicResultsKey: string := "organic_results"

  /** The names of the query parameters the client sends. */
  const ParamKeys: set<string> := {"engine", "q", "api_key", "location"}

  // ---------------------------------------------------------------------------
  // SerpAPIClient
  // ---------------------------------------------------------------------------

  /** The query parameters `SerpAPIClient.__call__` sends: exactly four, holding the given values. */
  function RequestParams(apiKey: string, query: string, engine: string, location: string): (params: map<string, string>)
    ensures params.Keys == ParamKeys
    ensures params["engine"] == engine && params["q"] == query
    ensures params["api_key"] == apiKey && params["location"] == location
  {
    map["engine" := engine, "q" := query, "api_key" := apiKey, "location" := location]
  }

  /** What the HTTP exchange produced: a decoded JSON object from a 2xx
      response, or a `RequestException` with its `str` text. */
  datatype Transport = Delivered(body: map<string, Value>) | RequestException(text: string)

  /** What the client returns: the document, or the pair `(status, message)`. */
  datatype ClientReply = Document(doc: map<string, Value>) | Failed(status: int, message: string)

  /** `SerpAPIClient.__call__`: a request exception becomes `(0, str(e))`;
      otherwise the decoded document is returned as it is. */
  function CallClient(transport: Transport): (reply: ClientReply)
    ensures reply.Failed? <==> transport.RequestException?
    ensures reply.Failed? ==> reply.status == 0 && reply.message == transport.text
    ensures reply.Document? ==> reply.doc == transport.body
  {
    match transport
    case Delivered(body) => Document(body)
    case RequestException(text) => Failed(0, text)
  }

  // ---------------------------------------------------------------------------
  // format_top_search_results
  // ---------------------------------------------------------------------------

  /** One projected search result; a field absent upstream is `Null`. */
  datatype Record = Record(position: Value, title: Value, link: Value, snippet: Value)

  /** The four keys of a projected record, in the order `format_top_search_results` (src/tools/serp.py) writes them. */
  const RecordKeys: seq<string> := ["position", "title", "link", "snippet"]

  /** The dictionary `format_top_search_results` (src/tools/serp.py) builds
      for one upstream result: exactly the four keys, each holding the
      upstream value, or null when that key is absent. */
  function Project(result: map<string, Value>): (r: Record)
    ensures RecordJson(r).Object?
    ensures RecordJson(r).fields.Keys == set k | k in RecordKeys
    ensures forall k :: k in RecordJson(r).fields ==>
              RecordJson(r).fields[k] == (if k in result then result[k] else Null)
  {
    Record(Get(result, "position"), Get(result, "title"), Get(result, "link"), Get(result, "snippet"))
  }

  /** A record as the JSON object it is emitted as. */
  function RecordJson(r: Record): Value {
    Object(map["position" := r.position, "title" := r.title, "link" := r.link, "snippet" := r.snippet])
  }

  /** Python's rule for `xs[:n]` with `|xs| == len`: index `k` is kept when
      it lies below `n`, or, for a negative `n`, below `len + n`. */
  predicate KeptBySlice(len: nat, n: int, k: int) {
    k < (if n < 0 then len + n else n)
  }

  /** The end index Python uses for `xs[:n]` when `|xs| == len`; a negative
      `n` counts from the end. */
  function SliceStop(len: nat, n: int): (stop: nat)
    ensures stop <= len
    ensures forall k :: 0 <= k < len ==> (k < stop <==> KeptBySlice(len, n, k))
  {
    if 0 <= n then (if n < len then n else len)
    else if 0 < len + n then len + n
    else 0
  }

  /** The exceptions the projection can raise: `organic_results` is not a
      sequence (a `TypeError` or `KeyError` on slicing), or a taken element has
      no `.get` (an `AttributeError`). */
  datatype FormatError = Unsliceable | ElementWithoutGet

  /** The list comprehension over the taken results, in order; the first
      element that is not an object raises. */
  function ProjectEach(items: seq<Value>): (r: Result<seq<Record>, FormatError>)
    ensures r.Success? <==> forall i :: 0 <= i < |items| ==> items[i].Object?
    ensures r.Failure? ==> r.error == ElementWithoutGet
    ensures r.Success? ==> |r.value| == |items|
    ensures r.Success? ==> forall i :: 0 <= i < |items| ==> r.value[i] == Project(items[i].fields)
    decreases |items|
  {
    if items == [] then Success([])
    else if !items[0].Object? then Failure(ElementWithoutGet)
    else
      var rest :- ProjectEach(items[1..]);
      Success([Project(items[0].fields)] + rest)
  }

  /** `results.get('organic_results', [])`. */
  function OrganicResults(results: map<string, Value>): Value {
    if OrganicResultsKey in results then results[OrganicResultsKey] else Array([])
  }

  /** `format_top_search_results(results, top_n)`. A string in place of the
      list is sliced like one: an empty slice gives no records, and a
      non-empty one fails on its first character. */
  function FormatTopSearchResults(results: map<string, Value>, topN: int): (r: Result<seq<Record>, FormatError>)
    ensures OrganicResultsKey !in results ==> r == Success([])
    ensures r.Success? && 0 <= topN ==> |r.value| <= topN
    ensures r.Success? && 0 <= topN && OrganicResults(results).Array? ==>
              var items := OrganicResults(results).items;
              |r.value| == (if topN < |items| then topN else |items|)
    ensures r.Success? && OrganicResults(results).Array? ==>
              var items := OrganicResults(results).items;
              && |r.value| == SliceStop(|items|, topN)
              && forall i :: 0 <= i < |r.value| ==> items[i].Object? && r.value[i] == Project(items[i].fields)
  {
    match OrganicResults(results)
    case Array(items) =>
      var taken := items[..SliceStop(|items|, topN)];
      assert forall i :: 0 <= i < |taken| ==> taken[i] == items[i];
      ProjectEach(taken)
    case Str(text) => if SliceStop(|text|, topN) == 0 then Success([]) else Failure(ElementWithoutGet)
    case _ => Failure(Unsliceable)
  }

  // ---------------------------------------------------------------------------
  // search
  // ---------------------------------------------------------------------------

  function ErrorText(status: int, message: string): string {
    "Search failed with status code " + Decimal.IntToString(status) + ": " + message
  }

  /** The records as the JSON array placed under `top_results`. */
  function RecordsJson(records: seq<Record>): Value {
    Array(seq(|records|, i requires 0 <= i < |records| => RecordJson(records[i])))
  }

  /** One call of `search`: the parameters it sends and the JSON object it
      returns, or the exception the projection raises. */
  datatype SearchCall = SearchCall(params: map<string, string>, output: Result<Value, FormatError>)

  /** `search(query, location)` with the loaded key `apiKey`, when the HTTP
      exchange ends as `transport`: the request uses the default engine, and
      the output is a one-key object unless the projection raised. */
  function Search(apiKey: string, query: string, location: string, transport: Transport): (call: SearchCall)
    ensures call.params == map["engine" := DefaultEngine, "q" := query, "api_key" := apiKey, "location" := location]
    ensures call.output.Failure? <==>
              transport.Delivered? && FormatTopSearchResults(transport.body, DefaultTopN).Failure?
    ensures call.output.Success? ==> call.output.value.Object? && |call.output.value.fields| == 1
  {
    var params := RequestParams(apiKey, query, DefaultEngine, location);
    var output :=
      match CallClient(transport)
      case Document(doc) =>
        (match FormatTopSearchResults(doc, DefaultTopN)
         case Success(records) => Success(Object(map["top_results" := RecordsJson(records)]))
         case Failure(e) => Failure(e))
      case Failed(status, message) => Success(Object(map["error" := Str(ErrorText(status, message))]));
    SearchCall(params, output)
  }

  /** `search(query)` with `location` left at its default `""`. */
  function SearchWithDefaultLocation(apiKey: string, query: string, transport: Transport): (call: SearchCall)
    ensures call.params.Keys == ParamKeys
    ensures call.params["location"] == DefaultLocation
    ensures call.params["engine"] == DefaultEngine
  {
    Search(apiKey, query, DefaultLocation, transport)
  }

  // ---------------------------------------------------------------------------
  // Properties
  // ---------------------------------------------------------------------------

  /** Upstream keys other than the four are dropped: results that agree on
      the four keys project to the same record. */
  lemma ProjectIgnoresOtherKeys(result: map<string, Value>, other: map<string, Value>)
    requires forall i :: 0 <= i < |RecordKeys| ==> Get(result, RecordKeys[i]) == Get(other, RecordKeys[i])
    ensures Project(result) == Project(other)
  {
    assert RecordKeys[0] == "position" && RecordKeys[1] == "title";
    assert RecordKeys[2] == "link" && RecordKeys[3] == "snippet";
  }

  /** The projection raises exactly when `organic_results` is present but is
      neither a list nor a string, when a taken element is not an object, or
      when a string takes the place of the list and its slice is non-empty. */
  lemma FormatFailsExactly(results: map<string, Value>, topN: int)
    ensures FormatTopSearchResults(results, topN).Success? <==>
            match OrganicResults(results)
            case Array(items) =>
              forall i :: 0 <= i < SliceStop(|items|, topN) ==> items[i].Object?
            case Str(text) => SliceStop(|text|, topN) == 0
            case _ => false
  {
    match OrganicResults(results)
    case Array(items) =>
      var taken := items[..SliceStop(|items|, topN)];
      assert forall i :: 0 <= i < |taken| ==> taken[i] == items[i];
    case _ =>
  }

  /** Results past the first `topN` are never looked at: upstream lists that
      agree on the taken prefix give the same outcome, even if later entries
      are malformed. */
  lemma FormatIgnoresResultsPastTopN(results: map<string, Value>, other: map<string, Value>, topN: int)
    requires OrganicResults(results).Array? && OrganicResults(other).Array?
    requires var items := OrganicResults(results).items;
             var items' := OrganicResults(other).items;
             && SliceStop(|items|, topN) == SliceStop(|items'|, topN)
             && items[..SliceStop(|items|, topN)] == items'[..SliceStop(|items'|, topN)]
    ensures FormatTopSearchResults(results, topN) == FormatTopSearchResults(other, topN)
  {
  }

  /** A delivered document yields one object with the single key
      `top_results`: the first ten projected records, in upstream order. */
  lemma SearchSuccessShape(apiKey: string, query: string, location: string, body: map<string, Value>)
    requires FormatTopSearchResults(body, DefaultTopN).Success?
    ensures var out := Search(apiKey, query, location, Delivered(body)).output;
            var records := FormatTopSearchResults(body, DefaultTopN).value;
            && out.Success? && out.value.Object?
            && out.value.fields.Keys == {"top_results"}
            && out.value.fields["top_results"].Array?
            && |out.value.fields["top_results"].items| == |records| <= DefaultTopN
            && forall i :: 0 <= i < |records| ==>
                 out.value.fields["top_results"].items[i] == RecordJson(records[i])
  {
  }

  /** A failed request yields one object with the single key `error`, whose
      text cites status code 0 and the exception's text. */
  lemma SearchFailureShape(apiKey: string, query: string, location: string, text: string)
    ensures Search(apiKey, query, location, RequestException(text)).output
            == Success(Object(map["error" := Str("Search failed with status code 0: " + text)]))
  {
    assert Decimal.IntToString(0) == "0";
    assert ErrorText(0, text) == "Search failed with status code 0: " + text;
  }

  /** A projection that raises on a delivered document propagates out of `search`. */
  lemma SearchPropagatesFormatError(apiKey: string, query: string, location: string, body: map<string, Value>)
    requires FormatTopSearchResults(body, DefaultTopN).Failure?
    ensures Search(apiKey, query, location, Delivered(body)).output
            == Failure(FormatTopSearchResults(body, DefaultTopN).error)
  {
  }

  /** The error text can be read back: it determines both the status code
      and the message. */
  lemma ErrorTextDetermines(status: int, message: string, status': int, message': string)
    requires ErrorText(status, message) == ErrorText(status', message')
    ensures status == status' && message == message'
  {
    var prefix := "Search failed with status code ";
    var d, d' := Decimal.IntToString(status), Decimal.IntToString(status');
    var rest, rest' := ": " + message, ": " + message';
    assert ErrorText(status, message) == prefix + (d + rest);
    assert ErrorText(status', message') == prefix + (d' + rest');
    Strings.StripPrefix(prefix, d + rest, d' + rest');
    Decimal.NumberThenTextDetermined(status, status', rest, rest');
    Strings.StripPrefix(": ", message, message');
  }
}
