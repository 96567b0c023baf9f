/** Shared vocabulary of the research-assistant tool layer: optional values,
    the outcome of a call that may raise, the requests a tool sends to its
    providers, and the result-count clamp every provider request goes through. */
module Common {

  datatype Option<+T> = None | Some(value: T)

  /** What a call that may raise produced: a value, or an exception whose
      `str(e)` text is `message`. Provider replies (an HTTP call plus JSON or
      XML decoding) and adapter invocations are both given to the model in
      this form. */
  datatype Outcome<+T> = Returned(value: T) | Raised(message: string)

  /** One request sent to an outside service. Counts are the values actually
      put on the wire, i.e. after clamping. */
  datatype Request =
    | GoogleSearchRequest(query: string, num: int)
    | SerperSearchRequest(query: string, num: int)
    | SemanticScholarRequest(query: string, limit: int)
    | ArxivRequest(query: string, maxResults: int)
    | PubMedSearchRequest(term: string, retmax: int)
    | PubMedSummaryRequest(ids: string)
    | PageFetchRequest(url: string, timeoutSeconds: nat)

  /** What one tool call does: the requests it sends, in order, and the text it returns. */
  datatype Run = Run(requests: seq<Request>, output: string)

  /** A call of a search tool made by a composite tool: which source, query and count. */
  datatype Invocation = Invocation(source: string, query: string, numResults: int)

  /** One chat-completion request to the language model. */
  datatype Message = Message(role: string, content: string)
  datatype Completion = Completion(messages: seq<Message>, temperature: real, maxTokens: nat)

  /** True of the requests that carry a result count. */
  predicate CarriesCount(r: Request)
  {
    r.GoogleSearchRequest? || r.SerperSearchRequest? || r.SemanticScholarRequest?
    || r.ArxivRequest? || r.PubMedSearchRequest?
  }

  function CountOf(r: Request): int
    requires CarriesCount(r)
  {
    match r
    case GoogleSearchRequest(_, n) => n
    case SerperSearchRequest(_, n) => n
    case SemanticScholarRequest(_, n) => n
    case ArxivRequest(_, n) => n
    case PubMedSearchRequest(_, n) => n
  }

  /** `min(max(1, n), 10)`: the count actually sent to a provider. */
  function ClampCount(n: int): (r: int)
    ensures 1 <= r <= 10
    ensures 1 <= n <= 10 ==> r == n
    ensures n < 1 ==> r == 1
    ensures 10 < n ==> r == 10
  {
    var atLeastOne := if 1 < n then n else 1;
    if atLeastOne < 10 then atLeastOne else 10
  }

  /** `str(KeyError(key))` for a key without quote characters or backslashes
      (the field names and PubMed ids it is raised for): the key in single
      quotes. */
  function KeyErrorText(key: string): (r: string)
    ensures |r| == |key| + 2 && r[1..|r| - 1] == key
  {
    "'" + key + "'"
  }

  /** `str(IndexError)` raised by indexing an empty list. */
  const IndexErrorText: string := "list index out of range"

  /** Python's `x.get(key, default)` on a string-valued field. */
  function OrDefault(field: Option<string>, default: string): string
  {
    match field
    case Some(s) => s
    case None => default
  }
}
