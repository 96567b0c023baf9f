/** The two web-search tools, `search_google` (Google Custom Search) and
    `search_serper` (Serper.dev). Each reads its credentials, sends at most one
    request with the clamped result count, and turns every failure into text. */
module WebSearch {
  import opened Common
  import opened Text
  import opened Formatting

  /** The environment variables a tool reads; `None` when unset. */
  datatype GoogleConfig = GoogleConfig(apiKey: Option<string>, engineId: Option<string>)
  datatype SerperConfig = SerperConfig(apiKey: Option<string>)

  /** One result item of a provider's JSON reply; `None` for a key the item lacks. */
  datatype SearchItem = SearchItem(title: Option<string>, link: Option<string>, snippet: Option<string>)

  /** Google's decoded reply: its `items` list, `None` when the key is absent. */
  datatype GooglePayload = GooglePayload(items: Option<seq<SearchItem>>)

  /** Serper's decoded reply: its `organic` list, `None` when the key is absent. */
  datatype SerperPayload = SerperPayload(organic: Option<seq<SearchItem>>)

  const GoogleNotConfigured: string := "Error: Google Search API key or Search Engine ID not configured."
  const SerperNotConfigured: string := "Error: Serper API key not configured."
  const GoogleFailure: string := "Error performing Google search: "
  const SerperFailure: string := "Error performing Serper search: "
  const NoResultsFor: string := "No results found for query: "
  const NoSnippet: string := "No snippet available"

  /** Python truthiness of an environment variable: set and non-empty. */
  predicate IsSet(v: Option<string>)
  {
    v.Some? && v.value != ""
  }

  predicate GoogleConfigured(cfg: GoogleConfig)
  {
    IsSet(cfg.apiKey) && IsSet(cfg.engineId)
  }

  /** `item[key]`: the value, or the `KeyError` a missing key raises. */
  function Field(v: Option<string>, key: string): Outcome<string>
  {
    match v
    case Some(s) => Returned(s)
    case None => Raised(KeyErrorText(key))
  }

  /** The block one search result becomes. */
  function EntryText(title: string, link: string, snippet: string): string
  {
    "Title: " + title + "\nLink: " + link + "\nSnippet: " + snippet + "\n"
  }

  /** A Google item's block; the fields are read left to right, so a missing
      key raises for the first missing one of title, link and snippet. */
  function GoogleEntry(item: SearchItem): (r: Outcome<string>)
    ensures r.Returned? <==> item.title.Some? && item.link.Some? && item.snippet.Some?
    ensures r.Returned? ==> r.value == EntryText(item.title.value, item.link.value, item.snippet.value)
  {
    match Field(item.title, "title")
    case Raised(m) => Raised(m)
    case Returned(title) =>
      match Field(item.link, "link")
      case Raised(m) => Raised(m)
      case Returned(link) =>
        match Field(item.snippet, "snippet")
        case Raised(m) => Raised(m)
        case Returned(snippet) => Returned(EntryText(title, link, snippet))
  }

  /** A Serper item's block; a missing snippet reads "No snippet available". */
  function SerperEntry(item: SearchItem): (r: Outcome<string>)
    ensures r.Returned? <==> item.title.Some? && item.link.Some?
    ensures r.Returned? ==>
      r.value == EntryText(item.title.value, item.link.value, OrDefault(item.snippet, NoSnippet))
  {
    match Field(item.title, "title")
    case Raised(m) => Raised(m)
    case Returned(title) =>
      match Field(item.link, "link")
      case Raised(m) => Raised(m)
      case Returned(link) => Returned(EntryText(title, link, OrDefault(item.snippet, NoSnippet)))
  }

  /** What `search_google(query, num_results)` does, given the outcome of its
      request (the HTTP call and the JSON decoding). */
  function GoogleRun(cfg: GoogleConfig, query: string, numResults: int, reply: Outcome<GooglePayload>): (run: Run)
    ensures run.requests == [] <==> !GoogleConfigured(cfg)
    ensures !GoogleConfigured(cfg) ==> run.output == GoogleNotConfigured
    ensures forall r :: r in run.requests ==> r == GoogleSearchRequest(query, ClampCount(numResults))
  {
    if !GoogleConfigured(cfg) then Run([], GoogleNotConfigured)
    else
      var output :=
        match reply
        case Raised(m) => GoogleFailure + m
        case Returned(payload) =>
          match payload.items
          case None => NoResultsFor + query
          case Some(items) => Joined(GoogleFailure, FormatAll(items, GoogleEntry));
      Run([GoogleSearchRequest(query, ClampCount(numResults))], output)
  }

  method SearchGoogle(cfg: GoogleConfig, query: string, numResults: int, reply: Outcome<GooglePayload>)
    returns (run: Run)
    ensures run == GoogleRun(cfg, query, numResults, reply)
  {
    if !GoogleConfigured(cfg) {
      return Run([], GoogleNotConfigured);
    }
    var request := GoogleSearchRequest(query, ClampCount(numResults));
    match reply {
      case Raised(m) =>
        run := Run([request], GoogleFailure + m);
      case Returned(payload) =>
        if payload.items.None? {
          run := Run([request], NoResultsFor + query);
        } else {
          var formatted := FormatEach(payload.items.value, GoogleEntry);
          run := Run([request], Joined(GoogleFailure, formatted));
        }
    }
  }

  /** What `search_serper(query, num_results)` does. The request carries the
      clamped count, but the reply's items are cut with the caller's
      `num_results` as given (`organic[:num_results]`). */
  function SerperRun(cfg: SerperConfig, query: string, numResults: int, reply: Outcome<SerperPayload>): (run: Run)
    ensures run.requests == [] <==> !IsSet(cfg.apiKey)
    ensures !IsSet(cfg.apiKey) ==> run.output == SerperNotConfigured
    ensures forall r :: r in run.requests ==> r == SerperSearchRequest(query, ClampCount(numResults))
  {
    if !IsSet(cfg.apiKey) then Run([], SerperNotConfigured)
    else
      var output :=
        match reply
        case Raised(m) => SerperFailure + m
        case Returned(payload) =>
          match payload.organic
          case None => NoResultsFor + query
          case Some(items) => Joined(SerperFailure, FormatAll(Prefix(items, numResults), SerperEntry));
      Run([SerperSearchRequest(query, ClampCount(numResults))], output)
  }

  method SearchSerper(cfg: SerperConfig, query: string, numResults: int, reply: Outcome<SerperPayload>)
    returns (run: Run)
    ensures run == SerperRun(cfg, query, numResults, reply)
  {
    if !IsSet(cfg.apiKey) {
      return Run([], SerperNotConfigured);
    }
    var request := SerperSearchRequest(query, ClampCount(numResults));
    match reply {
      case Raised(m) =>
        run := Run([request], SerperFailure + m);
      case Returned(payload) =>
        if payload.organic.None? {
          run := Run([request], NoResultsFor + query);
        } else {
          var formatted := FormatEach(Prefix(payload.organic.value, numResults), SerperEntry);
          run := Run([request], Joined(SerperFailure, formatted));
        }
    }
  }

  /** Every Google failure after the configuration check (the request, the
      decoding, an item without title, link or snippet) comes back as text
      starting with the Google error prefix; otherwise the output is the
      no-results line or the items' blocks, one per item, in provider order. */
  lemma GoogleOutcomes(cfg: GoogleConfig, query: string, numResults: int, reply: Outcome<GooglePayload>)
    requires GoogleConfigured(cfg)
    ensures var out := GoogleRun(cfg, query, numResults, reply).output;
      && (reply.Raised? ==> out == GoogleFailure + reply.message)
      && (reply.Returned? && reply.value.items.None? ==> out == NoResultsFor + query)
      && (reply.Returned? && reply.value.items.Some? ==>
            var items := reply.value.items.value;
            if forall i :: 0 <= i < |items| ==> GoogleEntry(items[i]).Returned? then
              exists entries: seq<string> ::
                && |entries| == |items|
                && (forall i :: 0 <= i < |items| ==>
                      entries[i] == EntryText(items[i].title.value, items[i].link.value, items[i].snippet.value))
                && out == Join("\n\n", entries)
            else
              GoogleFailure <= out)
  {
    if reply.Returned? && reply.value.items.Some? {
      var items := reply.value.items.value;
      var formatted := FormatAll(items, GoogleEntry);
      if formatted.Returned? {
        assert |formatted.value| == |items|;
      }
    }
  }

  /** Every Serper failure after the configuration check (the request, the
      decoding, a shown item without title or link) comes back as text starting
      with the Serper error prefix; a reply without `organic` gives the
      no-results line. */
  lemma SerperOutcomes(cfg: SerperConfig, query: string, numResults: int, reply: Outcome<SerperPayload>)
    requires IsSet(cfg.apiKey)
    ensures var out := SerperRun(cfg, query, numResults, reply).output;
      && (reply.Raised? ==> out == SerperFailure + reply.message)
      && (reply.Returned? && reply.value.organic.None? ==> out == NoResultsFor + query)
      && (reply.Returned? && reply.value.organic.Some? ==>
            var shown := Prefix(reply.value.organic.value, numResults);
            (exists i :: 0 <= i < |shown| && (shown[i].title.None? || shown[i].link.None?))
            ==> SerperFailure <= out)
  {
  }

  /** Serper formats the first `num_results` items of the reply, in provider
      order, when that count is not negative: exactly min(num_results, number
      of items) blocks. Items past that count are never looked at, so they
      may lack a title or a link. */
  lemma SerperFormatsLeadingItems(cfg: SerperConfig, query: string, numResults: int, items: seq<SearchItem>)
    requires IsSet(cfg.apiKey) && 0 <= numResults
    requires forall i :: 0 <= i < |items| && i < numResults ==> items[i].title.Some? && items[i].link.Some?
    ensures exists entries: seq<string> ::
      && |entries| == (if numResults < |items| then numResults else |items|)
      && (forall i :: 0 <= i < |entries| ==>
            entries[i] == EntryText(items[i].title.value, items[i].link.value, OrDefault(items[i].snippet, NoSnippet)))
      && SerperRun(cfg, query, numResults, Returned(SerperPayload(Some(items)))).output == Join("\n\n", entries)
  {
    var shown := Prefix(items, numResults);
    assert forall i :: 0 <= i < |shown| ==> shown[i] == items[i];
    assert forall i :: 0 <= i < |shown| ==> SerperEntry(shown[i]).Returned?;
    var entries := FormatAll(shown, SerperEntry).value;
    assert SerperRun(cfg, query, numResults, Returned(SerperPayload(Some(items)))).output == Join("\n\n", entries);
    assert forall i :: 0 <= i < |entries| ==>
      entries[i] == EntryText(items[i].title.value, items[i].link.value, OrDefault(items[i].snippet, NoSnippet));
  }
}
