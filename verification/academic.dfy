/** `search_academic`: one tool over three scholarly back ends (Semantic
    Scholar, arXiv and PubMed), chosen by name. Each back end's decoded reply
    is given to the model as records; the JSON and Atom decoding is not. */
module Academic {
  import opened Common
  import opened Text
  import opened Formatting

  const AcademicSources: seq<string> := ["semantic_scholar", "arxiv", "pubmed"]
  const InvalidSourceLead: string := "Invalid source. Choose from: "
  const InvalidSourceMessage: string := InvalidSourceLead + Join(", ", AcademicSources)
  const ScholarNoResultsFor: string := "No results found in Semantic Scholar for query: "
  const PubMedNoResultsFor: string := "No results found in PubMed for query: "
  const PubMedLinkBase: string := "https://pubmed.ncbi.nlm.nih.gov/"
  const ExcerptLength: nat := 300

  function AcademicFailure(source: string): string
  {
    "Error performing academic search via " + source + ": "
  }

  /** An author object; `None` when it has no `name`. */
  datatype Author = Author(name: Option<string>)

  /** One paper of a Semantic Scholar reply; `None` for a key the paper lacks.
      The year is given as the text Python prints for it. */
  datatype ScholarPaper = ScholarPaper(
    title: Option<string>, authors: Option<seq<Author>>, year: Option<string>,
    venue: Option<string>, url: Option<string>, abstractText: Option<string>)

  /** Semantic Scholar's reply: its `data` list, `None` when the key is absent. */
  datatype ScholarPayload = ScholarPayload(data: Option<seq<ScholarPaper>>)

  /** One `entry` of the arXiv Atom feed: title, author names, summary and id texts. */
  datatype ArxivEntry = ArxivEntry(title: string, authors: seq<string>, summary: string, id: string)

  /** PubMed's search reply: `esearchresult.idlist`, `None` when either key is absent. */
  datatype PubMedSearchPayload = PubMedSearchPayload(idList: Option<seq<string>>)

  /** One document of PubMed's summary reply. */
  datatype PubMedDoc = PubMedDoc(
    title: Option<string>, authors: Option<seq<Author>>, journal: Option<string>, pubdate: Option<string>)

  /** PubMed's summary reply: its `result` map, `None` when the key is absent. */
  datatype PubMedSummaryPayload = PubMedSummaryPayload(result: Option<map<string, PubMedDoc>>)

  /** The outcome of each request `search_academic` may send; only those of the
      chosen back end are looked at. */
  datatype AcademicReplies = AcademicReplies(
    scholar: Outcome<ScholarPayload>,
    arxiv: Outcome<seq<ArxivEntry>>,
    pubmedSearch: Outcome<PubMedSearchPayload>,
    pubmedSummary: Outcome<PubMedSummaryPayload>)

  /** `text[:300] + "..."`: the marker is appended whatever the length. */
  function Excerpt(text: string): (r: string)
    ensures |r| == (if |text| < ExcerptLength then |text| else ExcerptLength) + 3
    ensures r[..|r| - 3] <= text && r[|r| - 3..] == "..."
  {
    Prefix(text, ExcerptLength) + "..."
  }

  /** `author.get("name", "Unknown")` for each author, in order. */
  function AuthorNames(authors: seq<Author>): (names: seq<string>)
    ensures |names| == |authors|
    ensures forall i :: 0 <= i < |authors| ==>
      names[i] == (if authors[i].name.Some? then authors[i].name.value else "Unknown")
  {
    seq(|authors|, i requires 0 <= i < |authors| => OrDefault(authors[i].name, "Unknown"))
  }

  /** A Semantic Scholar paper's block. Every field is read with a default, so
      formatting never raises; the block opens with the title line and ends
      with the abstract's excerpt. */
  function ScholarEntry(p: ScholarPaper): (r: Outcome<string>)
    ensures r.Returned?
    ensures var first := "Title: " + OrDefault(p.title, "No title") + "\n";
      |first| <= |r.value| && r.value[..|first|] == first
    ensures var last := "Abstract: " + Excerpt(OrDefault(p.abstractText, "No abstract available")) + "\n";
      |last| <= |r.value| && r.value[|r.value| - |last|..] == last
  {
    var authors := if p.authors.Some? then p.authors.value else [];
    var first := "Title: " + OrDefault(p.title, "No title") + "\n";
    var middle :=
      "Authors: " + Join(", ", AuthorNames(authors))
      + "\nYear: " + OrDefault(p.year, "Unknown")
      + "\nVenue: " + OrDefault(p.venue, "Unknown")
      + "\nURL: " + OrDefault(p.url, "No URL available") + "\n";
    var last := "Abstract: " + Excerpt(OrDefault(p.abstractText, "No abstract available")) + "\n";
    EntryLines(first, middle, last);
    Returned(first + middle + last)
  }

  /** An arXiv entry's block: it opens with the stripped title and ends with
      the excerpt of the stripped summary. */
  function ArxivEntryText(e: ArxivEntry): (r: Outcome<string>)
    ensures r.Returned?
    ensures var first := "Title: " + Strip(e.title) + "\n";
      |first| <= |r.value| && r.value[..|first|] == first
    ensures var last := "Summary: " + Excerpt(Strip(e.summary)) + "\n";
      |last| <= |r.value| && r.value[|r.value| - |last|..] == last
  {
    var first := "Title: " + Strip(e.title) + "\n";
    var middle := "Authors: " + Join(", ", e.authors) + "\nLink: " + e.id + "\n";
    var last := "Summary: " + Excerpt(Strip(e.summary)) + "\n";
    EntryLines(first, middle, last);
    Returned(first + middle + last)
  }

  lemma EntryLines(first: string, middle: string, last: string)
    ensures var block := first + middle + last;
      && |first| + |last| <= |block|
      && block[..|first|] == first && block[|block| - |last|..] == last
  {
  }

  /** The author line of a PubMed entry AS WRITTEN: the first author's name
      (default `[{'name': 'Unknown'}]`) is passed to `', '.join`, which joins
      its characters; an empty author list raises `IndexError`. */
  function PubMedAuthorsAsWritten(authors: Option<seq<Author>>): Outcome<string>
  {
    var list := if authors.Some? then authors.value else [Author(Some("Unknown"))];
    if list == [] then Raised(IndexErrorText)
    else
      Returned(Join(", ", Letters(OrDefault(list[0].name, "Unknown"))))
  }

  /** The characters of `name`, each as a one-character string. */
  function Letters(name: string): (letters: seq<string>)
    ensures |letters| == |name|
  {
    seq(|name|, i requires 0 <= i < |name| => [name[i]])
  }

  /** The author line as evidently intended: every author's name, in order,
      separated by ", " (`Unknown` when there is no author list). */
  function PubMedAuthors(authors: Option<seq<Author>>): string
  {
    if authors.Some? then Join(", ", AuthorNames(authors.value)) else "Unknown"
  }

  /** `summary_results["result"][paper_id]` formatted; a missing id raises
      `KeyError`, a publication date with no word raises `IndexError`. */
  function PubMedEntry(docs: map<string, PubMedDoc>, id: string): (r: Outcome<string>)
    ensures id !in docs ==> r == Raised(KeyErrorText(id))
    ensures id in docs && FirstWord(OrDefault(docs[id].pubdate, "Unknown")).None? ==> r == Raised(IndexErrorText)
    ensures r.Returned? <==> id in docs && FirstWord(OrDefault(docs[id].pubdate, "Unknown")).Some?
    ensures r.Returned? ==> var last := "\nLink: " + PubMedLinkBase + id + "/\n";
      |last| <= |r.value| && r.value[|r.value| - |last|..] == last
  {
    if id !in docs then Raised(KeyErrorText(id))
    else
      var d := docs[id];
      match FirstWord(OrDefault(d.pubdate, "Unknown"))
      case None => Raised(IndexErrorText)
      case Some(year) =>
        Returned(
          "Title: " + OrDefault(d.title, "No title")
          + "\nAuthors: " + PubMedAuthors(d.authors)
          + "\nJournal: " + OrDefault(d.journal, "Unknown")
          + "\nYear: " + year
          + "\nPubMed ID: " + id
          + "\nLink: " + PubMedLinkBase + id + "/\n")
  }

  /** True when PubMed's search reply carries a non-empty id list. */
  predicate HasIds(search: Outcome<PubMedSearchPayload>)
  {
    search.Returned? && search.value.idList.Some? && search.value.idList.value != []
  }

  /** The output of the summary step once the summary request was sent: a
      failed request, a reply without `result` and an id missing from it all
      come back as text starting with the PubMed failure prefix. */
  function PubMedSummaryOutput(ids: seq<string>, summary: Outcome<PubMedSummaryPayload>): (out: string)
    ensures summary.Raised? ==> out == AcademicFailure("pubmed") + summary.message
    ensures summary.Returned? && summary.value.result.None? ==>
      out == AcademicFailure("pubmed") + KeyErrorText("result")
    ensures summary.Returned? && summary.value.result.Some?
      && (exists i :: 0 <= i < |ids| && ids[i] !in summary.value.result.value)
      ==> AcademicFailure("pubmed") <= out
  {
    var failure := AcademicFailure("pubmed");
    match summary
    case Raised(m) => failure + m
    case Returned(payload) =>
      match payload.result
      case None => failure + KeyErrorText("result")
      case Some(docs) => Joined(failure, FormatAll(ids, id => PubMedEntry(docs, id)))
  }

  /** The PubMed branch: an id search, then a summary request only when the
      search returned at least one id. */
  function PubMedRun(query: string, numResults: int, search: Outcome<PubMedSearchPayload>,
                     summary: Outcome<PubMedSummaryPayload>): (run: Run)
    ensures 1 <= |run.requests| <= 2
    ensures run.requests[0] == PubMedSearchRequest(query, ClampCount(numResults))
    ensures |run.requests| == 2 <==> HasIds(search)
    ensures search.Returned? && !HasIds(search) ==> run.output == PubMedNoResultsFor + query
  {
    var first := PubMedSearchRequest(query, ClampCount(numResults));
    match search
    case Raised(m) => Run([first], AcademicFailure("pubmed") + m)
    case Returned(payload) =>
      if !HasIds(search) then Run([first], PubMedNoResultsFor + query)
      else
        var ids := payload.idList.value;
        Run([first, PubMedSummaryRequest(Join(",", ids))], PubMedSummaryOutput(ids, summary))
  }

  /** What `search_academic(query, source, num_results)` does. */
  function AcademicRun(query: string, source: string, numResults: int, replies: AcademicReplies): (run: Run)
    ensures source !in AcademicSources <==> run.requests == []
    ensures source !in AcademicSources ==> run.output == InvalidSourceMessage
  {
    if source !in AcademicSources then Run([], InvalidSourceMessage)
    else if source == "arxiv" then
      var output :=
        match replies.arxiv
        case Raised(m) => AcademicFailure(source) + m
        case Returned(entries) => Joined(AcademicFailure(source), FormatAll(entries, ArxivEntryText));
      Run([ArxivRequest(query, ClampCount(numResults))], output)
    else if source == "semantic_scholar" then
      var output :=
        match replies.scholar
        case Raised(m) => AcademicFailure(source) + m
        case Returned(payload) =>
          match payload.data
          case None => ScholarNoResultsFor + query
          case Some(papers) => Joined(AcademicFailure(source), FormatAll(papers, ScholarEntry));
      Run([SemanticScholarRequest(query, ClampCount(numResults))], output)
    else
      PubMedRun(query, numResults, replies.pubmedSearch, replies.pubmedSummary)
  }

  method SearchAcademic(query: string, source: string, numResults: int, replies: AcademicReplies)
    returns (run: Run)
    ensures run == AcademicRun(query, source, numResults, replies)
  {
    if source !in AcademicSources {
      return Run([], InvalidSourceMessage);
    }
    var failure := AcademicFailure(source);
    if source == "arxiv" {
      var request := ArxivRequest(query, ClampCount(numResults));
      match replies.arxiv {
        case Raised(m) =>
          run := Run([request], failure + m);
        case Returned(entries) =>
          var formatted := FormatEach(entries, ArxivEntryText);
          run := Run([request], Joined(failure, formatted));
      }
    } else if source == "semantic_scholar" {
      var request := SemanticScholarRequest(query, ClampCount(numResults));
      match replies.scholar {
        case Raised(m) =>
          run := Run([request], failure + m);
        case Returned(payload) =>
          if payload.data.None? {
            run := Run([request], ScholarNoResultsFor + query);
          } else {
            var formatted := FormatEach(payload.data.value, ScholarEntry);
            run := Run([request], Joined(failure, formatted));
          }
      }
    } else {
      var first := PubMedSearchRequest(query, ClampCount(numResults));
      if replies.pubmedSearch.Raised? {
        return Run([first], failure + replies.pubmedSearch.message);
      }
      if !HasIds(replies.pubmedSearch) {
        return Run([first], PubMedNoResultsFor + query);
      }
      var ids := replies.pubmedSearch.value.idList.value;
      var second := PubMedSummaryRequest(Join(",", ids));
      match replies.pubmedSummary {
        case Raised(m) =>
          run := Run([first, second], failure + m);
        case Returned(payload) =>
          if payload.result.None? {
            run := Run([first, second], failure + KeyErrorText("result"));
          } else {
            var docs := payload.result.value;
            var formatted := FormatEach(ids, id => PubMedEntry(docs, id));
            run := Run([first, second], Joined(failure, formatted));
          }
      }
    }
  }

  /** The invalid-source message names every back end, in the order the tool
      knows them, each at its place between the ", " separators. */
  lemma InvalidSourceListsSources(i: nat)
    requires i < |AcademicSources|
    ensures var at := |InvalidSourceLead| + JoinOffset(", ", AcademicSources, i);
      at + |AcademicSources[i]| <= |InvalidSourceMessage|
      && InvalidSourceMessage[at..at + |AcademicSources[i]|] == AcademicSources[i]
  {
    JoinAt(", ", AcademicSources, i);
  }

  /** Every request `search_academic` sends that carries a result count carries
      the clamped one, and a known source sends one or two requests. */
  lemma AcademicRequestsClamped(query: string, source: string, numResults: int, replies: AcademicReplies)
    ensures var run := AcademicRun(query, source, numResults, replies);
      && (source in AcademicSources ==> 1 <= |run.requests| <= 2)
      && forall r :: r in run.requests && CarriesCount(r) ==> CountOf(r) == ClampCount(numResults) && 1 <= CountOf(r) <= 10
  {
  }

  /** How each known back end's failures reach the caller: a raised request
      comes back as the failure prefix naming the source followed by the
      exception's text, and a Semantic Scholar reply without `data` as the
      no-results line. The first request is always the chosen back end's. */
  lemma AcademicOutcomes(query: string, source: string, numResults: int, replies: AcademicReplies)
    requires source in AcademicSources
    ensures var run := AcademicRun(query, source, numResults, replies);
      var count := ClampCount(numResults);
      && (source == "semantic_scholar" ==> run.requests == [SemanticScholarRequest(query, count)])
      && (source == "arxiv" ==> run.requests == [ArxivRequest(query, count)])
      && (source == "pubmed" ==> run.requests[0] == PubMedSearchRequest(query, count))
      && (source == "semantic_scholar" && replies.scholar.Raised? ==>
            run.output == AcademicFailure(source) + replies.scholar.message)
      && (source == "semantic_scholar" && replies.scholar.Returned? && replies.scholar.value.data.None? ==>
            run.output == ScholarNoResultsFor + query)
      && (source == "arxiv" && replies.arxiv.Raised? ==>
            run.output == AcademicFailure(source) + replies.arxiv.message)
      && (source == "pubmed" && replies.pubmedSearch.Raised? ==>
            run.output == AcademicFailure("pubmed") + replies.pubmedSearch.message)
      && (source == "pubmed" && HasIds(replies.pubmedSearch) && replies.pubmedSummary.Raised? ==>
            run.output == AcademicFailure("pubmed") + replies.pubmedSummary.message)
  {
  }

  /** An empty PubMed id list ends the search with the no-results line; the
      summary request is never sent, whatever its reply would have been. */
  lemma PubMedEmptyIdList(query: string, numResults: int, replies: AcademicReplies)
    requires replies.pubmedSearch == Returned(PubMedSearchPayload(Some([])))
    ensures AcademicRun(query, "pubmed", numResults, replies)
      == Run([PubMedSearchRequest(query, ClampCount(numResults))], PubMedNoResultsFor + query)
  {
  }

  lemma {:induction false} JoinLettersLength(name: string)
    requires |name| >= 1
    ensures |Join(", ", Letters(name))| == 3 * |name| - 2
  {
    if |name| > 1 {
      assert Letters(name)[1..] == Letters(name[1..]);
      JoinLettersLength(name[1..]);
    }
  }

  /** As written, a lone author whose name has two or more characters never
      comes back as that name: each character is followed by ", ". */
  lemma PubMedAuthorsAsWrittenSplitsName(name: string)
    requires |name| >= 2
    ensures PubMedAuthorsAsWritten(Some([Author(Some(name))])).Returned?
    ensures PubMedAuthorsAsWritten(Some([Author(Some(name))])).value != name
  {
    JoinLettersLength(name);
  }

  /** As written, the authors "Li" and "Wu" are rendered "L, i". */
  lemma PubMedAuthorsAsWrittenExample()
    ensures PubMedAuthorsAsWritten(Some([Author(Some("Li")), Author(Some("Wu"))])) == Returned("L, i")
  {
    var authors := [Author(Some("Li")), Author(Some("Wu"))];
    assert OrDefault(authors[0].name, "Unknown") == "Li";
    var letters := Letters("Li");
    assert letters == ["L", "i"];
    assert letters[1..] == ["i"];
    assert Join(", ", letters) == "L" + ", " + "i";
    assert PubMedAuthorsAsWritten(Some(authors)) == Returned(Join(", ", letters));
    assert "L" + ", " + "i" == "L, i";
  }

  /** The corrected author line names every author, in order: the i-th name
      sits at its place between the ", " separators. */
  lemma PubMedAuthorsListsEveryAuthor(authors: seq<Author>, i: nat)
    requires i < |authors|
    ensures var line := PubMedAuthors(Some(authors));
      var name := AuthorNames(authors)[i];
      var at := JoinOffset(", ", AuthorNames(authors), i);
      at + |name| <= |line| && line[at..at + |name|] == name
  {
    JoinAt(", ", AuthorNames(authors), i);
  }

  /** The corrected author line of a lone author is that author's name. */
  lemma PubMedAuthorsSingle(name: string)
    ensures PubMedAuthors(Some([Author(Some(name))])) == name
  {
    assert AuthorNames([Author(Some(name))]) == [name];
  }
}
