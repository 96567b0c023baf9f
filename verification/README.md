# Research-assistant tool layer

This project models the tool layer of a research-assistant server
(`server.py`). The server publishes these tools:

- `search_google` and `search_serper`: web search.
- `get_webpage_content`: fetch a page and clean up its visible text.
- `search_academic`: Semantic Scholar, arXiv or PubMed, chosen by name.
- `unified_search`: run several of the search tools and combine their outputs.
- `analyze_topic` and `summarize_text`: ask a language model for prose.
- `fact_check`: three Google searches, then a model assessment.

Outside services are not called. Each reply of a search provider, of the page
fetch and of the language model is a parameter of type
`Outcome<T> = Returned(value) | Raised(message)`. Here `message` is the
`str(e)` text of the exception the call or its decoding raised. A web tool
returns a `Run`, holding the requests it sends (in order) and the text it
returns. So "issues no request" and "sends the clamped count" are stated
directly. Every tool turns its failures into text, as the server does.

Modules:

- `Common`: shared datatypes and the `min(max(1, n), 10)` clamp.
- `Text`: the Python string operations the tools rely on, on `seq<char>`.
  These are `join`, slicing `s[:n]` (negative `n` included), `strip`,
  `splitlines`, `split("  ")`, `split()[0]` and `upper`.
- `Formatting`: the per-item loop every adapter runs, as a method. It is
  specified by a recursive function.
- `PageContent`, `WebSearch`, `Academic`, `Aggregator`, `Analysis` and
  `FactCheck`: one module per tool or group of tools.

The loops of the server are methods proved against functions. These are the
adapters' item loops, the two loops of `unified_search` and the search loop
of `fact_check`. The properties are proved about those functions.

Two details of the code the model follows:

- The Semantic Scholar abstract and the arXiv summary always get `...`
  appended, even when shorter than 300 characters.
- `analyze_topic` builds a `depth_intro` table (server.py:345-349) that the
  code never uses. Its system prompt uses the depth string exactly as the
  caller gave it, even when an unknown depth fell back to the "medium" plan.

## Model

| member | source | states |
|---|---|---|
| Common.ClampCount | server.py:43 | the count sent to a provider is within [1, 10], equals `n` when `n` is in range, and is 1 below and 10 above the range |
| Text.Prefix | server.py:138 | Python's `s[:n]` is a prefix of `s` of length `min(n, len(s))` for `n >= 0`, and drops the last `-n` elements for negative `n` |
| Text.Strip | server.py:95-96 | `strip()` is the piece of the input left once its leading whitespace and its trailing whitespace are dropped: everything before and after the piece is whitespace, and the piece has none at either end |
| Text.StripKeeps | server.py:95-96 | stripping keeps "no line break" and "no double space" |
| Text.SplitLines | server.py:95 | the lines of `splitlines()` are free of line boundaries and, put one after the other, are exactly the input's other characters in order; empty input gives no line, and a text without a boundary is its one line |
| Text.SplitDoubleSpace | server.py:96 | `split("  ")` yields at least one piece, and no piece holds a double space or a line boundary the input lacked |
| Text.SplitDoubleSpaceJoin | server.py:96 | the pieces of `split("  ")` joined back with `"  "` give the input |
| Text.SplitDoubleSpaceLeftmost | server.py:96 | no piece of `split("  ")` but the last ends with a space, so every cut is at the leftmost double space |
| Text.SplitDoubleSpaceRejoins | server.py:96 | the pieces joined back with `"  "` give the input, and every cut is the leftmost possible (no piece but the last ends with a space) |
| Text.VisibleAppend | server.py:95-97 | the non-whitespace characters of a concatenation are those of each part, in order |
| Text.VisibleOfSpaces | server.py:95-97 | a run of whitespace has no visible character |
| Text.VisibleStrip | server.py:95-96 | `strip()` removes no visible character |
| Text.VisibleUnbroken | server.py:95 | dropping line boundaries removes no visible character |
| Text.VisibleJoin | server.py:96-97 | joining with a whitespace separator (`"  "`, `"\n"`) keeps exactly the parts' visible characters, in order |
| Text.Upper | server.py:312 | `upper()` keeps the length and upper-cases each character in place |
| Text.FirstWord | server.py:268 | `split()[0]` exists exactly when the text has a non-space character, and is then the run of non-space characters that starts the text after its leading whitespace, up to the next whitespace or the end |
| Text.JoinAt | server.py:61 | every part of a `sep.join` appears unaltered at its offset in the joined text |
| Text.JoinHoldsParts | server.py:61 | all parts of a `sep.join` at once appear unaltered at their offsets |
| Text.JoinSeparators | server.py:61 | the separator sits between each part and the next |
| Text.JoinLength | server.py:61 | the joined text ends with the last part: no list gives `""`, otherwise the length is that of the parts and separators |
| Formatting.FormatAll | server.py:53-61 | the item loop succeeds exactly when every item formats, yielding one entry per item in order; otherwise it yields the exception of the first item that raises |
| Formatting.Joined | server.py:61-64 | a raised item loop gives the tool's failure prefix plus the exception text; no entries give `""`; otherwise every entry appears unaltered at its place between the blank-line separators |
| Formatting.FormatEach | server.py:53-59 | the appending loop computes exactly `FormatAll` |
| PageContent.Phrases | server.py:96-97 | stripping each phrase and dropping the empty ones leaves only well-formed chunks |
| PageContent.VisiblePhrases | server.py:96-97 | stripping the phrases and dropping the empty ones loses no visible character and keeps their order |
| PageContent.LineChunks | server.py:95-97 | a line's chunks are all well-formed |
| PageContent.VisibleLine | server.py:95-97 | a line's chunks hold exactly the line's visible characters, in order |
| PageContent.VisibleChunks | server.py:95-97 | the chunks of all lines hold exactly the lines' visible characters, in order |
| PageContent.CleanTextKeepsVisible | server.py:95-97 | cleaning removes only whitespace: the cleaned text has exactly the visible characters of the page text, in order |
| PageContent.Chunks | server.py:95-97 | every chunk kept is non-empty, trimmed, on one line and free of double spaces |
| PageContent.CleanText | server.py:95-97 | the lines of the cleaned text are exactly the chunks, in source order, and each is a well-formed chunk |
| PageContent.SplitLinesOfJoin | server.py:95-97 | splitting newline-joined, non-empty, one-line pieces into lines gives the pieces back |
| PageContent.CleanTextIdempotent | server.py:95-97 | cleaning already-cleaned text changes nothing |
| PageContent.ChunksOfChunks | server.py:95-97 | chunking a list of chunks gives the list back |
| PageContent.Truncate | server.py:100-101 | text within the budget is unchanged; longer text becomes its first `max_length` characters plus the marker, `max_length + 23` long |
| PageContent.WebpageContent | server.py:76-105 | one fetch with a 10-second timeout; a failure yields the fetch-error prefix plus the message, otherwise the cleaned, truncated text |
| WebSearch.GoogleEntry | server.py:54-59 | an item formats exactly when it has title, link and snippet, into the three-line block |
| WebSearch.SerperEntry | server.py:139-143 | an item formats exactly when it has title and link; a missing snippet reads "No snippet available" |
| WebSearch.GoogleRun | server.py:32-64 | no request exactly when key or engine id is unset, and then the not-configured message; any request carries the clamped count |
| WebSearch.SearchGoogle | server.py:32-64 | the method computes exactly `GoogleRun` |
| WebSearch.GoogleOutcomes | server.py:46-64 | a failed request gives the Google error prefix plus the message; a reply without `items` gives "No results found for query: " plus the query; otherwise one block per item in order, or the error prefix when an item lacks a field |
| WebSearch.SerperRun | server.py:115-148 | no request exactly when the key is unset, and then the not-configured message; any request carries the clamped count |
| WebSearch.SerperOutcomes | server.py:130-148 | a failed request gives the Serper error prefix plus the message; a reply without `organic` gives "No results found for query: " plus the query; a shown item without title or link gives text starting with the Serper error prefix |
| WebSearch.SearchSerper | server.py:115-148 | the method computes exactly `SerperRun` |
| WebSearch.SerperFormatsLeadingItems | server.py:137-145 | Serper formats exactly the first `min(num_results, len(organic))` items, in provider order; the items past that count are never looked at, so they need no title or link |
| Academic.Excerpt | server.py:212 | the excerpt is at most 300 characters of the text followed by `...` |
| Academic.AuthorNames | server.py:226 | one name per author, in order, "Unknown" for an author without a name |
| Academic.ScholarEntry | server.py:224-234 | a Semantic Scholar paper always formats (every field has a default); the block opens with the title line and ends with the abstract's excerpt |
| Academic.ArxivEntryText | server.py:202-213 | an arXiv entry's block opens with the stripped title and ends with the excerpt of the stripped summary |
| Academic.PubMedSummaryOutput | server.py:258-273 | a failed summary request, a reply without `result` and an id missing from it all give text starting with the PubMed failure prefix |
| Academic.PubMedEntry | server.py:262-271 | a paper id missing from the summary raises the `KeyError` text for that id; a publication date with no word raises `IndexError`; the entry formats exactly when neither happens, and then ends with the PubMed link for the id |
| Academic.PubMedRun | server.py:238-273 | the first request is the id search with the clamped count; the summary request is sent exactly when the search returned a non-empty id list; an absent or empty id list gives the PubMed no-results message |
| Academic.PubMedEmptyIdList | server.py:246-248 | an empty id list ends the search with one request and the no-results message, whatever the summary reply would be |
| Academic.AcademicRun | server.py:186-187 | an unknown source sends no request and returns the invalid-source message; a known source sends at least one request |
| Academic.AcademicOutcomes | server.py:189-276 | a known source sends its own back end's request first (the only one for Semantic Scholar and arXiv); a raised Semantic Scholar or arXiv request, PubMed id search or PubMed summary request gives the failure prefix naming the source plus the exception text; a Semantic Scholar reply without `data` gives the no-results line for the query |
| Academic.SearchAcademic | server.py:151-276 | the method computes exactly `AcademicRun` |
| Academic.InvalidSourceListsSources | server.py:187 | the invalid-source message names each of the three back ends, in order, at its place between separators |
| Academic.AcademicRequestsClamped | server.py:164-180 | every request with a count carries the clamped count; a known source sends one or two requests |
| Academic.PubMedAuthorsAsWrittenSplitsName | server.py:266 | as written, a lone author's name of two or more characters is never rendered as that name |
| Academic.PubMedAuthorsAsWrittenExample | server.py:266 | as written, the authors "Li" and "Wu" are rendered "L, i" |
| Academic.PubMedAuthorsListsEveryAuthor | server.py:266 | the corrected author line contains every author's name, in order, at its place between separators |
| Academic.PubMedAuthorsSingle | server.py:266 | the corrected author line of a lone author is that author's name |
| Aggregator.KnownSources | server.py:296 | the valid names are exactly the requested names that are known, none added |
| Aggregator.KnownSourcesKeepOrder | server.py:296 | filtering keeps the relative order of the names it keeps |
| Aggregator.NoValidSourcesExactly | server.py:296-298 | nothing valid remains exactly when no requested name is known, and then the whole output is the no-valid-sources message |
| Aggregator.NoValidSourcesListsNames | server.py:298 | that message names every known source, in order, each at its place between separators |
| Aggregator.Distinct | server.py:300-307 | the dict keys are the valid names, each once |
| Aggregator.DistinctInFirstOccurrenceOrder | server.py:300-307 | the dict keys are in the order of each name's first occurrence |
| Aggregator.CallText | server.py:303-307 | a tool's text is recorded unaltered; a raised invocation records "Error searching <name>: " followed by the exception text |
| Aggregator.Section | server.py:312 | a section opens with the name's upper-cased `=== ... RESULTS ===` header and ends with the recorded text and a line break |
| Aggregator.SectionBodyDetermined | server.py:312 | a section gives back the text it holds: two sections of one name are equal only when their texts are |
| Aggregator.Sections | server.py:300-312 | one section per distinct valid name, each opening with that name's header and, when the name's last invocation returned, ending with that text |
| Aggregator.SectionAt | server.py:300-312 | section `i` is that of the `i`-th distinct name with what its last invocation produced |
| Aggregator.UnifiedOutput | server.py:296-314 | the output is the no-valid-sources message exactly when no requested name is known; otherwise it opens with the first section's `=== ` header |
| Aggregator.InvocationsAre | server.py:301-304 | one invocation per valid name, the k-th for the k-th name, with the query and count as given |
| Aggregator.CollectResults | server.py:300-307 | the invocation loop calls each valid name in order with the query and count as given; the dict holds one key per distinct name, valued by that name's last invocation |
| Aggregator.ResultsRenderSections | server.py:309-311 | visiting the dict's entries in key order yields exactly the sections, one per distinct valid name |
| Aggregator.RenderSections | server.py:309-314 | the formatting loop joins one section per entry, in key order, with blank lines |
| Aggregator.UnifiedSearch | server.py:279-314 | the tool's output is `UnifiedOutput`, and its calls are exactly one per valid name, in order |
| Aggregator.OneSectionPerSource | server.py:309-314 | one section per distinct valid source, in first-occurrence order of the request, each starting with `=== NAME RESULTS ===` |
| Aggregator.FailureStaysInItsSection | server.py:303-307 | a source whose invocation raised gets "Error searching <name>: " plus the message in its own section |
| Aggregator.SectionsIsolated | server.py:301-312 | changing what one source produces leaves every other source's section unchanged |
| Analysis.DepthPlan | server.py:328-335 | the plan is one of the three table entries, and any depth the table does not name gets the medium one |
| Analysis.DepthPlansGrow | server.py:328-335 | "brief", "medium" and "comprehensive" get their own table entries; a deeper level searches a superset of sources, in the same leading positions, with at least as many results |
| Analysis.PlanSourcesAreSearched | server.py:328-342 | every planned source is known and listed once, so the search calls each of them once, in plan order |
| Analysis.AnalysisRequest | server.py:352-359 | the system message carries the depth as given; the user message carries the topic and ends with the search results unaltered; temperature 0.5, at most 1000 tokens |
| Analysis.ReplyText | server.py:360-363 | the tool returns the model's content, or its failure prefix followed by the exception text |
| Analysis.AnalyzeTopic | server.py:317-363 | one search call per planned source with the plan's count; the request is built from the combined search output; the answer is the reply text |
| Analysis.SummaryRequest | server.py:419-427 | a single user message names the length and ends with the text unaltered; temperature 0.5, at most 512 tokens |
| Analysis.SummarizeText | server.py:417-430 | returns the model's content, or "Error summarizing with Azure OpenAI: " plus the exception text |
| FactCheck.VerificationQueries | server.py:371-375 | three different queries, each ending with the claim |
| FactCheck.SearchOutputs | server.py:377-380 | one output per query, in order, each that of a Google search for three results; without Google credentials each is the configuration error |
| FactCheck.SearchRequestsAre | server.py:377-380 | with Google configured, one request per query, in order, each asking for 3 results; none without configuration |
| FactCheck.SearchContext | server.py:406 | up to 1000 characters the context is the combined text; beyond, its first 1000 characters followed by `...` |
| FactCheck.FactCheckRequest | server.py:385-400 | the prompt carries the claim and evidence that is a prefix of the combined text, at most 3000 characters, the whole text when it fits and exactly its first 3000 characters otherwise; temperature 0.3, at most 600 tokens |
| FactCheck.FactCheckVerdict | server.py:402-413 | on an answer: the content and the search context, no error; on a failure: assessment "Error" and the exception text, no search context |
| FactCheck.CheckFact | server.py:367-413 | the searches, request and verdict are those of the three queries' outputs joined by blank lines |
| FactCheck.UnconfiguredEvidence | server.py:377-382 | without Google credentials no request is sent and the evidence is the not-configured message three times |

## Findings

| source | as written | input that shows it | evidently intended | confidence | as-written member | corrected member |
|---|---|---|---|---|---|---|
| server.py:266 | `', '.join(...)` is applied to the first author's name string, so it joins that name's characters; other authors are dropped, and an empty author list raises `IndexError` | authors `[{"name": "Li"}, {"name": "Wu"}]` render as `L, i` | the names of all authors separated by `, ` | high (not executed) | Academic.PubMedAuthorsAsWritten | Academic.PubMedAuthors |

The PubMed adapter of the model (`Academic.PubMedEntry`) uses the corrected
author line.

## Left out

- HTTP requests, headers, timeouts other than the page fetch's 10 seconds,
  and `raise_for_status`: their outcomes are parameters.
- The HTML parsing and the removal of script, style, header, footer and nav
  elements (server.py:85-92). The model starts from the text the parser
  extracts.
- JSON decoding and the arXiv Atom XML decoding. Replies are given as records.
  JSON `null` values and non-string fields (a numeric year, a `null`
  abstract) are not modelled: fields are strings or absent.
- The arXiv branch raising `AttributeError` for an entry without a title,
  summary, id or author name. The Atom entries are given as complete records.
- The Azure OpenAI client and its configuration (server.py:14-22). Each
  completion's reply is a parameter; the deployment name is not modelled.
- The FastMCP registration and stdio transport (server.py:12, the
  `@mcp.tool()` decorators, server.py:433-434).
- `analyze_topic`'s `depth_intro` table (server.py:345-349), which the code
  never uses.
- Text.SplitLines: the contract fixes the characters of the lines and their
  order, and the whole result for text without a boundary and for
  newline-joined non-empty lines (see `PageContent.SplitLinesOfJoin`), but not
  where the lines break in general.
- The tools' default arguments (`num_results=3`, `max_length=3000`,
  `source="semantic_scholar"`, `sources=["google"]` with `num_results=2`,
  `depth="medium"`, `length="medium"`): every argument is passed explicitly.
- Common.KeyErrorText: Python quotes a key with `repr`, which uses double
  quotes for a key containing a single quote; only keys without quote
  characters or backslashes are modelled.
- Text.Upper: upper-cases ASCII letters only. The names it is applied to are
  the five known source names, which are ASCII.
- know_client.py (agent loop and REPL), app.py (web front end) and test/
  (a demo client) are not part of this model.
