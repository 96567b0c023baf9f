/** The two tools that ask the language model for prose: `analyze_topic`, which
    first gathers material with `unified_search` according to a depth level,
    and `summarize_text`. The model's reply (or the exception its client
    raised) is a parameter: the tools send one completion request each and
    turn its answer into their result. */
module Analysis {
  import opened Common
  import opened Text
  import opened Aggregator

  /** Which sources `analyze_topic` searches, and with what count. */
  datatype SearchPlan = SearchPlan(sources: seq<string>, numResults: int)

  const BriefPlan: SearchPlan := SearchPlan(["google"], 2)
  const MediumPlan: SearchPlan := SearchPlan(["google", "semantic_scholar"], 3)
  const ComprehensivePlan: SearchPlan := SearchPlan(["google", "semantic_scholar", "arxiv"], 5)

  const AnalysisFailure: string := "Error generating analysis: "
  const SummaryFailure: string := "Error summarizing with Azure OpenAI: "

  /** `depth_config.get(depth, depth_config["medium"])`: one of the three
      table entries, the medium one for any depth the table does not name. */
  function DepthPlan(depth: string): (p: SearchPlan)
    ensures p == BriefPlan || p == MediumPlan || p == ComprehensivePlan
    ensures depth != "brief" && depth != "comprehensive" ==> p == MediumPlan
  {
    if depth == "brief" then BriefPlan
    else if depth == "comprehensive" then ComprehensivePlan
    else MediumPlan
  }

  /** The depth levels form a ladder: a deeper level searches every source of
      a shallower one, in the same leading positions, and asks each for at
      least as many results. Each named level gets its own entry. */
  lemma DepthPlansGrow(depth: string)
    ensures DepthPlan("brief") == BriefPlan && DepthPlan("medium") == MediumPlan
      && DepthPlan("comprehensive") == ComprehensivePlan
    ensures var p := DepthPlan(depth);
      && BriefPlan.sources <= p.sources
      && BriefPlan.numResults <= p.numResults
      && (depth != "brief" ==> MediumPlan.sources <= p.sources && MediumPlan.numResults <= p.numResults)
      && (p.sources <= ComprehensivePlan.sources && p.numResults <= ComprehensivePlan.numResults)
  {
  }

  /** Filtering keeps a list of known names as it is. */
  lemma {:induction false} KnownSourcesOfKnown(s: seq<string>)
    requires forall i :: 0 <= i < |s| ==> s[i] in SourceNames
    ensures KnownSources(s) == s
  {
    if s != [] {
      KnownSourcesOfKnown(s[1..]);
    }
  }

  /** A list without repeats is its own list of distinct names. */
  lemma {:induction false} DistinctOfDistinct(s: seq<string>)
    requires forall i, j :: 0 <= i < j < |s| ==> s[i] != s[j]
    ensures Distinct(s) == s
  {
    if s != [] {
      var init := s[..|s| - 1];
      DistinctOfDistinct(init);
      assert s == init + [s[|s| - 1]];
    }
  }

  /** The comprehensive plan's sources and every leading part of them are
      known names, each listed once. */
  lemma LeadingPlanSources(s: seq<string>)
    requires s <= ComprehensivePlan.sources
    ensures KnownSources(s) == s && Distinct(s) == s
  {
    var c := ComprehensivePlan.sources;
    assert c[0] == SourceNames[0] && c[1] == SourceNames[2] && c[2] == SourceNames[3];
    assert |c[0]| == 6 && |c[1]| == 16 && |c[2]| == 5;
    assert forall i :: 0 <= i < |s| ==> s[i] == c[i];
    KnownSourcesOfKnown(s);
    DistinctOfDistinct(s);
  }

  /** Every planned source is one `unified_search` knows, and none is listed
      twice, so the search invokes each planned source exactly once, in plan
      order. */
  lemma PlanSourcesAreSearched(depth: string)
    ensures var p := DepthPlan(depth);
      KnownSources(p.sources) == p.sources && Distinct(p.sources) == p.sources
  {
    DepthPlansGrow(depth);
    LeadingPlanSources(DepthPlan(depth).sources);
  }

  const AnalysisLead: string := "You are a research assistant. Provide a detailed "

  /** The completion request `analyze_topic` sends: the depth string as given
      in the system prompt, then the topic and the gathered search results.
      The topic sits at a fixed place and the search results, unaltered, end
      the user message; the model is asked for a bounded answer at a moderate
      temperature. */
  function AnalysisRequest(topic: string, depth: string, searchResults: string): (c: Completion)
    ensures |c.messages| == 2 && c.messages[0].role == "system" && c.messages[1].role == "user"
    ensures var system := c.messages[0].content;
      |AnalysisLead| + |depth| <= |system| && system[|AnalysisLead|..|AnalysisLead| + |depth|] == depth
    ensures var user := c.messages[1].content;
      && |user| == 7 + |topic| + 18 + |searchResults|
      && user[7..7 + |topic|] == topic
      && user[|user| - |searchResults|..] == searchResults
    ensures c.temperature == 0.5 && c.maxTokens == 1000
  {
    Completion(
      [ Message("system", AnalysisLead + depth + " analysis of a topic based on gathered content."),
        Message("user", "Topic: " + topic + "\n\nSearch Results:\n" + searchResults) ],
      0.5, 1000)
  }

  /** The text a tool returns from the model's reply: its content, or the
      tool's failure prefix and the exception text. */
  function ReplyText(reply: Outcome<string>, failure: string): (text: string)
    ensures reply.Returned? ==> text == reply.value
    ensures reply.Raised? ==>
      |text| == |failure| + |reply.message| && text[..|failure|] == failure && text[|failure|..] == reply.message
  {
    match reply
    case Returned(content) => content
    case Raised(m) => failure + m
  }

  /** `analyze_topic(topic, depth)`: search according to the depth's plan,
      then ask the model for an analysis of the combined results. `invoke`
      gives what each search-tool invocation produced and `reply` what the
      model answered to the request this call sends. */
  method AnalyzeTopic(topic: string, depth: string, invoke: nat -> Outcome<string>, reply: Outcome<string>)
    returns (answer: string, calls: seq<Invocation>, request: Completion)
    ensures var plan := DepthPlan(depth);
      && |calls| == |plan.sources|
      && (forall k :: 0 <= k < |calls| ==> calls[k] == Invocation(plan.sources[k], topic, plan.numResults))
    ensures request == AnalysisRequest(topic, depth, UnifiedOutput(DepthPlan(depth).sources, invoke))
    ensures answer == ReplyText(reply, AnalysisFailure)
  {
    var plan := DepthPlan(depth);
    PlanSourcesAreSearched(depth);
    var searchResults;
    searchResults, calls := UnifiedSearch(topic, plan.sources, plan.numResults, invoke);
    request := AnalysisRequest(topic, depth, searchResults);
    answer := ReplyText(reply, AnalysisFailure);
  }

  /** The completion request `summarize_text(text, length)` sends: a single
      user message naming the length and ending with the whole text. */
  function SummaryRequest(text: string, length: string): (c: Completion)
    ensures |c.messages| == 1 && c.messages[0].role == "user"
    ensures var m := c.messages[0].content;
      && |m| == 25 + |length| + 7 + |text|
      && m[25..25 + |length|] == length
      && m[|m| - |text|..] == text
    ensures c.temperature == 0.5 && c.maxTokens == 512
  {
    Completion([Message("user", "Summarize this text in a " + length + " way:\n\n" + text)], 0.5, 512)
  }

  /** `summarize_text(text, length)`: the request it sends and what it returns. */
  function SummarizeText(text: string, length: string, reply: Outcome<string>): (r: (Completion, string))
    ensures r.0 == SummaryRequest(text, length)
    ensures reply.Returned? ==> r.1 == reply.value
    ensures reply.Raised? ==> r.1 == SummaryFailure + reply.message
  {
    (SummaryRequest(text, length), ReplyText(reply, SummaryFailure))
  }
}
