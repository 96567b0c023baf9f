/** `fact_check`: search Google three times with phrasings of the claim, then
    ask the language model to assess the claim against the gathered evidence.
    The replies of the searches and of the model are parameters. */
module FactCheck {
  import opened Common
  import opened Text
  import opened WebSearch

  const ResultsPerQuery: int := 3
  const EvidenceLimit: int := 3000
  const ContextLimit: int := 1000
  const Ellipsis: string := "..."
  const ErrorAssessment: string := "Error"
  const FactCheckInstructions: string :=
    "Analyze the following claim and determine if it is true, false, or inconclusive based on the evidence provided. Give a short explanation and confidence level.\n\nClaim: "

  /** The dict `fact_check` returns: `search_context` is present only when the
      model answered, `error` only when it raised. */
  datatype Verdict = Verdict(claim: string, assessment: string, searchContext: Option<string>, error: Option<string>)

  /** The three phrasings of the claim that are searched, in order: three
      different queries, each ending with the claim. */
  function VerificationQueries(claim: string): (queries: seq<string>)
    ensures |queries| == 3
    ensures queries[0] != queries[1] && queries[0] != queries[2] && queries[1] != queries[2]
    ensures forall i :: 0 <= i < 3 ==>
      |claim| <= |queries[i]| && queries[i][|queries[i]| - |claim|..] == claim
  {
    var queries := ["is it true that " + claim, "fact check " + claim, "evidence for " + claim];
    assert queries[0][0] == 'i' && queries[1][0] == 'f' && queries[2][0] == 'e';
    queries
  }

  /** The outputs of the searches for `queries`, the i-th search getting the
      i-th reply: one output per query, in order, each that of a Google search
      for three results; without Google credentials each is the configuration
      error. */
  function SearchOutputs(cfg: GoogleConfig, queries: seq<string>, replies: nat -> Outcome<GooglePayload>): (outputs: seq<string>)
    ensures |outputs| == |queries|
    ensures forall i :: 0 <= i < |queries| ==> outputs[i] == GoogleRun(cfg, queries[i], 3, replies(i)).output
    ensures !GoogleConfigured(cfg) ==> forall i :: 0 <= i < |queries| ==> outputs[i] == GoogleNotConfigured
  {
    seq(|queries|, i requires 0 <= i < |queries| => GoogleRun(cfg, queries[i], ResultsPerQuery, replies(i)).output)
  }

  /** The requests those searches send, in order. */
  function SearchRequests(cfg: GoogleConfig, queries: seq<string>, replies: nat -> Outcome<GooglePayload>): seq<Request>
  {
    if queries == [] then []
    else
      var n := |queries| - 1;
      SearchRequests(cfg, queries[..n], replies) + GoogleRun(cfg, queries[n], ResultsPerQuery, replies(n)).requests
  }

  /** Searching sends one request per query, each with three results asked
      for, when Google is configured, and none otherwise. */
  lemma {:induction false} SearchRequestsAre(cfg: GoogleConfig, queries: seq<string>, replies: nat -> Outcome<GooglePayload>)
    ensures GoogleConfigured(cfg) ==>
      && |SearchRequests(cfg, queries, replies)| == |queries|
      && forall i :: 0 <= i < |queries| ==>
           SearchRequests(cfg, queries, replies)[i] == GoogleSearchRequest(queries[i], ResultsPerQuery)
    ensures !GoogleConfigured(cfg) ==> SearchRequests(cfg, queries, replies) == []
  {
    if queries != [] {
      var n := |queries| - 1;
      SearchRequestsAre(cfg, queries[..n], replies);
      var last := GoogleRun(cfg, queries[n], ResultsPerQuery, replies(n)).requests;
      if GoogleConfigured(cfg) {
        assert |last| == 1 && last[0] in last;
      }
    }
  }

  /** `combined_text[:1000]`, followed by "..." when something was cut off. */
  function SearchContext(combined: string): (context: string)
    ensures |combined| <= ContextLimit ==> context == combined
    ensures ContextLimit < |combined| ==>
      && |context| == ContextLimit + 3
      && context[..ContextLimit] == combined[..ContextLimit] && context[ContextLimit..] == Ellipsis
  {
    Prefix(combined, ContextLimit) + (if |combined| > ContextLimit then Ellipsis else "")
  }

  /** The completion request: the claim and the first 3000 characters of the
      evidence (all of it when shorter). */
  function FactCheckRequest(claim: string, combined: string): (c: Completion)
    ensures |c.messages| == 2 && c.messages[0] == Message("system", "You are a fact-checking expert.")
    ensures c.messages[1].role == "user"
    ensures |FactCheckInstructions| + |claim| + 12 <= |c.messages[1].content|
    ensures var prompt := c.messages[1].content;
      var evidence := prompt[|FactCheckInstructions| + |claim| + 12..];
      && prompt[|FactCheckInstructions|..|FactCheckInstructions| + |claim|] == claim
      && |evidence| <= EvidenceLimit && evidence <= combined
      && (|combined| <= EvidenceLimit ==> evidence == combined)
      && (EvidenceLimit < |combined| ==> evidence == combined[..EvidenceLimit])
    ensures c.temperature == 0.3 && c.maxTokens == 600
  {
    var prompt := FactCheckInstructions + claim + "\n\nEvidence:\n" + Prefix(combined, EvidenceLimit);
    assert prompt[|FactCheckInstructions| + |claim| + 12..] == Prefix(combined, EvidenceLimit);
    Completion([Message("system", "You are a fact-checking expert."), Message("user", prompt)], 0.3, 600)
  }

  /** The dict returned for the model's reply. */
  function FactCheckVerdict(claim: string, combined: string, reply: Outcome<string>): (v: Verdict)
    ensures v.claim == claim
    ensures v.searchContext.Some? <==> reply.Returned?
    ensures v.error.Some? <==> reply.Raised?
    ensures reply.Returned? ==> v.assessment == reply.value && v.searchContext.value == SearchContext(combined)
    ensures reply.Raised? ==> v.assessment == ErrorAssessment && v.error.value == reply.message
  {
    match reply
    case Returned(content) => Verdict(claim, content, Some(SearchContext(combined)), None)
    case Raised(m) => Verdict(claim, ErrorAssessment, None, Some(m))
  }

  /** `fact_check(claim)`. `replies(i)` is the reply to the i-th search and
      `reply` the model's answer to the request this call sends. */
  method CheckFact(claim: string, cfg: GoogleConfig, replies: nat -> Outcome<GooglePayload>, reply: Outcome<string>)
    returns (verdict: Verdict, requests: seq<Request>, completion: Completion)
    ensures var queries := VerificationQueries(claim);
      var combined := Join("\n\n", SearchOutputs(cfg, queries, replies));
      && requests == SearchRequests(cfg, queries, replies)
      && completion == FactCheckRequest(claim, combined)
      && verdict == FactCheckVerdict(claim, combined, reply)
  {
    var queries := VerificationQueries(claim);
    var outputs: seq<string> := [];
    requests := [];
    for i := 0 to |queries|
      invariant outputs == SearchOutputs(cfg, queries[..i], replies)
      invariant requests == SearchRequests(cfg, queries[..i], replies)
    {
      var run := SearchGoogle(cfg, queries[i], ResultsPerQuery, replies(i));
      assert queries[..i + 1][..i] == queries[..i];
      outputs := outputs + [run.output];
      requests := requests + run.requests;
    }
    assert queries[..|queries|] == queries;
    var combined := Join("\n\n", outputs);
    completion := FactCheckRequest(claim, combined);
    verdict := FactCheckVerdict(claim, combined, reply);
  }

  /** Without Google credentials no search request is sent, and the evidence
      the model sees is the configuration error, three times. */
  lemma UnconfiguredEvidence(claim: string, cfg: GoogleConfig, replies: nat -> Outcome<GooglePayload>)
    requires !GoogleConfigured(cfg)
    ensures SearchRequests(cfg, VerificationQueries(claim), replies) == []
    ensures Join("\n\n", SearchOutputs(cfg, VerificationQueries(claim), replies))
      == GoogleNotConfigured + "\n\n" + GoogleNotConfigured + "\n\n" + GoogleNotConfigured
  {
    SearchRequestsAre(cfg, VerificationQueries(claim), replies);
    var outputs := SearchOutputs(cfg, VerificationQueries(claim), replies);
    assert outputs == [GoogleNotConfigured, GoogleNotConfigured, GoogleNotConfigured];
    var g := GoogleNotConfigured;
    assert outputs[1..][1..] == [g];
    assert Join("\n\n", outputs[1..][1..]) == g;
    assert Join("\n\n", outputs[1..]) == g + "\n\n" + g;
    assert Join("\n\n", outputs) == g + "\n\n" + (g + "\n\n" + g);
  }
}
