/** `unified_search`: run several search tools for one query and combine their
    outputs into one text with a labelled section per source. What each tool
    invocation produced is a parameter, `invoke(k)` being the outcome of the
    k-th invocation (the text it returned, or the exception it raised). */
module Aggregator {
  import opened Common
  import opened Text

  /** The names `unified_search` knows, in the order it lists them. */
  const SourceNames: seq<string> := ["google", "serper", "semantic_scholar", "arxiv", "pubmed"]
  const ChooseFrom: string := "No valid sources specified. Choose from: "
  const NoValidSources: string := ChooseFrom + Join(", ", SourceNames)

  /** `[s for s in sources if s in available_sources]`. */
  function KnownSources(sources: seq<string>): (valid: seq<string>)
    ensures |valid| <= |sources|
    ensures forall s :: s in valid <==> s in sources && s in SourceNames
  {
    if sources == [] then []
    else (if sources[0] in SourceNames then [sources[0]] else []) + KnownSources(sources[1..])
  }

  /** The no-valid-sources message names every known source, in the order
      `unified_search` knows them, each at its place between the ", "
      separators. */
  lemma NoValidSourcesListsNames(i: nat)
    requires i < |SourceNames|
    ensures var at := |ChooseFrom| + JoinOffset(", ", SourceNames, i);
      at + |SourceNames[i]| <= |NoValidSources| && NoValidSources[at..at + |SourceNames[i]|] == SourceNames[i]
  {
    JoinAt(", ", SourceNames, i);
  }

  /** Nothing valid remains exactly when no requested name is a known one, and
      then the whole output is that message. */
  lemma NoValidSourcesExactly(sources: seq<string>, invoke: nat -> Outcome<string>)
    ensures KnownSources(sources) == [] <==> forall s :: s in sources ==> s !in SourceNames
    ensures KnownSources(sources) == [] ==> UnifiedOutput(sources, invoke) == NoValidSources
  {
    if KnownSources(sources) != [] {
      assert KnownSources(sources)[0] in KnownSources(sources);
    }
  }

  /** Filtering keeps the order of what it keeps: it distributes over concatenation. */
  lemma {:induction false} KnownSourcesAppend(a: seq<string>, b: seq<string>)
    ensures KnownSources(a + b) == KnownSources(a) + KnownSources(b)
  {
    if a == [] {
      assert a + b == b;
    } else {
      var head := if a[0] in SourceNames then [a[0]] else [];
      assert (a + b)[0] == a[0];
      assert (a + b)[1..] == a[1..] + b;
      assert KnownSources(a + b) == head + KnownSources(a[1..] + b);
      KnownSourcesAppend(a[1..], b);
    }
  }

  /** Position of the first `x` in `s`. */
  function FirstIndex(s: seq<string>, x: string): (k: nat)
    requires x in s
    ensures k < |s| && s[k] == x
    ensures forall j :: 0 <= j < k ==> s[j] != x
  {
    if s[0] == x then 0 else 1 + FirstIndex(s[1..], x)
  }

  /** Position of the last `x` in `s`. */
  function LastIndex(s: seq<string>, x: string): (k: nat)
    requires x in s
    ensures k < |s| && s[k] == x
    ensures forall j :: k < j < |s| ==> s[j] != x
  {
    if s[|s| - 1] == x then |s| - 1
    else
      assert x in s[..|s| - 1] by { assert s == s[..|s| - 1] + [s[|s| - 1]]; }
      LastIndex(s[..|s| - 1], x)
  }

  /** The distinct names of `s`, in the order of their first occurrence: the
      order in which a Python dict first receives each key. */
  function Distinct(s: seq<string>): (d: seq<string>)
    ensures forall x :: x in d <==> x in s
    ensures forall i, j :: 0 <= i < j < |d| ==> d[i] != d[j]
  {
    if s == [] then []
    else
      var init := s[..|s| - 1];
      assert s == init + [s[|s| - 1]];
      var d := Distinct(init);
      if s[|s| - 1] in d then d else d + [s[|s| - 1]]
  }

  lemma DistinctSnoc(s: seq<string>, x: string)
    ensures Distinct(s + [x]) == if x in Distinct(s) then Distinct(s) else Distinct(s) + [x]
  {
    assert (s + [x])[..|s|] == s;
  }

  lemma LastIndexSnoc(s: seq<string>, x: string, y: string)
    requires y in s
    ensures LastIndex(s + [x], y) == if y == x then |s| else LastIndex(s, y)
  {
    assert (s + [x])[..|s|] == s;
  }

  lemma {:induction false} FirstIndexSnoc(s: seq<string>, x: string, y: string)
    requires y in s
    ensures FirstIndex(s + [x], y) == FirstIndex(s, y)
  {
    assert (s + [x])[0] == s[0];
    if s[0] != y {
      assert (s + [x])[1..] == s[1..] + [x];
      FirstIndexSnoc(s[1..], x, y);
    }
  }

  /** Section `i` of the combined output, spelled out. */
  lemma SectionAt(valid: seq<string>, invoke: nat -> Outcome<string>, i: nat)
    requires i < |Distinct(valid)|
    ensures var name := Distinct(valid)[i];
      Sections(valid, invoke)[i] == Section(name, CallText(name, invoke(LastIndex(valid, name))))
  {
  }

  /** The dict's values, visited in key order, are the sections. */
  lemma SectionsFromResults(valid: seq<string>, keys: seq<string>, results: map<string, string>,
                            invoke: nat -> Outcome<string>, j: nat)
    requires keys == Distinct(valid) && ResultsHold(valid, results, invoke) && j < |keys|
    ensures keys[j] in results && Sections(valid, invoke)[j] == Section(keys[j], results[keys[j]])
  {
    SectionAt(valid, invoke, j);
  }

  /** `Distinct` lists names in the order in which they first occur. */
  lemma {:induction false} DistinctInFirstOccurrenceOrder(s: seq<string>)
    ensures forall i, j :: 0 <= i < j < |Distinct(s)| ==>
      FirstIndex(s, Distinct(s)[i]) < FirstIndex(s, Distinct(s)[j])
  {
    if s != [] {
      var init, x := s[..|s| - 1], s[|s| - 1];
      assert s == init + [x];
      DistinctInFirstOccurrenceOrder(init);
      var d0 := Distinct(init);
      DistinctSnoc(init, x);
      var d := Distinct(s);
      forall i, j | 0 <= i < j < |d| ensures FirstIndex(s, d[i]) < FirstIndex(s, d[j]) {
        assert d[i] == d0[i] && d[i] in init;
        FirstIndexSnoc(init, x, d0[i]);
        if j < |d0| {
          assert d[j] == d0[j];
          FirstIndexSnoc(init, x, d0[j]);
        } else {
          assert d[j] == x && x !in init;
          assert FirstIndex(s, x) == |init|;
        }
      }
    }
  }

  /** Filtering keeps relative order, so first-occurrence order among the known
      names is the same in `sources` and in `KnownSources(sources)`. */
  lemma {:induction false} KnownSourcesKeepOrder(sources: seq<string>, x: string, y: string)
    requires x in KnownSources(sources) && y in KnownSources(sources)
    requires FirstIndex(KnownSources(sources), x) < FirstIndex(KnownSources(sources), y)
    ensures FirstIndex(sources, x) < FirstIndex(sources, y)
  {
    var valid := KnownSources(sources);
    var s0, rest := sources[0], sources[1..];
    var validRest := KnownSources(rest);
    assert y != s0;
    assert y in rest && FirstIndex(sources, y) == 1 + FirstIndex(rest, y);
    if x != s0 {
      assert x in rest && FirstIndex(sources, x) == 1 + FirstIndex(rest, x);
      if s0 in SourceNames {
        assert valid == [s0] + validRest;
        assert valid[1..] == validRest;
        assert FirstIndex(valid, x) == 1 + FirstIndex(validRest, x);
        assert FirstIndex(valid, y) == 1 + FirstIndex(validRest, y);
      } else {
        assert valid == validRest;
      }
      KnownSourcesKeepOrder(rest, x, y);
    }
  }

  /** `f"=== {source.upper()} RESULTS ===\n{results}\n"`: the section opens
      with the upper-cased name's header and ends with the tool's text and a
      line break. */
  function Section(name: string, body: string): (r: string)
    ensures "=== " + Upper(name) + " RESULTS ===\n" <= r
    ensures |body| + 1 <= |r| && r[|r| - |body| - 1..] == body + "\n"
  {
    "=== " + Upper(name) + " RESULTS ===\n" + body + "\n"
  }

  /** A section gives back the text it was made from: two sections of one
      name are equal only when their bodies are. */
  lemma SectionBodyDetermined(name: string, body: string, body': string)
    requires Section(name, body) == Section(name, body')
    ensures body == body'
  {
    var r := Section(name, body);
    assert |body| == |body'|;
    assert body + "\n" == r[|r| - |body| - 1..] == body' + "\n";
    assert body == (body + "\n")[..|body|];
  }

  /** What `all_results[source]` receives for one invocation: the tool's text,
      or `"Error searching <name>: "` and the exception text when it raised. */
  function CallText(name: string, outcome: Outcome<string>): (r: string)
    ensures outcome.Returned? ==> r == outcome.value
    ensures outcome.Raised? ==> var lead := "Error searching " + name + ": ";
      lead <= r && r[|lead|..] == outcome.message
  {
    match outcome
    case Returned(text) => text
    case Raised(m) => "Error searching " + name + ": " + m
  }

  /** The sections of the combined output: one per distinct valid name, in the
      order of first occurrence, each holding what the LAST invocation of that
      name produced (a later dict assignment overwrites the value in place). */
  function Sections(valid: seq<string>, invoke: nat -> Outcome<string>): (sections: seq<string>)
    ensures |sections| == |Distinct(valid)|
    ensures forall i :: 0 <= i < |sections| ==>
      "=== " + Upper(Distinct(valid)[i]) + " RESULTS ===\n" <= sections[i]
    ensures forall i :: 0 <= i < |sections| && invoke(LastIndex(valid, Distinct(valid)[i])).Returned? ==>
      var text := invoke(LastIndex(valid, Distinct(valid)[i])).value;
      |text| + 1 <= |sections[i]| && sections[i][|sections[i]| - |text| - 1..] == text + "\n"
  {
    var names := Distinct(valid);
    var sections := seq(|names|, i requires 0 <= i < |names| =>
      Section(names[i], CallText(names[i], invoke(LastIndex(valid, names[i])))));
    assert forall i :: 0 <= i < |names| ==>
      sections[i] == Section(names[i], CallText(names[i], invoke(LastIndex(valid, names[i]))));
    sections
  }

  /** The text `unified_search(query, sources, num_results)` returns: the
      no-valid-sources message exactly when no requested name is known,
      otherwise text that opens with the first section's header. */
  function UnifiedOutput(sources: seq<string>, invoke: nat -> Outcome<string>): (out: string)
    ensures KnownSources(sources) == [] ==> out == NoValidSources
    ensures KnownSources(sources) != [] ==> |out| >= 4 && out[..4] == "=== " && out != NoValidSources
  {
    var valid := KnownSources(sources);
    if valid == [] then NoValidSources
    else
      OutputOpensWithHeader(valid, invoke);
      assert NoValidSources[0] == 'N';
      Join("\n\n", Sections(valid, invoke))
  }

  /** With a valid name there is a first section, and the joined sections
      open with its `=== ` header. */
  lemma OutputOpensWithHeader(valid: seq<string>, invoke: nat -> Outcome<string>)
    requires valid != []
    ensures var out := Join("\n\n", Sections(valid, invoke)); |out| >= 4 && out[..4] == "=== "
  {
    var sections := Sections(valid, invoke);
    assert valid[0] in Distinct(valid);
    var header := "=== " + Upper(Distinct(valid)[0]) + " RESULTS ===\n";
    assert header <= sections[0] && header[..4] == "=== ";
    JoinOpensWith("\n\n", sections, header);
  }

  /** The dict `all_results` after the invocations of `done`: one key per name
      invoked, holding what that name's last invocation produced. */
  ghost predicate ResultsHold(done: seq<string>, results: map<string, string>, invoke: nat -> Outcome<string>)
  {
    && (forall x :: x in results <==> x in done)
    && (forall x :: x in results ==>
          x in done && results[x] == CallText(x, invoke(LastIndex(done, x))))
  }

  /** One more invocation: `all_results[name] = ...` overwrites or adds the key. */
  lemma ResultsStep(done: seq<string>, results: map<string, string>, invoke: nat -> Outcome<string>, name: string)
    requires ResultsHold(done, results, invoke)
    ensures ResultsHold(done + [name], results[name := CallText(name, invoke(|done|))], invoke)
  {
    var done', results' := done + [name], results[name := CallText(name, invoke(|done|))];
    forall x | x in results'
      ensures x in done' && results'[x] == CallText(x, invoke(LastIndex(done', x)))
    {
      if x == name {
        assert LastIndex(done', x) == |done|;
      } else {
        LastIndexSnoc(done, name, x);
      }
    }
  }

  /** One turn of the collecting loop keeps the dict and its key order in step
      with the invocations made so far. */
  lemma CollectStep(valid: seq<string>, i: nat, keys: seq<string>, results: map<string, string>,
                    invoke: nat -> Outcome<string>, query: string, numResults: int)
    requires i < |valid| && keys == Distinct(valid[..i]) && ResultsHold(valid[..i], results, invoke)
    ensures var name := valid[i];
      && (if name in results then keys else keys + [name]) == Distinct(valid[..i + 1])
      && ResultsHold(valid[..i + 1], results[name := CallText(name, invoke(i))], invoke)
      && Invocations(valid[..i + 1], query, numResults)
         == Invocations(valid[..i], query, numResults) + [Invocation(name, query, numResults)]
  {
    var name := valid[i];
    assert valid[..i + 1] == valid[..i] + [name];
    DistinctSnoc(valid[..i], name);
    ResultsStep(valid[..i], results, invoke, name);
  }

  /** The tool invocations made for `names`, in order. */
  function Invocations(names: seq<string>, query: string, numResults: int): seq<Invocation>
  {
    if names == [] then []
    else
      var n := |names| - 1;
      Invocations(names[..n], query, numResults) + [Invocation(names[n], query, numResults)]
  }

  /** One invocation per name, the k-th for the k-th name, with the query and
      count as given. */
  lemma {:induction false} InvocationsAre(names: seq<string>, query: string, numResults: int)
    ensures |Invocations(names, query, numResults)| == |names|
    ensures forall k :: 0 <= k < |names| ==>
      Invocations(names, query, numResults)[k] == Invocation(names[k], query, numResults)
  {
    if names != [] {
      InvocationsAre(names[..|names| - 1], query, numResults);
    }
  }

  /** The first loop of `unified_search`: invoke each valid source in turn,
      catching what it raises, and record its text in the `all_results` dict,
      kept here as its keys in insertion order plus a map. */
  method CollectResults(query: string, valid: seq<string>, numResults: int, invoke: nat -> Outcome<string>)
    returns (keys: seq<string>, results: map<string, string>, calls: seq<Invocation>)
    ensures keys == Distinct(valid)
    ensures ResultsHold(valid, results, invoke)
    ensures calls == Invocations(valid, query, numResults)
  {
    keys, results, calls := [], map[], [];
    for i := 0 to |valid|
      invariant keys == Distinct(valid[..i])
      invariant ResultsHold(valid[..i], results, invoke)
      invariant calls == Invocations(valid[..i], query, numResults)
    {
      var name := valid[i];
      CollectStep(valid, i, keys, results, invoke, query, numResults);
      if name !in results {
        keys := keys + [name];
      }
      results := results[name := CallText(name, invoke(i))];
      calls := calls + [Invocation(name, query, numResults)];
    }
    assert valid[..|valid|] == valid;
  }

  /** The dict's entries, visited in key order, render as the sections. */
  lemma ResultsRenderSections(valid: seq<string>, keys: seq<string>, results: map<string, string>,
                              invoke: nat -> Outcome<string>)
    requires keys == Distinct(valid) && ResultsHold(valid, results, invoke)
    ensures |keys| == |Sections(valid, invoke)|
    ensures forall j :: 0 <= j < |keys| ==>
      keys[j] in results && Section(keys[j], results[keys[j]]) == Sections(valid, invoke)[j]
  {
    forall j | 0 <= j < |keys|
      ensures keys[j] in results && Section(keys[j], results[keys[j]]) == Sections(valid, invoke)[j]
    {
      SectionsFromResults(valid, keys, results, invoke, j);
    }
  }

  /** The second loop of `unified_search`: one section per dict entry, in the
      dict's key order, joined by blank lines. */
  method RenderSections(keys: seq<string>, results: map<string, string>, ghost sections: seq<string>)
    returns (output: string)
    requires |keys| == |sections|
    requires forall j :: 0 <= j < |keys| ==>
      keys[j] in results && Section(keys[j], results[keys[j]]) == sections[j]
    ensures output == Join("\n\n", sections)
  {
    var formatted: seq<string> := [];
    for j := 0 to |keys|
      invariant formatted == sections[..j]
    {
      assert sections[..j + 1] == sections[..j] + [sections[j]];
      formatted := formatted + [Section(keys[j], results[keys[j]])];
    }
    assert formatted == sections;
    output := Join("\n\n", formatted);
  }

  /** `unified_search(query, sources, num_results)`: the tools are invoked in
      the order of the valid names, each with the query and `num_results` as
      given, and the dict is then rendered section by section. */
  method UnifiedSearch(query: string, sources: seq<string>, numResults: int, invoke: nat -> Outcome<string>)
    returns (output: string, calls: seq<Invocation>)
    ensures output == UnifiedOutput(sources, invoke)
    ensures |calls| == |KnownSources(sources)|
    ensures forall k :: 0 <= k < |calls| ==>
      calls[k] == Invocation(KnownSources(sources)[k], query, numResults)
  {
    var valid := KnownSources(sources);
    if valid == [] {
      return NoValidSources, [];
    }
    var keys, results;
    keys, results, calls := CollectResults(query, valid, numResults, invoke);
    InvocationsAre(valid, query, numResults);
    ResultsRenderSections(valid, keys, results, invoke);
    output := RenderSections(keys, results, Sections(valid, invoke));
  }

  /** The combined output has exactly one section per distinct valid source,
      in the order in which the sources first appear in the request, each
      starting with that source's upper-cased header. */
  lemma OneSectionPerSource(sources: seq<string>, invoke: nat -> Outcome<string>)
    requires KnownSources(sources) != []
    ensures var valid := KnownSources(sources);
      var names := Distinct(valid);
      var sections := Sections(valid, invoke);
      && UnifiedOutput(sources, invoke) == Join("\n\n", sections)
      && |sections| == |names|
      && (forall x :: x in names <==> x in sources && x in SourceNames)
      && (forall i, j :: 0 <= i < j < |names| ==> names[i] != names[j])
      && (forall i, j :: 0 <= i < j < |names| ==> FirstIndex(sources, names[i]) < FirstIndex(sources, names[j]))
      && (forall i :: 0 <= i < |names| ==> "=== " + Upper(names[i]) + " RESULTS ===\n" <= sections[i])
  {
    var valid := KnownSources(sources);
    var names := Distinct(valid);
    forall i | 0 <= i < |names| {
      SectionAt(valid, invoke, i);
    }
    DistinctInFirstOccurrenceOrder(valid);
    forall i, j | 0 <= i < j < |names|
      ensures FirstIndex(sources, names[i]) < FirstIndex(sources, names[j])
    {
      KnownSourcesKeepOrder(sources, names[i], names[j]);
    }
  }

  /** A source whose (last) invocation raised gets the error text in its own
      section; the tool call itself does not fail. */
  lemma FailureStaysInItsSection(sources: seq<string>, invoke: nat -> Outcome<string>, i: nat, m: string)
    requires i < |Distinct(KnownSources(sources))|
    requires var valid := KnownSources(sources);
      invoke(LastIndex(valid, Distinct(valid)[i])) == Raised(m)
    ensures var valid := KnownSources(sources);
      var name := Distinct(valid)[i];
      Sections(valid, invoke)[i] == Section(name, "Error searching " + name + ": " + m)
  {
  }

  /** Isolation: changing what the invocations of one source produce leaves
      every other source's section as it was. */
  lemma SectionsIsolated(sources: seq<string>, invoke: nat -> Outcome<string>,
                         invoke': nat -> Outcome<string>, failing: string)
    requires var valid := KnownSources(sources);
      forall k :: 0 <= k < |valid| && valid[k] != failing ==> invoke(k) == invoke'(k)
    ensures var valid := KnownSources(sources);
      var names := Distinct(valid);
      forall i :: 0 <= i < |names| && names[i] != failing ==>
        Sections(valid, invoke)[i] == Sections(valid, invoke')[i]
  {
    var valid := KnownSources(sources);
    var names := Distinct(valid);
    forall i | 0 <= i < |names| && names[i] != failing
      ensures Sections(valid, invoke)[i] == Sections(valid, invoke')[i]
    {
      var k := LastIndex(valid, names[i]);
      assert valid[k] != failing;
      SectionAt(valid, invoke, i);
      SectionAt(valid, invoke', i);
    }
  }
}
