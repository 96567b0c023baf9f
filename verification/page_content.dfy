/** `get_webpage_content`: after the page has been fetched and its visible text
    extracted (one piece of text per line), the text is cleaned up into
    non-blank chunks joined by newlines and cut to a character budget. */
module PageContent {
  import opened Common
  import opened Text

  const TruncationMarker: string := "... [content truncated]"
  const FetchFailure: string := "Error fetching webpage content: "
  const FetchTimeoutSeconds: nat := 10

  /** What a chunk of cleaned text looks like: non-empty, no whitespace at either
      end, on one line and without a double space. */
  predicate IsChunk(c: string)
  {
    c != [] && Trimmed(c) && NoBreak(c) && NoDoubleSpace(c)
  }

  /** `phrase.strip()` for each phrase, keeping the non-empty ones. */
  function Phrases(phrases: seq<string>): (chunks: seq<string>)
    requires forall p :: p in phrases ==> NoBreak(p) && NoDoubleSpace(p)
    ensures forall c :: c in chunks ==> IsChunk(c)
  {
    if phrases == [] then []
    else
      var c := Strip(phrases[0]);
      StripKeeps(phrases[0]);
      (if c == [] then [] else [c]) + Phrases(phrases[1..])
  }

  /** The chunks of one line: stripped, split at double spaces, each phrase
      stripped, the empty ones dropped. */
  function LineChunks(line: string): (chunks: seq<string>)
    requires NoBreak(line)
    ensures forall c :: c in chunks ==> IsChunk(c)
  {
    StripKeeps(line);
    Phrases(SplitDoubleSpace(Strip(line)))
  }

  /** The chunks of each line, in line order. */
  function Chunks(lines: seq<string>): (chunks: seq<string>)
    requires forall l :: l in lines ==> NoBreak(l)
    ensures forall c :: c in chunks ==> IsChunk(c)
  {
    if lines == [] then [] else LineChunks(lines[0]) + Chunks(lines[1..])
  }

  /** The chunks of a page's text, in source order. */
  function TextChunks(text: string): seq<string>
  {
    Chunks(SplitLines(text))
  }

  /** The cleaned-up page text. Its lines are exactly the chunks, in source
      order: there is no blank line, no line with whitespace at either end and
      no double space left. */
  function CleanText(text: string): (r: string)
    ensures SplitLines(r) == TextChunks(text)
    ensures forall line :: line in SplitLines(r) ==> IsChunk(line)
  {
    var cs := TextChunks(text);
    SplitLinesOfJoin(cs);
    Join("\n", cs)
  }

  /** A one-line, non-empty piece followed by a newline is the first line. */
  lemma SplitLinesCons(c: string, rest: string)
    requires c != [] && NoBreak(c)
    ensures SplitLines(c + "\n" + rest) == [c] + SplitLines(rest)
  {
    var s := c + "\n" + rest;
    assert s[|c|] == '\n';
    assert forall j :: 0 <= j < |c| ==> s[j] == c[j];
    FirstBreakIs(s, |c|);
    assert s[..|c|] == c;
    assert s[|c| + 1..] == rest;
  }

  /** Splitting newline-joined one-line, non-empty pieces into lines gives the pieces back. */
  lemma {:induction false} SplitLinesOfJoin(cs: seq<string>)
    requires forall c :: c in cs ==> c != [] && NoBreak(c)
    ensures SplitLines(Join("\n", cs)) == cs
  {
    if |cs| == 1 {
      assert cs[0] in cs;
      FirstBreakIs(cs[0], |cs[0]|);
    } else if |cs| > 1 {
      var c := cs[0];
      assert c in cs;
      assert forall x :: x in cs[1..] ==> x in cs;
      SplitLinesCons(c, Join("\n", cs[1..]));
      SplitLinesOfJoin(cs[1..]);
      assert cs == [c] + cs[1..];
    }
  }

  lemma {:induction false} SplitOfChunk(c: string)
    requires IsChunk(c)
    ensures SplitDoubleSpace(c) == [c]
  {
  }

  /** A chunk is the only chunk of its own line. */
  lemma {:induction false} ChunkOfChunk(c: string)
    requires IsChunk(c)
    ensures LineChunks(c) == [c]
  {
    StripTrimmed(c);
    SplitOfChunk(c);
    assert LineChunks(c) == Phrases([c]);
    assert [c][1..] == [];
  }

  /** Chunking a list of lines is chunking its first line, then the rest. */
  lemma ChunksCons(c: string, rest: seq<string>)
    requires NoBreak(c) && forall l :: l in rest ==> NoBreak(l)
    ensures forall l :: l in [c] + rest ==> NoBreak(l)
    ensures Chunks([c] + rest) == LineChunks(c) + Chunks(rest)
  {
    assert ([c] + rest)[1..] == rest;
  }

  /** Cleaning text that consists of chunks leaves the chunks as they are. */
  lemma {:induction false} ChunksOfChunks(cs: seq<string>)
    requires forall c :: c in cs ==> IsChunk(c)
    requires forall c :: c in cs ==> NoBreak(c)
    ensures Chunks(cs) == cs
  {
    if cs != [] {
      var c, rest := cs[0], cs[1..];
      assert c in cs;
      assert forall x :: x in rest ==> x in cs;
      assert cs == [c] + rest;
      ChunksCons(c, rest);
      ChunkOfChunk(c);
      ChunksOfChunks(rest);
    }
  }

  /** Stripping the phrases and dropping the empty ones keeps every visible
      character, in order. */
  lemma {:induction false} VisiblePhrases(phrases: seq<string>)
    requires forall p :: p in phrases ==> NoBreak(p) && NoDoubleSpace(p)
    ensures Visible(Concat(Phrases(phrases))) == Visible(Concat(phrases))
  {
    if phrases != [] {
      var p, rest := phrases[0], phrases[1..];
      assert p in phrases;
      assert forall x :: x in rest ==> x in phrases;
      var c := Strip(p);
      var kept := if c == [] then [] else [c];
      assert Phrases(phrases) == kept + Phrases(rest);
      ConcatAppend(kept, Phrases(rest));
      assert Concat(kept) == c by {
        if c != [] {
          assert Concat(kept) == c + Concat([]);
        }
      }
      VisibleAppend(c, Concat(Phrases(rest)));
      VisibleStrip(p);
      VisiblePhrases(rest);
      VisibleAppend(p, Concat(rest));
    }
  }

  /** The chunks of one line hold exactly its visible characters, in order. */
  lemma VisibleLine(l: string)
    requires NoBreak(l)
    ensures Visible(Concat(LineChunks(l))) == Visible(l)
  {
    var line := Strip(l);
    StripKeeps(l);
    var parts := SplitDoubleSpace(line);
    VisiblePhrases(parts);
    SplitDoubleSpaceRejoins(line);
    VisibleJoin("  ", parts);
    VisibleStrip(l);
  }

  /** The chunks of the lines hold exactly the lines' visible characters, in
      line order: nothing but whitespace is removed and nothing is added. */
  lemma {:induction false} VisibleChunks(lines: seq<string>)
    requires forall l :: l in lines ==> NoBreak(l)
    ensures Visible(Concat(Chunks(lines))) == Visible(Concat(lines))
  {
    if lines != [] {
      var l, rest := lines[0], lines[1..];
      assert l in lines;
      assert forall x :: x in rest ==> x in lines;
      assert lines == [l] + rest;
      ChunksCons(l, rest);
      var ps := LineChunks(l);
      var later := Chunks(rest);
      assert Chunks(lines) == ps + later;
      ConcatAppend(ps, later);
      VisibleAppend(Concat(ps), Concat(later));
      VisibleLine(l);
      VisibleChunks(rest);
      assert Concat(lines) == l + Concat(rest);
      VisibleAppend(l, Concat(rest));
    }
  }

  /** The cleaned text keeps every visible character of the page text, in
      order, and adds none: the cleanup only drops and rearranges whitespace. */
  lemma CleanTextKeepsVisible(text: string)
    ensures Visible(CleanText(text)) == Visible(text)
  {
    var lines := SplitLines(text);
    VisibleJoin("\n", Chunks(lines));
    VisibleChunks(lines);
    VisibleUnbroken(text);
  }

  /** Cleaning is idempotent: cleaned text is its own cleanup. */
  lemma CleanTextIdempotent(text: string)
    ensures CleanText(CleanText(text)) == CleanText(text)
  {
    ChunksOfChunks(TextChunks(text));
  }

  /** `text[:max_length] + "... [content truncated]"` when the text is longer
      than the budget, the text itself otherwise. */
  function Truncate(text: string, maxLength: int): (r: string)
    ensures |text| <= maxLength ==> r == text
    ensures 0 <= maxLength < |text| ==>
      r == text[..maxLength] + TruncationMarker && |r| == maxLength + 23
    ensures maxLength < |text| ==> |r| >= 23 && r[|r| - 23..] == TruncationMarker && r[..|r| - 23] <= text
  {
    if |text| > maxLength then Prefix(text, maxLength) + TruncationMarker else text
  }

  /** `get_webpage_content(url, max_length)`, from the text the page's markup
      yields once script, style, header, footer and nav elements are removed
      (or the failure of the fetch, the status check or the parse). */
  function WebpageContent(url: string, maxLength: int, page: Outcome<string>): (run: Run)
    ensures run.requests == [PageFetchRequest(url, FetchTimeoutSeconds)]
    ensures page.Raised? ==> run.output == FetchFailure + page.message
    ensures page.Returned? ==> run.output == Truncate(CleanText(page.value), maxLength)
  {
    var output :=
      match page
      case Raised(m) => FetchFailure + m
      case Returned(text) => Truncate(CleanText(text), maxLength);
    Run([PageFetchRequest(url, FetchTimeoutSeconds)], output)
  }
}
