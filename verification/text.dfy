/** The Python string operations the tool layer relies on, on `seq<char>`:
    `sep.join`, prefix slicing `s[:n]`, `strip`, `splitlines`, `split("  ")`,
    `split()[0]` and `upper` on ASCII names. */
module Text {
  import opened Common

  /** `sep.join(parts)`. */
  function Join(sep: string, parts: seq<string>): string
  {
    if |parts| == 0 then ""
    else if |parts| == 1 then parts[0]
    else parts[0] + sep + Join(sep, parts[1..])
  }

  /** Where `parts[i]` starts in `Join(sep, parts)`. */
  function JoinOffset(sep: string, parts: seq<string>, i: nat): nat
    requires i < |parts|
  {
    if i == 0 then 0 else |parts[0]| + |sep| + JoinOffset(sep, parts[1..], i - 1)
  }

  lemma SliceOfAppend(a: string, b: string, k: nat, n: nat)
    requires k + n <= |b|
    ensures (a + b)[|a| + k..|a| + k + n] == b[k..k + n]
  {
  }

  /** Every part appears in the joined string at its offset. */
  lemma {:induction false} JoinAt(sep: string, parts: seq<string>, i: nat)
    requires i < |parts|
    ensures JoinOffset(sep, parts, i) + |parts[i]| <= |Join(sep, parts)|
    ensures Join(sep, parts)[JoinOffset(sep, parts, i)..JoinOffset(sep, parts, i) + |parts[i]|] == parts[i]
  {
    if |parts| > 1 {
      var head := parts[0] + sep;
      var rest := Join(sep, parts[1..]);
      assert Join(sep, parts) == head + rest;
      if i > 0 {
        assert parts[1..][i - 1] == parts[i];
        JoinAt(sep, parts[1..], i - 1);
        var at := JoinOffset(sep, parts[1..], i - 1);
        assert JoinOffset(sep, parts, i) == |head| + at;
        SliceOfAppend(head, rest, at, |parts[i]|);
      } else {
        assert Join(sep, parts) == parts[0] + (sep + rest);
      }
    }
  }

  /** A joined text opens with whatever its first part opens with. */
  lemma JoinOpensWith(sep: string, parts: seq<string>, p: string)
    requires |parts| >= 1 && p <= parts[0]
    ensures p <= Join(sep, parts)
  {
    JoinAt(sep, parts, 0);
    assert Join(sep, parts)[..|parts[0]|] == parts[0];
  }

  /** Every part of `parts` at once appears at its offset in the joined text. */
  lemma JoinHoldsParts(sep: string, parts: seq<string>)
    ensures forall i :: 0 <= i < |parts| ==>
      JoinOffset(sep, parts, i) + |parts[i]| <= |Join(sep, parts)|
      && Join(sep, parts)[JoinOffset(sep, parts, i)..JoinOffset(sep, parts, i) + |parts[i]|] == parts[i]
  {
    forall i | 0 <= i < |parts|
      ensures JoinOffset(sep, parts, i) + |parts[i]| <= |Join(sep, parts)|
      ensures Join(sep, parts)[JoinOffset(sep, parts, i)..JoinOffset(sep, parts, i) + |parts[i]|] == parts[i]
    {
      JoinAt(sep, parts, i);
    }
  }

  /** The joined text ends with the last part: it is exactly as long as the
      parts and the separators between them. */
  lemma {:induction false} JoinLength(sep: string, parts: seq<string>)
    ensures |parts| == 0 ==> Join(sep, parts) == ""
    ensures |parts| > 0 ==> |Join(sep, parts)| == JoinOffset(sep, parts, |parts| - 1) + |parts[|parts| - 1]|
  {
    if |parts| > 1 {
      assert parts[1..][|parts| - 2] == parts[|parts| - 1];
      JoinLength(sep, parts[1..]);
    }
  }

  /** Between consecutive parts sits the separator. */
  lemma {:induction false} JoinSeparators(sep: string, parts: seq<string>, i: nat)
    requires i + 1 < |parts|
    ensures var at := JoinOffset(sep, parts, i) + |parts[i]|;
      at + |sep| <= |Join(sep, parts)| && Join(sep, parts)[at..at + |sep|] == sep
  {
    var head := parts[0] + sep;
    var rest := Join(sep, parts[1..]);
    assert Join(sep, parts) == head + rest;
    if i > 0 {
      assert parts[1..][i - 1] == parts[i];
      JoinSeparators(sep, parts[1..], i - 1);
      var at := JoinOffset(sep, parts[1..], i - 1) + |parts[i]|;
      SliceOfAppend(head, rest, at, |sep|);
    } else {
      assert (head + rest)[|parts[0]|..|parts[0]| + |sep|] == sep;
    }
  }

  /** Python's slice `s[:n]`, including its meaning for a negative `n`
      (drop the last `-n` elements). */
  function Prefix<T>(s: seq<T>, n: int): (r: seq<T>)
    ensures |r| <= |s| && r == s[..|r|]
    ensures 0 <= n ==> |r| == if n < |s| then n else |s|
    ensures n < 0 ==> |r| == if -n < |s| then |s| + n else 0
  {
    if 0 <= n then (if n < |s| then s[..n] else s)
    else if -n < |s| then s[..|s| + n]
    else []
  }

  /** Python's `str.isspace` on one character. */
  predicate IsSpace(c: char)
  {
    c == ' ' || ('\t' <= c <= '\r') || ('\U{1C}' <= c <= '\U{1F}')
    || c == '\U{85}' || c == '\U{A0}' || c == '\U{1680}'
    || ('\U{2000}' <= c <= '\U{200A}') || c == '\U{2028}' || c == '\U{2029}'
    || c == '\U{202F}' || c == '\U{205F}' || c == '\U{3000}'
  }

  /** The line boundaries of Python's `str.splitlines`. */
  predicate IsLineBreak(c: char)
  {
    ('\n' <= c <= '\r') || ('\U{1C}' <= c <= '\U{1E}')
    || c == '\U{85}' || c == '\U{2028}' || c == '\U{2029}'
  }

  predicate NoBreak(s: string)
  {
    forall i :: 0 <= i < |s| ==> !IsLineBreak(s[i])
  }

  predicate DoubleSpaceAt(s: string, i: int)
    requires 0 <= i && i + 1 < |s|
  {
    s[i] == ' ' && s[i + 1] == ' '
  }

  predicate NoDoubleSpace(s: string)
  {
    forall i :: 0 <= i && i + 1 < |s| ==> !DoubleSpaceAt(s, i)
  }

  /** Neither end of `s` is whitespace. */
  predicate Trimmed(s: string)
  {
    |s| > 0 ==> !IsSpace(s[0]) && !IsSpace(s[|s| - 1])
  }

  /** Where `s.strip()` (and `s.lstrip()`) starts: after the leading whitespace. */
  function StripStart(s: string): (k: nat)
    ensures k <= |s|
    ensures k < |s| ==> !IsSpace(s[k])
    ensures forall j {:trigger IsSpace(s[j])} :: 0 <= j < k ==> IsSpace(s[j])
  {
    if s == [] then 0
    else if IsSpace(s[0]) then
      var k := 1 + StripStart(s[1..]);
      assert forall j :: 1 <= j < |s| ==> s[1..][j - 1] == s[j];
      k
    else 0
  }

  /** Where `s.strip()` ends, looking down from `e` no further than `k`: before
      the trailing whitespace. */
  function StripEnd(s: string, k: nat, e: nat): (end: nat)
    requires k <= e <= |s|
    ensures k <= end <= e
    ensures end > k ==> !IsSpace(s[end - 1])
    ensures forall j {:trigger IsSpace(s[j])} :: end <= j < e ==> IsSpace(s[j])
    decreases e
  {
    if e > k && IsSpace(s[e - 1]) then StripEnd(s, k, e - 1) else e
  }

  /** `s.strip()`: `s` without its leading and trailing whitespace. */
  function Strip(s: string): (r: string)
    ensures Trimmed(r)
    ensures StripStart(s) + |r| <= |s| && r == s[StripStart(s)..StripStart(s) + |r|]
    ensures forall j {:trigger IsSpace(s[j])} :: 0 <= j < StripStart(s) ==> IsSpace(s[j])
    ensures forall j {:trigger IsSpace(s[j])} :: StripStart(s) + |r| <= j < |s| ==> IsSpace(s[j])
  {
    s[StripStart(s)..StripEnd(s, StripStart(s), |s|)]
  }

  /** A slice keeps any property of all the characters and of all the adjacent
      pairs of the string it is cut from. */
  lemma SliceKeeps(s: string, lo: nat, hi: nat)
    requires lo <= hi <= |s|
    ensures NoBreak(s) ==> NoBreak(s[lo..hi])
    ensures NoDoubleSpace(s) ==> NoDoubleSpace(s[lo..hi])
  {
    var r := s[lo..hi];
    if NoDoubleSpace(s) {
      forall i | 0 <= i && i + 1 < |r| ensures !DoubleSpaceAt(r, i) {
        assert !DoubleSpaceAt(s, lo + i);
      }
    }
  }

  /** Stripping takes a piece of `s`, so it keeps both properties. */
  lemma {:induction false} StripKeeps(s: string)
    ensures NoBreak(s) ==> NoBreak(Strip(s))
    ensures NoDoubleSpace(s) ==> NoDoubleSpace(Strip(s))
  {
    var r := Strip(s);
    var k := StripStart(s);
    assert r == s[k..k + |r|];
    SliceKeeps(s, k, k + |r|);
  }

  /** A string that is already trimmed is its own `strip()`. */
  lemma {:induction false} StripTrimmed(s: string)
    requires Trimmed(s)
    ensures Strip(s) == s
  {
    assert StripStart(s) == 0;
    assert StripEnd(s, 0, |s|) == |s|;
  }

  /** Index of the first line boundary in `s`, or `|s|` when there is none. */
  function FirstBreak(s: string): (i: nat)
    ensures i <= |s|
    ensures i < |s| ==> IsLineBreak(s[i])
    ensures forall j :: 0 <= j < i ==> !IsLineBreak(s[j])
  {
    if s == [] then 0
    else if IsLineBreak(s[0]) then 0
    else 1 + FirstBreak(s[1..])
  }

  /** The first line boundary is the one at `i` when nothing before `i` is one. */
  lemma FirstBreakIs(s: string, i: nat)
    requires i <= |s| && (i < |s| ==> IsLineBreak(s[i]))
    requires forall j :: 0 <= j < i ==> !IsLineBreak(s[j])
    ensures FirstBreak(s) == i
  {
  }

  /** The parts one after the other. */
  function Concat(parts: seq<string>): string
  {
    if parts == [] then "" else parts[0] + Concat(parts[1..])
  }

  /** `s` without its line boundaries. */
  function Unbroken(s: string): string
  {
    if s == [] then "" else (if IsLineBreak(s[0]) then "" else [s[0]]) + Unbroken(s[1..])
  }

  lemma {:induction false} UnbrokenAppend(a: string, b: string)
    ensures Unbroken(a + b) == Unbroken(a) + Unbroken(b)
  {
    if a != [] {
      assert (a + b)[0] == a[0] && (a + b)[1..] == a[1..] + b;
      UnbrokenAppend(a[1..], b);
      var x := if IsLineBreak(a[0]) then "" else [a[0]];
      assert Unbroken(a + b) == x + (Unbroken(a[1..]) + Unbroken(b));
    } else {
      assert a + b == b;
    }
  }

  lemma {:induction false} UnbrokenOfBreaks(t: string)
    requires forall k :: 0 <= k < |t| ==> IsLineBreak(t[k])
    ensures Unbroken(t) == ""
  {
    if t != [] {
      UnbrokenOfBreaks(t[1..]);
    }
  }

  lemma {:induction false} UnbrokenOfNoBreak(s: string)
    requires NoBreak(s)
    ensures Unbroken(s) == s
  {
    if s != [] {
      UnbrokenOfNoBreak(s[1..]);
    }
  }

  /** A break-free head, then boundaries only, then the rest: removing the
      boundaries leaves the head followed by the rest's characters. */
  lemma {:induction false} UnbrokenAround(s: string, i: nat, j: nat)
    requires i <= j <= |s| && NoBreak(s[..i])
    requires forall k :: i <= k < j ==> IsLineBreak(s[k])
    ensures Unbroken(s) == s[..i] + Unbroken(s[j..])
  {
    var head, mid, tail := s[..i], s[i..j], s[j..];
    assert s == head + (mid + tail);
    UnbrokenAppend(head, mid + tail);
    UnbrokenAppend(mid, tail);
    UnbrokenOfNoBreak(head);
    assert forall k :: 0 <= k < |mid| ==> mid[k] == s[i + k];
    UnbrokenOfBreaks(mid);
  }

  /** The characters of `s` that are not whitespace, in order: what a reader
      sees of the text. Every line boundary is whitespace. */
  function Visible(s: string): string
  {
    if s == [] then "" else (if IsSpace(s[0]) then "" else [s[0]]) + Visible(s[1..])
  }

  lemma {:induction false} VisibleAppend(a: string, b: string)
    ensures Visible(a + b) == Visible(a) + Visible(b)
  {
    if a != [] {
      assert (a + b)[0] == a[0] && (a + b)[1..] == a[1..] + b;
      VisibleAppend(a[1..], b);
      var x := if IsSpace(a[0]) then "" else [a[0]];
      assert Visible(a + b) == x + (Visible(a[1..]) + Visible(b));
    } else {
      assert a + b == b;
    }
  }

  lemma {:induction false} VisibleOfSpaces(s: string)
    requires forall j :: 0 <= j < |s| ==> IsSpace(s[j])
    ensures Visible(s) == ""
  {
    if s != [] {
      VisibleOfSpaces(s[1..]);
    }
  }

  /** Removing line boundaries removes only whitespace. */
  lemma {:induction false} VisibleUnbroken(s: string)
    ensures Visible(Unbroken(s)) == Visible(s)
  {
    if s != [] {
      var x := if IsLineBreak(s[0]) then "" else [s[0]];
      VisibleAppend(x, Unbroken(s[1..]));
      VisibleUnbroken(s[1..]);
      assert Visible(x) == if IsSpace(s[0]) then "" else [s[0]];
    }
  }

  /** Stripping removes only whitespace. */
  lemma {:induction false} VisibleStrip(s: string)
    ensures Visible(Strip(s)) == Visible(s)
  {
    var r := Strip(s);
    var k := StripStart(s);
    var e := k + |r|;
    assert s == s[..k] + (r + s[e..]);
    VisibleAppend(s[..k], r + s[e..]);
    VisibleAppend(r, s[e..]);
    assert forall j :: 0 <= j < k ==> s[..k][j] == s[j];
    VisibleOfSpaces(s[..k]);
    assert forall j :: 0 <= j < |s| - e ==> s[e..][j] == s[e + j];
    VisibleOfSpaces(s[e..]);
  }

  lemma {:induction false} ConcatAppend(a: seq<string>, b: seq<string>)
    ensures Concat(a + b) == Concat(a) + Concat(b)
  {
    if a != [] {
      assert (a + b)[0] == a[0] && (a + b)[1..] == a[1..] + b;
      ConcatAppend(a[1..], b);
    } else {
      assert a + b == b;
    }
  }

  /** Joining with a whitespace separator adds nothing visible. */
  lemma {:induction false} VisibleJoin(sep: string, parts: seq<string>)
    requires forall j :: 0 <= j < |sep| ==> IsSpace(sep[j])
    ensures Visible(Join(sep, parts)) == Visible(Concat(parts))
  {
    if |parts| == 1 {
      assert Concat(parts) == parts[0] + Concat(parts[1..]);
      assert parts[0] + "" == parts[0];
    } else if |parts| > 1 {
      var rest := Join(sep, parts[1..]);
      VisibleJoin(sep, parts[1..]);
      VisibleAppend(parts[0] + sep, rest);
      VisibleAppend(parts[0], sep);
      VisibleOfSpaces(sep);
      VisibleAppend(parts[0], Concat(parts[1..]));
    }
  }

  /** `s.splitlines()`: no empty line after a final boundary, and `"\r\n"`
      counts as one boundary. The lines hold every character of `s` that is
      not a boundary, in order, and nothing else. */
  function SplitLines(s: string): (lines: seq<string>)
    ensures forall line :: line in lines ==> NoBreak(line)
    ensures Concat(lines) == Unbroken(s)
    ensures lines == [] <==> s == []
    ensures NoBreak(s) && s != [] ==> lines == [s]
    decreases |s|
  {
    if s == [] then []
    else
      var i := FirstBreak(s);
      if i == |s| then
        UnbrokenOfNoBreak(s);
        [s]
      else
        var skip := if s[i] == '\r' && i + 1 < |s| && s[i + 1] == '\n' then 2 else 1;
        var rest := SplitLines(s[i + skip..]);
        UnbrokenAround(s, i, i + skip);
        assert ([s[..i]] + rest)[1..] == rest;
        [s[..i]] + rest
  }

  /** Index of the first `"  "` in `s`, or `|s|` when there is none. */
  function FirstDoubleSpace(s: string): (i: nat)
    ensures i <= |s|
    ensures i < |s| ==> i + 1 < |s| && DoubleSpaceAt(s, i)
    ensures forall j :: 0 <= j < i && j + 1 < |s| ==> !DoubleSpaceAt(s, j)
  {
    if |s| < 2 then |s|
    else if DoubleSpaceAt(s, 0) then 0
    else
      var i := 1 + FirstDoubleSpace(s[1..]);
      assert forall j :: 1 <= j < i && j + 1 < |s| ==> DoubleSpaceAt(s, j) == DoubleSpaceAt(s[1..], j - 1);
      i
  }

  /** `s.split("  ")`: the pieces between non-overlapping double spaces, left to right. */
  function SplitDoubleSpace(s: string): (parts: seq<string>)
    ensures |parts| >= 1
    ensures NoBreak(s) ==> forall p :: p in parts ==> NoBreak(p)
    ensures forall p :: p in parts ==> NoDoubleSpace(p)
    decreases |s|
  {
    var i := FirstDoubleSpace(s);
    if i == |s| then [s]
    else
      var head := s[..i];
      assert forall j :: 0 <= j && j + 1 < |head| ==> DoubleSpaceAt(head, j) == DoubleSpaceAt(s, j);
      [head] + SplitDoubleSpace(s[i + 2..])
  }

  /** One cut of `SplitDoubleSpace`: putting the double space back in front of the rejoined rest. */
  lemma RejoinAt(s: string, i: nat, rest: seq<string>)
    requires i + 1 < |s| && DoubleSpaceAt(s, i)
    requires |rest| >= 1 && Join("  ", rest) == s[i + 2..]
    ensures Join("  ", [s[..i]] + rest) == s
  {
    JoinCons("  ", s[..i], rest);
    assert s[i..i + 2] == "  ";
    SplitAround(s, i, 2);
  }

  lemma {:induction false} SplitDoubleSpaceJoin(s: string)
    ensures Join("  ", SplitDoubleSpace(s)) == s
    decreases |s|
  {
    var i := FirstDoubleSpace(s);
    if i < |s| {
      var head, tail := s[..i], s[i + 2..];
      var rest := SplitDoubleSpace(tail);
      SplitDoubleSpaceJoin(tail);
      assert SplitDoubleSpace(s) == [head] + rest;
      RejoinAt(s, i, rest);
    }
  }

  predicate EndsInSpace(p: string)
  {
    p != [] && p[|p| - 1] == ' '
  }

  /** No piece but the last ends with a space: each double space that was cut
      at is the leftmost one, none could have been cut one character later. */
  predicate LeftmostCuts(parts: seq<string>)
  {
    forall k :: 0 <= k < |parts| - 1 ==> !EndsInSpace(parts[k])
  }

  lemma {:induction false} SplitDoubleSpaceLeftmost(s: string)
    ensures LeftmostCuts(SplitDoubleSpace(s))
    decreases |s|
  {
    var i := FirstDoubleSpace(s);
    if i < |s| {
      assert i > 0 ==> !DoubleSpaceAt(s, i - 1) && s[..i][i - 1] == s[i - 1] && s[i - 1] != ' ';
      var rest := SplitDoubleSpace(s[i + 2..]);
      SplitDoubleSpaceLeftmost(s[i + 2..]);
      var parts := [s[..i]] + rest;
      assert SplitDoubleSpace(s) == parts;
      forall k | 0 <= k < |parts| - 1
        ensures !EndsInSpace(parts[k])
      {
        if k == 0 {
          assert parts[0] == s[..i];
          assert !EndsInSpace(s[..i]);
        } else {
          assert parts[k] == rest[k - 1];
          assert !EndsInSpace(rest[k - 1]);
        }
      }
    }
  }

  /** The pieces of `split("  ")` joined back with `"  "` give the input, and
      the cuts are leftmost: no piece but the last ends with a space, so none
      could have been cut one character later. */
  lemma SplitDoubleSpaceRejoins(s: string)
    ensures Join("  ", SplitDoubleSpace(s)) == s
    ensures LeftmostCuts(SplitDoubleSpace(s))
  {
    SplitDoubleSpaceJoin(s);
    SplitDoubleSpaceLeftmost(s);
  }

  lemma JoinCons(sep: string, head: string, rest: seq<string>)
    requires |rest| >= 1
    ensures Join(sep, [head] + rest) == head + sep + Join(sep, rest)
  {
    assert ([head] + rest)[1..] == rest;
  }

  lemma SplitAround(s: string, i: nat, n: nat)
    requires i + n <= |s|
    ensures s == s[..i] + s[i..i + n] + s[i + n..]
  {
  }

  /** `c.upper()` for the ASCII letters the tool layer upper-cases. */
  function UpperChar(c: char): char
  {
    if 'a' <= c <= 'z' then (c as int - 'a' as int + 'A' as int) as char else c
  }

  function Upper(s: string): (r: string)
    ensures |r| == |s|
    ensures forall i :: 0 <= i < |s| ==> r[i] == UpperChar(s[i])
  {
    seq(|s|, i requires 0 <= i < |s| => UpperChar(s[i]))
  }

  /** Index of the first whitespace character of `s`, or `|s|`. */
  function FirstSpace(s: string): (i: nat)
    ensures i <= |s|
    ensures i < |s| ==> IsSpace(s[i])
    ensures forall j :: 0 <= j < i ==> !IsSpace(s[j])
  {
    if s == [] then 0
    else if IsSpace(s[0]) then 0
    else 1 + FirstSpace(s[1..])
  }

  /** `s.split()[0]`: the first whitespace-separated word, `None` where Python
      raises an `IndexError` because `s` holds no word. */
  function FirstWord(s: string): (w: Option<string>)
    ensures w.Some? <==> exists i :: 0 <= i < |s| && !IsSpace(s[i])
    ensures w.Some? ==> |w.value| > 0 && forall i :: 0 <= i < |w.value| ==> !IsSpace(w.value[i])
    ensures w.Some? ==>
      var t := s[StripStart(s)..];
      && |w.value| <= |t| && w.value == t[..|w.value|]
      && (|w.value| == |t| || IsSpace(t[|w.value|]))
  {
    var t := s[StripStart(s)..];
    if t == [] then None else Some(t[..FirstSpace(t)])
  }
}
