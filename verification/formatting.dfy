/** The loop every search adapter runs over the items of a provider reply:
    format each item in order, appending the entry to `formatted_results`,
    and give up on the whole list at the first item whose formatting raises. */
module Formatting {
  import opened Common
  import Text

  /** The entries of `xs` in order, or the exception of the first item whose
      formatting raises. */
  function FormatAll<T>(xs: seq<T>, format: T -> Outcome<string>): (r: Outcome<seq<string>>)
    ensures r.Returned? <==> forall i :: 0 <= i < |xs| ==> format(xs[i]).Returned?
    ensures r.Returned? ==>
      |r.value| == |xs| && forall i :: 0 <= i < |xs| ==> r.value[i] == format(xs[i]).value
    ensures r.Raised? ==>
      exists i :: 0 <= i < |xs| && format(xs[i]) == Raised(r.message)
        && forall j :: 0 <= j < i ==> format(xs[j]).Returned?
  {
    if xs == [] then Returned([])
    else
      var init := xs[..|xs| - 1];
      match FormatAll(init, format)
      case Raised(m) => Raised(m)
      case Returned(done) =>
        match format(xs[|xs| - 1])
        case Raised(m) => Raised(m)
        case Returned(entry) => Returned(done + [entry])
  }

  /** A tool's output once its item loop has run: the entries joined by blank
      lines, or the tool's failure prefix and the exception text. */
  function Joined(failure: string, formatted: Outcome<seq<string>>): (r: string)
    ensures formatted.Raised? ==> r == failure + formatted.message
    ensures formatted == Returned([]) ==> r == ""
    ensures formatted.Returned? ==> forall i :: 0 <= i < |formatted.value| ==>
      var at := Text.JoinOffset("\n\n", formatted.value, i);
      at + |formatted.value[i]| <= |r| && r[at..at + |formatted.value[i]|] == formatted.value[i]
  {
    match formatted
    case Raised(m) => failure + m
    case Returned(entries) =>
      Text.JoinHoldsParts("\n\n", entries);
      Text.Join("\n\n", entries)
  }

  /** The loop itself: `formatted_results.append(...)` per item. */
  method FormatEach<T>(xs: seq<T>, format: T -> Outcome<string>) returns (r: Outcome<seq<string>>)
    ensures r == FormatAll(xs, format)
  {
    var formatted: seq<string> := [];
    var i := 0;
    while i < |xs|
      invariant 0 <= i <= |xs|
      invariant FormatAll(xs[..i], format) == Returned(formatted)
    {
      assert xs[..i + 1][..i] == xs[..i];
      match format(xs[i]) {
        case Raised(m) =>
          return Raised(m);
        case Returned(entry) =>
          formatted := formatted + [entry];
      }
      i := i + 1;
    }
    assert xs[..i] == xs;
    r := Returned(formatted);
  }
}
