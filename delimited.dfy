/** Character-delimited text: the string operations the table renderer
    uses (`String::pop`, joining with a separator, and the
    "push a part, push a separator" accumulation of its loops), together
    with splitting, which undoes joining. */
module Delimited {

  /** `String::pop` with its result discarded: the last character is
      removed, and an empty string is left as it is. */
  function Pop(s: string): string
  {
    if s == [] then s else s[..|s| - 1]
  }

  /** The parts with `sep` between each two adjacent ones. */
  function Join(parts: seq<string>, sep: char): string
  {
    if |parts| == 0 then ""
    else if |parts| == 1 then parts[0]
    else Join(parts[..|parts| - 1], sep) + [sep] + parts[|parts| - 1]
  }

  /** Every part followed by `sep`: what a loop that pushes a part and then
      a separator for each element has appended to its buffer. */
  function Terminated(parts: seq<string>, sep: char): string
  {
    if parts == [] then ""
    else Terminated(parts[..|parts| - 1], sep) + parts[|parts| - 1] + [sep]
  }

  /** `sep` occurs in none of the parts. */
  predicate Free(parts: seq<string>, sep: char)
  {
    forall i :: 0 <= i < |parts| ==> sep !in parts[i]
  }

  /** Text split at every occurrence of `sep`; there is always at least one
      piece, and no piece contains `sep`. */
  function Split(s: string, sep: char): (r: seq<string>)
    ensures |r| > 0
    ensures Free(r, sep)
  {
    if s == [] then [""]
    else
      var init := Split(s[..|s| - 1], sep);
      if s[|s| - 1] == sep then init + [""]
      else init[..|init| - 1] + [init[|init| - 1] + [s[|s| - 1]]]
  }

  /** Growing a prefix of parts by one more element adds that element and
      one separator to the accumulated text. */
  lemma TerminatedStep(parts: seq<string>, i: nat, sep: char)
    requires i < |parts|
    ensures Terminated(parts[..i + 1], sep) == Terminated(parts[..i], sep) + parts[i] + [sep]
  {
    assert parts[..i + 1][..i] == parts[..i];
  }

  /** The accumulated text is the joined text plus one trailing separator. */
  lemma {:induction false} TerminatedIsJoined(parts: seq<string>, sep: char)
    requires |parts| > 0
    ensures Terminated(parts, sep) == Join(parts, sep) + [sep]
  {
    if |parts| > 1 {
      TerminatedIsJoined(parts[..|parts| - 1], sep);
    }
  }

  /** Popping after the last separator was pushed leaves exactly the joined
      text behind whatever the buffer held before. */
  lemma PopTerminated(prefix: string, parts: seq<string>, sep: char)
    requires |parts| > 0
    ensures Pop(prefix + Terminated(parts, sep)) == prefix + Join(parts, sep)
  {
    TerminatedIsJoined(parts, sep);
    assert prefix + Terminated(parts, sep) == (prefix + Join(parts, sep)) + [sep];
  }

  /** Accumulating two lists one after the other is accumulating their
      concatenation. */
  lemma {:induction false} TerminatedAppend(a: seq<string>, b: seq<string>, sep: char)
    ensures Terminated(a + b, sep) == Terminated(a, sep) + Terminated(b, sep)
  {
    if b == [] {
      assert a + b == a;
    } else {
      assert (a + b)[..|a + b| - 1] == a + b[..|b| - 1];
      TerminatedAppend(a, b[..|b| - 1], sep);
    }
  }

  /** A character other than the separator that no part contains does not
      occur in the joined text. */
  lemma {:induction false} JoinExcludes(parts: seq<string>, sep: char, c: char)
    requires c != sep && Free(parts, c)
    ensures c !in Join(parts, sep)
  {
    if |parts| > 1 {
      JoinExcludes(parts[..|parts| - 1], sep, c);
    }
  }

  /** Appending text free of the separator extends the last piece. */
  lemma {:induction false} SplitAppendFree(x: string, y: string, sep: char)
    requires sep !in y
    ensures var p := Split(x, sep);
            Split(x + y, sep) == p[..|p| - 1] + [p[|p| - 1] + y]
  {
    var p := Split(x, sep);
    if y == [] {
      assert x + y == x;
      assert p[|p| - 1] + y == p[|p| - 1];
      assert p[..|p| - 1] + [p[|p| - 1]] == p;
    } else {
      var y' := y[..|y| - 1];
      SplitAppendFree(x, y', sep);
      assert (x + y)[..|x + y| - 1] == x + y';
      assert (x + y)[|x + y| - 1] == y[|y| - 1];
      var q := Split(x + y', sep);
      assert q[..|q| - 1] == p[..|p| - 1];
      assert p[|p| - 1] + y' + [y[|y| - 1]] == p[|p| - 1] + y;
    }
  }

  /** A separator followed by separator-free text starts a new last piece. */
  lemma SplitAppendPiece(x: string, y: string, sep: char)
    requires sep !in y
    ensures Split(x + [sep] + y, sep) == Split(x, sep) + [y]
  {
    var p := Split(x + [sep], sep);
    assert (x + [sep])[..|x + [sep]| - 1] == x;
    assert p == Split(x, sep) + [""];
    SplitAppendFree(x + [sep], y, sep);
    assert p[..|p| - 1] == Split(x, sep);
    assert p[|p| - 1] + y == y;
  }

  /** Splitting undoes joining when no part contains the separator. */
  lemma {:induction false} SplitJoin(parts: seq<string>, sep: char)
    requires |parts| > 0 && Free(parts, sep)
    ensures Split(Join(parts, sep), sep) == parts
  {
    var n := |parts|;
    if n == 1 {
      SplitAppendFree("", parts[0], sep);
      assert "" + parts[0] == parts[0];
    } else {
      var init := parts[..n - 1];
      SplitJoin(init, sep);
      SplitAppendPiece(Join(init, sep), parts[n - 1], sep);
      assert init + [parts[n - 1]] == parts;
    }
  }
}
