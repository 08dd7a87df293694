/**
 * Splitting streamed text fragments into display lines, and the decimal
 * rendering of token counts.
 */
module Lines {

  /** No line holds a line break. */
  ghost predicate NoBreaks(ls: seq<string>) {
    forall k, j :: 0 <= k < |ls| && 0 <= j < |ls[k]| ==> ls[k][j] != '\n'
  }

  /** `text.split("\n")`: always at least one piece; a trailing break yields an empty last piece. */
  function Split(s: string): (r: seq<string>)
    ensures |r| >= 1
    ensures NoBreaks(r)
  {
    if s == [] then [""]
    else if s[0] == '\n' then [""] + Split(s[1..])
    else
      var rest := Split(s[1..]);
      [[s[0]] + rest[0]] + rest[1..]
  }

  /** `lines.join("\n")`. */
  function Join(ls: seq<string>): string {
    if |ls| == 0 then ""
    else if |ls| == 1 then ls[0]
    else ls[0] + "\n" + Join(ls[1..])
  }

  /** Joining the pieces of a split restores the text. */
  lemma {:induction false} JoinSplit(s: string)
    ensures Join(Split(s)) == s
  {
    if s == [] {
    } else if s[0] == '\n' {
      JoinSplit(s[1..]);
      assert Split(s) == [""] + Split(s[1..]);
    } else {
      var rest := Split(s[1..]);
      JoinSplit(s[1..]);
      var r := [[s[0]] + rest[0]] + rest[1..];
      assert r[1..] == rest[1..];
      if |rest| == 1 {
      } else {
        assert Join(rest) == rest[0] + "\n" + Join(rest[1..]);
      }
    }
  }

  /** Splitting break-free lines that were joined gives the lines back. */
  lemma {:induction false} SplitJoin(ls: seq<string>)
    requires |ls| >= 1 && NoBreaks(ls)
    ensures Split(Join(ls)) == ls
  {
    if |ls| == 1 {
      SplitBreakFree(ls[0]);
    } else {
      assert NoBreaks(ls[1..]) by {
        forall k, j | 0 <= k < |ls[1..]| && 0 <= j < |ls[1..][k]| ensures ls[1..][k][j] != '\n' {
          assert ls[1..][k] == ls[k + 1];
        }
      }
      SplitJoin(ls[1..]);
      SplitAfterLine(ls[0], Join(ls[1..]));
      assert ls == [ls[0]] + ls[1..];
    }
  }

  lemma {:induction false} SplitBreakFree(a: string)
    requires forall j :: 0 <= j < |a| ==> a[j] != '\n'
    ensures Split(a) == [a]
  {
    if a != [] {
      SplitBreakFree(a[1..]);
      assert [a[0]] + a[1..] == a;
    }
  }

  /** Splitting `a + "\n" + b` for break-free `a` puts `a` in front of the pieces of `b`. */
  lemma {:induction false} SplitAfterLine(a: string, b: string)
    requires forall j :: 0 <= j < |a| ==> a[j] != '\n'
    ensures Split(a + "\n" + b) == [a] + Split(b)
  {
    if a == [] {
      assert a + "\n" + b == "\n" + b;
      assert ("\n" + b)[1..] == b;
    } else {
      var s := a + "\n" + b;
      assert s[1..] == a[1..] + "\n" + b;
      SplitAfterLine(a[1..], b);
      assert [a[0]] + a[1..] == a;
    }
  }

  /**
   * The lines a text fragment queues: its split pieces, except that the last
   * piece is dropped when it is empty (the artifact of a trailing break).
   */
  function QueuedLines(text: string): (r: seq<string>)
    ensures NoBreaks(r)
  {
    var ls := Split(text);
    if ls[|ls| - 1] == "" then ls[..|ls| - 1] else ls
  }

  /** Joining the queued lines gives back the fragment with at most one trailing break removed. */
  lemma QueuedLinesRoundTrip(text: string)
    ensures Join(QueuedLines(text)) ==
      if |text| > 0 && text[|text| - 1] == '\n' then text[..|text| - 1] else text
  {
    var ls := Split(text);
    JoinSplit(text);
    if ls[|ls| - 1] == "" {
      if |ls| == 1 {
        assert text == "";
      } else {
        JoinDropEmptyLast(ls);
      }
    } else if |text| > 0 && text[|text| - 1] == '\n' {
      TrailingBreakLeavesEmptyPiece(text);
      assert false;
    }
  }

  lemma {:induction false} JoinDropEmptyLast(ls: seq<string>)
    requires |ls| >= 2 && ls[|ls| - 1] == ""
    ensures Join(ls) == Join(ls[..|ls| - 1]) + "\n"
  {
    if |ls| == 2 {
      assert ls[1..] == [""];
    } else {
      JoinDropEmptyLast(ls[1..]);
      assert ls[1..][..|ls| - 2] == ls[..|ls| - 1][1..];
    }
  }

  /** When the text ends with a break, the last piece is empty. */
  lemma {:induction false} TrailingBreakLeavesEmptyPiece(text: string)
    requires |text| > 0 && text[|text| - 1] == '\n'
    ensures Split(text)[|Split(text)| - 1] == ""
  {
    if |text| > 1 {
      TrailingBreakLeavesEmptyPiece(text[1..]);
    }
  }

  /** An empty fragment queues nothing; a fragment without breaks queues itself when non-empty. */
  lemma QueuedLinesOfShortText(text: string)
    requires forall j :: 0 <= j < |text| ==> text[j] != '\n'
    ensures QueuedLines(text) == if text == "" then [] else [text]
  {
    SplitBreakFree(text);
  }

  /**
   * The batching loop: every split piece is pushed onto `pending`, except
   * the last one when it is empty.
   */
  method QueueFragment(pending: seq<string>, text: string) returns (p: seq<string>)
    ensures p == pending + QueuedLines(text)
  {
    var lines := Split(text);
    p := pending;
    var i := 0;
    while i < |lines|
      invariant 0 <= i <= |lines|
      invariant p == pending + if i < |lines| then lines[..i] else QueuedLines(text)
    {
      if i < |lines| - 1 || lines[i] != "" {
        p := p + [lines[i]];
      }
      i := i + 1;
      if i == |lines| {
        assert lines[..i] == lines;
      }
    }
  }

  // Decimal rendering of a non-negative integer, as a template literal prints a count.

  function Digit(d: nat): char
    requires d < 10
  {
    "0123456789"[d]
  }

  function NatToString(n: nat): (s: string)
    ensures |s| >= 1
    ensures forall i :: 0 <= i < |s| ==> '0' <= s[i] <= '9'
  {
    if n < 10 then [Digit(n)] else NatToString(n / 10) + [Digit(n % 10)]
  }

  /** Reads a string of decimal digits back as a number. */
  function ParseDecimal(s: string): nat
    requires forall i :: 0 <= i < |s| ==> '0' <= s[i] <= '9'
  {
    if s == [] then 0
    else ParseDecimal(s[..|s| - 1]) * 10 + (s[|s| - 1] as int - '0' as int)
  }

  /** The rendering is exact: reading it back gives the number. */
  lemma {:induction false} ParseNatToString(n: nat)
    ensures ParseDecimal(NatToString(n)) == n
  {
    if n >= 10 {
      ParseNatToString(n / 10);
      var s := NatToString(n);
      assert s[..|s| - 1] == NatToString(n / 10);
    }
  }
}
