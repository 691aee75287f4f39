/**
 The lines a `bufio.Scanner` with the default split function `bufio.ScanLines`
 produces from a text: the text is cut at every '\n', one '\r' at the end of a
 line is dropped, and a last line without a terminating '\n' is still a line
 when it is not empty. Empty text has no lines.
 */
module LineScanner {
  import opened GoStrings

  /** One trailing carriage return removed (bufio's dropCR). */
  function DropCR(s: string): (r: string)
    ensures |s| - 1 <= |r| <= |s| && r == s[..|r|]
    ensures |r| < |s| <==> HasSuffix(s, '\r')
  {
    if HasSuffix(s, '\r') then s[..|s| - 1] else s
  }

  /** Index of the first '\n' in `s`, or |s| when there is none. */
  function LineEnd(s: string): (i: nat)
    ensures i <= |s| && '\n' !in s[..i]
    ensures i < |s| ==> s[i] == '\n'
  {
    if s == [] || s[0] == '\n' then 0 else 1 + LineEnd(s[1..])
  }

  /** The tokens bufio.ScanLines yields for `s`, in order. */
  function ScanLines(s: string): (lines: seq<string>)
    ensures forall l :: l in lines ==> '\n' !in l
    ensures lines == [] <==> s == []
    decreases |s|
  {
    if s == [] then []
    else
      var i := LineEnd(s);
      if i < |s| then [DropCR(s[..i])] + ScanLines(s[i + 1..])
      else [DropCR(s)]
  }

  /** Lines each terminated by '\n': the text a file of these lines holds. */
  function Join(lines: seq<string>): string {
    if lines == [] then [] else lines[0] + "\n" + Join(lines[1..])
  }

  /** The first line of a text is everything up to its first '\n'. */
  lemma ScanLinesFirst(line: string, rest: string)
    requires '\n' !in line
    ensures ScanLines(line + "\n" + rest) == [DropCR(line)] + ScanLines(rest)
  {
    var s := line + "\n" + rest;
    assert forall k :: 0 <= k < |line| ==> s[k] == line[k];
    LineEndAt(s, |line|);
    assert s[..|line|] == line;
    assert s[|line| + 1..] == rest;
  }

  /** LineEnd is determined by its contract: the first '\n' is unique. */
  lemma LineEndAt(s: string, k: nat)
    requires k < |s| && s[k] == '\n'
    requires forall i :: 0 <= i < k ==> s[i] != '\n'
    ensures LineEnd(s) == k
  {
    var i := LineEnd(s);
    assert i < |s| ==> s[i] == '\n';
    assert forall j :: 0 <= j < i ==> s[..i][j] == s[j];
    assert i == k;
  }

  /** A final line without a terminating '\n' is still one line. */
  lemma ScanLinesLast(line: string)
    requires line != [] && '\n' !in line
    ensures ScanLines(line) == [DropCR(line)]
  {
    assert forall k :: 0 <= k < |line| ==> line[k] != '\n';
  }

  /** Scanning the text of '\n'-terminated lines gives the lines back. */
  lemma {:induction false} ScanJoin(lines: seq<string>)
    requires forall l :: l in lines ==> '\n' !in l && !HasSuffix(l, '\r')
    ensures ScanLines(Join(lines)) == lines
  {
    if lines != [] {
      assert lines[0] in lines;
      assert DropCR(lines[0]) == lines[0];
      ScanLinesFirst(lines[0], Join(lines[1..]));
      assert forall l :: l in lines[1..] ==> l in lines;
      ScanJoin(lines[1..]);
      assert lines == [lines[0]] + lines[1..];
    }
  }
}
