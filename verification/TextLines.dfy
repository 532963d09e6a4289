/** What it means to split a whole text, into lines or into fields. */
module TextLines {

  const NEWLINE := '\n'
  const RETURN := '\r'

  /** The first position of `c`, or the length if there is none. */
  function IndexOf(s: string, c: char): (i: nat)
    ensures i <= |s| && forall j :: 0 <= j < i ==> s[j] != c
    ensures i < |s| ==> s[i] == c
  {
    if s == [] then 0
    else if s[0] == c then 0
    else
      var i := IndexOf(s[1..], c);
      assert forall j :: 0 < j < i + 1 ==> s[j] == s[1..][j - 1];
      i + 1
  }

  lemma IndexOfIs(s: string, c: char, k: nat)
    requires k <= |s| && (forall j :: 0 <= j < k ==> s[j] != c) && (k < |s| ==> s[k] == c)
    ensures IndexOf(s, c) == k
  {
  }

  /** One carriage return before the newline belongs to the line ending. */
  function StripReturn(line: string): string {
    if line != [] && line[|line| - 1] == RETURN then line[..|line| - 1] else line
  }

  function FirstLine(s: string): string {
    var i := IndexOf(s, NEWLINE);
    if i < |s| then StripReturn(s[..i]) else s
  }

  function AfterFirstLine(s: string): (rest: string)
    ensures s != [] ==> |rest| < |s|
  {
    var i := IndexOf(s, NEWLINE);
    if i < |s| then s[i + 1..] else []
  }

  /** The lines of a text. A final newline ends the last line and does not start another. */
  function Lines(s: string): seq<string>
    decreases |s|
  {
    if s == [] then [] else [FirstLine(s)] + Lines(AfterFirstLine(s))
  }

  /** A line and what ends it: the final line of a text may end without a newline. */
  predicate Ended(line: string, end: string, last: bool) {
    && '\n' !in line
    && (|| end == "\r\n"
        || (end == "\n" && (line == [] || line[|line| - 1] != '\r'))
        || (end == "" && last && line != []))
  }

  ghost predicate AllEnded(lines: seq<string>, ends: seq<string>) {
    |lines| == |ends| && forall i :: 0 <= i < |lines| ==> Ended(lines[i], ends[i], i == |lines| - 1)
  }

  /** Lines put together, each with an ending of its own. */
  function Unlines(lines: seq<string>, ends: seq<string>): string
    requires |lines| == |ends|
  {
    if lines == [] then [] else lines[0] + ends[0] + Unlines(lines[1..], ends[1..])
  }

  lemma FirstLineOf(line: string, end: string, rest: string)
    requires Ended(line, end, rest == [])
    ensures FirstLine(line + end + rest) == line && AfterFirstLine(line + end + rest) == rest
  {
    var s, k := line + end + rest, |line + end|;
    if end == "" {
      assert s == line;
      IndexOfIs(s, NEWLINE, k);
    } else {
      IndexOfIs(s, NEWLINE, k - 1);
      assert s[..k] == line + end;
      assert s[..k - 1] == line + end[..|end| - 1];
      assert s[k..] == rest;
    }
  }

  /** Splitting undoes joining, for any lines a file can hold and any mixture of endings. */
  lemma {:induction false} LinesOfUnlines(lines: seq<string>, ends: seq<string>)
    requires AllEnded(lines, ends)
    ensures Lines(Unlines(lines, ends)) == lines
    decreases |lines|
  {
    hide Lines, FirstLine, AfterFirstLine, Ended, IndexOf;
    NoLinesIff([]);
    if lines != [] {
      var rest := Unlines(lines[1..], ends[1..]);
      EndedTail(lines, ends);
      LinesOfUnlines(lines[1..], ends[1..]);
      NothingAfterLast(lines, ends);
      FirstLineOf(lines[0], ends[0], rest);
      LinesCons(lines[0] + ends[0] + rest);
    }
  }

  lemma EndedTail(lines: seq<string>, ends: seq<string>)
    requires AllEnded(lines, ends) && lines != []
    ensures AllEnded(lines[1..], ends[1..])
  {
    hide Ended;
    forall i | 0 <= i < |lines| - 1
      ensures Ended(lines[1..][i], ends[1..][i], i == |lines| - 2)
    {
      assert Ended(lines[i + 1], ends[i + 1], i + 1 == |lines| - 1);
    }
  }

  lemma NothingAfterLast(lines: seq<string>, ends: seq<string>)
    requires AllEnded(lines, ends) && lines != []
    ensures lines[0] + ends[0] != []
    ensures Ended(lines[0], ends[0], Unlines(lines[1..], ends[1..]) == [])
  {
    if ends[0] == "" {
      assert |lines| == 1;
    }
  }

  lemma LinesCons(s: string)
    requires s != []
    ensures Lines(s) == [FirstLine(s)] + Lines(AfterFirstLine(s))
  {
  }

  lemma NoLinesIff(s: string)
    ensures Lines(s) == [] <==> s == []
  {
  }

  /** What the first line leaves out is its ending. */
  lemma FirstLineEnds(s: string) returns (end: string)
    requires s != []
    ensures Ended(FirstLine(s), end, AfterFirstLine(s) == [])
    ensures s == FirstLine(s) + end + AfterFirstLine(s)
  {
    var i := IndexOf(s, NEWLINE);
    if i == |s| {
      end := "";
    } else {
      assert s == s[..i] + "\n" + s[i + 1..];
      if i > 0 && s[i - 1] == RETURN {
        end := "\r\n";
        assert s[..i] == s[..i - 1] + "\r";
      } else {
        end := "\n";
      }
    }
  }

  /** No byte is lost or repeated: the lines with their endings are the text. */
  lemma {:induction false} LinesAreTheText(s: string) returns (ends: seq<string>)
    ensures AllEnded(Lines(s), ends) && Unlines(Lines(s), ends) == s
    decreases |s|
  {
    NoLinesIff(s);
    if s == [] {
      ends := [];
    } else {
      hide Ended, FirstLine, AfterFirstLine, Lines;
      var end := FirstLineEnds(s);
      var rest := LinesAreTheText(AfterFirstLine(s));
      ends := [end] + rest;
      LinesCons(s);
      assert Lines(s)[1..] == Lines(AfterFirstLine(s)) && ends[1..] == rest;
      NoLinesIff(AfterFirstLine(s));
      forall i | 0 <= i < |Lines(s)|
        ensures Ended(Lines(s)[i], ends[i], i == |Lines(s)| - 1)
      {
        if i > 0 {
          assert Lines(s)[i] == Lines(AfterFirstLine(s))[i - 1] && ends[i] == rest[i - 1];
        }
      }
    }
  }
}
