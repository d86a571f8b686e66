/** Splitting and joining text, as Python's `split`, `join` and `splitlines` do. */
module Paths {
  import opened GitTree

  function Split(s: string, c: char): (parts: seq<string>)
    ensures parts != []
  {
    var i := Find(s, c, 0);
    if i < 0 then [s] else [s[..i]] + Split(s[i + 1..], c)
  }

  function Join(parts: seq<string>, c: char): string
    requires parts != []
  {
    if |parts| == 1 then parts[0] else parts[0] + [c] + Join(parts[1..], c)
  }

  lemma {:induction false} JoinAfterSplit(s: string, c: char)
    ensures Join(Split(s, c), c) == s
    decreases |s|
  {
    var i := Find(s, c, 0);
    if i >= 0 {
      var head, tail := s[..i], s[i + 1..];
      assert s == head + [c] + tail;
      JoinAfterSplit(tail, c);
      hide Find;
      var parts := Split(s, c);
      assert parts == [head] + Split(tail, c);
      assert parts[1..] == Split(tail, c);
    }
  }

  predicate Free(parts: seq<string>, c: char) {
    forall i :: 0 <= i < |parts| ==> c !in parts[i]
  }

  lemma {:induction false} PartsAreFree(s: string, c: char)
    ensures Free(Split(s, c), c)
    decreases |s|
  {
    hide Find, Free;
    var i := Find(s, c, 0);
    if i >= 0 {
      var head, tail := s[..i], s[i + 1..];
      PartsAreFree(tail, c);
      assert c !in head;
      OneMoreFree(head, Split(tail, c), c);
    } else {
      OnePartFree(s, c);
    }
  }

  lemma OnePartFree(s: string, c: char)
    requires c !in s
    ensures Free([s], c)
  {
  }

  lemma OneMoreFree(head: string, parts: seq<string>, c: char)
    requires c !in head && Free(parts, c)
    ensures Free([head] + parts, c)
  {
  }

  lemma {:induction false} SplitAfterJoin(parts: seq<string>, c: char)
    requires parts != [] && Free(parts, c)
    ensures Split(Join(parts, c), c) == parts
  {
    var s := Join(parts, c);
    if |parts| == 1 {
      assert c !in parts[0];
      assert Find(s, c, 0) < 0;
    } else {
      var head, tail := parts[0], Join(parts[1..], c);
      assert s == head + [c] + tail;
      FindIs(s, c, 0, |head|);
      assert s[..|head|] == head && s[|head| + 1..] == tail;
      SplitAfterJoin(parts[1..], c);
      assert parts == [head] + parts[1..];
    }
  }

  /** `s.split(c, most)`: at most `most` cuts. */
  function SplitMost(s: string, c: char, most: nat): seq<string> {
    var i := Find(s, c, 0);
    if most == 0 || i < 0 then [s] else [s[..i]] + SplitMost(s[i + 1..], c, most - 1)
  }

  lemma SplitMostStep(head: string, c: char, tail: string, most: nat)
    requires c !in head && most > 0
    ensures SplitMost(head + [c] + tail, c, most) == [head] + SplitMost(tail, c, most - 1)
  {
    var s := head + [c] + tail;
    FindIs(s, c, 0, |head|);
    assert s[..|head|] == head && s[|head| + 1..] == tail;
  }

  // ------------------------------------------------------------------- lines

  /** The ASCII characters at which `str.splitlines` ends a line. */
  predicate IsBreak(c: char) {
    10 <= c as int <= 13 || 28 <= c as int <= 30
  }

  function FindBreak(s: string): (i: int)
    ensures i == -1 || (0 <= i < |s| && IsBreak(s[i]))
    ensures forall j :: 0 <= j < (if i < 0 then |s| else i) ==> !IsBreak(s[j])
  {
    if s == "" then -1
    else if IsBreak(s[0]) then 0
    else
      var i := FindBreak(s[1..]);
      assert forall j :: 1 <= j < |s| ==> s[j] == s[1..][j - 1];
      if i < 0 then -1 else i + 1
  }

  /** `splitlines`, for text without carriage returns. */
  function SplitLines(s: string): seq<string> {
    if s == "" then []
    else
      var i := FindBreak(s);
      if i < 0 then [s] else [s[..i]] + SplitLines(s[i + 1..])
  }

  function PrintLines(lines: seq<string>): string {
    if lines == [] then "" else lines[0] + "\n" + PrintLines(lines[1..])
  }

  predicate OneLine(s: string) {
    forall i :: 0 <= i < |s| ==> !IsBreak(s[i])
  }

  lemma {:induction false} LinesComeBack(lines: seq<string>)
    requires forall i :: 0 <= i < |lines| ==> OneLine(lines[i])
    ensures SplitLines(PrintLines(lines)) == lines
  {
    if lines != [] {
      var s, tail := PrintLines(lines), PrintLines(lines[1..]);
      assert OneLine(lines[0]);
      FirstBreak(lines[0], tail);
      assert s[..|lines[0]|] == lines[0] && s[|lines[0]| + 1..] == tail;
      LinesComeBack(lines[1..]);
      assert lines == [lines[0]] + lines[1..];
    }
  }

  lemma FirstBreak(line: string, tail: string)
    requires OneLine(line)
    ensures FindBreak(line + "\n" + tail) == |line|
  {
    var s := line + "\n" + tail;
    assert s[|line|] == '\n';
    assert forall j :: 0 <= j < |line| ==> s[j] == line[j];
  }

  lemma {:induction false} PrintedCharacters(lines: seq<string>, bad: char)
    requires forall i :: 0 <= i < |lines| ==> bad !in lines[i]
    requires bad != '\n'
    ensures bad !in PrintLines(lines)
  {
    if lines != [] {
      PrintedCharacters(lines[1..], bad);
    }
  }
}
