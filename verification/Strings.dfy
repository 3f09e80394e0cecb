/** Substring search and replacement on strings, as JavaScript's indexOf and replaceAll do it. */
module Strings {
  import opened Sequences

  predicate OccursAt(s: string, pattern: string, i: int) {
    0 <= i && i + |pattern| <= |s| && s[i..i + |pattern|] == pattern
  }

  lemma OccurrenceChar(s: string, pattern: string, i: nat, k: nat)
    requires OccursAt(s, pattern, i) && k < |pattern|
    ensures s[i + k] == pattern[k]
  {
    assert s[i..i + |pattern|][k] == s[i + k];
  }

  // s.indexOf(pattern, from)
  function IndexOf(s: string, pattern: string, from: nat): (r: int)
    ensures r < 0 ==> r == -1 && forall i :: from <= i ==> !OccursAt(s, pattern, i)
    ensures r >= 0 ==> from <= r && OccursAt(s, pattern, r) && forall i :: from <= i < r ==> !OccursAt(s, pattern, i)
    decreases |s| - from
  {
    if from + |pattern| > |s| then -1
    else if OccursAt(s, pattern, from) then from
    else IndexOf(s, pattern, from + 1)
  }

  lemma IndexOfUnique(s: string, pattern: string, from: nat, i: nat)
    requires from <= i && OccursAt(s, pattern, i)
    requires forall j :: from <= j < i ==> !OccursAt(s, pattern, j)
    ensures IndexOf(s, pattern, from) == i
  {}

  // The first occurrence from one place is the first from any later place that does not pass it.
  lemma IndexOfLater(s: string, pattern: string, from: nat, to: nat)
    requires from <= to && (IndexOf(s, pattern, from) < 0 || to <= IndexOf(s, pattern, from))
    ensures IndexOf(s, pattern, to) == IndexOf(s, pattern, from)
  {
    if IndexOf(s, pattern, from) >= 0 {
      IndexOfUnique(s, pattern, to, IndexOf(s, pattern, from));
    }
  }

  // s.replaceAll(pattern, replacement): left to right, without overlap.
  function ReplaceAll(s: string, pattern: string, replacement: string): string
    requires pattern != ""
    decreases |s|
  {
    if s == "" then ""
    else if pattern <= s then replacement + ReplaceAll(s[|pattern|..], pattern, replacement)
    else [s[0]] + ReplaceAll(s[1..], pattern, replacement)
  }

  lemma ReplaceHit(pattern: string, replacement: string, rest: string)
    requires pattern != ""
    ensures ReplaceAll(pattern + rest, pattern, replacement) == replacement + ReplaceAll(rest, pattern, replacement)
  {
    assert (pattern + rest)[|pattern|..] == rest;
  }

  lemma ReplaceMiss(c: char, rest: string, pattern: string, replacement: string)
    requires pattern != "" && !(pattern <= [c] + rest)
    ensures ReplaceAll([c] + rest, pattern, replacement) == [c] + ReplaceAll(rest, pattern, replacement)
  {
    assert ([c] + rest)[1..] == rest;
  }

  lemma ReplaceMiss2(c: char, d: char, rest: string, pattern: string, replacement: string)
    requires pattern != "" && !(pattern <= [c] + ([d] + rest)) && !(pattern <= [d] + rest)
    ensures ReplaceAll([c, d] + rest, pattern, replacement) == [c, d] + ReplaceAll(rest, pattern, replacement)
  {
    ReplaceMiss(d, rest, pattern, replacement);
    ReplaceMiss(c, [d] + rest, pattern, replacement);
    assert [c, d] + rest == [c] + ([d] + rest);
    assert [c, d] + ReplaceAll(rest, pattern, replacement) == [c] + ([d] + ReplaceAll(rest, pattern, replacement));
  }

  // ----- Lines -----

  // lines.join(separator)
  function Join(lines: seq<string>, separator: string): string {
    if lines == [] then "" else if |lines| == 1 then lines[0] else lines[0] + (separator + Join(lines[1..], separator))
  }

  // Every line followed by a line feed.
  function Lines(lines: seq<string>): string {
    if lines == [] then "" else (lines[0] + "\n") + Lines(lines[1..])
  }

  lemma {:induction false} LinesAppend(a: seq<string>, b: seq<string>)
    ensures Lines(a + b) == Lines(a) + Lines(b)
  {
    if a == [] {
      assert a + b == b;
    } else {
      LinesAppend(a[1..], b);
      assert (a + b)[0] == a[0] && (a + b)[1..] == a[1..] + b;
      Regroup(a[0] + "\n", Lines(a[1..]), Lines(b));
    }
  }

  // The service files end with a line feed, because their last line is empty.
  lemma {:induction false} JoinEndingEmpty(lines: seq<string>)
    ensures Join(lines + [""], "\n") == Lines(lines)
  {
    if lines != [] {
      JoinEndingEmpty(lines[1..]);
      assert (lines + [""])[1..] == lines[1..] + [""];
    }
  }
}
