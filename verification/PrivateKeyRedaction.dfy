/**
 Finding PEM private-key boundaries (section 3 of RFC 7468) with a two-cursor scan, and cutting
 out everything between a BEGIN boundary and the next END boundary.
 */
module PrivateKeyRedaction {
  import opened Options
  import opened Sequences
  import opened Strings

  datatype Kind = Begin | End

  datatype Boundary = Boundary(kind: Kind, start: nat, end: nat)

  const BEGIN_PREFIX := "-----BEGIN "
  const END_PREFIX := "-----END "
  const DASHES := "-----"
  const LABEL_SUFFIX := "PRIVATE KEY"
  const PLACEHOLDER := "[redacted private key]"

  function Prefix(kind: Kind): string {
    if kind == Begin then BEGIN_PREFIX else END_PREFIX
  }

  predicate IsLabelChar(c: char) {
    c == ' ' || '0' <= c <= '9' || 'A' <= c <= 'Z'
  }

  predicate IsPrivateKeyLabel(name: string) {
    && |name| >= |LABEL_SUFFIX| && name[|name| - |LABEL_SUFFIX|..] == LABEL_SUFFIX
    && forall i :: 0 <= i < |name| ==> IsLabelChar(name[i])
  }

  // ----- What a boundary is -----

  // The first n characters of s read: prefix, label, five dashes.
  predicate HeadIs(s: string, kind: Kind, n: nat) {
    && |Prefix(kind)| + |DASHES| <= n <= |s|
    && Prefix(kind) <= s
    && IsPrivateKeyLabel(s[|Prefix(kind)|..n - |DASHES|])
    && s[n - |DASHES|..n] == DASHES
  }

  lemma HeadChars(s: string, kind: Kind, n: nat)
    requires HeadIs(s, kind, n)
    ensures s[5] == if kind == Begin then 'B' else 'E'
    ensures s[n - 5] == '-'
    ensures forall i :: |Prefix(kind)| <= i < n - 5 ==> s[i] != '-'
  {
    assert s[n - 5] == s[n - 5..n][0];
    forall i | |Prefix(kind)| <= i < n - 5 ensures s[i] != '-' {
      assert s[i] == s[|Prefix(kind)|..n - 5][i - |Prefix(kind)|];
    }
  }

  lemma HeadUnique(s: string, k: Kind, m: nat, l: Kind, n: nat)
    requires HeadIs(s, k, m) && HeadIs(s, l, n)
    ensures k == l && m == n
  {
    HeadChars(s, k, m);
    HeadChars(s, l, n);
  }

  // The boundary at the head of s: its kind and length.
  ghost function Head(s: string): (r: Option<(Kind, nat)>)
    ensures r.Some? ==> HeadIs(s, r.value.0, r.value.1)
    ensures r.None? ==> forall kind, n :: !HeadIs(s, kind, n)
  {
    if exists kind, n :: HeadIs(s, kind, n) then
      var kind, n :| HeadIs(s, kind, n);
      Some((kind, n))
    else None
  }

  lemma HeadIsHead(s: string, kind: Kind, n: nat)
    requires HeadIs(s, kind, n)
    ensures Head(s) == Some((kind, n))
  {
    HeadUnique(s, kind, n, Head(s).value.0, Head(s).value.1);
  }

  // ----- The reference scanner: one position at a time -----

  // Disjoint spans of the text, from left to right.
  predicate Ordered(value: string, bs: seq<Boundary>) {
    && (forall i :: 0 <= i < |bs| ==> bs[i].start < bs[i].end <= |value|)
    && (forall i, j :: 0 <= i < j < |bs| ==> bs[i].end <= bs[j].start)
  }

  ghost function Scan(value: string, at: nat): (bs: seq<Boundary>)
    requires at <= |value|
    ensures Ordered(value, bs) && (bs != [] ==> at <= bs[0].start)
    decreases |value| - at
  {
    if at == |value| then []
    else
      match Head(value[at..])
      case None => Scan(value, at + 1)
      case Some((kind, n)) => [Boundary(kind, at, at + n)] + Scan(value, at + n)
  }

  // ----- The two-cursor scan -----

  // privateKeyBoundaryAt; the caller has found the prefix at start.
  function PrivateKeyBoundaryAt(value: string, start: nat, kind: Kind): Option<Boundary>
    requires OccursAt(value, Prefix(kind), start)
  {
    var labelStart := start + |Prefix(kind)|;
    var labelEnd := IndexOf(value, DASHES, labelStart);
    if labelEnd < 0 || !IsPrivateKeyLabel(value[labelStart..labelEnd]) then None
    else Some(Boundary(kind, start, labelEnd + 5))
  }

  // privateKeyBoundaryAt accepts exactly the boundaries.
  lemma BoundaryAtExact(value: string, start: nat, kind: Kind)
    requires OccursAt(value, Prefix(kind), start)
    ensures match PrivateKeyBoundaryAt(value, start, kind)
            case Some(b) => b.kind == kind && b.start == start && start + 5 < b.end <= |value|
                            && Head(value[start..]) == Some((kind, b.end - start))
            case None => Head(value[start..]).None?
  {
    hide IsPrivateKeyLabel, IndexOf;
    if PrivateKeyBoundaryAt(value, start, kind).Some? {
      AcceptedIsHead(value, start, kind, PrivateKeyBoundaryAt(value, start, kind).value.end - start);
    } else if Head(value[start..]).Some? {
      HeadIsAccepted(value, start, kind);
    }
  }

  lemma HeadIsAccepted(value: string, start: nat, kind: Kind)
    requires OccursAt(value, Prefix(kind), start) && Head(value[start..]).Some?
    ensures PrivateKeyBoundaryAt(value, start, kind).Some?
  {
    var r := Head(value[start..]).value;
    HeadKind(value, start, kind, r.0, r.1);
    HeadLabelEnd(value, start, kind, r.1);
  }

  lemma HeadKind(value: string, start: nat, kind: Kind, k: Kind, n: nat)
    requires OccursAt(value, Prefix(kind), start) && HeadIs(value[start..], k, n)
    ensures k == kind
  {
    HeadChars(value[start..], k, n);
    OccurrenceChar(value, Prefix(kind), start, 5);
  }

  lemma AcceptedIsHead(value: string, start: nat, kind: Kind, n: nat)
    requires OccursAt(value, Prefix(kind), start) && |Prefix(kind)| + 5 <= n && start + n <= |value|
    requires OccursAt(value, DASHES, start + n - 5)
    requires IsPrivateKeyLabel(value[start + |Prefix(kind)|..start + n - 5])
    ensures Head(value[start..]) == Some((kind, n))
  {
    var s := value[start..];
    SliceOfSuffix(value, start, 0, |Prefix(kind)|);
    SliceOfSuffix(value, start, |Prefix(kind)|, n - 5);
    SliceOfSuffix(value, start, n - 5, n);
    HeadIsHead(s, kind, n);
  }

  // The label holds no dash, so the first run of dashes after the prefix closes it.
  lemma FirstDashesCloseLabel(value: string, start: nat, kind: Kind, n: nat)
    requires start <= |value| && HeadIs(value[start..], kind, n)
    ensures IndexOf(value, DASHES, start + |Prefix(kind)|) == start + n - 5
  {
    HeadChars(value[start..], kind, n);
    SliceOfSuffix(value, start, n - 5, n);
    forall j | start + |Prefix(kind)| <= j < start + n - 5 ensures !OccursAt(value, DASHES, j) {
      assert value[j] == value[start..][j - start];
      if OccursAt(value, DASHES, j) {
        OccurrenceChar(value, DASHES, j, 0);
      }
    }
    IndexOfUnique(value, DASHES, start + |Prefix(kind)|, start + n - 5);
  }

  lemma HeadLabelEnd(value: string, start: nat, kind: Kind, n: nat)
    requires OccursAt(value, Prefix(kind), start) && HeadIs(value[start..], kind, n)
    ensures PrivateKeyBoundaryAt(value, start, kind) == Some(Boundary(kind, start, start + n))
  {
    hide IsPrivateKeyLabel, IndexOf;
    FirstDashesCloseLabel(value, start, kind, n);
    SliceOfSuffix(value, start, |Prefix(kind)|, n - 5);
  }

  lemma HeadStartsWithPrefix(value: string, at: nat)
    requires at <= |value| && Head(value[at..]).Some?
    ensures OccursAt(value, BEGIN_PREFIX, at) || OccursAt(value, END_PREFIX, at)
  {
    var (kind, n) := Head(value[at..]).value;
    assert value[at..at + |Prefix(kind)|] == value[at..][..|Prefix(kind)|];
  }

  // Nothing is found where neither prefix occurs.
  lemma {:induction false} ScanSkips(value: string, from: nat, to: nat)
    requires from <= to <= |value|
    requires forall i :: from <= i < to ==> !OccursAt(value, BEGIN_PREFIX, i) && !OccursAt(value, END_PREFIX, i)
    ensures Scan(value, from) == Scan(value, to) && Scan(value, |value|) == []
    decreases |value| - from
  {
    if from < to {
      if Head(value[from..]).Some? {
        HeadStartsWithPrefix(value, from);
      }
      ScanSkips(value, from + 1, to);
    }
  }

  // A rejected prefix hides no other prefix in its first five characters.
  lemma NoPrefixInsideDashes(value: string, start: nat, kind: Kind, i: nat, other: Kind)
    requires OccursAt(value, Prefix(kind), start) && start < i < start + 5
    ensures !OccursAt(value, Prefix(other), i)
  {
    OccurrenceChar(value, Prefix(kind), start, 5);
    if OccursAt(value, Prefix(other), i) {
      OccurrenceChar(value, Prefix(other), i, start + 5 - i);
    }
  }

  /** The two-cursor loop finds what the one-position-at-a-time scanner finds. */
  method PrivateKeyBoundaries(value: string) returns (boundaries: seq<Boundary>)
    ensures boundaries == Scan(value, 0)
  {
    hide PrivateKeyBoundaryAt, IndexOf, Scan, Head, Ordered;
    ghost var all := Scan(value, 0);
    boundaries := [];
    var searchFrom := 0;
    var nextBegin := IndexOf(value, BEGIN_PREFIX, searchFrom);
    var nextEnd := IndexOf(value, END_PREFIX, searchFrom);
    while nextBegin >= 0 || nextEnd >= 0
      invariant searchFrom <= |value|
      invariant nextBegin == IndexOf(value, BEGIN_PREFIX, searchFrom)
      invariant nextEnd == IndexOf(value, END_PREFIX, searchFrom)
      invariant boundaries + Scan(value, searchFrom) == all
      decreases |value| - searchFrom
    {
      var kind := if nextEnd < 0 || (nextBegin >= 0 && nextBegin < nextEnd) then Begin else End;
      var start: nat := if kind == Begin then nextBegin else nextEnd;
      ScanSkips(value, searchFrom, start);
      ScanStep(value, start, kind);
      ghost var was := searchFrom;
      var boundary := PrivateKeyBoundaryAt(value, start, kind);
      searchFrom := if boundary.Some? then boundary.value.end else start + 5;
      if boundary.Some? {
        boundaries := boundaries + [boundary.value];
      }
      if nextBegin >= 0 && nextBegin < searchFrom {
        nextBegin := IndexOf(value, BEGIN_PREFIX, searchFrom);
      } else {
        IndexOfLater(value, BEGIN_PREFIX, was, searchFrom);
      }
      if nextEnd >= 0 && nextEnd < searchFrom {
        nextEnd := IndexOf(value, END_PREFIX, searchFrom);
      } else {
        IndexOfLater(value, END_PREFIX, was, searchFrom);
      }
    }
    ScanSkips(value, searchFrom, |value|);
  }

  lemma RejectedSkipsDashes(value: string, start: nat, kind: Kind)
    requires OccursAt(value, Prefix(kind), start) && Head(value[start..]).None?
    ensures Scan(value, start) == Scan(value, start + 5)
  {
    forall i | start < i < start + 5 ensures !OccursAt(value, BEGIN_PREFIX, i) && !OccursAt(value, END_PREFIX, i) {
      NoPrefixInsideDashes(value, start, kind, i, Begin);
      NoPrefixInsideDashes(value, start, kind, i, End);
    }
    ScanSkips(value, start + 1, start + 5);
  }

  lemma ScanStep(value: string, start: nat, kind: Kind)
    requires OccursAt(value, Prefix(kind), start)
    ensures var boundary := PrivateKeyBoundaryAt(value, start, kind);
            && start + 5 <= |value| && (boundary.Some? ==> start + 5 < boundary.value.end <= |value|)
            && Scan(value, start) == if boundary.Some? then [boundary.value] + Scan(value, boundary.value.end)
                                     else Scan(value, start + 5)
  {
    hide PrivateKeyBoundaryAt, Ordered;
    BoundaryAtExact(value, start, kind);
    if Head(value[start..]).None? {
      RejectedSkipsDashes(value, start, kind);
    }
  }

  // ----- Cutting out the spans -----

  // The first END boundary at index i or later, by searching forward.
  function FirstEnd(bs: seq<Boundary>, i: nat): (r: int)
    ensures r == -1 || (i <= r < |bs| && bs[r].kind == End)
    ensures forall j :: i <= j < (if r == -1 then |bs| else r) ==> bs[j].kind != End
    decreases |bs| - i
  {
    if i >= |bs| then -1 else if bs[i].kind == End then i else FirstEnd(bs, i + 1)
  }

  // The text outside each span from a BEGIN boundary to the end of the next END boundary, or to
  // the end of the text when there is none; one placeholder per span.
  function OutsideSpans(value: string, bs: seq<Boundary>, i: nat, cursor: nat): string
    requires Ordered(value, bs) && i <= |bs| && cursor <= |value| && (i < |bs| ==> cursor <= bs[i].start)
    decreases |bs| - i
  {
    if i == |bs| then value[cursor..]
    else if bs[i].kind == End then OutsideSpans(value, bs, i + 1, cursor)
    else
      var e := FirstEnd(bs, i + 1);
      value[cursor..bs[i].start] + PLACEHOLDER + if e < 0 then "" else OutsideSpans(value, bs, e + 1, bs[e].end)
  }

  function Concat(parts: seq<string>): string {
    if parts == [] then "" else Concat(parts[..|parts| - 1]) + parts[|parts| - 1]
  }

  /** The backward pass fills in, for each boundary, the first END boundary after it. */
  method NextEnds(boundaries: seq<Boundary>) returns (nextEndByIndex: array<int>)
    ensures fresh(nextEndByIndex) && nextEndByIndex.Length == |boundaries|
    ensures forall i :: 0 <= i < |boundaries| ==> nextEndByIndex[i] == FirstEnd(boundaries, i + 1)
  {
    nextEndByIndex := new int[|boundaries|](_ => -1);
    var nextEnd := -1;
    var index := |boundaries| - 1;
    while index >= 0
      invariant -1 <= index < |boundaries|
      invariant nextEnd == FirstEnd(boundaries, index + 1)
      invariant forall i :: index < i < |boundaries| ==> nextEndByIndex[i] == FirstEnd(boundaries, i + 1)
    {
      nextEndByIndex[index] := nextEnd;
      if boundaries[index].kind == End {
        nextEnd := index;
      }
      index := index - 1;
    }
  }

  /** Keeps exactly the text outside the spans of the scanned boundaries. */
  method RedactPrivateKeyMaterial(value: string) returns (redacted: string)
    ensures redacted == OutsideSpans(value, Scan(value, 0), 0, 0)
  {
    hide Scan, OutsideSpans, FirstEnd, Concat, Ordered;
    var boundaries := PrivateKeyBoundaries(value);
    var nextEndByIndex := NextEnds(boundaries);
    ghost var all := OutsideSpans(value, boundaries, 0, 0);
    var output: seq<string> := [];
    var cursor: nat := 0;
    ghost var resume: nat := 0;  // the first boundary that is not inside a span already cut
    var index: nat := 0;
    ConcatNothing();
    while index < |boundaries|
      invariant index <= resume <= |boundaries| && cursor <= |value|
      invariant forall i :: 0 <= i < |boundaries| ==> nextEndByIndex[i] == FirstEnd(boundaries, i + 1)
      invariant resume < |boundaries| ==> cursor <= boundaries[resume].start
      invariant forall i :: index <= i < resume ==> boundaries[i].kind == End || boundaries[i].start < cursor
      invariant Concat(output) + OutsideSpans(value, boundaries, resume, cursor) == all
    {
      var boundary := boundaries[index];
      if boundary.kind == Begin && boundary.start >= cursor {
        var endIndex := nextEndByIndex[index];
        CutStep(value, boundaries, index, cursor, output);
        output := output + [value[cursor..boundary.start]];
        output := output + [PLACEHOLDER];
        if endIndex >= 0 {
          cursor := boundaries[endIndex].end;
          resume := endIndex + 1;
        } else {
          cursor := |value|;
          resume := |boundaries|;
        }
      } else if index == resume {
        KeepStep(value, boundaries, index, cursor);
        resume := index + 1;
      }
      index := index + 1;
    }
    LastStep(value, boundaries, cursor, output);
    output := output + [value[cursor..]];
    redacted := Concat(output);
  }

  lemma ConcatNothing()
    ensures forall s :: Concat([]) + s == s
  {}

  lemma LastStep(value: string, bs: seq<Boundary>, cursor: nat, output: seq<string>)
    requires Ordered(value, bs) && cursor <= |value|
    ensures Concat(output + [value[cursor..]]) == Concat(output) + OutsideSpans(value, bs, |bs|, cursor)
  {}

  lemma KeepStep(value: string, bs: seq<Boundary>, i: nat, cursor: nat)
    requires Ordered(value, bs) && i < |bs| && cursor <= bs[i].start && bs[i].kind == End
    ensures i + 1 < |bs| ==> cursor <= bs[i + 1].start
    ensures OutsideSpans(value, bs, i, cursor) == OutsideSpans(value, bs, i + 1, cursor)
  {}

  lemma CutStep(value: string, bs: seq<Boundary>, i: nat, cursor: nat, output: seq<string>)
    requires Ordered(value, bs) && i < |bs| && cursor <= bs[i].start && bs[i].kind == Begin
    ensures var e := FirstEnd(bs, i + 1);
            var j, c := if e < 0 then |bs| else e + 1, if e < 0 then |value| else bs[e].end;
            && bs[i].start < c <= |value| && (j < |bs| ==> c <= bs[j].start)
            && (forall k :: i <= k < j ==> bs[k].kind == End || bs[k].start < c)
            && Concat(output + [value[cursor..bs[i].start]] + [PLACEHOLDER]) + OutsideSpans(value, bs, j, c)
               == Concat(output) + OutsideSpans(value, bs, i, cursor)
  {
    hide Concat;
    var e := FirstEnd(bs, i + 1);
    var span := value[cursor..bs[i].start] + PLACEHOLDER;
    var rest := if e < 0 then "" else OutsideSpans(value, bs, e + 1, bs[e].end);
    AppendSpan(output, value[cursor..bs[i].start]);
    Regroup(Concat(output), span, rest);
  }

  lemma AppendSpan(output: seq<string>, kept: string)
    ensures Concat(output + [kept] + [PLACEHOLDER]) == Concat(output) + (kept + PLACEHOLDER)
  {
    assert (output + [kept])[..|output|] == output;
    assert (output + [kept] + [PLACEHOLDER])[..|output| + 1] == output + [kept];
  }

  // ----- The reference redactor: one position at a time, inside or outside a span -----

  ghost function Kept(s: string): string
    decreases |s|
  {
    if s == "" then ""
    else
      match Head(s)
      case None => [s[0]] + Kept(s[1..])
      case Some((kind, n)) => if kind == End then s[..n] + Kept(s[n..]) else PLACEHOLDER + Skipped(s[n..])
  }

  ghost function Skipped(s: string): string
    decreases |s|
  {
    if s == "" then ""
    else
      match Head(s)
      case None => Skipped(s[1..])
      case Some((kind, n)) => if kind == End then Kept(s[n..]) else Skipped(s[n..])
  }

  lemma ScanAtHead(value: string, bs: seq<Boundary>, i: nat, p: nat, kind: Kind, n: nat)
    requires i <= |bs| && p < |value| && bs[i..] == Scan(value, p) && Head(value[p..]) == Some((kind, n))
    ensures i < |bs| && bs[i] == Boundary(kind, p, p + n) && bs[i + 1..] == Scan(value, p + n)
  {
    assert bs[i..][0] == bs[i] && bs[i..][1..] == bs[i + 1..];
  }

  lemma ScanNone(value: string, p: nat)
    requires p < |value| && Head(value[p..]).None?
    ensures Scan(value, p) == Scan(value, p + 1)
    ensures Skipped(value[p..]) == Skipped(value[p + 1..])
  {
    assert value[p..][1..] == value[p + 1..];
  }

  lemma AtEndOfText(value: string, bs: seq<Boundary>, i: nat)
    requires Ordered(value, bs) && i <= |bs| && bs[i..] == Scan(value, |value|)
    ensures i == |bs| && Kept(value[|value|..]) == Skipped(value[|value|..]) == "" && FirstEnd(bs, i) == -1
    ensures forall c :: 0 <= c <= |value| ==> OutsideSpans(value, bs, i, c) == value[c..]
  {
    assert |bs[i..]| == 0;
  }

  lemma SkipHead(value: string, bs: seq<Boundary>, i: nat, p: nat, n: nat)
    requires p < |value| && i < |bs| && Head(value[p..]) == Some((bs[i].kind, n))
    ensures bs[i].kind == End ==> FirstEnd(bs, i) == i && Skipped(value[p..]) == Kept(value[p + n..])
    ensures bs[i].kind == Begin ==>
              FirstEnd(bs, i) == FirstEnd(bs, i + 1) && Skipped(value[p..]) == Skipped(value[p + n..])
  {
    assert value[p..][n..] == value[p + n..];
  }

  lemma KeepChar(value: string, cursor: nat, p: nat)
    requires cursor <= p < |value| && Head(value[p..]).None?
    ensures value[cursor..p + 1] + Kept(value[p + 1..]) == value[cursor..p] + Kept(value[p..])
  {
    assert value[p..][1..] == value[p + 1..];
    assert value[cursor..p + 1] == value[cursor..p] + [value[p]];
    Regroup(value[cursor..p], [value[p]], Kept(value[p + 1..]));
  }

  lemma KeepEnd(value: string, cursor: nat, p: nat, n: nat)
    requires cursor <= p < |value| && Head(value[p..]) == Some((End, n))
    ensures value[cursor..p + n] + Kept(value[p + n..]) == value[cursor..p] + Kept(value[p..])
  {
    assert value[p..][n..] == value[p + n..];
    assert value[cursor..p + n] == value[cursor..p] + value[p..][..n];
    Regroup(value[cursor..p], value[p..][..n], Kept(value[p + n..]));
  }

  lemma CutBegin(value: string, bs: seq<Boundary>, i: nat, cursor: nat, p: nat, n: nat)
    requires Ordered(value, bs) && i < |bs| && bs[i] == Boundary(Begin, p, p + n) && cursor <= p
    requires Head(value[p..]) == Some((Begin, n))
    requires var e := FirstEnd(bs, i + 1);
             Skipped(value[p + n..]) == if e < 0 then "" else OutsideSpans(value, bs, e + 1, bs[e].end)
    ensures OutsideSpans(value, bs, i, cursor) == value[cursor..p] + Kept(value[p..])
  {
    assert value[p..][n..] == value[p + n..];
    Regroup(value[cursor..p], PLACEHOLDER, Skipped(value[p + n..]));
  }

  // Outside a span, with the text from cursor to p already passed over and kept.
  lemma {:induction false} OutsideIsKept(value: string, bs: seq<Boundary>, i: nat, cursor: nat, p: nat)
    requires Ordered(value, bs) && i <= |bs| && cursor <= p <= |value| && bs[i..] == Scan(value, p)
    requires i < |bs| ==> cursor <= bs[i].start
    ensures OutsideSpans(value, bs, i, cursor) == value[cursor..p] + Kept(value[p..])
    decreases |value| - p, 1
  {
    hide Ordered, Head, Scan, Kept, Skipped, OutsideSpans, FirstEnd;
    if p == |value| {
      AtEndOfText(value, bs, i);
      assert value[cursor..p] == value[cursor..];
    } else {
      match Head(value[p..])
      case None =>
        ScanNone(value, p);
        OutsideIsKept(value, bs, i, cursor, p + 1);
        KeepChar(value, cursor, p);
      case Some((kind, n)) =>
        ScanAtHead(value, bs, i, p, kind, n);
        if kind == End {
          KeepStep(value, bs, i, cursor);
          OutsideIsKept(value, bs, i + 1, cursor, p + n);
          KeepEnd(value, cursor, p, n);
        } else {
          SkippedIsRest(value, bs, i + 1, p + n);
          CutBegin(value, bs, i, cursor, p, n);
        }
    }
  }

  // Inside a span, at p.
  lemma {:induction false} SkippedIsRest(value: string, bs: seq<Boundary>, i: nat, p: nat)
    requires Ordered(value, bs) && i <= |bs| && p <= |value| && bs[i..] == Scan(value, p)
    ensures var e := FirstEnd(bs, i);
            Skipped(value[p..]) == if e < 0 then "" else OutsideSpans(value, bs, e + 1, bs[e].end)
    decreases |value| - p, 0
  {
    hide Ordered, Head, Scan, Kept, Skipped, OutsideSpans, FirstEnd;
    if p == |value| {
      AtEndOfText(value, bs, i);
    } else {
      match Head(value[p..])
      case None =>
        ScanNone(value, p);
        SkippedIsRest(value, bs, i, p + 1);
      case Some((kind, n)) =>
        ScanAtHead(value, bs, i, p, kind, n);
        SkipHead(value, bs, i, p, n);
        if kind == End {
          NextStart(value, bs, i);
          OutsideIsKept(value, bs, i + 1, p + n, p + n);
          assert value[p + n..p + n] == "";
        } else {
          SkippedIsRest(value, bs, i + 1, p + n);
        }
    }
  }

  lemma NextStart(value: string, bs: seq<Boundary>, i: nat)
    requires Ordered(value, bs) && i < |bs|
    ensures i + 1 < |bs| ==> bs[i].end <= bs[i + 1].start
  {}

  /** The two passes over the boundary list compute what the one-pass reference redactor computes. */
  lemma RedactionIsKept(value: string)
    ensures OutsideSpans(value, Scan(value, 0), 0, 0) == Kept(value)
  {
    OutsideIsKept(value, Scan(value, 0), 0, 0, 0);
    assert value[0..] == value;
  }

  // ----- Nothing is left to redact -----

  predicate OnlyEnds(bs: seq<Boundary>) {
    forall i :: 0 <= i < |bs| ==> bs[i].kind == End
  }

  ghost predicate NoBegin(s: string)
    decreases |s|
  {
    s == "" ||
    match Head(s)
    case None => NoBegin(s[1..])
    case Some((kind, n)) => kind == End && NoBegin(s[n..])
  }

  lemma {:induction false} NoBeginScanned(value: string, p: nat)
    requires p <= |value|
    ensures NoBegin(value[p..]) <==> OnlyEnds(Scan(value, p))
    decreases |value| - p
  {
    hide Ordered, Head;
    if p < |value| {
      match Head(value[p..])
      case None =>
        ScanNone(value, p);
        NoBeginScanned(value, p + 1);
        assert value[p..][1..] == value[p + 1..];
      case Some((kind, n)) =>
        NoBeginScanned(value, p + n);
        assert value[p..][n..] == value[p + n..];
        OnlyEndsCons(Boundary(kind, p, p + n), Scan(value, p + n));
    }
  }

  lemma OnlyEndsCons(b: Boundary, bs: seq<Boundary>)
    ensures OnlyEnds([b] + bs) <==> b.kind == End && OnlyEnds(bs)
  {
    if OnlyEnds([b] + bs) {
      assert ([b] + bs)[0] == b;
      assert forall i :: 0 <= i < |bs| ==> bs[i] == ([b] + bs)[i + 1];
    }
  }

  lemma HeadLocal(s: string, t: string, kind: Kind, n: nat)
    requires HeadIs(s, kind, n) && n <= |t| && s[..n] == t[..n]
    ensures HeadIs(t, kind, n)
  {
    assert s[|Prefix(kind)|..n - 5] == s[..n][|Prefix(kind)|..n - 5];
    assert s[n - 5..n] == s[..n][n - 5..n];
    assert t[|Prefix(kind)|..n - 5] == t[..n][|Prefix(kind)|..n - 5];
    assert t[n - 5..n] == t[..n][n - 5..n];
  }

  // Up to the first placeholder, what is kept is a copy of the text.
  lemma {:induction false} KeptCopies(s: string, n: nat)
    requires n <= |Kept(s)| && forall i :: 0 <= i < n ==> Kept(s)[i] != '['
    ensures n <= |s| && Kept(s)[..n] == s[..n]
    decreases |s|
  {
    hide Head;
    if s != "" && n > 0 {
      match Head(s)
      case None =>
        KeptCopiesTail(s, 1, n);
        KeptCopies(s[1..], n - 1);
      case Some((kind, m)) =>
        if kind == Begin {
          PlaceholderFirst(Skipped(s[m..]));
        } else if m < n {
          KeptCopiesTail(s, m, n);
          KeptCopies(s[m..], n - m);
        } else {
          assert Kept(s)[..n] == s[..m][..n];
        }
    }
  }

  lemma PlaceholderFirst(rest: string)
    ensures (PLACEHOLDER + rest)[0] == '['
  {}

  lemma KeptCopiesTail(s: string, m: nat, n: nat)
    requires m <= n <= |Kept(s)| && m <= |s| && Kept(s) == s[..m] + Kept(s[m..])
    requires forall i :: 0 <= i < n ==> Kept(s)[i] != '['
    ensures n - m <= |Kept(s[m..])| && forall i :: 0 <= i < n - m ==> Kept(s[m..])[i] != '['
    ensures forall k :: m <= k <= n && k <= |s| && Kept(s[m..])[..k - m] == s[m..][..k - m] ==> Kept(s)[..k] == s[..k]
  {
    hide Kept;
    forall i | 0 <= i < n - m ensures Kept(s[m..])[i] != '[' {
      assert Kept(s[m..])[i] == Kept(s)[i + m];
    }
    forall k | m <= k <= n && k <= |s| && Kept(s[m..])[..k - m] == s[m..][..k - m] ensures Kept(s)[..k] == s[..k] {
      assert Kept(s)[..k] == s[..m] + Kept(s[m..])[..k - m];
    }
  }

  lemma HeadHasNoBracket(s: string, kind: Kind, n: nat)
    requires HeadIs(s, kind, n)
    ensures forall i :: 0 <= i < n ==> s[i] != '['
  {
    forall i | 0 <= i < n ensures s[i] != '[' {
      if i >= n - 5 {
        assert s[i] == s[n - 5..n][i - (n - 5)];
      } else if i >= |Prefix(kind)| {
        assert s[i] == s[|Prefix(kind)|..n - 5][i - |Prefix(kind)|];
      }
    }
  }

  // Keeping text never makes a boundary where there was none.
  lemma KeptHeadNone(s: string)
    requires Head(s).None?
    ensures Head(Kept(s)).None?
  {
    if Head(Kept(s)).Some? {
      var r := Head(Kept(s)).value;
      HeadHasNoBracket(Kept(s), r.0, r.1);
      KeptCopies(s, r.1);
      HeadLocal(Kept(s), s, r.0, r.1);
    }
  }

  lemma NoHeadWithoutDash(c: char, s: string)
    requires c != '-'
    ensures Head([c] + s).None?
  {
    if Head([c] + s).Some? {
      HeadIsDash([c] + s, Head([c] + s).value.0, Head([c] + s).value.1);
    }
  }

  lemma HeadIsDash(s: string, kind: Kind, n: nat)
    requires HeadIs(s, kind, n)
    ensures s[0] == '-'
  {}

  lemma {:induction false} NoBeginAfter(x: string, s: string)
    requires NoBegin(s) && forall i :: 0 <= i < |x| ==> x[i] != '-'
    ensures NoBegin(x + s)
  {
    hide Head;
    if x == "" {
      assert x + s == s;
    } else {
      NoBeginAfter(x[1..], s);
      NoHeadWithoutDash(x[0], x[1..] + s);
      Uncons(x);
      Regroup([x[0]], x[1..], s);
      assert (x + s)[1..] == x[1..] + s;
    }
  }

  lemma {:induction false} NoBeginKept(s: string)
    ensures NoBegin(Kept(s))
    decreases |s|, 1
  {
    if s != "" {
      match Head(s)
      case None =>
        KeptHeadNone(s);
        NoBeginKept(s[1..]);
        assert Kept(s)[1..] == Kept(s[1..]);
      case Some((kind, n)) =>
        if kind == End {
          NoBeginKept(s[n..]);
          assert Kept(s)[..n] == s[..n] && Kept(s)[n..] == Kept(s[n..]);
          HeadLocal(s, Kept(s), kind, n);
          HeadIsHead(Kept(s), kind, n);
        } else {
          NoBeginSkipped(s[n..]);
          NoBeginAfter(PLACEHOLDER, Skipped(s[n..]));
        }
    }
  }

  lemma {:induction false} NoBeginSkipped(s: string)
    ensures NoBegin(Skipped(s))
    decreases |s|, 0
  {
    if s != "" {
      match Head(s)
      case None => NoBeginSkipped(s[1..]);
      case Some((kind, n)) => if kind == End { NoBeginKept(s[n..]); } else { NoBeginSkipped(s[n..]); }
    }
  }

  lemma {:induction false} NoBeginUntouched(s: string)
    requires NoBegin(s)
    ensures Kept(s) == s
    decreases |s|
  {
    if s != "" {
      match Head(s)
      case None => NoBeginUntouched(s[1..]);
      case Some((kind, n)) => NoBeginUntouched(s[n..]);
    }
  }

  ghost function Redacted(value: string): string {
    OutsideSpans(value, Scan(value, 0), 0, 0)
  }

  /**
   Redaction reaches its fixpoint at once: the scanner finds no BEGIN boundary in redacted text, and
   redacting it again changes nothing.
   */
  lemma RedactionIsFixpoint(value: string)
    ensures OnlyEnds(Scan(Redacted(value), 0))
    ensures Redacted(Redacted(value)) == Redacted(value)
  {
    var r := Redacted(value);
    RedactionIsKept(value);
    RedactionIsKept(r);
    NoBeginKept(value);
    NoBeginScanned(r, 0);
    NoBeginUntouched(r);
    assert r[0..] == r;
  }

  /** Text is left alone exactly when the scanner finds no BEGIN boundary in it. */
  lemma UntouchedExactlyWithoutBegin(value: string)
    ensures Redacted(value) == value <==> OnlyEnds(Scan(value, 0))
  {
    RedactionIsKept(value);
    NoBeginScanned(value, 0);
    assert value[0..] == value;
    if NoBegin(value) {
      NoBeginUntouched(value);
    } else if Redacted(value) == value {
      NoBeginKept(value);
    }
  }
}
