/**
 The canonical JSON serializer over an object graph: nodes may be shared, cycles are rejected,
 and the set of ancestors is updated in place on the way down and restored on the way up.
 */
module CanonicalJson {
  import opened Options
  import opened JsonText
  import opened JsonOrder

  // ----- The object graph -----

  type Ref = nat

  datatype Value =
    | Undefined
    | NullValue
    | Boolean(b: bool)
    | String(s: Text)
    | Number(n: NumberText)
    | NotFinite                 // NaN and the infinities
    | NotData                   // functions, symbols and big integers
    | Reference(ref: Ref)

  // What Object.getOwnPropertyDescriptor tells about one property.
  datatype Slot = Absent | Accessor(visible: bool) | Data(enumerable: bool, value: Value)

  datatype Node =
    | ArrayNode(slots: seq<Slot>, hasSymbols: bool, hasExtraNames: bool)
    | ObjectNode(properties: seq<Entry<Slot>>, hasSymbols: bool, hasForeignPrototype: bool)

  type Heap = map<Ref, Node>

  predicate Known(h: Heap, v: Value) {
    v.Reference? ==> v.ref in h
  }

  predicate KnownSlot(h: Heap, s: Slot) {
    s.Data? ==> Known(h, s.value)
  }

  predicate KnownProperties(h: Heap, ps: seq<Entry<Slot>>) {
    forall i :: 0 <= i < |ps| ==> KnownSlot(h, ps[i].value)
  }

  // References never dangle and an object holds each key once.
  ghost predicate ValidHeap(h: Heap) {
    forall r :: r in h ==>
      match h[r]
      case ArrayNode(slots, _, _) => forall i :: 0 <= i < |slots| ==> KnownSlot(h, slots[i])
      case ObjectNode(properties, _, _) =>
        && DistinctKeys(properties)
        && KnownProperties(h, properties)
  }

  predicate IsData(s: Slot) {
    s.Data? && s.enumerable
  }

  // The node's own shape is acceptable; says nothing about what its slots refer to.
  predicate AcceptableShape(n: Node) {
    match n
    case ArrayNode(slots, symbols, extra) => !symbols && !extra
    case ObjectNode(properties, symbols, foreign) => !symbols && !foreign
  }

  function ScalarTree(v: Value): Option<Tree> {
    match v
    case NullValue => Some(Null)
    case Boolean(b) => Some(Bool(b))
    case String(s) => Some(Str(s))
    case Number(n) => Some(Num(n))
    case _ => None
  }

  // ----- Unfolding the graph below a set of ancestors -----

  function Unfold(h: Heap, v: Value, ancestors: set<Ref>): Option<Tree>
    requires ValidHeap(h) && Known(h, v)
    decreases h.Keys - ancestors, 0
  {
    if !v.Reference? then ScalarTree(v)
    else if v.ref in ancestors || !AcceptableShape(h[v.ref]) then None
    else
      match h[v.ref]
      case ArrayNode(slots, _, _) =>
        (match UnfoldSlots(h, slots, ancestors + {v.ref})
         case Some(items) => Some(Arr(items))
         case None => None)
      case ObjectNode(properties, _, _) =>
        match UnfoldProperties(h, properties, ancestors + {v.ref})
        case Some(members) => Some(Obj(members))
        case None => None
  }

  function UnfoldSlot(h: Heap, s: Slot, ancestors: set<Ref>): Option<Tree>
    requires ValidHeap(h) && KnownSlot(h, s)
    decreases h.Keys - ancestors, 1
  {
    if IsData(s) then Unfold(h, s.value, ancestors) else None
  }

  function UnfoldSlots(h: Heap, slots: seq<Slot>, ancestors: set<Ref>): (r: Option<seq<Tree>>)
    requires ValidHeap(h) && forall i :: 0 <= i < |slots| ==> KnownSlot(h, slots[i])
    ensures r.Some? ==> |r.value| == |slots|
    ensures r.Some? <==> forall i :: 0 <= i < |slots| ==> UnfoldSlot(h, slots[i], ancestors).Some?
    ensures r.Some? ==> forall i :: 0 <= i < |slots| ==> UnfoldSlot(h, slots[i], ancestors) == Some(r.value[i])
    decreases h.Keys - ancestors, 2, |slots|
  {
    if slots == [] then Some([])
    else
      var first := UnfoldSlot(h, slots[0], ancestors);
      var rest := UnfoldSlots(h, slots[1..], ancestors);
      if first.Some? && rest.Some? then Some([first.value] + rest.value) else None
  }

  function UnfoldProperties(h: Heap, ps: seq<Entry<Slot>>, ancestors: set<Ref>): (r: Option<seq<Entry<Tree>>>)
    requires ValidHeap(h) && KnownProperties(h, ps)
    ensures r.Some? ==> |r.value| == |ps| && forall i :: 0 <= i < |ps| ==> r.value[i].key == ps[i].key
    ensures r.Some? <==> forall i :: 0 <= i < |ps| ==> UnfoldSlot(h, ps[i].value, ancestors).Some?
    ensures r.Some? ==> forall i :: 0 <= i < |ps| ==> UnfoldSlot(h, ps[i].value, ancestors) == Some(r.value[i].value)
    decreases h.Keys - ancestors, 2, |ps|
  {
    if ps == [] then Some([])
    else
      var first := UnfoldSlot(h, ps[0].value, ancestors);
      var rest := UnfoldProperties(h, ps[1..], ancestors);
      if first.Some? && rest.Some? then Some([Entry(ps[0].key, first.value)] + rest.value) else None
  }

  // ----- The serializer -----

  class WeakSet {
    var members: set<Ref>

    constructor ()
      ensures members == {}
    {
      members := {};
    }

    method Add(r: Ref)
      modifies this
      ensures members == old(members) + {r}
    {
      members := members + {r};
    }

    method Delete(r: Ref)
      modifies this
      ensures members == old(members) - {r}
    {
      members := members - {r};
    }
  }

  datatype Outcome = Printed(text: Text) | Rejected

  // The canonical text of what the graph unfolds to, or the TypeError.
  function CanonicalOutcome(unfolded: Option<Tree>): Outcome {
    match unfolded
    case Some(t) => Printed(TextOf(Canonical(t)))
    case None => Rejected
  }

  /** The recursive walk: prints the canonical text and leaves the ancestor set as it found it, on both exits. */
  method SerializeCanonicalJson(h: Heap, value: Value, ancestors: WeakSet) returns (outcome: Outcome)
    requires ValidHeap(h) && Known(h, value)
    modifies ancestors
    ensures ancestors.members == old(ancestors.members)
    ensures outcome == CanonicalOutcome(Unfold(h, value, old(ancestors.members)))
    decreases h.Keys - ancestors.members, 1
  {
    if !value.Reference? {
      match ScalarTree(value) {
        case Some(scalar) => return Printed(ScalarText(scalar));
        case None => return Rejected;
      }
    }
    if value.ref in ancestors.members {
      return Rejected;
    }
    var node := h[value.ref];
    ancestors.Add(value.ref);
    if AcceptableShape(node) {
      match node {
        case ArrayNode(slots, _, _) => outcome := SerializeSlots(h, slots, ancestors);
        case ObjectNode(properties, _, _) => outcome := SerializeProperties(h, properties, ancestors);
      }
    } else {
      outcome := Rejected;
    }
    ancestors.Delete(value.ref);
    assert ancestors.members == old(ancestors.members);
  }

  method SerializeSlots(h: Heap, slots: seq<Slot>, ancestors: WeakSet) returns (outcome: Outcome)
    requires ValidHeap(h) && forall i :: 0 <= i < |slots| ==> KnownSlot(h, slots[i])
    modifies ancestors
    ensures ancestors.members == old(ancestors.members)
    ensures outcome == match UnfoldSlots(h, slots, old(ancestors.members))
                       case Some(items) => CanonicalOutcome(Some(Arr(items)))
                       case None => Rejected
    decreases h.Keys - ancestors.members, 2
  {
    hide ValidHeap, Unfold, UnfoldSlots, Join, Arrange;
    var canonical: seq<Text> := [];
    var index := 0;
    while index < |slots|
      invariant 0 <= index <= |slots|
      invariant ancestors.members == old(ancestors.members)
      invariant |canonical| == index
      invariant forall i :: 0 <= i < index ==>
        CanonicalOutcome(UnfoldSlot(h, slots[i], ancestors.members)) == Printed(canonical[i])
    {
      if !IsData(slots[index]) {
        return Rejected;
      }
      var element := SerializeCanonicalJson(h, slots[index].value, ancestors);
      match element {
        case Rejected => return Rejected;
        case Printed(text) => canonical := canonical + [text];
      }
      index := index + 1;
    }
    AssembleArray(h, slots, ancestors.members, canonical);
    outcome := Printed([LBRACKET] + Join(canonical) + [RBRACKET]);
  }

  method SerializeProperties(h: Heap, properties: seq<Entry<Slot>>, ancestors: WeakSet) returns (outcome: Outcome)
    requires ValidHeap(h) && KnownProperties(h, properties)
    modifies ancestors
    ensures ancestors.members == old(ancestors.members)
    ensures outcome == match UnfoldProperties(h, properties, old(ancestors.members))
                       case Some(members) => CanonicalOutcome(Some(Obj(members)))
                       case None => Rejected
    decreases h.Keys - ancestors.members, 2
  {
    var entries := SortBy(Precedes, properties);
    SortKnown(h, properties);
    var canonicalEntries: seq<Text> := [];
    var index := 0;
    while index < |entries|
      invariant 0 <= index <= |entries|
      invariant ancestors.members == old(ancestors.members)
      invariant |canonicalEntries| == index
      invariant forall i :: 0 <= i < index ==>
        PrintsMember(h, entries[i], ancestors.members, canonicalEntries[i])
    {
      if !IsData(entries[index].value) {
        RejectObject(h, properties, ancestors.members, index);
        return Rejected;
      }
      var child := SerializeCanonicalJson(h, entries[index].value.value, ancestors);
      match child {
        case Rejected =>
          RejectObject(h, properties, ancestors.members, index);
          return Rejected;
        case Printed(text) =>
          canonicalEntries := canonicalEntries + [Quote(entries[index].key) + [COLON] + text];
      }
      index := index + 1;
    }
    AssembleObject(h, properties, ancestors.members, canonicalEntries);
    outcome := Printed([LBRACE] + Join(canonicalEntries) + [RBRACE]);
  }

  ghost predicate PrintsMember(h: Heap, e: Entry<Slot>, ancestors: set<Ref>, text: Text)
    requires ValidHeap(h) && KnownSlot(h, e.value)
  {
    match UnfoldSlot(h, e.value, ancestors)
    case Some(t) => text == Quote(e.key) + [COLON] + TextOf(Canonical(t))
    case None => false
  }

  /** canonicalJsonStringify: the walk from an empty ancestor set. */
  method CanonicalJsonStringify(h: Heap, value: Value) returns (outcome: Outcome)
    requires ValidHeap(h) && Known(h, value)
    ensures outcome == CanonicalOutcome(Unfold(h, value, {}))
    ensures outcome.Printed? ==>
              var r := Parse(outcome.text);
              r.Some? && r.value.1 == [] && MembersAscend(r.value.0)
              && Unfold(h, value, {}).Some? && Meaning(r.value.0) == Meaning(Unfold(h, value, {}).value)
  {
    hide Parse, MembersAscend, Canonical;
    var ancestors := new WeakSet();
    outcome := SerializeCanonicalJson(h, value, ancestors);
    if outcome.Printed? {
      UnfoldWellFormed(h, value, {});
      CanonicalTextReadsBack(Unfold(h, value, {}).value);
    }
  }

  lemma {:induction false} UnfoldWellFormed(h: Heap, v: Value, ancestors: set<Ref>)
    requires ValidHeap(h) && Known(h, v) && Unfold(h, v, ancestors).Some?
    ensures WellFormed(Unfold(h, v, ancestors).value)
    decreases h.Keys - ancestors
  {
    if v.Reference? {
      var below := ancestors + {v.ref};
      match h[v.ref]
      case ArrayNode(slots, _, _) =>
        forall i | 0 <= i < |slots| ensures WellFormed(UnfoldSlots(h, slots, below).value[i]) {
          assert UnfoldSlot(h, slots[i], below).Some?;
          UnfoldWellFormed(h, slots[i].value, below);
        }
      case ObjectNode(ps, _, _) =>
        forall i | 0 <= i < |ps| ensures WellFormed(UnfoldProperties(h, ps, below).value[i].value) {
          assert UnfoldSlot(h, ps[i].value, below).Some?;
          UnfoldWellFormed(h, ps[i].value.value, below);
        }
    }
  }

  // ----- Sorting the properties before or after unfolding them is the same -----

  lemma SortKnown(h: Heap, ps: seq<Entry<Slot>>)
    requires KnownProperties(h, ps)
    ensures KnownProperties(h, SortBy(Precedes, ps))
  {
    SortPermutes(Precedes, ps);
    var sorted := SortBy(Precedes, ps);
    forall i | 0 <= i < |sorted| ensures KnownSlot(h, sorted[i].value) {
      assert sorted[i] in multiset(sorted);
      assert sorted[i] in ps;
    }
  }

  lemma RejectObject(h: Heap, ps: seq<Entry<Slot>>, ancestors: set<Ref>, index: nat)
    requires ValidHeap(h) && KnownProperties(h, ps) && KnownProperties(h, SortBy(Precedes, ps))
    requires index < |ps| && UnfoldSlot(h, SortBy(Precedes, ps)[index].value, ancestors).None?
    ensures UnfoldProperties(h, ps, ancestors).None?
  {
    SortPermutes(Precedes, ps);
    var bad := SortBy(Precedes, ps)[index];
    assert bad in multiset(SortBy(Precedes, ps));
    assert bad in ps;
    var i :| 0 <= i < |ps| && ps[i] == bad;
    assert UnfoldSlot(h, ps[i].value, ancestors).None?;
  }

  lemma UnfoldAll(h: Heap, ps: seq<Entry<Slot>>, ancestors: set<Ref>)
    requires ValidHeap(h) && KnownProperties(h, ps) && KnownProperties(h, SortBy(Precedes, ps))
    requires forall i :: 0 <= i < |ps| ==> UnfoldSlot(h, SortBy(Precedes, ps)[i].value, ancestors).Some?
    ensures UnfoldProperties(h, ps, ancestors).Some?
  {
    SortPermutes(Precedes, ps);
    forall i | 0 <= i < |ps| ensures UnfoldSlot(h, ps[i].value, ancestors).Some? {
      assert ps[i] in multiset(ps);
      assert ps[i] in SortBy(Precedes, ps);
    }
  }

  lemma UnfoldSorted(h: Heap, ps: seq<Entry<Slot>>, ancestors: set<Ref>)
    requires ValidHeap(h) && KnownProperties(h, ps) && KnownProperties(h, SortBy(Precedes, ps))
    requires UnfoldProperties(h, ps, ancestors).Some?
    ensures var members := SortBy(Precedes, UnfoldProperties(h, ps, ancestors).value);
            forall i :: 0 <= i < |ps| ==>
              && SortBy(Precedes, ps)[i].key == members[i].key
              && UnfoldSlot(h, SortBy(Precedes, ps)[i].value, ancestors) == Some(members[i].value)
  {
    var members := UnfoldProperties(h, ps, ancestors).value;
    var unfoldsTo := (s: Slot, t: Tree) => KnownSlot(h, s) && UnfoldSlot(h, s, ancestors) == Some(t);
    assert forall i :: 0 <= i < |ps| ==> ps[i].key == members[i].key && unfoldsTo(ps[i].value, members[i].value);
    SortRelated(Precedes, ps, members, unfoldsTo);
    var sorted, r := SortBy(Precedes, ps), SortBy(Precedes, members);
    assert forall i :: 0 <= i < |ps| ==> sorted[i].key == r[i].key && unfoldsTo(sorted[i].value, r[i].value);
  }

  lemma ArrangeSorted(members: seq<Entry<Tree>>)
    ensures ArrangeMembers(Precedes, SortBy(Precedes, members)) == SortBy(Precedes, ArrangeMembers(Precedes, members))
  {
    var arranged := (t: Tree, u: Tree) => Arrange(Precedes, t) == u;
    var fs := ArrangeMembers(Precedes, members);
    assert forall i :: 0 <= i < |members| ==> members[i].key == fs[i].key && arranged(members[i].value, fs[i].value);
    SortRelated(Precedes, members, fs, arranged);
    var es, gs := SortBy(Precedes, members), SortBy(Precedes, fs);
    forall i | 0 <= i < |es| ensures ArrangeMembers(Precedes, es)[i] == gs[i] {
      assert es[i].key == gs[i].key && arranged(es[i].value, gs[i].value);
    }
  }

  lemma AssembleArray(h: Heap, slots: seq<Slot>, ancestors: set<Ref>, parts: seq<Text>)
    requires ValidHeap(h) && forall i :: 0 <= i < |slots| ==> KnownSlot(h, slots[i])
    requires |parts| == |slots|
    requires forall i :: 0 <= i < |slots| ==> CanonicalOutcome(UnfoldSlot(h, slots[i], ancestors)) == Printed(parts[i])
    ensures var r := UnfoldSlots(h, slots, ancestors);
            r.Some? && TextOf(Canonical(Arr(r.value))) == [LBRACKET] + Join(parts) + [RBRACKET]
  {
    hide ValidHeap, Unfold, UnfoldSlot, UnfoldSlots, Join;
    var items := UnfoldSlots(h, slots, ancestors).value;
    assert parts == ItemTexts(ArrangeItems(Precedes, items));
  }

  ghost predicate AllPrinted(h: Heap, ps: seq<Entry<Slot>>, ancestors: set<Ref>, parts: seq<Text>)
    requires ValidHeap(h) && KnownProperties(h, ps)
  {
    |parts| == |ps| && forall i :: 0 <= i < |ps| ==> PrintsMember(h, ps[i], ancestors, parts[i])
  }

  lemma PrintedUnfolds(h: Heap, ps: seq<Entry<Slot>>, ancestors: set<Ref>, parts: seq<Text>)
    requires ValidHeap(h) && KnownProperties(h, ps) && KnownProperties(h, SortBy(Precedes, ps))
    requires AllPrinted(h, SortBy(Precedes, ps), ancestors, parts)
    ensures UnfoldProperties(h, ps, ancestors).Some?
  {
    hide ValidHeap, Unfold, UnfoldSlot, UnfoldProperties, SortBy;
    forall i | 0 <= i < |ps| ensures UnfoldSlot(h, SortBy(Precedes, ps)[i].value, ancestors).Some? {
      assert PrintsMember(h, SortBy(Precedes, ps)[i], ancestors, parts[i]);
    }
    UnfoldAll(h, ps, ancestors);
  }

  lemma AssembleObject(h: Heap, ps: seq<Entry<Slot>>, ancestors: set<Ref>, parts: seq<Text>)
    requires ValidHeap(h) && KnownProperties(h, ps) && KnownProperties(h, SortBy(Precedes, ps))
    requires AllPrinted(h, SortBy(Precedes, ps), ancestors, parts)
    ensures var r := UnfoldProperties(h, ps, ancestors);
            r.Some? && TextOf(Canonical(Obj(r.value))) == [LBRACE] + Join(parts) + [RBRACE]
  {
    hide ValidHeap, Unfold, UnfoldSlot, UnfoldProperties, SortBy, Quote, Join;
    PrintedUnfolds(h, ps, ancestors, parts);
    UnfoldSorted(h, ps, ancestors);
    var sorted, members := SortBy(Precedes, ps), SortBy(Precedes, UnfoldProperties(h, ps, ancestors).value);
    ArrangeSorted(UnfoldProperties(h, ps, ancestors).value);
    forall i | 0 <= i < |parts| ensures parts[i] == MemberTexts(ArrangeMembers(Precedes, members))[i] {
      assert PrintsMember(h, sorted[i], ancestors, parts[i]);
      assert sorted[i].key == members[i].key;
    }
    assert parts == MemberTexts(ArrangeMembers(Precedes, members));
  }
}
