/**
 What the serializer accepts and what its text says.  `Unfolds` reads a tree off the graph without
 any ancestor set; it and reachability along edges are the independent references.
 */
module CanonicalJsonProperties {
  import opened Options
  import opened JsonText
  import opened JsonOrder
  import opened CanonicalJson

  // ----- The tree a graph stands for -----

  ghost predicate Unfolds(h: Heap, v: Value, t: Tree)
    decreases t
  {
    if !v.Reference? then ScalarTree(v) == Some(t)
    else
      && v.ref in h
      && AcceptableShape(h[v.ref])
      && match h[v.ref]
         case ArrayNode(slots, _, _) =>
           && t.Arr? && |t.items| == |slots|
           && forall i :: 0 <= i < |slots| ==> IsData(slots[i]) && Unfolds(h, slots[i].value, t.items[i])
         case ObjectNode(ps, _, _) =>
           && t.Obj? && |t.members| == |ps|
           && forall i :: 0 <= i < |ps| ==>
                && t.members[i].key == ps[i].key
                && IsData(ps[i].value)
                && Unfolds(h, ps[i].value.value, t.members[i].value)
  }

  function Size(t: Tree): (n: nat)
    ensures t.Arr? ==> forall i :: 0 <= i < |t.items| ==> Size(t.items[i]) < n
    ensures t.Obj? ==> forall i :: 0 <= i < |t.members| ==> Size(t.members[i].value) < n
  {
    match t
    case Arr(items) => 1 + ItemsSize(items)
    case Obj(members) => 1 + MembersSize(members)
    case _ => 0
  }

  function ItemsSize(items: seq<Tree>): (n: nat)
    ensures forall i :: 0 <= i < |items| ==> Size(items[i]) <= n
  {
    if items == [] then 0 else Size(items[0]) + ItemsSize(items[1..])
  }

  function MembersSize(members: seq<Entry<Tree>>): (n: nat)
    ensures forall i :: 0 <= i < |members| ==> Size(members[i].value) <= n
  {
    if members == [] then 0 else Size(members[0].value) + MembersSize(members[1..])
  }

  lemma {:induction false} UnfoldSound(h: Heap, v: Value, ancestors: set<Ref>)
    requires ValidHeap(h) && Known(h, v) && Unfold(h, v, ancestors).Some?
    ensures Unfolds(h, v, Unfold(h, v, ancestors).value)
    decreases h.Keys - ancestors
  {
    if v.Reference? {
      var below := ancestors + {v.ref};
      match h[v.ref]
      case ArrayNode(slots, _, _) =>
        var items := UnfoldSlots(h, slots, below).value;
        forall i | 0 <= i < |slots|
          ensures IsData(slots[i]) && Unfolds(h, slots[i].value, items[i])
        {
          assert UnfoldSlot(h, slots[i], below).Some?;
          UnfoldSound(h, slots[i].value, below);
        }
      case ObjectNode(ps, _, _) =>
        var members := UnfoldProperties(h, ps, below).value;
        forall i | 0 <= i < |ps|
          ensures IsData(ps[i].value)
          ensures Unfolds(h, ps[i].value.value, members[i].value)
        {
          assert UnfoldSlot(h, ps[i].value, below).Some?;
          UnfoldSound(h, ps[i].value.value, below);
        }
    }
  }

  lemma {:induction false} UnfoldsUnique(h: Heap, v: Value, t: Tree, u: Tree)
    requires Unfolds(h, v, t) && Unfolds(h, v, u)
    ensures t == u
    decreases t
  {
    if v.Reference? {
      match h[v.ref]
      case ArrayNode(slots, _, _) =>
        forall i | 0 <= i < |slots| { UnfoldsUnique(h, slots[i].value, t.items[i], u.items[i]); }
        assert t.items == u.items;
      case ObjectNode(ps, _, _) =>
        forall i | 0 <= i < |ps| ensures t.members[i] == u.members[i] {
          UnfoldsUnique(h, ps[i].value.value, t.members[i].value, u.members[i].value);
        }
        assert t.members == u.members;
    }
  }

  // Every ancestor stands for a strictly larger tree.
  ghost predicate AncestorsLarger(h: Heap, ancestors: set<Ref>, n: nat) {
    forall a :: a in ancestors ==> exists u :: Unfolds(h, Reference(a), u) && n < Size(u)
  }

  lemma {:induction false} UnfoldComplete(h: Heap, v: Value, t: Tree, ancestors: set<Ref>)
    requires ValidHeap(h) && Known(h, v) && Unfolds(h, v, t) && AncestorsLarger(h, ancestors, Size(t))
    ensures Unfold(h, v, ancestors) == Some(t)
    decreases t
  {
    if v.Reference? {
      if v.ref in ancestors {
        var u :| Unfolds(h, Reference(v.ref), u) && Size(t) < Size(u);
        UnfoldsUnique(h, v, t, u);
      }
      var below := ancestors + {v.ref};
      match h[v.ref]
      case ArrayNode(slots, _, _) =>
        forall i | 0 <= i < |slots| ensures UnfoldSlot(h, slots[i], below) == Some(t.items[i]) {
          ChildBelow(h, v, t, ancestors, Size(t.items[i]));
          UnfoldComplete(h, slots[i].value, t.items[i], below);
        }
        assert UnfoldSlots(h, slots, below).value == t.items;
      case ObjectNode(ps, _, _) =>
        forall i | 0 <= i < |ps| ensures UnfoldSlot(h, ps[i].value, below) == Some(t.members[i].value) {
          ChildBelow(h, v, t, ancestors, Size(t.members[i].value));
          UnfoldComplete(h, ps[i].value.value, t.members[i].value, below);
        }
        assert UnfoldProperties(h, ps, below).value == t.members;
    }
  }

  lemma ChildBelow(h: Heap, v: Value, t: Tree, ancestors: set<Ref>, n: nat)
    requires v.Reference? && Unfolds(h, v, t) && n < Size(t) && AncestorsLarger(h, ancestors, Size(t))
    ensures AncestorsLarger(h, ancestors + {v.ref}, n)
  {
    forall a | a in ancestors + {v.ref} ensures exists u :: Unfolds(h, Reference(a), u) && n < Size(u) {
      if a in ancestors {
        var u :| Unfolds(h, Reference(a), u) && Size(t) < Size(u);
      } else {
        assert Unfolds(h, Reference(a), t);
      }
    }
  }

  /** From no ancestors, the walk yields exactly the tree the graph stands for, or none when there is none. */
  lemma UnfoldExact(h: Heap, v: Value, t: Tree)
    requires ValidHeap(h) && Known(h, v)
    ensures Unfold(h, v, {}) == Some(t) <==> Unfolds(h, v, t)
  {
    if Unfold(h, v, {}) == Some(t) {
      UnfoldSound(h, v, {});
    }
    if Unfolds(h, v, t) {
      UnfoldComplete(h, v, t, {});
    }
  }

  // ----- Which graphs are accepted -----

  function SlotsOf(n: Node): (slots: seq<Slot>) {
    match n
    case ArrayNode(slots, _, _) => slots
    case ObjectNode(ps, _, _) => seq(|ps|, i requires 0 <= i < |ps| => ps[i].value)
  }

  ghost predicate Edge(h: Heap, v: Value, w: Value) {
    v.Reference? && v.ref in h && exists s :: s in SlotsOf(h[v.ref]) && s == Data(s.Data? && s.enumerable, w)
  }

  ghost predicate IsPath(h: Heap, p: seq<Value>) {
    |p| > 0 && forall i :: 0 <= i < |p| - 1 ==> Edge(h, p[i], p[i + 1])
  }

  ghost predicate LocallyValid(h: Heap, v: Value) {
    if v.Reference? then
      && v.ref in h
      && AcceptableShape(h[v.ref])
      && forall s :: s in SlotsOf(h[v.ref]) ==> IsData(s)
    else ScalarTree(v).Some?
  }

  ghost predicate MeetsNoObjectTwice(p: seq<Value>) {
    forall i, j :: 0 <= i < j < |p| && p[i].Reference? ==> p[i] != p[j]
  }

  // Every node reachable from v is valid and no cycle is reachable.
  ghost predicate FiniteJsonTree(h: Heap, v: Value) {
    forall p :: IsPath(h, p) && p[0] == v ==> LocallyValid(h, p[|p| - 1]) && MeetsNoObjectTwice(p)
  }

  lemma EdgeUnfolds(h: Heap, v: Value, w: Value, t: Tree) returns (u: Tree)
    requires Unfolds(h, v, t) && Edge(h, v, w)
    ensures Unfolds(h, w, u) && Size(u) < Size(t)
  {
    var s :| s in SlotsOf(h[v.ref]) && s == Data(s.Data? && s.enumerable, w);
    var i :| 0 <= i < |SlotsOf(h[v.ref])| && SlotsOf(h[v.ref])[i] == s;
    match h[v.ref]
    case ArrayNode(slots, _, _) => u := t.items[i];
    case ObjectNode(ps, _, _) => u := t.members[i].value;
  }

  lemma SuffixPath(h: Heap, p: seq<Value>, k: nat)
    requires IsPath(h, p) && k < |p|
    ensures IsPath(h, p[k..])
  {
    forall i | 0 <= i < |p[k..]| - 1 ensures Edge(h, p[k..][i], p[k..][i + 1]) {
      assert Edge(h, p[k + i], p[k + i + 1]);
    }
  }

  lemma {:induction false} PathShrinks(h: Heap, p: seq<Value>, t: Tree, k: nat) returns (u: Tree)
    requires IsPath(h, p) && Unfolds(h, p[0], t) && k < |p|
    ensures Unfolds(h, p[k], u) && Size(u) <= Size(t) && (k > 0 ==> Size(u) < Size(t))
    decreases k
  {
    if k == 0 {
      u := t;
    } else {
      var next := EdgeUnfolds(h, p[0], p[1], t);
      SuffixPath(h, p, 1);
      u := PathShrinks(h, p[1..], next, k - 1);
    }
  }

  lemma UnfoldsLocallyValid(h: Heap, v: Value, t: Tree)
    requires Unfolds(h, v, t)
    ensures LocallyValid(h, v)
  {
    if v.Reference? {
      match h[v.ref]
      case ArrayNode(slots, _, _) =>
      case ObjectNode(ps, _, _) =>
        forall s | s in SlotsOf(h[v.ref]) ensures IsData(s) {
          var i :| 0 <= i < |ps| && s == ps[i].value;
        }
    }
  }

  lemma NoObjectTwice(h: Heap, p: seq<Value>, t: Tree, i: nat, j: nat)
    requires IsPath(h, p) && Unfolds(h, p[0], t) && i < j < |p|
    ensures p[i] != p[j]
  {
    var a := PathShrinks(h, p, t, i);
    SuffixPath(h, p, i);
    var b := PathShrinks(h, p[i..], a, j - i);
    if p[i] == p[j] {
      UnfoldsUnique(h, p[i], a, b);
    }
  }

  lemma UnfoldsFinite(h: Heap, v: Value, t: Tree)
    requires Unfolds(h, v, t)
    ensures FiniteJsonTree(h, v)
  {
    forall p: seq<Value> | IsPath(h, p) && p[0] == v
      ensures LocallyValid(h, p[|p| - 1]) && MeetsNoObjectTwice(p)
    {
      var last := PathShrinks(h, p, t, |p| - 1);
      UnfoldsLocallyValid(h, p[|p| - 1], last);
      forall i, j | 0 <= i < j < |p| ensures p[i] != p[j] {
        NoObjectTwice(h, p, t, i, j);
      }
    }
  }

  // The path walked so far ends in v and passes through every ancestor.
  ghost predicate Trail(h: Heap, p: seq<Value>, v: Value, ancestors: set<Ref>) {
    && IsPath(h, p) && p[|p| - 1] == v
    && forall a :: a in ancestors ==> Reference(a) in p[..|p| - 1]
  }

  lemma ExtendTrail(h: Heap, p: seq<Value>, v: Value, ancestors: set<Ref>, w: Value)
    requires v.Reference? && Trail(h, p, v, ancestors) && Edge(h, v, w)
    ensures Trail(h, p + [w], w, ancestors + {v.ref})
  {
    var q := p + [w];
    assert q[..|q| - 1] == p;
    forall i | 0 <= i < |q| - 1 ensures Edge(h, q[i], q[i + 1]) {
      if i < |p| - 1 {
        assert Edge(h, p[i], p[i + 1]);
      }
    }
  }

  lemma {:induction false} FiniteUnfolds(h: Heap, root: Value, p: seq<Value>, v: Value, ancestors: set<Ref>)
    requires ValidHeap(h) && Known(h, v) && FiniteJsonTree(h, root)
    requires Trail(h, p, v, ancestors) && p[0] == root
    ensures Unfold(h, v, ancestors).Some?
    decreases h.Keys - ancestors
  {
    assert LocallyValid(h, v) && MeetsNoObjectTwice(p);
    if v.Reference? {
      assert v.ref !in ancestors;
      var below := ancestors + {v.ref};
      var slots := SlotsOf(h[v.ref]);
      forall i | 0 <= i < |slots| ensures KnownSlot(h, slots[i]) && UnfoldSlot(h, slots[i], below).Some? {
        assert slots[i] in slots;
        assert slots[i] == Data(slots[i].enumerable, slots[i].value);
        ExtendTrail(h, p, v, ancestors, slots[i].value);
        assert (p + [slots[i].value])[0] == root;
        FiniteUnfolds(h, root, p + [slots[i].value], slots[i].value, below);
      }
      match h[v.ref]
      case ArrayNode(_, _, _) =>
      case ObjectNode(ps, _, _) =>
        assert forall i :: 0 <= i < |ps| ==> slots[i] == ps[i].value;
    }
  }

  /** The serializer succeeds exactly when every reachable node is valid and no cycle is reachable. */
  lemma SerializesExactlyFiniteTrees(h: Heap, v: Value)
    requires ValidHeap(h) && Known(h, v)
    ensures CanonicalOutcome(Unfold(h, v, {})).Printed? <==> FiniteJsonTree(h, v)
  {
    if Unfold(h, v, {}).Some? {
      UnfoldSound(h, v, {});
      UnfoldsFinite(h, v, Unfold(h, v, {}).value);
    }
    if FiniteJsonTree(h, v) {
      FiniteUnfolds(h, v, [v], v, {});
    }
  }

  /**
   Two accepted values, in the same graph or in different ones, with any sharing and any insertion
   order, get the same text exactly when they stand for the same JSON value up to member order.
   */
  lemma TextDecidesEquality(g: Heap, v: Value, h: Heap, w: Value, t: Tree, u: Tree)
    requires ValidHeap(g) && Known(g, v) && ValidHeap(h) && Known(h, w)
    requires Unfolds(g, v, t) && Unfolds(h, w, u)
    ensures CanonicalOutcome(Unfold(g, v, {})) == CanonicalOutcome(Unfold(h, w, {})) <==> Meaning(t) == Meaning(u)
  {
    UnfoldExact(g, v, t);
    UnfoldExact(h, w, u);
    UnfoldWellFormed(g, v, {});
    UnfoldWellFormed(h, w, {});
    CanonicalTextDecidesEquality(t, u);
  }

  // ----- What is rejected, value by value -----

  // Not JSON data by itself: a value that has no JSON form, or an array or plain object of the wrong shape.
  predicate Offends(h: Heap, v: Value)
    requires Known(h, v)
  {
    match v
    case Undefined => true
    case NotFinite => true
    case NotData => true
    case Reference(r) =>
      (match h[r]
       case ArrayNode(slots, hasSymbols, hasExtraNames) =>
         hasSymbols || hasExtraNames || exists i :: 0 <= i < |slots| && NoPlainData(slots[i])
       case ObjectNode(ps, hasSymbols, hasForeignPrototype) =>
         hasSymbols || hasForeignPrototype || exists i :: 0 <= i < |ps| && NoPlainData(ps[i].value))
    case NullValue => false
    case Boolean(_) => false
    case String(_) => false
    case Number(_) => false
  }

  // A hole, an accessor or a property that is not enumerable.
  predicate NoPlainData(s: Slot) {
    match s
    case Absent => true
    case Accessor(_) => true
    case Data(enumerable, _) => !enumerable
  }

  lemma SomeNoPlainData(slots: seq<Slot>)
    ensures (exists i :: 0 <= i < |slots| && NoPlainData(slots[i])) <==> !forall s :: s in slots ==> IsData(s)
  {
    if s :| s in slots && !IsData(s) {
      var i :| 0 <= i < |slots| && slots[i] == s;
      assert NoPlainData(slots[i]);
    }
    if i :| 0 <= i < |slots| && NoPlainData(slots[i]) {
      assert slots[i] in slots && !IsData(slots[i]);
    }
  }

  lemma OffendersAreInvalid(h: Heap, v: Value)
    requires Known(h, v)
    ensures LocallyValid(h, v) <==> !Offends(h, v)
  {
    if v.Reference? {
      hide IsData, NoPlainData;
      var slots := SlotsOf(h[v.ref]);
      SomeNoPlainData(slots);
      if h[v.ref].ObjectNode? {
        var ps := h[v.ref].properties;
        assert |slots| == |ps| && forall i :: 0 <= i < |ps| ==> slots[i] == ps[i].value;
        assert (exists i :: 0 <= i < |ps| && NoPlainData(ps[i].value))
          <==> exists i :: 0 <= i < |slots| && NoPlainData(slots[i]);
      }
    }
  }

  lemma {:induction false} PathsAreKnown(h: Heap, p: seq<Value>, i: nat)
    requires ValidHeap(h) && IsPath(h, p) && Known(h, p[0]) && i < |p|
    ensures Known(h, p[i])
  {
    if i > 0 {
      PathsAreKnown(h, p, i - 1);
      assert Edge(h, p[i - 1], p[i]);
      var s :| s in SlotsOf(h[p[i - 1].ref]) && s == Data(s.Data? && s.enumerable, p[i]);
    }
  }

  // A path from v to an offending value, or one that meets an object twice.
  ghost predicate Flaw(h: Heap, v: Value, p: seq<Value>)
    requires ValidHeap(h) && Known(h, v)
  {
    && IsPath(h, p) && p[0] == v
    && (PathsAreKnown(h, p, |p| - 1); Offends(h, p[|p| - 1]) || !MeetsNoObjectTwice(p))
  }

  /**
   The serializer rejects exactly when some path leads to an undefined, infinite or other non-data value,
   to an array with holes, accessors, hidden elements, symbols or extra names, to an object with accessors,
   hidden members, symbols or a foreign prototype, or meets an object again.
   */
  lemma RejectsExactlyFlaws(h: Heap, v: Value)
    requires ValidHeap(h) && Known(h, v)
    ensures CanonicalOutcome(Unfold(h, v, {})) == Rejected <==> exists p :: Flaw(h, v, p)
  {
    hide Unfold, Offends, LocallyValid, MeetsNoObjectTwice, ValidHeap;
    SerializesExactlyFiniteTrees(h, v);
    forall p | |p| > 0 && IsPath(h, p) && p[0] == v
      ensures Flaw(h, v, p) <==> !(LocallyValid(h, p[|p| - 1]) && MeetsNoObjectTwice(p))
    {
      PathsAreKnown(h, p, |p| - 1);
      OffendersAreInvalid(h, p[|p| - 1]);
    }
  }

  /** How the values that are no objects print. */
  lemma ScalarsPrintAs(h: Heap, n: NumberText, s: Text)
    requires ValidHeap(h)
    ensures CanonicalOutcome(Unfold(h, NullValue, {})) == Printed([0x6E, 0x75, 0x6C, 0x6C])
    ensures CanonicalOutcome(Unfold(h, Boolean(true), {})) == Printed([0x74, 0x72, 0x75, 0x65])
    ensures CanonicalOutcome(Unfold(h, Boolean(false), {})) == Printed([0x66, 0x61, 0x6C, 0x73, 0x65])
    ensures CanonicalOutcome(Unfold(h, Number(n), {})) == Printed(n)
    ensures CanonicalOutcome(Unfold(h, String(s), {})) == Printed([0x22] + EscapeText(s) + [0x22])
  {}
}
