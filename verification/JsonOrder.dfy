/**
 Member order.  A JSON value "up to member order" is a tree whose objects are maps; sorting
 the members of every object by code units picks one printed text per such value.
 */
module JsonOrder {
  import opened Options
  import opened Sequences
  import opened JsonText

  // ----- Code-unit order on keys -----

  // JavaScript's `<` on strings.
  predicate Precedes(a: Text, b: Text)
    decreases |a|
  {
    if b == [] then false
    else if a == [] then true
    else a[0] < b[0] || (a[0] == b[0] && Precedes(a[1..], b[1..]))
  }

  lemma {:induction false} PrecedesTrichotomy(a: Text, b: Text)
    ensures Precedes(a, b) || a == b || Precedes(b, a)
    ensures !(Precedes(a, b) && Precedes(b, a))
    ensures !Precedes(a, a)
    decreases |a|
  {
    if a != [] {
      PrecedesTrichotomy(a[1..], a[1..]);
      if b != [] {
        PrecedesTrichotomy(a[1..], b[1..]);
        Uncons(a);
        Uncons(b);
      }
    }
  }

  lemma {:induction false} PrecedesTransitive(a: Text, b: Text, c: Text)
    requires Precedes(a, b) && Precedes(b, c)
    ensures Precedes(a, c)
    decreases |a|
  {
    if a != [] && a[0] == b[0] == c[0] {
      PrecedesTransitive(a[1..], b[1..], c[1..]);
    }
  }

  // At the first place where they differ a has ended or has the smaller unit.
  ghost predicate SmallerAtFirstDifference(a: Text, b: Text) {
    exists k :: DiffersFirstAt(a, b, k) && (k == |a| || a[k] < b[k])
  }

  predicate DiffersFirstAt(a: Text, b: Text, k: int) {
    0 <= k <= |a| && k < |b| && a[..k] == b[..k]
  }

  /** Code-unit order is decided at the first difference, a proper prefix being smaller. */
  lemma {:induction false} PrecedesByFirstDifference(a: Text, b: Text)
    ensures Precedes(a, b) <==> SmallerAtFirstDifference(a, b)
    decreases |a|
  {
    if b != [] && a == [] {
      assert DiffersFirstAt(a, b, 0);
    } else if b != [] {
      PrecedesByFirstDifference(a[1..], b[1..]);
      if Precedes(a, b) {
        if a[0] < b[0] {
          assert DiffersFirstAt(a, b, 0);
        } else {
          var k :| DiffersFirstAt(a[1..], b[1..], k) && (k == |a[1..]| || a[1..][k] < b[1..][k]);
          assert a[..k + 1] == [a[0]] + a[1..][..k] && b[..k + 1] == [b[0]] + b[1..][..k];
          assert DiffersFirstAt(a, b, k + 1);
        }
      }
      if SmallerAtFirstDifference(a, b) {
        var k :| DiffersFirstAt(a, b, k) && (k == |a| || a[k] < b[k]);
        if k > 0 {
          assert a[0] == a[..k][0] == b[..k][0] == b[0];
          assert a[1..][..k - 1] == a[..k][1..] && b[1..][..k - 1] == b[..k][1..];
          assert DiffersFirstAt(a[1..], b[1..], k - 1);
        }
      }
    }
  }

  // ----- Comparisons of keys -----

  type KeyOrder = (Text, Text) -> bool

  // A consistent comparison; it may rank two different keys as equal.
  ghost predicate Consistent(before: KeyOrder) {
    && (forall a, b :: before(a, b) ==> !before(b, a))
    && (forall a, b, c :: before(a, b) && before(b, c) ==> before(a, c))
  }

  ghost predicate TellsApart(before: KeyOrder) {
    forall a, b :: a != b ==> before(a, b) || before(b, a)
  }

  lemma CodeUnitOrder()
    ensures Consistent(Precedes) && TellsApart(Precedes)
  {
    forall a, b ensures Precedes(a, b) ==> !Precedes(b, a) {
      PrecedesTrichotomy(a, b);
    }
    forall a, b | a != b ensures Precedes(a, b) || Precedes(b, a) {
      PrecedesTrichotomy(a, b);
    }
    forall a, b, c | Precedes(a, b) && Precedes(b, c) ensures Precedes(a, c) {
      PrecedesTransitive(a, b, c);
    }
  }

  // ----- Sorting entries by key -----

  function Insert<V>(before: KeyOrder, e: Entry<V>, es: seq<Entry<V>>): (r: seq<Entry<V>>)
    ensures |r| == |es| + 1
  {
    if es == [] || !before(es[0].key, e.key) then [e] + es else [es[0]] + Insert(before, e, es[1..])
  }

  // A stable sort by an arbitrary key comparison.
  function SortBy<V>(before: KeyOrder, es: seq<Entry<V>>): (r: seq<Entry<V>>)
    ensures |r| == |es|
  {
    if es == [] then [] else Insert(before, es[0], SortBy(before, es[1..]))
  }

  ghost predicate SameShape<V, W>(es: seq<Entry<V>>, fs: seq<Entry<W>>, related: (V, W) -> bool) {
    && |es| == |fs|
    && forall i :: 0 <= i < |es| ==> es[i].key == fs[i].key && related(es[i].value, fs[i].value)
  }

  lemma {:induction false} InsertRelated<V, W>(
    before: KeyOrder, e: Entry<V>, f: Entry<W>, es: seq<Entry<V>>, fs: seq<Entry<W>>, related: (V, W) -> bool)
    requires e.key == f.key && related(e.value, f.value) && SameShape(es, fs, related)
    ensures SameShape(Insert(before, e, es), Insert(before, f, fs), related)
  {
    if es != [] && before(es[0].key, e.key) {
      assert fs[0].key == es[0].key;
      InsertRelated(before, e, f, es[1..], fs[1..], related);
    }
  }

  /** Where an entry is sorted to depends on keys alone, so sorting commutes with rewriting the values. */
  lemma {:induction false} SortRelated<V, W>(
    before: KeyOrder, es: seq<Entry<V>>, fs: seq<Entry<W>>, related: (V, W) -> bool)
    requires SameShape(es, fs, related)
    ensures SameShape(SortBy(before, es), SortBy(before, fs), related)
  {
    if es != [] {
      SortRelated(before, es[1..], fs[1..], related);
      InsertRelated(before, es[0], fs[0], SortBy(before, es[1..]), SortBy(before, fs[1..]), related);
    }
  }

  lemma {:induction false} InsertPermutes<V>(before: KeyOrder, e: Entry<V>, es: seq<Entry<V>>)
    ensures multiset(Insert(before, e, es)) == multiset(es) + multiset{e}
  {
    if es != [] {
      Uncons(es);
      if before(es[0].key, e.key) {
        InsertPermutes(before, e, es[1..]);
      }
    }
  }

  lemma {:induction false} SortPermutes<V>(before: KeyOrder, es: seq<Entry<V>>)
    ensures multiset(SortBy(before, es)) == multiset(es)
  {
    if es != [] {
      Uncons(es);
      SortPermutes(before, es[1..]);
      InsertPermutes(before, es[0], SortBy(before, es[1..]));
    }
  }

  // ----- Entries as maps -----

  ghost predicate DistinctKeys<V>(es: seq<Entry<V>>) {
    forall i, j :: 0 <= i < j < |es| ==> es[i].key != es[j].key
  }

  function ToMap<V>(es: seq<Entry<V>>): (m: map<Text, V>) {
    if es == [] then map[] else ToMap(es[1..])[es[0].key := es[0].value]
  }

  lemma {:induction false} ToMapKeys<V>(es: seq<Entry<V>>, k: Text)
    ensures k in ToMap(es) <==> exists i :: 0 <= i < |es| && es[i].key == k
  {
    if es != [] {
      ToMapKeys(es[1..], k);
      if k in ToMap(es[1..]) {
        var i :| 0 <= i < |es[1..]| && es[1..][i].key == k;
        assert es[i + 1].key == k;
      }
      if i :| 0 <= i < |es| && es[i].key == k {
        if i > 0 {
          assert es[1..][i - 1].key == k;
        }
      }
    }
  }

  lemma {:induction false} ToMapLookup<V>(es: seq<Entry<V>>, i: nat)
    requires i < |es| && DistinctKeys(es)
    ensures es[i].key in ToMap(es) && ToMap(es)[es[i].key] == es[i].value
  {
    if i > 0 {
      ToMapLookup(es[1..], i - 1);
      assert es[1..][i - 1] == es[i];
    }
  }

  lemma {:induction false} InsertKeepsMap<V>(before: KeyOrder, e: Entry<V>, es: seq<Entry<V>>)
    requires e.key !in ToMap(es) && DistinctKeys(es)
    ensures DistinctKeys(Insert(before, e, es))
    ensures ToMap(Insert(before, e, es)) == ToMap(es)[e.key := e.value]
  {
    ToMapKeys(es, e.key);
    if es != [] && before(es[0].key, e.key) {
      var rest := Insert(before, e, es[1..]);
      InsertKeepsMap(before, e, es[1..]);
      ToMapKeys(es[1..], es[0].key);
      ToMapKeys(rest, es[0].key);
      assert es[0].key != e.key;
      assert es[0].key !in ToMap(rest);
    }
  }

  /** Sorting rearranges: nothing is lost, added or changed. */
  lemma {:induction false} SortKeepsMap<V>(before: KeyOrder, es: seq<Entry<V>>)
    requires DistinctKeys(es)
    ensures DistinctKeys(SortBy(before, es))
    ensures ToMap(SortBy(before, es)) == ToMap(es)
  {
    if es != [] {
      SortKeepsMap(before, es[1..]);
      ToMapKeys(es[1..], es[0].key);
      InsertKeepsMap(before, es[0], SortBy(before, es[1..]));
    }
  }

  // ----- Strictly increasing keys -----

  ghost predicate Increasing<V>(before: KeyOrder, es: seq<Entry<V>>) {
    forall i, j :: 0 <= i < j < |es| ==> before(es[i].key, es[j].key)
  }

  lemma {:induction false} InsertIncreasing<V>(before: KeyOrder, e: Entry<V>, es: seq<Entry<V>>)
    requires Consistent(before) && TellsApart(before)
    requires Increasing(before, es) && forall i :: 0 <= i < |es| ==> es[i].key != e.key
    ensures Increasing(before, Insert(before, e, es))
  {
    var r := Insert(before, e, es);
    if es != [] {
      if before(es[0].key, e.key) {
        InsertIncreasing(before, e, es[1..]);
        InsertPermutes(before, e, es[1..]);
        forall j | 1 <= j < |r| ensures before(es[0].key, r[j].key) {
          assert r[j] in multiset(r[1..]);
        }
      } else {
        forall j | 0 <= j < |es| ensures before(e.key, es[j].key) {
          assert j > 0 ==> before(es[0].key, es[j].key);
        }
      }
    }
  }

  lemma {:induction false} SortIncreasing<V>(before: KeyOrder, es: seq<Entry<V>>)
    requires Consistent(before) && TellsApart(before) && DistinctKeys(es)
    ensures Increasing(before, SortBy(before, es))
  {
    if es != [] {
      var rest := SortBy(before, es[1..]);
      SortIncreasing(before, es[1..]);
      SortKeepsMap(before, es[1..]);
      ToMapKeys(es[1..], es[0].key);
      ToMapKeys(rest, es[0].key);
      InsertIncreasing(before, es[0], rest);
    }
  }

  /** A map has one listing in increasing key order. */
  lemma {:induction false} IncreasingUnique<V>(before: KeyOrder, es: seq<Entry<V>>, fs: seq<Entry<V>>)
    requires Consistent(before) && Increasing(before, es) && Increasing(before, fs) && ToMap(es) == ToMap(fs)
    ensures es == fs
  {
    if es == [] || fs == [] {
      if es != [] { ToMapKeys(es, es[0].key); }
      if fs != [] { ToMapKeys(fs, fs[0].key); }
    } else {
      assert DistinctKeys(es) && DistinctKeys(fs);
      LeastKeyFirst(before, es, fs);
      LeastKeyFirst(before, fs, es);
      ToMapLookup(es, 0);
      ToMapLookup(fs, 0);
      TailMap(es);
      TailMap(fs);
      IncreasingUnique(before, es[1..], fs[1..]);
    }
  }

  lemma LeastKeyFirst<V>(before: KeyOrder, es: seq<Entry<V>>, fs: seq<Entry<V>>)
    requires Increasing(before, es) && es != [] && fs != [] && ToMap(es) == ToMap(fs)
    ensures es[0].key == fs[0].key || before(es[0].key, fs[0].key)
  {
    ToMapKeys(fs, fs[0].key);
    ToMapKeys(es, fs[0].key);
  }

  lemma TailMap<V>(es: seq<Entry<V>>)
    requires es != [] && DistinctKeys(es)
    ensures ToMap(es[1..]) == ToMap(es) - {es[0].key}
  {
    ToMapKeys(es[1..], es[0].key);
  }

  // ----- JSON values up to member order -----

  datatype Json =
    | JNull
    | JBool(b: bool)
    | JStr(s: Text)
    | JNum(n: NumberText)
    | JArr(items: seq<Json>)
    | JObj(members: map<Text, Json>)

  function Meaning(t: Tree): Json {
    match t
    case Null => JNull
    case Bool(b) => JBool(b)
    case Str(s) => JStr(s)
    case Num(n) => JNum(n)
    case Arr(items) => JArr(ItemMeanings(items))
    case Obj(members) => JObj(ToMap(MemberMeanings(members)))
  }

  function ItemMeanings(items: seq<Tree>): (r: seq<Json>)
    ensures |r| == |items|
    ensures forall i :: 0 <= i < |items| ==> r[i] == Meaning(items[i])
  {
    if items == [] then [] else [Meaning(items[0])] + ItemMeanings(items[1..])
  }

  function MemberMeanings(members: seq<Entry<Tree>>): (r: seq<Entry<Json>>)
    ensures |r| == |members|
    ensures forall i :: 0 <= i < |members| ==> r[i] == Entry(members[i].key, Meaning(members[i].value))
  {
    if members == [] then []
    else [Entry(members[0].key, Meaning(members[0].value))] + MemberMeanings(members[1..])
  }

  // JavaScript objects never hold a key twice.
  ghost predicate WellFormed(t: Tree) {
    match t
    case Arr(items) => forall i :: 0 <= i < |items| ==> WellFormed(items[i])
    case Obj(members) =>
      && DistinctKeys(members)
      && forall i :: 0 <= i < |members| ==> WellFormed(members[i].value)
    case _ => true
  }

  // ----- Rearranging the members of every object -----

  function Arrange(before: KeyOrder, t: Tree): Tree {
    match t
    case Arr(items) => Arr(ArrangeItems(before, items))
    case Obj(members) => Obj(SortBy(before, ArrangeMembers(before, members)))
    case _ => t
  }

  function ArrangeItems(before: KeyOrder, items: seq<Tree>): (r: seq<Tree>)
    ensures |r| == |items|
    ensures forall i :: 0 <= i < |items| ==> r[i] == Arrange(before, items[i])
  {
    if items == [] then [] else [Arrange(before, items[0])] + ArrangeItems(before, items[1..])
  }

  function ArrangeMembers(before: KeyOrder, members: seq<Entry<Tree>>): (r: seq<Entry<Tree>>)
    ensures |r| == |members|
    ensures forall i :: 0 <= i < |members| ==> r[i] == Entry(members[i].key, Arrange(before, members[i].value))
  {
    if members == [] then []
    else [Entry(members[0].key, Arrange(before, members[0].value))] + ArrangeMembers(before, members[1..])
  }

  /** Rearranging members, by whatever comparison, never changes what a tree means. */
  lemma {:induction false} ArrangeKeepsMeaning(before: KeyOrder, t: Tree)
    requires WellFormed(t)
    ensures Meaning(Arrange(before, t)) == Meaning(t)
  {
    match t
    case Arr(items) =>
      forall i | 0 <= i < |items| { ArrangeKeepsMeaning(before, items[i]); }
      assert ItemMeanings(ArrangeItems(before, items)) == ItemMeanings(items);
    case Obj(members) =>
      forall i | 0 <= i < |members| { ArrangeKeepsMeaning(before, members[i].value); }
      ArrangeObjectKeepsMeaning(before, members);
    case _ =>
  }

  lemma ArrangeObjectKeepsMeaning(before: KeyOrder, members: seq<Entry<Tree>>)
    requires DistinctKeys(members)
    requires forall i :: 0 <= i < |members| ==> Meaning(Arrange(before, members[i].value)) == Meaning(members[i].value)
    ensures ToMap(MemberMeanings(SortBy(before, ArrangeMembers(before, members)))) == ToMap(MemberMeanings(members))
  {
    var arranged, meanings := ArrangeMembers(before, members), MemberMeanings(members);
    var means := (t: Tree, j: Json) => Meaning(t) == j;
    SortRelated(before, arranged, meanings, means);
    assert MemberMeanings(SortBy(before, arranged)) == SortBy(before, meanings);
    SortKeepsMap(before, meanings);
  }

  /** Insertion order is forgotten: equal meanings have one arranged tree, if the comparison tells all keys apart. */
  lemma {:induction false} ArrangedUnique(before: KeyOrder, a: Tree, b: Tree)
    requires Consistent(before) && TellsApart(before)
    requires WellFormed(a) && WellFormed(b) && Meaning(a) == Meaning(b)
    ensures Arrange(before, a) == Arrange(before, b)
    decreases a
  {
    match a
    case Arr(items) =>
      forall i | 0 <= i < |items| ensures Arrange(before, items[i]) == Arrange(before, b.items[i]) {
        assert ItemMeanings(items)[i] == ItemMeanings(b.items)[i];
        ArrangedUnique(before, items[i], b.items[i]);
      }
      assert ArrangeItems(before, items) == ArrangeItems(before, b.items);
    case Obj(members) =>
      forall i, j | 0 <= i < |members| && 0 <= j < |b.members| && members[i].key == b.members[j].key
        ensures Arrange(before, members[i].value) == Arrange(before, b.members[j].value)
      {
        ToMapLookup(MemberMeanings(members), i);
        ToMapLookup(MemberMeanings(b.members), j);
        ArrangedUnique(before, members[i].value, b.members[j].value);
      }
      ArrangedObjectUnique(before, members, b.members);
    case _ =>
  }

  lemma ArrangedObjectUnique(before: KeyOrder, xs: seq<Entry<Tree>>, ys: seq<Entry<Tree>>)
    requires Consistent(before) && TellsApart(before) && DistinctKeys(xs) && DistinctKeys(ys)
    requires ToMap(MemberMeanings(xs)) == ToMap(MemberMeanings(ys))
    requires forall i, j :: 0 <= i < |xs| && 0 <= j < |ys| && xs[i].key == ys[j].key ==>
               Arrange(before, xs[i].value) == Arrange(before, ys[j].value)
    ensures SortBy(before, ArrangeMembers(before, xs)) == SortBy(before, ArrangeMembers(before, ys))
  {
    var us, vs := ArrangeMembers(before, xs), ArrangeMembers(before, ys);
    SameKeysSameDomain(us, MemberMeanings(xs));
    SameKeysSameDomain(vs, MemberMeanings(ys));
    MatchingValuesSameMap(us, vs);
    SortKeepsMap(before, us);
    SortKeepsMap(before, vs);
    SortIncreasing(before, us);
    SortIncreasing(before, vs);
    IncreasingUnique(before, SortBy(before, us), SortBy(before, vs));
  }

  lemma MatchingValuesSameMap<V>(us: seq<Entry<V>>, vs: seq<Entry<V>>)
    requires DistinctKeys(us) && DistinctKeys(vs) && ToMap(us).Keys == ToMap(vs).Keys
    requires forall i, j :: 0 <= i < |us| && 0 <= j < |vs| && us[i].key == vs[j].key ==> us[i].value == vs[j].value
    ensures ToMap(us) == ToMap(vs)
  {
    forall k | k in ToMap(us) ensures ToMap(us)[k] == ToMap(vs)[k] {
      ToMapKeys(us, k);
      ToMapKeys(vs, k);
      var i :| 0 <= i < |us| && us[i].key == k;
      var j :| 0 <= j < |vs| && vs[j].key == k;
      ToMapLookup(us, i);
      ToMapLookup(vs, j);
    }
  }

  lemma SameKeysSameDomain<V, W>(es: seq<Entry<V>>, fs: seq<Entry<W>>)
    requires |es| == |fs| && forall i :: 0 <= i < |es| ==> es[i].key == fs[i].key
    ensures ToMap(es).Keys == ToMap(fs).Keys
  {
    forall k ensures k in ToMap(es) <==> k in ToMap(fs) {
      ToMapKeys(es, k);
      ToMapKeys(fs, k);
    }
  }

  // ----- Arranged texts -----

  /** Whatever the comparison, trees that mean different things have different arranged texts. */
  lemma ArrangedTextInjective(before: KeyOrder, a: Tree, b: Tree)
    requires WellFormed(a) && WellFormed(b)
    requires TextOf(Arrange(before, a)) == TextOf(Arrange(before, b))
    ensures Meaning(a) == Meaning(b)
  {
    TextInjective(Arrange(before, a), Arrange(before, b));
    ArrangeKeepsMeaning(before, a);
    ArrangeKeepsMeaning(before, b);
  }

  function Canonical(t: Tree): Tree {
    Arrange(Precedes, t)
  }

  /**
   Two JSON values have the same canonical text exactly when they are equal up to the order of
   object members: insertion order never matters and different values never collide.
   */
  lemma CanonicalTextDecidesEquality(a: Tree, b: Tree)
    requires WellFormed(a) && WellFormed(b)
    ensures TextOf(Canonical(a)) == TextOf(Canonical(b)) <==> Meaning(a) == Meaning(b)
  {
    if TextOf(Canonical(a)) == TextOf(Canonical(b)) {
      ArrangedTextInjective(Precedes, a, b);
    }
    if Meaning(a) == Meaning(b) {
      CodeUnitOrder();
      ArrangedUnique(Precedes, a, b);
    }
  }

  // Every object lists its members by the first difference of their keys.
  ghost predicate MembersAscend(t: Tree) {
    match t
    case Arr(items) => forall i :: 0 <= i < |items| ==> MembersAscend(items[i])
    case Obj(members) =>
      && (forall i, j :: 0 <= i < j < |members| ==> SmallerAtFirstDifference(members[i].key, members[j].key))
      && forall i :: 0 <= i < |members| ==> MembersAscend(members[i].value)
    case _ => true
  }

  /** The members of a canonical tree ascend, at every level. */
  lemma {:induction false} CanonicalAscends(t: Tree)
    requires WellFormed(t)
    ensures MembersAscend(Canonical(t))
  {
    match t
    case Arr(items) =>
      forall i | 0 <= i < |items| ensures MembersAscend(Canonical(items[i])) {
        CanonicalAscends(items[i]);
      }
    case Obj(members) =>
      forall i | 0 <= i < |members| ensures MembersAscend(Canonical(members[i].value)) {
        CanonicalAscends(members[i].value);
      }
      SortedAscends(ArrangeMembers(Precedes, members));
    case _ =>
  }

  lemma SortedAscends(es: seq<Entry<Tree>>)
    requires DistinctKeys(es) && forall i :: 0 <= i < |es| ==> MembersAscend(es[i].value)
    ensures MembersAscend(Obj(SortBy(Precedes, es)))
  {
    hide SortBy, SmallerAtFirstDifference, Precedes;
    var sorted := SortBy(Precedes, es);
    CodeUnitOrder();
    SortIncreasing(Precedes, es);
    SortPermutes(Precedes, es);
    forall i | 0 <= i < |sorted| ensures MembersAscend(sorted[i].value) {
      assert sorted[i] in multiset(sorted);
      assert sorted[i] in es;
    }
    forall i, j | 0 <= i < j < |sorted| ensures SmallerAtFirstDifference(sorted[i].key, sorted[j].key) {
      PrecedesByFirstDifference(sorted[i].key, sorted[j].key);
    }
  }

  /** A canonical text is read back as the same JSON value, nothing left over, its members ascending. */
  lemma CanonicalTextReadsBack(t: Tree)
    requires WellFormed(t)
    ensures var r := Parse(TextOf(Canonical(t)));
            r.Some? && r.value.1 == [] && Meaning(r.value.0) == Meaning(t) && MembersAscend(r.value.0)
  {
    ParseInverts(Canonical(t), []);
    assert TextOf(Canonical(t)) + [] == TextOf(Canonical(t));
    ArrangeKeepsMeaning(Precedes, t);
    CanonicalAscends(t);
  }
}
