/**
 The preprocessing of a raw configuration: each known secret is replaced by a placeholder, path by path,
 before the schema sees the document.
 */
module SecretPaths {
  import opened ConfigDocument
  import opened Options

  datatype Segment = Key(name: string) | Any
  type Path = seq<Segment>

  const PLACEHOLDER := Str("raw-secret-ref")

  // ----- The replacement -----

  function AllItems(parts: seq<Option<Json>>): Option<seq<Json>> {
    if forall i :: 0 <= i < |parts| ==> parts[i].Some?
    then Some(seq(|parts|, i requires 0 <= i < |parts| => parts[i].value))
    else None
  }

  function AllFields(parts: map<string, Option<Json>>): Option<map<string, Json>> {
    if forall k :: k in parts ==> parts[k].Some? then Some(map k | k in parts :: parts[k].value) else None
  }

  // None when a value on the path is not an acceptable secret: the original throws.
  function ReplaceField(accepts: Json -> bool, value: Json, path: Path): Option<Json>
    decreases |path|
  {
    if path == [] then
      if value == Null then Some(value) else if accepts(value) then Some(PLACEHOLDER) else None
    else match path[0]
      case Any =>
        (match value
         case List(items) =>
           (match AllItems(seq(|items|, i requires 0 <= i < |items| => ReplaceField(accepts, items[i], path[1..])))
            case Some(replaced) => Some(List(replaced))
            case None => None)
         case Object(fields) =>
           (match AllFields(map k | k in fields :: ReplaceField(accepts, fields[k], path[1..]))
            case Some(replaced) => Some(Object(replaced))
            case None => None)
         case _ => Some(value))
      case Key(k) =>
        if !value.Object? || k !in value.fields then Some(value)
        else match ReplaceField(accepts, value.fields[k], path[1..])
          case Some(replaced) => Some(Object(value.fields[k := replaced]))
          case None => None
  }

  function ReplaceFields(accepts: Json -> bool, value: Json, paths: seq<Path>): Option<Json>
    decreases |paths|
  {
    if paths == [] then Some(value)
    else match ReplaceField(accepts, value, paths[0])
      case Some(replaced) => ReplaceFields(accepts, replaced, paths[1..])
      case None => None
  }

  // ----- Positions in a document -----

  datatype Step = Field(name: string) | Index(i: nat)
  type Position = seq<Step>

  function Child(value: Json, step: Step): Option<Json> {
    match step
    case Field(k) => if value.Object? && k in value.fields then Some(value.fields[k]) else None
    case Index(i) => if value.List? && i < |value.items| then Some(value.items[i]) else None
  }

  function Get(value: Json, pos: Position): Option<Json> {
    if pos == [] then Some(value)
    else match Child(value, pos[0])
      case Some(child) => Get(child, pos[1..])
      case None => None
  }

  // What stands at a position, apart from what is below it.
  datatype Label =
    | Missing
    | NullLabel
    | StrLabel(text: string)
    | LiteralLabel(text: string)
    | ListLabel(length: nat)
    | ObjectLabel(keys: set<string>)

  function LabelOf(value: Option<Json>): Label {
    match value
    case None => Missing
    case Some(Null) => NullLabel
    case Some(Str(text)) => StrLabel(text)
    case Some(Literal(text)) => LiteralLabel(text)
    case Some(List(items)) => ListLabel(|items|)
    case Some(Object(fields)) => ObjectLabel(fields.Keys)
  }

  function LabelAt(value: Json, pos: Position): Label {
    LabelOf(Get(value, pos))
  }

  ghost predicate SameLabels(a: Json, b: Json) {
    forall pos :: LabelAt(a, pos) == LabelAt(b, pos)
  }

  lemma LabelBelow(value: Json, step: Step, pos: Position)
    requires Child(value, step).Some?
    ensures LabelAt(value, [step] + pos) == LabelAt(Child(value, step).value, pos)
  {
    assert ([step] + pos)[1..] == pos;
  }

  /** The labels determine the document. */
  lemma {:induction false} LabelsDetermine(a: Json, b: Json)
    requires SameLabels(a, b)
    ensures a == b
    decreases a
  {
    assert LabelAt(a, []) == LabelAt(b, []);
    match a
    case Object(fields) =>
      forall k | k in fields ensures b.fields[k] == fields[k] {
        LabelsBelow(a, b, Field(k));
        LabelsDetermine(fields[k], b.fields[k]);
      }
      assert b.fields == fields;
    case List(items) =>
      forall i | 0 <= i < |items| ensures b.items[i] == items[i] {
        LabelsBelow(a, b, Index(i));
        LabelsDetermine(items[i], b.items[i]);
      }
    case _ =>
  }

  lemma LabelsBelow(a: Json, b: Json, step: Step)
    requires SameLabels(a, b) && Child(a, step).Some? && Child(b, step).Some?
    ensures SameLabels(Child(a, step).value, Child(b, step).value)
  {
    forall pos ensures LabelAt(Child(a, step).value, pos) == LabelAt(Child(b, step).value, pos) {
      LabelBelow(a, step, pos);
      LabelBelow(b, step, pos);
      assert LabelAt(a, [step] + pos) == LabelAt(b, [step] + pos);
    }
  }

  // ----- Which positions a path reaches -----

  predicate Reaches(segment: Segment, step: Step) {
    segment.Any? || step == Field(segment.name)
  }

  predicate Matches(path: Path, pos: Position) {
    |path| == |pos| && forall i :: 0 <= i < |path| ==> Reaches(path[i], pos[i])
  }

  // A secret that is present: not missing and not null.
  predicate Present(value: Json, pos: Position) {
    Get(value, pos).Some? && Get(value, pos).value != Null
  }

  // The position is a present secret of this path, or below one.
  predicate Covers(value: Json, path: Path, pos: Position) {
    |path| <= |pos| && Matches(path, pos[..|path|]) && Present(value, pos[..|path|])
  }

  // What a position becomes when the path is replaced.
  function Replaced(value: Json, path: Path, pos: Position): Label {
    if !Covers(value, path, pos) then LabelAt(value, pos)
    else if |pos| == |path| then LabelOf(Some(PLACEHOLDER))
    else Missing
  }

  /** Replacing one path changes the present secrets at its end and nothing else. */
  lemma {:induction false} ReplaceFieldChanges(accepts: Json -> bool, value: Json, path: Path, pos: Position)
    requires ReplaceField(accepts, value, path).Some?
    ensures LabelAt(ReplaceField(accepts, value, path).value, pos) == Replaced(value, path, pos)
    decreases |path|
  {
    var after := ReplaceField(accepts, value, path).value;
    if path == [] {
      assert pos[..0] == [];
    } else if pos != [] {
      var step, rest := pos[0], pos[1..];
      CoversBelow(value, path, pos);
      if Child(value, step).Some? && Reaches(path[0], step) {
        ReplaceFieldBelow(accepts, value, path, step);
        ReplaceFieldChanges(accepts, Child(value, step).value, path[1..], rest);
      } else {
        ReplaceFieldBeside(accepts, value, path, step);
      }
    }
  }

  lemma MatchesBelow(path: Path, pos: Position)
    requires path != []
    ensures Matches(path, pos) <==> pos != [] && Reaches(path[0], pos[0]) && Matches(path[1..], pos[1..])
  {
    if pos != [] && Reaches(path[0], pos[0]) && Matches(path[1..], pos[1..]) {
      forall i | 0 <= i < |path| ensures Reaches(path[i], pos[i]) {
        if i > 0 { assert Reaches(path[1..][i - 1], pos[1..][i - 1]); }
      }
    }
  }

  lemma CoversBelow(value: Json, path: Path, pos: Position)
    requires path != [] && pos != []
    ensures Covers(value, path, pos) <==>
      Reaches(path[0], pos[0]) && Child(value, pos[0]).Some? && Covers(Child(value, pos[0]).value, path[1..], pos[1..])
  {
    if |path| <= |pos| {
      assert pos[..|path|][1..] == pos[1..][..|path| - 1];
      MatchesBelow(path, pos[..|path|]);
    }
  }

  lemma ReplaceFieldBelow(accepts: Json -> bool, value: Json, path: Path, step: Step)
    requires path != [] && ReplaceField(accepts, value, path).Some?
    requires Child(value, step).Some? && Reaches(path[0], step)
    ensures var below := ReplaceField(accepts, Child(value, step).value, path[1..]);
            below.Some? && Child(ReplaceField(accepts, value, path).value, step) == below
  {
    if path[0].Any? && value.List? {
      var items := value.items;
      var parts := seq(|items|, i requires 0 <= i < |items| => ReplaceField(accepts, items[i], path[1..]));
      assert parts[step.i] == ReplaceField(accepts, value.items[step.i], path[1..]);
    } else if path[0].Any? {
      var parts := map k | k in value.fields :: ReplaceField(accepts, value.fields[k], path[1..]);
      assert parts[step.name] == ReplaceField(accepts, value.fields[step.name], path[1..]);
    }
  }

  lemma ReplaceFieldBeside(accepts: Json -> bool, value: Json, path: Path, step: Step)
    requires path != [] && ReplaceField(accepts, value, path).Some?
    requires Child(value, step).None? || !Reaches(path[0], step)
    ensures Child(ReplaceField(accepts, value, path).value, step) == Child(value, step)
  {}

  // ----- When a path is accepted -----

  ghost predicate Acceptable(accepts: Json -> bool, value: Json, path: Path) {
    forall pos :: Matches(path, pos) && Present(value, pos) ==> accepts(Get(value, pos).value)
  }

  lemma AcceptableBelow(accepts: Json -> bool, value: Json, path: Path)
    requires path != []
    ensures Acceptable(accepts, value, path) <==>
      forall step :: Reaches(path[0], step) && Child(value, step).Some? ==>
        Acceptable(accepts, Child(value, step).value, path[1..])
  {
    if Acceptable(accepts, value, path) {
      forall step, pos | Reaches(path[0], step) && Child(value, step).Some?
        && Matches(path[1..], pos) && Present(Child(value, step).value, pos)
        ensures accepts(Get(Child(value, step).value, pos).value)
      {
        var whole := [step] + pos;
        assert whole[1..] == pos;
        MatchesBelow(path, whole);
      }
    } else {
      var pos :| Matches(path, pos) && Present(value, pos) && !accepts(Get(value, pos).value);
      MatchesBelow(path, pos);
      assert !Acceptable(accepts, Child(value, pos[0]).value, path[1..]);
    }
  }

  lemma AcceptedBelow(accepts: Json -> bool, value: Json, path: Path)
    requires path != []
    ensures ReplaceField(accepts, value, path).Some? <==>
      forall step :: Reaches(path[0], step) && Child(value, step).Some? ==>
        ReplaceField(accepts, Child(value, step).value, path[1..]).Some?
  {
    if ReplaceField(accepts, value, path).Some? {
      forall step | Reaches(path[0], step) && Child(value, step).Some?
        ensures ReplaceField(accepts, Child(value, step).value, path[1..]).Some?
      {
        ReplaceFieldBelow(accepts, value, path, step);
      }
    } else {
      RejectedBelow(accepts, value, path);
    }
  }

  lemma RejectedBelow(accepts: Json -> bool, value: Json, path: Path)
    requires path != [] && ReplaceField(accepts, value, path).None?
    ensures exists step :: Reaches(path[0], step) && Child(value, step).Some?
              && ReplaceField(accepts, Child(value, step).value, path[1..]).None?
  {
    if path[0].Key? {
      assert Child(value, Field(path[0].name)).Some?;
    } else if value.List? {
      var items := value.items;
      var parts := seq(|items|, i requires 0 <= i < |items| => ReplaceField(accepts, items[i], path[1..]));
      var i :| 0 <= i < |parts| && parts[i].None?;
      assert Child(value, Index(i)).Some?;
    } else {
      var parts := map k | k in value.fields :: ReplaceField(accepts, value.fields[k], path[1..]);
      var k :| k in parts && parts[k].None?;
      assert Child(value, Field(k)).Some?;
    }
  }

  /** Replacing a path throws exactly when a present secret on it is unacceptable. */
  lemma {:induction false} ReplacesExactlyAcceptable(accepts: Json -> bool, value: Json, path: Path)
    ensures ReplaceField(accepts, value, path).Some? <==> Acceptable(accepts, value, path)
    decreases |path|
  {
    if path == [] {
      assert Matches(path, []) && Get(value, []) == Some(value);
    } else {
      hide Acceptable;
      AcceptableBelow(accepts, value, path);
      AcceptedBelow(accepts, value, path);
      forall step | Reaches(path[0], step) && Child(value, step).Some?
        ensures ReplaceField(accepts, Child(value, step).value, path[1..]).Some?
           <==> Acceptable(accepts, Child(value, step).value, path[1..])
      {
        ReplacesExactlyAcceptable(accepts, Child(value, step).value, path[1..]);
      }
    }
  }

  // ----- All paths together -----

  // The end of p lies strictly above some end of q.
  predicate Clashes(p: Path, q: Path) {
    |p| < |q| && forall i :: 0 <= i < |p| ==> p[i].Any? || q[i].Any? || p[i] == q[i]
  }

  ghost predicate Clashless(paths: seq<Path>) {
    forall p, q :: p in paths && q in paths ==> !Clashes(p, q)
  }

  lemma MatchingPathsClash(p: Path, q: Path, pos: Position)
    requires |p| < |q| <= |pos| && Matches(p, pos[..|p|]) && Matches(q, pos[..|q|])
    ensures Clashes(p, q)
  {
    forall i | 0 <= i < |p| ensures p[i].Any? || q[i].Any? || p[i] == q[i] {
      assert Reaches(p[i], pos[..|p|][i]) && Reaches(q[i], pos[..|q|][i]);
    }
  }

  ghost predicate Covered(value: Json, paths: seq<Path>, pos: Position) {
    exists p :: p in paths && Covers(value, p, pos)
  }

  ghost predicate Ends(value: Json, paths: seq<Path>, pos: Position) {
    exists p :: p in paths && |p| == |pos| && Covers(value, p, pos)
  }

  // What a position becomes, whatever the order of the paths.
  ghost function Projected(value: Json, paths: seq<Path>, pos: Position): Label {
    if Ends(value, paths, pos) then LabelOf(Some(PLACEHOLDER))
    else if Covered(value, paths, pos) then Missing
    else LabelAt(value, pos)
  }

  lemma CoversKept(accepts: Json -> bool, value: Json, p: Path, q: Path, pos: Position)
    requires ReplaceField(accepts, value, p).Some? && !Clashes(p, q)
    ensures Covers(ReplaceField(accepts, value, p).value, q, pos) <==> Covers(value, q, pos)
  {
    hide ReplaceField, Clashes, Matches, Get;
    if |q| <= |pos| && Matches(q, pos[..|q|]) {
      var top := pos[..|q|];
      ReplaceFieldChanges(accepts, value, p, top);
      if Covers(value, p, top) {
        assert top[..|q|] == top;
        if |p| < |q| { MatchingPathsClash(p, q, top); }
      }
    }
  }

  // Paths that cover a position all end at the same depth.
  lemma OneLength(value: Json, paths: seq<Path>, pos: Position)
    requires Clashless(paths)
    ensures forall p, q :: p in paths && q in paths && Covers(value, p, pos) && Covers(value, q, pos) ==> |p| == |q|
  {
    hide Matches, Clashes, Present;
    forall p, q | p in paths && q in paths && Covers(value, p, pos) && Covers(value, q, pos) ensures |p| == |q| {
      if |p| < |q| { MatchingPathsClash(p, q, pos); }
      if |q| < |p| { MatchingPathsClash(q, p, pos); }
    }
  }

  lemma CoveredAfterFirst(value: Json, next: Json, paths: seq<Path>, pos: Position)
    requires paths != []
    requires forall q :: q in paths[1..] ==> (Covers(next, q, pos) <==> Covers(value, q, pos))
    ensures Covered(value, paths, pos) <==> Covers(value, paths[0], pos) || Covered(next, paths[1..], pos)
    ensures Ends(value, paths, pos)
       <==> (|paths[0]| == |pos| && Covers(value, paths[0], pos)) || Ends(next, paths[1..], pos)
  {
    hide Covers;
    assert forall q :: q in paths <==> q == paths[0] || q in paths[1..];
  }

  lemma ProjectedAfterFirst(value: Json, next: Json, paths: seq<Path>, pos: Position)
    requires paths != [] && Clashless(paths)
    requires LabelAt(next, pos) == Replaced(value, paths[0], pos)
    requires forall q :: q in paths[1..] ==> (Covers(next, q, pos) <==> Covers(value, q, pos))
    ensures Projected(next, paths[1..], pos) == Projected(value, paths, pos)
  {
    hide Clashless, Covers, LabelAt;
    CoveredAfterFirst(value, next, paths, pos);
    if Covers(value, paths[0], pos) {
      OneLength(value, paths, pos);
      assert forall q :: q in paths[1..] ==> q in paths;
    } else {
      hide Ends, Covered;
    }
  }

  /** Replacing all the paths turns every present secret into the placeholder and changes nothing else. */
  lemma {:induction false} ReplaceFieldsChanges(accepts: Json -> bool, value: Json, paths: seq<Path>, pos: Position)
    requires Clashless(paths) && ReplaceFields(accepts, value, paths).Some?
    ensures LabelAt(ReplaceFields(accepts, value, paths).value, pos) == Projected(value, paths, pos)
    decreases |paths|
  {
    if paths != [] {
      hide ReplaceField, Clashes, Covers, LabelAt, Projected, Replaced;
      var next := ReplaceField(accepts, value, paths[0]).value;
      ReplaceFieldsChanges(accepts, next, paths[1..], pos);
      ReplaceFieldChanges(accepts, value, paths[0], pos);
      forall q | q in paths[1..] ensures Covers(next, q, pos) <==> Covers(value, q, pos) {
        CoversKept(accepts, value, paths[0], q, pos);
      }
      ProjectedAfterFirst(value, next, paths, pos);
    }
  }

  // A secret of q that p does not replace stays the same value.
  lemma ValueKept(accepts: Json -> bool, value: Json, p: Path, q: Path, pos: Position)
    requires ReplaceField(accepts, value, p).Some? && !Clashes(p, q) && !Clashes(q, p) && Matches(q, pos)
    requires !(Matches(p, pos) && Present(value, pos))
    ensures Get(ReplaceField(accepts, value, p).value, pos) == Get(value, pos)
  {
    hide ReplaceField, Clashes, LabelOf;
    var next := ReplaceField(accepts, value, p).value;
    forall more ensures LabelAt(next, pos + more) == LabelAt(value, pos + more) {
      var deep := pos + more;
      ReplaceFieldChanges(accepts, value, p, deep);
      if Covers(value, p, deep) {
        assert deep[..|q|] == pos;
        if |p| < |q| { MatchingPathsClash(p, q, deep); }
        if |q| < |p| { MatchingPathsClash(q, p, deep); }
      }
    }
    SameBelow(next, value, pos);
  }

  lemma {:induction false} GetBelow(value: Json, pos: Position, more: Position)
    ensures Get(value, pos + more) == if Get(value, pos).Some? then Get(Get(value, pos).value, more) else None
    decreases |pos|
  {
    if pos == [] {
      assert pos + more == more;
    } else if Child(value, pos[0]).Some? {
      assert (pos + more)[1..] == pos[1..] + more;
      GetBelow(Child(value, pos[0]).value, pos[1..], more);
    }
  }

  lemma SameBelow(a: Json, b: Json, pos: Position)
    requires forall more :: LabelAt(a, pos + more) == LabelAt(b, pos + more)
    ensures Get(a, pos) == Get(b, pos)
  {
    assert LabelAt(a, pos + []) == LabelAt(b, pos + []) && pos + [] == pos;
    if Get(a, pos).Some? {
      forall more ensures LabelAt(Get(a, pos).value, more) == LabelAt(Get(b, pos).value, more) {
        assert LabelAt(a, pos + more) == LabelAt(b, pos + more);
        GetBelow(a, pos, more);
        GetBelow(b, pos, more);
      }
      LabelsDetermine(Get(a, pos).value, Get(b, pos).value);
    }
  }

  lemma BecomesPlaceholder(accepts: Json -> bool, value: Json, p: Path, pos: Position)
    requires ReplaceField(accepts, value, p).Some? && Matches(p, pos) && Present(value, pos)
    ensures Get(ReplaceField(accepts, value, p).value, pos) == Some(PLACEHOLDER)
  {
    hide ReplaceField, Get;
    assert pos[..|p|] == pos;
    ReplaceFieldChanges(accepts, value, p, pos);
  }

  lemma AcceptableKept(accepts: Json -> bool, value: Json, p: Path, q: Path)
    requires accepts(PLACEHOLDER) && ReplaceField(accepts, value, p).Some? && !Clashes(p, q) && !Clashes(q, p)
    ensures Acceptable(accepts, ReplaceField(accepts, value, p).value, q) <==> Acceptable(accepts, value, q)
  {
    hide ReplaceField, Clashes, Matches, Get;
    ReplacesExactlyAcceptable(accepts, value, p);
    forall pos | Matches(q, pos)
      ensures Present(ReplaceField(accepts, value, p).value, pos) <==> Present(value, pos)
      ensures Present(value, pos) ==>
        (accepts(Get(ReplaceField(accepts, value, p).value, pos).value) <==> accepts(Get(value, pos).value))
    {
      if Matches(p, pos) && Present(value, pos) {
        BecomesPlaceholder(accepts, value, p, pos);
      } else {
        ValueKept(accepts, value, p, q, pos);
      }
    }
  }

  /** Whether the whole replacement throws depends on the original document only. */
  lemma {:induction false} ReplacesAllExactlyAcceptable(accepts: Json -> bool, value: Json, paths: seq<Path>)
    requires accepts(PLACEHOLDER) && Clashless(paths)
    ensures ReplaceFields(accepts, value, paths).Some? <==> forall p :: p in paths ==> Acceptable(accepts, value, p)
    decreases |paths|
  {
    if paths != [] {
      hide ReplaceField, Clashes, Acceptable;
      var p, rest := paths[0], paths[1..];
      assert forall q :: q in paths <==> q == p || q in rest;
      ReplacesExactlyAcceptable(accepts, value, p);
      if ReplaceField(accepts, value, p).Some? {
        ReplacesAllExactlyAcceptable(accepts, ReplaceField(accepts, value, p).value, rest);
        forall q | q in rest
          ensures Acceptable(accepts, ReplaceField(accepts, value, p).value, q) <==> Acceptable(accepts, value, q)
        {
          AcceptableKept(accepts, value, p, q);
        }
      }
    }
  }

  /** The order of the paths does not matter, neither for the result nor for whether it throws. */
  lemma OrderDoesNotMatter(accepts: Json -> bool, value: Json, paths: seq<Path>, other: seq<Path>)
    requires accepts(PLACEHOLDER) && Clashless(paths) && forall p :: p in paths <==> p in other
    ensures ReplaceFields(accepts, value, paths) == ReplaceFields(accepts, value, other)
  {
    hide ReplaceFields, Clashes, Covers, Acceptable;
    ReplacesAllExactlyAcceptable(accepts, value, paths);
    ReplacesAllExactlyAcceptable(accepts, value, other);
    var a, b := ReplaceFields(accepts, value, paths), ReplaceFields(accepts, value, other);
    if a.Some? {
      forall pos ensures LabelAt(a.value, pos) == LabelAt(b.value, pos) {
        ReplaceFieldsChanges(accepts, value, paths, pos);
        ReplaceFieldsChanges(accepts, value, other, pos);
      }
      LabelsDetermine(a.value, b.value);
    }
  }

  lemma {:induction false} AllCoversKept(accepts: Json -> bool, value: Json, paths: seq<Path>, q: Path, pos: Position)
    requires ReplaceFields(accepts, value, paths).Some? && forall p :: p in paths ==> !Clashes(p, q)
    ensures Covers(ReplaceFields(accepts, value, paths).value, q, pos) <==> Covers(value, q, pos)
    decreases |paths|
  {
    if paths != [] {
      hide ReplaceField, Clashes, Covers;
      CoversKept(accepts, value, paths[0], q, pos);
      AllCoversKept(accepts, ReplaceField(accepts, value, paths[0]).value, paths[1..], q, pos);
    }
  }

  /** Replacing again changes nothing. */
  lemma ReplacementIdempotent(accepts: Json -> bool, value: Json, paths: seq<Path>)
    requires accepts(PLACEHOLDER) && Clashless(paths) && ReplaceFields(accepts, value, paths).Some?
    ensures var once := ReplaceFields(accepts, value, paths).value;
            ReplaceFields(accepts, once, paths) == Some(once)
  {
    hide ReplaceFields, Clashes, Covers, LabelAt;
    var once := ReplaceFields(accepts, value, paths).value;
    forall p | p in paths ensures Acceptable(accepts, once, p) {
      AcceptableOnce(accepts, value, paths, p);
    }
    ReplacesAllExactlyAcceptable(accepts, once, paths);
    var twice := ReplaceFields(accepts, once, paths).value;
    forall pos ensures LabelAt(twice, pos) == LabelAt(once, pos) {
      ReplaceFieldsChanges(accepts, value, paths, pos);
      ReplaceFieldsChanges(accepts, once, paths, pos);
      forall q | q in paths ensures Covers(once, q, pos) <==> Covers(value, q, pos) {
        AllCoversKept(accepts, value, paths, q, pos);
      }
    }
    LabelsDetermine(twice, once);
  }

  lemma AcceptableOnce(accepts: Json -> bool, value: Json, paths: seq<Path>, p: Path)
    requires accepts(PLACEHOLDER) && Clashless(paths) && ReplaceFields(accepts, value, paths).Some? && p in paths
    ensures Acceptable(accepts, ReplaceFields(accepts, value, paths).value, p)
  {
    hide ReplaceFields, Clashes, Get;
    var once := ReplaceFields(accepts, value, paths).value;
    forall pos | Matches(p, pos) && Present(once, pos) ensures accepts(Get(once, pos).value) {
      assert pos[..|p|] == pos;
      ReplaceFieldsChanges(accepts, value, paths, pos);
      AllCoversKept(accepts, value, paths, p, pos);
      assert Covers(value, p, pos);
    }
  }

  // ----- The known secrets -----

  const KNOWN_SECRETS: seq<Path> := [
    [Key("daemon"), Key("githubToken")],
    [Key("daemon"), Key("githubApplyToken")],
    [Key("daemon"), Key("runnerToken")],
    [Key("daemon"), Key("runnerTokens"), Any],
    [Key("daemon"), Key("pairingToken")],
    [Key("platforms"), Key("lark"), Key("appSecret")],
    [Key("platforms"), Key("slack"), Key("appToken")],
    [Key("platforms"), Key("slack"), Key("signingSecret")],
    [Key("platforms"), Key("slack"), Key("botToken")],
    [Key("platforms"), Key("github"), Key("webhookSecret")],
    [Key("platforms"), Key("gitlab"), Key("token")],
    [Key("platforms"), Key("gitlab"), Key("webhookSecret")],
    [Key("platforms"), Key("linear"), Key("token")],
    [Key("platforms"), Key("linear"), Key("auth"), Key("clientSecret")],
    [Key("platforms"), Key("linear"), Key("auth"), Key("refreshToken")],
    [Key("platforms"), Key("linear"), Key("connections"), Any, Key("token")],
    [Key("platforms"), Key("linear"), Key("webhookSecret")],
    [Key("platforms"), Key("telegram"), Key("botToken")],
    [Key("platforms"), Key("telegram"), Key("secretToken")],
    [Key("platforms"), Key("discord"), Key("botToken")],
    [Key("platforms"), Key("teams"), Key("appPassword")]]

  // Where a known secret lies: the tables of secrets are nowhere themselves secrets.
  ghost predicate Placed(p: Path) {
    || (|p| == 2 && p[0] == Key("daemon") && p[1].Key? && p[1] != Key("runnerTokens"))
    || (|p| == 3 && p[0] == Key("daemon") && p[1] == Key("runnerTokens"))
    || (|p| == 3 && p[0] == Key("platforms") && p[1].Key? && p[2].Key?
        && (p[1] == Key("linear") ==> p[2] != Key("auth") && p[2] != Key("connections")))
    || (|p| == 4 && p[0] == Key("platforms") && p[1] == Key("linear") && p[2] == Key("auth"))
    || (|p| == 5 && p[0] == Key("platforms") && p[1] == Key("linear") && p[2] == Key("connections"))
  }

  lemma KnownSecretsPlaced()
    ensures forall p :: p in KNOWN_SECRETS ==> Placed(p)
  {
    forall i | 0 <= i < |KNOWN_SECRETS| ensures Placed(KNOWN_SECRETS[i]) {
      assert |KNOWN_SECRETS| == 21;
    }
  }

  lemma PlacedNeverClash(p: Path, q: Path)
    requires Placed(p) && Placed(q)
    ensures !Clashes(p, q)
  {
    if |p| < |q| {
      assert "daemon" != "platforms";
      if p[0] == q[0] {
        assert p[1] != q[1] || (|p| == 3 && p[2].Key? && q[2].Key? && p[2] != q[2]) || |p| == 4;
      }
    }
  }

  /** No known secret lies below another. */
  lemma KnownSecretsClashless()
    ensures Clashless(KNOWN_SECRETS)
  {
    hide Placed, Clashes;
    KnownSecretsPlaced();
    forall p, q | p in KNOWN_SECRETS && q in KNOWN_SECRETS ensures !Clashes(p, q) {
      PlacedNeverClash(p, q);
    }
  }

  /**
   Whatever the document, the replacement of the known secrets is one projection: it depends on no order
   of the paths, and doing it twice is doing it once.
   */
  lemma KnownSecretsProjected(accepts: Json -> bool, value: Json, order: seq<Path>)
    requires accepts(PLACEHOLDER) && forall p :: p in KNOWN_SECRETS <==> p in order
    ensures var once := ReplaceFields(accepts, value, KNOWN_SECRETS);
            && ReplaceFields(accepts, value, order) == once
            && (once.Some? <==> forall p :: p in KNOWN_SECRETS ==> Acceptable(accepts, value, p))
            && (once.Some? ==>
                && ReplaceFields(accepts, once.value, KNOWN_SECRETS) == once
                && forall pos :: LabelAt(once.value, pos) == Projected(value, KNOWN_SECRETS, pos))
  {
    hide ReplaceFields, Clashless, Projected, Acceptable, LabelAt;
    hide KNOWN_SECRETS;
    KnownSecretsClashless();
    OrderDoesNotMatter(accepts, value, KNOWN_SECRETS, order);
    ReplacesAllExactlyAcceptable(accepts, value, KNOWN_SECRETS);
    var once := ReplaceFields(accepts, value, KNOWN_SECRETS);
    if once.Some? {
      ReplacementIdempotent(accepts, value, KNOWN_SECRETS);
      forall pos ensures LabelAt(once.value, pos) == Projected(value, KNOWN_SECRETS, pos) {
        ReplaceFieldsChanges(accepts, value, KNOWN_SECRETS, pos);
      }
    }
  }
}
