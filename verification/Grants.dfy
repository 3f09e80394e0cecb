/**
 Matching durable grants against material actions.  `stableJson` sorts members with
 `localeCompare`, which is a parameter here: it may rank two different keys as equal.
 */
module Grants {
  import opened Options
  import opened JsonText
  import opened JsonOrder

  function StableJson(localeBefore: KeyOrder, t: Tree): Text {
    TextOf(Arrange(localeBefore, t))
  }

  // ----- When stableJson forgets member order -----

  ghost predicate ForgetsOrder(before: KeyOrder) {
    forall a, b :: WellFormed(a) && WellFormed(b) && Meaning(a) == Meaning(b) ==>
      StableJson(before, a) == StableJson(before, b)
  }

  function Pair(k: Text, l: Text): Tree {
    Obj([Entry(k, Null), Entry(l, Null)])
  }

  lemma PairMeaning(k: Text, l: Text)
    requires k != l
    ensures WellFormed(Pair(k, l)) && Meaning(Pair(k, l)) == JObj(map[k := JNull, l := JNull])
  {
    var ms := MemberMeanings(Pair(k, l).members);
    assert ms == [Entry(k, JNull), Entry(l, JNull)];
    assert ms[1..] == [Entry(l, JNull)];
    assert ToMap(ms[1..]) == map[l := JNull];
  }

  lemma PairKeepsOrder(before: KeyOrder, k: Text, l: Text)
    requires !before(l, k)
    ensures Arrange(before, Pair(k, l)) == Pair(k, l)
  {
    var ms := [Entry(k, Null), Entry(l, Null)];
    assert ArrangeMembers(before, ms) == ms;
    assert ms[1..] == [Entry(l, Null)];
    assert SortBy(before, ms[1..]) == [Entry(l, Null)];
  }

  /** Two keys the comparison cannot rank keep their insertion order in the text. */
  lemma UnrankedKeysKeepOrder(before: KeyOrder, k: Text, l: Text)
    requires k != l && !before(k, l) && !before(l, k)
    ensures Meaning(Pair(k, l)) == Meaning(Pair(l, k))
    ensures StableJson(before, Pair(k, l)) != StableJson(before, Pair(l, k))
  {
    PairMeaning(k, l);
    PairMeaning(l, k);
    assert map[k := JNull, l := JNull] == map[l := JNull, k := JNull];
    PairKeepsOrder(before, k, l);
    PairKeepsOrder(before, l, k);
    TextInjective(Pair(k, l), Pair(l, k));
    assert Pair(k, l).members[0] != Pair(l, k).members[0];
  }

  /** stableJson is independent of insertion order exactly when its comparison tells all keys apart. */
  lemma ForgetsOrderExactlyWhenKeysTellApart(before: KeyOrder)
    requires Consistent(before)
    ensures ForgetsOrder(before) <==> TellsApart(before)
  {
    if TellsApart(before) {
      forall a, b | WellFormed(a) && WellFormed(b) && Meaning(a) == Meaning(b)
        ensures StableJson(before, a) == StableJson(before, b)
      {
        ArrangedUnique(before, a, b);
      }
    }
    if ForgetsOrder(before) {
      forall k, l | k != l ensures before(k, l) || before(l, k) {
        if !before(k, l) && !before(l, k) {
          UnrankedKeysKeepOrder(before, k, l);
          PairMeaning(k, l);
          PairMeaning(l, k);
        }
      }
    }
  }

  // ----- Grants and actions -----

  datatype Grant = Grant(
    runId: Text,
    attemptId: Option<Text>,
    capability: Text,
    resourceScope: Tree,
    expiresAt: Option<Text>,
    revokedAt: Option<Text>,
    constraints: Tree)

  datatype Proposal = Proposal(
    runId: Text,
    attemptId: Text,
    actionId: Option<Text>,
    proposalHash: Option<Text>,
    actionFamily: Text,
    scope: Tree,
    now: Text)

  // record[key] on a JSON object; absent on anything else.
  function Field(t: Tree, key: Text): Option<Tree> {
    if t.Obj? then FindMember(t.members, key) else None
  }

  function FindMember(members: seq<Entry<Tree>>, key: Text): Option<Tree> {
    if members == [] then None
    else if members[0].key == key then Some(members[0].value)
    else FindMember(members[1..], key)
  }

  // White space of String.prototype.trim.
  predicate IsSpace(c: Unit) {
    || 0x09 <= c <= 0x0D || c == 0x20 || c == 0xA0 || c == 0x1680 || 0x2000 <= c <= 0x200A
    || c == 0x2028 || c == 0x2029 || c == 0x202F || c == 0x205F || c == 0x3000 || c == 0xFEFF
  }

  predicate NotBlank(s: Text) {
    exists i :: 0 <= i < |s| && !IsSpace(s[i])
  }

  // typeof a === "string" && a.trim() && typeof b === "string" && b.trim() && a === b
  predicate SameNonBlank(a: Option<Tree>, b: Option<Text>) {
    a.Some? && a.value.Str? && NotBlank(a.value.s) && b == Some(a.value.s)
  }

  predicate Truthy(s: Option<Text>) {
    s.Some? && s.value != []
  }

  // "permissionDecision"
  const PERMISSION_DECISION: Text := [0x70, 0x65, 0x72, 0x6D, 0x69, 0x73, 0x73, 0x69, 0x6F, 0x6E, 0x44, 0x65, 0x63,
                                      0x69, 0x73, 0x69, 0x6F, 0x6E]
  const ACTION_ID: Text := [0x61, 0x63, 0x74, 0x69, 0x6F, 0x6E, 0x49, 0x64]  // "actionId"
  // "proposalHash"
  const PROPOSAL_HASH: Text := [0x70, 0x72, 0x6F, 0x70, 0x6F, 0x73, 0x61, 0x6C, 0x48, 0x61, 0x73, 0x68]
  const ALLOW_ONCE: Tree := Str([0x61, 0x6C, 0x6C, 0x6F, 0x77, 0x5F, 0x6F, 0x6E, 0x63, 0x65])  // "allow_once"
  // "targetConstraints"
  const TARGET_CONSTRAINTS: Text := [0x74, 0x61, 0x72, 0x67, 0x65, 0x74, 0x43, 0x6F, 0x6E, 0x73, 0x74, 0x72, 0x61,
                                      0x69, 0x6E, 0x74, 0x73]
  const REUSE: Text := [0x72, 0x65, 0x75, 0x73, 0x65]  // "reuse"
  const DENY: Tree := Str([0x64, 0x65, 0x6E, 0x79])  // "deny"

  predicate AllowsOnce(grant: Grant) {
    Field(grant.constraints, PERMISSION_DECISION) == Some(ALLOW_ONCE)
  }

  predicate ExactOneShot(grant: Grant, input: Proposal) {
    && AllowsOnce(grant)
    && grant.attemptId.Some? && NotBlank(grant.attemptId.value) && grant.attemptId.value == input.attemptId
    && SameNonBlank(Field(grant.constraints, ACTION_ID), input.actionId)
    && SameNonBlank(Field(grant.constraints, PROPOSAL_HASH), input.proposalHash)
  }

  predicate ActionScopeAllowsRunReuse(scope: Tree) {
    match Field(scope, TARGET_CONSTRAINTS)
    case Some(constraints) => Field(constraints, REUSE) != Some(DENY)
    case None => true
  }

  predicate GrantMatchesAction(before: KeyOrder, grant: Grant, input: Proposal) {
    if !ExactOneShot(grant, input) && !ActionScopeAllowsRunReuse(input.scope) then false
    else if Truthy(grant.revokedAt) then false
    else if Truthy(grant.expiresAt) && !Precedes(input.now, grant.expiresAt.value) then false
    else if grant.runId != input.runId || grant.capability != input.actionFamily then false
    else if Truthy(grant.attemptId) && grant.attemptId.value != input.attemptId then false
    else if AllowsOnce(grant) && !ExactOneShot(grant, input) then false
    else StableJson(before, grant.resourceScope) == StableJson(before, input.scope)
  }

  /** An allow_once grant matches one proposal: whatever it matches agrees on everything but the clock. */
  lemma AllowOnceMatchesOneProposal(before: KeyOrder, grant: Grant, x: Proposal, y: Proposal)
    requires AllowsOnce(grant) && WellFormed(x.scope) && WellFormed(y.scope)
    requires GrantMatchesAction(before, grant, x) && GrantMatchesAction(before, grant, y)
    ensures x.runId == y.runId && x.attemptId == y.attemptId && x.actionId == y.actionId
    ensures x.proposalHash == y.proposalHash && x.actionFamily == y.actionFamily
    ensures Meaning(x.scope) == Meaning(y.scope)
  {
    ArrangedTextInjective(before, x.scope, y.scope);
  }

  /** An action whose scope denies reuse is matched only by a one-shot grant for that very proposal. */
  lemma DeniedReuseNeedsOneShot(before: KeyOrder, grant: Grant, input: Proposal)
    requires WellFormed(grant.resourceScope) && WellFormed(input.scope)
    requires GrantMatchesAction(before, grant, input) && !ActionScopeAllowsRunReuse(input.scope)
    ensures ExactOneShot(grant, input) && Meaning(grant.resourceScope) == Meaning(input.scope)
    ensures !ActionScopeAllowsRunReuse(grant.resourceScope)
  {
    ArrangedTextInjective(before, grant.resourceScope, input.scope);
    ReuseIgnoresOrder(grant.resourceScope, input.scope);
  }

  lemma {:induction false} FindMemberMeaning(members: seq<Entry<Tree>>, key: Text)
    ensures FindMember(members, key).Some? <==> key in ToMap(MemberMeanings(members))
    ensures FindMember(members, key).Some? ==>
              Meaning(FindMember(members, key).value) == ToMap(MemberMeanings(members))[key]
  {
    if members != [] {
      FindMemberMeaning(members[1..], key);
      assert MemberMeanings(members)[1..] == MemberMeanings(members[1..]);
    }
  }

  lemma FieldMeaning(a: Tree, b: Tree, key: Text)
    requires Meaning(a) == Meaning(b)
    ensures Field(a, key).Some? == Field(b, key).Some?
    ensures Field(a, key).Some? ==> Meaning(Field(a, key).value) == Meaning(Field(b, key).value)
  {
    if a.Obj? {
      FindMemberMeaning(a.members, key);
      FindMemberMeaning(b.members, key);
    }
  }

  lemma SameStr(a: Tree, b: Tree, s: Tree)
    requires Meaning(a) == Meaning(b) && s.Str?
    ensures a == s <==> b == s
  {}

  lemma ReuseIgnoresOrder(a: Tree, b: Tree)
    requires Meaning(a) == Meaning(b)
    ensures ActionScopeAllowsRunReuse(a) == ActionScopeAllowsRunReuse(b)
  {
    FieldMeaning(a, b, TARGET_CONSTRAINTS);
    if Field(a, TARGET_CONSTRAINTS).Some? {
      var c, d := Field(a, TARGET_CONSTRAINTS).value, Field(b, TARGET_CONSTRAINTS).value;
      FieldMeaning(c, d, REUSE);
      if Field(c, REUSE).Some? {
        SameStr(Field(c, REUSE).value, Field(d, REUSE).value, DENY);
      }
    }
  }

  // What a grant covers, told without any serializer; an empty text counts as none.
  ghost predicate Covers(grant: Grant, input: Proposal) {
    && (AllowsOnce(grant) || !ActionScopeAllowsRunReuse(input.scope) ==> ExactOneShot(grant, input))
    && (grant.revokedAt == None || grant.revokedAt == Some([]))
    && (grant.expiresAt == None || grant.expiresAt == Some([])
        || SmallerAtFirstDifference(input.now, grant.expiresAt.value))
    && grant.runId == input.runId && grant.capability == input.actionFamily
    && (grant.attemptId == None || grant.attemptId == Some([]) || grant.attemptId == Some(input.attemptId))
    && Meaning(grant.resourceScope) == Meaning(input.scope)
  }

  lemma MatchesOnlyWhatItCovers(before: KeyOrder, grant: Grant, input: Proposal)
    requires WellFormed(grant.resourceScope) && WellFormed(input.scope)
    requires GrantMatchesAction(before, grant, input)
    ensures Covers(grant, input)
  {
    if grant.expiresAt.Some? { PrecedesByFirstDifference(input.now, grant.expiresAt.value); }
    ArrangedTextInjective(before, grant.resourceScope, input.scope);
  }

  lemma MatchesAllItCovers(before: KeyOrder, grant: Grant, input: Proposal)
    requires WellFormed(grant.resourceScope) && WellFormed(input.scope)
    requires Consistent(before) && TellsApart(before) && Covers(grant, input)
    ensures GrantMatchesAction(before, grant, input)
  {
    if grant.expiresAt.Some? { PrecedesByFirstDifference(input.now, grant.expiresAt.value); }
    ArrangedUnique(before, grant.resourceScope, input.scope);
  }

  /** With a comparison that tells keys apart, a grant matches exactly what it covers. */
  lemma MatchesExactlyWhatItCovers(before: KeyOrder, grant: Grant, input: Proposal)
    requires WellFormed(grant.resourceScope) && WellFormed(input.scope)
    requires Consistent(before) && TellsApart(before)
    ensures GrantMatchesAction(before, grant, input) <==> Covers(grant, input)
  {
    if GrantMatchesAction(before, grant, input) {
      MatchesOnlyWhatItCovers(before, grant, input);
    } else if Covers(grant, input) {
      MatchesAllItCovers(before, grant, input);
    }
  }

  // ----- The rules on JSON values -----

  // The value of a member of an object; none for anything else.
  function MemberOf(value: Json, key: Text): Option<Json> {
    if value.JObj? && key in value.members then Some(value.members[key]) else None
  }

  lemma FieldIsMember(t: Tree, key: Text)
    ensures MemberOf(Meaning(t), key) == match Field(t, key) case Some(u) => Some(Meaning(u)) case None => None
  {
    if t.Obj? {
      FindMemberMeaning(t.members, key);
    }
  }

  /** Reuse is refused exactly when "targetConstraints" is an object whose "reuse" is the string "deny". */
  lemma ReuseDeniedExactly(scope: Tree)
    ensures !ActionScopeAllowsRunReuse(scope) <==>
              var target := MemberOf(Meaning(scope), [0x74, 0x61, 0x72, 0x67, 0x65, 0x74, 0x43, 0x6F, 0x6E, 0x73, 0x74,
                                                      0x72, 0x61, 0x69, 0x6E, 0x74, 0x73]);
              && target.Some? && target.value.JObj?
              && MemberOf(target.value, [0x72, 0x65, 0x75, 0x73, 0x65]) == Some(JStr([0x64, 0x65, 0x6E, 0x79]))
  {
    FieldIsMember(scope, TARGET_CONSTRAINTS);
    if Field(scope, TARGET_CONSTRAINTS).Some? {
      FieldIsMember(Field(scope, TARGET_CONSTRAINTS).value, REUSE);
    }
  }

  // The same text in both places, and more than white space.
  predicate Agree(a: Option<Json>, b: Option<Text>) {
    a.Some? && a.value.JStr? && b == Some(a.value.s) && exists i :: 0 <= i < |a.value.s| && !IsSpace(a.value.s[i])
  }

  /**
   A grant is an exact one-shot for a proposal exactly when its constraints say "allow_once" under
   "permissionDecision" and the proposal's own "actionId" and "proposalHash", and the attempt is the
   proposal's, all of them more than white space.
   */
  lemma OneShotExactly(grant: Grant, input: Proposal)
    ensures ExactOneShot(grant, input) <==>
              var constraints := Meaning(grant.constraints);
              && MemberOf(constraints, [0x70, 0x65, 0x72, 0x6D, 0x69, 0x73, 0x73, 0x69, 0x6F, 0x6E, 0x44, 0x65, 0x63,
                                        0x69, 0x73, 0x69, 0x6F, 0x6E])
                 == Some(JStr([0x61, 0x6C, 0x6C, 0x6F, 0x77, 0x5F, 0x6F, 0x6E, 0x63, 0x65]))
              && grant.attemptId == Some(input.attemptId)
              && Agree(Some(JStr(input.attemptId)), grant.attemptId)
              && Agree(MemberOf(constraints, [0x61, 0x63, 0x74, 0x69, 0x6F, 0x6E, 0x49, 0x64]), input.actionId)
              && Agree(MemberOf(constraints, [0x70, 0x72, 0x6F, 0x70, 0x6F, 0x73, 0x61, 0x6C, 0x48, 0x61, 0x73, 0x68]),
                       input.proposalHash)
  {
    FieldIsMember(grant.constraints, PERMISSION_DECISION);
    FieldIsMember(grant.constraints, ACTION_ID);
    FieldIsMember(grant.constraints, PROPOSAL_HASH);
  }
}
