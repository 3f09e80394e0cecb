/**
 The configuration document and the patch that hosted pairing applies to it.  Only the runtime
 section and a handful of daemon keys are ever replaced.
 */
module ConfigDocument {
  import opened Options

  // Numbers and booleans are literals, kept as their JSON text.
  datatype Json =
    | Object(fields: map<string, Json>)
    | List(items: seq<Json>)
    | Str(text: string)
    | Literal(text: string)
    | Null

  // removePairingToken deletes the pairing token; the runner token is kept, deleted or set.
  datatype TokenChange = KeepToken | DeleteToken | SetToken(token: string)

  datatype Patch = Patch(
    controlRegistration: Json,
    dispatcherUrl: string,
    relayUrl: string,
    relayProvider: Option<string>,
    trustedRelay: Option<Json>,
    removePairingToken: bool,
    runnerToken: TokenChange)

  const PATCHED_DAEMON_KEYS := {"dispatcherUrl", "controlRegistration", "trustedRelay", "pairingToken", "runnerToken"}

  function RuntimeSection(patch: Patch): Json {
    var base := map["mode" := Str("relay"), "relayUrl" := Str(patch.relayUrl)];
    Object(match patch.relayProvider
           case Some(provider) => if provider == "" then base else base["relayProvider" := Str(provider)]
           case None => base)
  }

  function PatchDaemon(daemon: map<string, Json>, patch: Patch): map<string, Json> {
    var d1 := daemon["dispatcherUrl" := Str(patch.dispatcherUrl)]["controlRegistration" := patch.controlRegistration];
    var d2 := if patch.trustedRelay.Some? then d1["trustedRelay" := patch.trustedRelay.value] else d1;
    var d3 := if patch.removePairingToken then d2 - {"pairingToken"} else d2;
    match patch.runnerToken
    case KeepToken => d3
    case DeleteToken => d3 - {"runnerToken"}
    case SetToken(token) => d3["runnerToken" := Str(token)]
  }

  // The patched document; none when the document or its daemon section is not an object, or the
  // runner token is empty.
  function ApplyPatch(doc: Json, patch: Patch): Option<Json> {
    if !doc.Object? || "daemon" !in doc.fields || !doc.fields["daemon"].Object? then None
    else if patch.runnerToken == SetToken("") then None
    else
      var daemon := doc.fields["daemon"].fields;
      Some(Object(doc.fields["runtime" := RuntimeSection(patch)]["daemon" := Object(PatchDaemon(daemon, patch))]))
  }

  // Both documents agree outside the runtime section and the patched daemon keys.
  ghost predicate SameOutsidePatch(a: Json, b: Json) {
    && a.Object? && b.Object?
    && (forall k :: k != "runtime" && k != "daemon" ==> SameAt(a.fields, b.fields, k))
    && "daemon" in a.fields && "daemon" in b.fields && a.fields["daemon"].Object? && b.fields["daemon"].Object?
    && forall k :: k !in PATCHED_DAEMON_KEYS ==> SameAt(a.fields["daemon"].fields, b.fields["daemon"].fields, k)
  }

  ghost predicate SameAt(a: map<string, Json>, b: map<string, Json>, k: string) {
    (k in a <==> k in b) && (k in a ==> a[k] == b[k])
  }

  lemma DaemonFrame(daemon: map<string, Json>, patch: Patch, k: string)
    requires k !in PATCHED_DAEMON_KEYS
    ensures SameAt(daemon, PatchDaemon(daemon, patch), k)
  {}

  /** A patch leaves every field outside the runtime section and the patched daemon keys as it was. */
  lemma PatchFrame(doc: Json, patch: Patch)
    requires ApplyPatch(doc, patch).Some?
    ensures SameOutsidePatch(doc, ApplyPatch(doc, patch).value)
  {
    var daemon := doc.fields["daemon"].fields;
    forall k | k !in PATCHED_DAEMON_KEYS ensures SameAt(daemon, PatchDaemon(daemon, patch), k) {
      DaemonFrame(daemon, patch, k);
    }
  }

  lemma SameOutsidePatchTransitive(a: Json, b: Json, c: Json)
    requires SameOutsidePatch(a, b) && SameOutsidePatch(b, c)
    ensures SameOutsidePatch(a, c)
  {
    forall k | k != "runtime" && k != "daemon" ensures SameAt(a.fields, c.fields, k) {
      assert SameAt(a.fields, b.fields, k) && SameAt(b.fields, c.fields, k);
    }
    var da, db, dc := a.fields["daemon"].fields, b.fields["daemon"].fields, c.fields["daemon"].fields;
    forall k | k !in PATCHED_DAEMON_KEYS ensures SameAt(da, dc, k) {
      assert SameAt(da, db, k) && SameAt(db, dc, k);
    }
  }

  /** Applying a patch again changes nothing, so a retry after an unknown outcome is harmless. */
  lemma PatchIdempotent(doc: Json, patch: Patch)
    requires ApplyPatch(doc, patch).Some?
    ensures ApplyPatch(ApplyPatch(doc, patch).value, patch) == ApplyPatch(doc, patch)
  {
    var daemon := doc.fields["daemon"].fields;
    var once := PatchDaemon(daemon, patch);
    assert PatchDaemon(once, patch) == once;
    var fields := doc.fields["runtime" := RuntimeSection(patch)]["daemon" := Object(once)];
    assert fields["runtime" := RuntimeSection(patch)]["daemon" := Object(once)] == fields;
  }

  // ----- What a patched document holds, key by key -----

  ghost predicate Holds(fields: map<string, Json>, key: string, value: Json) {
    key in fields && fields[key] == value
  }

  // The runtime section: mode, relay and, when there is one, its provider.
  ghost predicate RelayRuntime(runtime: Json, patch: Patch) {
    && runtime.Object?
    && Holds(runtime.fields, "mode", Str("relay"))
    && Holds(runtime.fields, "relayUrl", Str(patch.relayUrl))
    && (match patch.relayProvider
        case None => "relayProvider" !in runtime.fields
        case Some(provider) =>
          if provider == "" then "relayProvider" !in runtime.fields
          else Holds(runtime.fields, "relayProvider", Str(provider)))
    && forall k :: k in runtime.fields ==> k in {"mode", "relayUrl", "relayProvider"}
  }

  // The daemon section before and after.
  ghost predicate PatchedDaemon(before: map<string, Json>, after: map<string, Json>, patch: Patch) {
    && Holds(after, "dispatcherUrl", Str(patch.dispatcherUrl))
    && Holds(after, "controlRegistration", patch.controlRegistration)
    && (match patch.trustedRelay
        case Some(trusted) => Holds(after, "trustedRelay", trusted)
        case None => SameAt(before, after, "trustedRelay"))
    && TokensPatched(before, after, patch)
    && forall k :: k !in {"dispatcherUrl", "controlRegistration", "trustedRelay", "pairingToken", "runnerToken"} ==>
         SameAt(before, after, k)
  }

  // The pairing token is removed exactly when that is asked for; the runner token is kept, removed or set.
  ghost predicate TokensPatched(before: map<string, Json>, after: map<string, Json>, patch: Patch) {
    && (if patch.removePairingToken then "pairingToken" !in after else SameAt(before, after, "pairingToken"))
    && match patch.runnerToken
       case KeepToken => SameAt(before, after, "runnerToken")
       case DeleteToken => "runnerToken" !in after
       case SetToken(token) => Holds(after, "runnerToken", Str(token))
  }

  // The documents before and after a patch.
  ghost predicate Patched(before: Json, after: Json, patch: Patch) {
    && HasDaemon(before) && HasDaemon(after)
    && PatchedDaemon(before.fields["daemon"].fields, after.fields["daemon"].fields, patch)
    && "runtime" in after.fields && RelayRuntime(after.fields["runtime"], patch)
    && forall k :: k != "runtime" && k != "daemon" ==> SameAt(before.fields, after.fields, k)
  }

  predicate HasDaemon(doc: Json) {
    doc.Object? && "daemon" in doc.fields && doc.fields["daemon"].Object?
  }

  lemma DaemonIsPatched(before: map<string, Json>, patch: Patch)
    ensures PatchedDaemon(before, PatchDaemon(before, patch), patch)
  {}

  lemma DaemonDetermined(before: map<string, Json>, a: map<string, Json>, b: map<string, Json>, patch: Patch)
    requires PatchedDaemon(before, a, patch) && PatchedDaemon(before, b, patch)
    ensures a == b
  {
    forall k ensures SameAt(a, b, k) {
      if k !in {"dispatcherUrl", "controlRegistration", "trustedRelay", "pairingToken", "runnerToken"} {
        assert SameAt(before, a, k) && SameAt(before, b, k);
      }
    }
    assert a.Keys == b.Keys by {
      forall k ensures k in a <==> k in b { assert SameAt(a, b, k); }
    }
    forall k | k in a ensures a[k] == b[k] { assert SameAt(a, b, k); }
  }

  lemma RuntimeDetermined(a: Json, b: Json, patch: Patch)
    requires RelayRuntime(a, patch) && RelayRuntime(b, patch)
    ensures a == b
  {
    assert forall k :: k in a.fields <==> k in b.fields;
    assert a.fields == b.fields;
  }

  lemma PatchedDetermined(before: Json, a: Json, b: Json, patch: Patch)
    requires Patched(before, a, patch) && Patched(before, b, patch)
    ensures a == b
  {
    hide PatchedDaemon, RelayRuntime;
    DaemonDetermined(before.fields["daemon"].fields, a.fields["daemon"].fields, b.fields["daemon"].fields, patch);
    RuntimeDetermined(a.fields["runtime"], b.fields["runtime"], patch);
    forall k ensures SameAt(a.fields, b.fields, k) {
      if k != "runtime" && k != "daemon" {
        assert SameAt(before.fields, a.fields, k) && SameAt(before.fields, b.fields, k);
      }
    }
    forall k ensures k in a.fields <==> k in b.fields { assert SameAt(a.fields, b.fields, k); }
    assert a.fields.Keys == b.fields.Keys;
    forall k | k in a.fields ensures a.fields[k] == b.fields[k] { assert SameAt(a.fields, b.fields, k); }
    assert a.fields == b.fields;
  }

  /**
   A patch yields exactly the document that differs as asked, key by key; it is refused exactly when there
   is no daemon section or the runner token to set is empty.
   */
  lemma PatchesExactly(before: Json, patch: Patch, after: Json)
    ensures ApplyPatch(before, patch) == Some(after) <==>
              Patched(before, after, patch) && patch.runnerToken != SetToken("")
    ensures ApplyPatch(before, patch) == None <==> !HasDaemon(before) || patch.runnerToken == SetToken("")
  {
    hide PatchedDaemon, RelayRuntime, PatchDaemon, RuntimeSection;
    if HasDaemon(before) && patch.runnerToken != SetToken("") {
      var made := ApplyPatch(before, patch).value;
      DaemonIsPatched(before.fields["daemon"].fields, patch);
      RuntimeIsRelay(patch);
      assert Patched(before, made, patch);
      if Patched(before, after, patch) {
        PatchedDetermined(before, made, after, patch);
      }
    }
  }

  lemma RuntimeIsRelay(patch: Patch)
    ensures RelayRuntime(RuntimeSection(patch), patch)
  {}
}
