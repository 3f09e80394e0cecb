# Verified model of OpenTag's local protocol core

This project models the parts of OpenTag where a mistake would be silent: the canonical JSON text behind
permission and receipt digests, the hosted pairing protocol, the configuration lock and atomic replace, the
private-key redactor, the service definitions that carry an environment, the mention command parser, the
single-flight OAuth refresh, and the one-shot grant matcher. Each is stated as a Dafny model of what the
TypeScript code does, with the properties that the rest of the system relies on proved for every input, every
run or every interleaving.

`dafny verify dfyconfig.toml` checks the whole project. Nothing here runs the original program.

## What is modelled

| files | subject |
|---|---|
| `JsonText`, `JsonOrder`, `CanonicalJson`, `CanonicalJsonProperties` | the serializer as a walk over a finite graph of references with an `ancestors` set changed in place; JSON text as 16-bit code units, with a reader that inverts it; member order and meaning |
| `Grants` | `stableJson`, the grant matcher and its reuse rule |
| `PrivateKeyRedaction`, `PrivateKeyBlocks` | the two-cursor scan, the backward pass and the emitting pass, against a reference that reads one position at a time; key blocks as they are written |
| `HostedPairing`, `HostedPairingClient`, `HostedPairingGuards`, `HostedPairingProperties`, `HostedPairingProgress` | one `pair` run as a function of disk, server and faults; the command that does it step by step; what a run may do; safety and progress over all runs |
| `ConfigDocument`, `ConfigWriters`, `ConfigFile` | the hosted patch; any number of writers interleaved one filesystem operation at a time; one writer's code with every operation able to fail |
| `SecretPaths` | the replacement of known secrets in a raw configuration |
| `CommandText`, `CommandFlags` | the tokenizer automaton; the flag consumer and its scalar-or-array store |
| `OAuthTokens` | the refresh provider as a state machine over calls, answers and settlements, and as a class |
| `Strings`, `ServiceEscapes`, `LaunchAgent`, `LaunchAgentFields`, `SystemdUnit`, `SystemdUnitFields` | global replacement, the two escaping schemes, the two printers, the readers of the environment, and readers of the other values |
| `Common` | options, sequences, character classes, key and value entries |

## What is assumed of the environment

- Operation ids come from `randomUUID` and never repeat: `Fresh` says so of each run. `pair` runs are
  sequential, because the plan is computed outside the lock; nothing is claimed of two `pair` commands at once.
- The pairing server performs an operation once, answers a repeat with the same metadata and no token, refuses
  a second registration, and reprovisions by compare-and-set on credential id and generations
  (`apps/control-plane/src/modules/runners/index.ts:160-288` and `325-501`). An error reply leaves the disk as
  it was, and so does a client that dies waiting; the latter covers a server that acted and then failed. A
  runner id, runner token or pairing token made of white space counts as missing, as in the code.
- Exclusive creation and rename are atomic, and a rename that reports an error did nothing. A removal that
  reports an error may have removed the file; a failed write may leave anything in the file written. Nobody
  deletes a lock by hand.
- Parsing, printing and validating a configuration document are parameters of the file model, and so is the
  schema that accepts a raw secret. The only thing asked of the latter is that it accepts the placeholder.
- `localeCompare` is a parameter: any comparison of keys. What holds without an assumption about it and what
  needs one is stated separately.
- Numbers in JSON are their printed text, so `-0` and `0` are the same number. How the flag parser's numbers
  print is a parameter, any function that never prints nothing. Lower-casing is that of ASCII. Times are whole
  milliseconds.

## What the proofs found in the code

- **A mistyped recovery id cannot be undone.** `pair --recover <id>` accepts any id in a recovery-required
  state, writes it as the pending reprovision before asking the server, and from then on refuses every other
  id. The server will never accept that one, so the configuration can never be paired again.
  `CanBePairedExactly` proves that pairing can be completed exactly when no such recovery is pending;
  `WrongRecoveryStartsExactly` gives the exact condition under which a run starts one;
  `WrongRecoveryExample` is a concrete dead end. (`packages/cli/src/pair.ts:363-403`)
- **`--network` reads its first value**, while the duplicate warning says that the last value is
  authoritative. `NetworkFollowsWarning` proves, for every command, that the two agree exactly when the first
  and the last value given are the same up to case and surrounding white space; `NetworkIgnoresLastValue` is a
  command on which they do not. (`packages/core/src/mention.ts:88`, `316`)
- **`stableJson` depends on insertion order for keys that `localeCompare` calls equal**, such as canonically
  equivalent Unicode spellings. `ForgetsOrderExactlyWhenKeysTellApart` proves that it forgets the order exactly
  when the comparison tells all keys apart. Such a collision makes a grant fail to match, never match too much:
  `MatchesOnlyWhatItCovers` needs no assumption. (`packages/core/src/action.ts:110-119`)
- **A lock can be left behind for good**, by a writer that dies with it and also by one that finishes after its
  removal of the lock failed. `LockCanBeFreedExactly` proves that the lock can come free exactly when its owner
  is still at work; otherwise every later write fails until the lock is deleted by hand, as the error message
  of the code announces. (`packages/cli/src/config.ts:805-829`, `907-921`)
- **An expiry beyond the range of dates loses a refresh half-way**: both tokens are replaced, then the code
  throws before it records the expiry or persists anything, and every caller is rejected. The next refresh
  still sends the newest token (`RefreshSendsNewestToken`). (`packages/cli/src/start.ts:685-727`)

## Model

| member | source | states |
|---|---|---|
| JsonText.ParseInverts | packages/control-protocol/src/canonical-json.ts:9-14 | every printed value, whatever legal text follows it, is read back as the same tree with exactly that text left over: the printed form is self-delimiting |
| JsonText.ReadQuotedInverts | packages/control-protocol/src/canonical-json.ts:10-12 | quoting a string of any code units, lone surrogates and control characters included, loses nothing |
| JsonText.TextInjective | packages/control-protocol/src/canonical-json.ts:22-52 | two different trees never have the same text |
| JsonText.EscapesUnit | packages/control-protocol/src/canonical-json.ts:10-12 | the text of each string unit, written out: the seven short escapes, \u00 and two hex digits for other controls, \ud and three for lone surrogates, every other unit itself |
| JsonText.EscapesPiecewise | packages/control-protocol/src/canonical-json.ts:10-12 | strings are escaped piece by piece, wherever no surrogate pair is cut |
| JsonText.KeepsPairs | packages/control-protocol/src/canonical-json.ts:10-12 | a surrogate pair is kept as it is |
| JsonText.ArraysPrintCompactly | packages/control-protocol/src/canonical-json.ts:36-36 | arrays print their items between brackets with single commas and no white space |
| JsonText.ObjectsPrintCompactly | packages/control-protocol/src/canonical-json.ts:45-52 | objects print quoted keys, colons and values between braces with single commas and no white space |
| JsonOrder.PrecedesByFirstDifference | packages/control-protocol/src/canonical-json.ts:1-3 | one key comes before another exactly when, at the first place where they differ, it has ended or has the smaller code unit |
| JsonOrder.CodeUnitOrder | packages/control-protocol/src/canonical-json.ts:1-3 | comparison by code units is a strict total order on keys |
| JsonOrder.SortPermutes | packages/control-protocol/src/canonical-json.ts:40-42 | sorting the entries neither loses, adds nor changes one |
| JsonOrder.SortIncreasing | packages/control-protocol/src/canonical-json.ts:40-42 | the sorted entries are strictly increasing in the comparison used |
| JsonOrder.IncreasingUnique | packages/control-protocol/src/canonical-json.ts:40-42 | a set of members has only one strictly increasing listing |
| JsonOrder.SortRelated | packages/control-protocol/src/canonical-json.ts:41-49 | sorting first and serializing members afterwards is serializing first and sorting afterwards |
| JsonOrder.ArrangeKeepsMeaning | packages/control-protocol/src/canonical-json.ts:41-49 | reordering members at every level, by any comparison, keeps the JSON value |
| JsonOrder.ArrangedUnique | packages/control-protocol/src/canonical-json.ts:41-49 | values equal up to member order have the same arranged tree when the comparison tells all keys apart |
| JsonOrder.CanonicalAscends | packages/control-protocol/src/canonical-json.ts:41-49 | in a canonical tree the members of every object ascend by the first difference of their keys |
| JsonOrder.ArrangedTextInjective | packages/core/src/action.ts:110-119 | whatever the comparison of keys, different JSON values have different texts |
| JsonOrder.CanonicalTextDecidesEquality | packages/control-protocol/src/canonical-json.ts:58-66 | two JSON values have the same canonical text if and only if they are equal up to member order |
| JsonOrder.CanonicalTextReadsBack | packages/control-protocol/src/canonical-json.ts:9-56 | a canonical text is read back with nothing left over as the same JSON value, its members ascending at every level |
| CanonicalJson.SerializeCanonicalJson | packages/control-protocol/src/canonical-json.ts:9-56 | the walk terminates on every graph, returns the canonical text of the tree the graph unfolds to or rejects when there is none, and leaves `ancestors` as it found it on success and on throw |
| CanonicalJson.SerializeSlots | packages/control-protocol/src/canonical-json.ts:22-29 | the element loop prints the array of unfolded elements, rejecting holes, accessors and hidden elements, and restores `ancestors` |
| CanonicalJson.SerializeProperties | packages/control-protocol/src/canonical-json.ts:38-52 | visiting properties in sorted order prints the sorted object of unfolded members, rejecting accessors and hidden members, and restores `ancestors` |
| CanonicalJson.CanonicalJsonStringify | packages/control-protocol/src/canonical-json.ts:64-66 | what it prints is the canonical text of the unfolding from no ancestors, and reads back with nothing left over as that JSON value with the members of every object ascending by code units |
| CanonicalJsonProperties.UnfoldExact | packages/control-protocol/src/canonical-json.ts:9-56 | the walk yields a tree exactly when the graph stands for that tree by a definition that knows no ancestor set: sharing never changes the result |
| CanonicalJsonProperties.SerializesExactlyFiniteTrees | packages/control-protocol/src/canonical-json.ts:5-7 | the serializer succeeds exactly when every value reachable along any path is valid and no path meets an object twice |
| CanonicalJsonProperties.RejectsExactlyFlaws | packages/control-protocol/src/canonical-json.ts:13-41 | it rejects exactly when some path leads to an undefined, infinite or other non-data value, an array with a hole, accessor, hidden element, symbol or extra name, or an object with an accessor, hidden member, symbol or foreign prototype, or meets an object again |
| CanonicalJsonProperties.ScalarsPrintAs | packages/control-protocol/src/canonical-json.ts:10-16 | null, true and false, finite numbers and strings print as their JSON text |
| CanonicalJsonProperties.TextDecidesEquality | packages/control-protocol/src/canonical-json.ts:58-66 | two accepted graphs, with any sharing and insertion order, get the same text exactly when they stand for the same JSON value |
| Grants.ForgetsOrderExactlyWhenKeysTellApart | packages/core/src/action.ts:110-119 | stableJson is independent of insertion order if and only if its key comparison tells all keys apart |
| Grants.UnrankedKeysKeepOrder | packages/core/src/action.ts:113-114 | two keys the comparison cannot rank give one JSON value two different texts |
| Grants.AllowOnceMatchesOneProposal | packages/core/src/action.ts:121-142 | any two inputs matched by one allow_once grant agree on run, attempt, action id, proposal hash, capability and scope up to member order |
| Grants.DeniedReuseNeedsOneShot | packages/core/src/action.ts:129-135 | an action whose scope denies reuse is matched only by an exact one-shot grant for that proposal and scope |
| Grants.ReuseIgnoresOrder | packages/core/src/action.ts:144-148 | whether a scope allows reuse depends on its JSON value, not on member order |
| Grants.ReuseDeniedExactly | packages/core/src/action.ts:144-148 | reuse is refused exactly when the scope's targetConstraints is an object whose reuse is the string deny |
| Grants.OneShotExactly | packages/core/src/action.ts:125-134 | a grant is an exact one-shot exactly when its constraints say allow_once and name the proposal's action id and hash, and its attempt is the proposal's, all more than white space |
| Grants.MatchesOnlyWhatItCovers | packages/core/src/action.ts:121-142 | a matching grant covers the input field by field, not revoked and not expired by code-unit order of the times, for every key comparison |
| Grants.MatchesAllItCovers | packages/core/src/action.ts:121-142 | a grant that covers the input matches it when the comparison tells keys apart |
| Grants.MatchesExactlyWhatItCovers | packages/core/src/action.ts:121-142 | under such a comparison matching and covering are the same |
| PrivateKeyRedaction.BoundaryAtExact | packages/control-protocol/src/credential-safety.ts:25-31 | at an occurrence of a prefix the code accepts exactly a prefix, a label of the allowed alphabet ending in PRIVATE KEY, and five dashes, and returns its exact extent |
| PrivateKeyRedaction.PrivateKeyBoundaries | packages/control-protocol/src/credential-safety.ts:33-48 | the two-cursor loop terminates and returns exactly what a scanner trying every position from left to right returns |
| PrivateKeyRedaction.Scan | packages/control-protocol/src/credential-safety.ts:33-48 | the boundaries are strictly increasing, disjoint and inside the text |
| PrivateKeyRedaction.NextEnds | packages/control-protocol/src/credential-safety.ts:52-57 | the backward pass fills in, for each boundary, what a forward search for the first later END boundary finds |
| PrivateKeyRedaction.FirstEnd | packages/control-protocol/src/credential-safety.ts:53-57 | the search finds the first END boundary, and none exactly when there is none |
| PrivateKeyRedaction.RedactPrivateKeyMaterial | packages/control-protocol/src/credential-safety.ts:50-77 | the output is the text outside each BEGIN-to-next-END or BEGIN-to-end-of-text span, in order, with one placeholder per span |
| PrivateKeyRedaction.RedactionIsKept | packages/control-protocol/src/credential-safety.ts:50-77 | the three passes compute what a one-pass, two-state redactor computes |
| PrivateKeyRedaction.RedactionIsFixpoint | packages/control-protocol/src/credential-safety.ts:84-86 | the scanner finds no BEGIN boundary in redacted text, and redacting it again changes nothing |
| PrivateKeyRedaction.UntouchedExactlyWithoutBegin | packages/control-protocol/src/credential-safety.ts:84-86 | a text is left as it is if and only if the scanner finds no BEGIN boundary in it |
| PrivateKeyBlocks.LabelsExactly | packages/control-protocol/src/credential-safety.ts:16-23 | a label names a private key exactly when it is spaces, digits and capitals followed by PRIVATE KEY |
| PrivateKeyBlocks.RedactsKeyBlock | packages/control-protocol/src/credential-safety.ts:50-77 | a block from BEGIN to END of any such labels, written out, is replaced by the placeholder and the text around it is kept |
| PrivateKeyBlocks.RedactsOnlyPrivateKeys | packages/control-protocol/src/credential-safety.ts:50-77 | an opening boundary hides everything after it exactly when its label names a private key; with any other label the text is left alone |
| HostedPairingClient.PairingSession.WriteHostedState | packages/cli/src/pair.ts:155-208 | a write that takes effect installs control state and trust together with the token changes; it succeeds only when the write was confirmed, and the readback comparison then never disagrees |
| HostedPairingClient.PairingSession.PersistStageThenPair | packages/cli/src/pair.ts:224-262 | the credential is staged with the pairing token gone before it is marked paired, whatever write fails |
| HostedPairingClient.PairingSession.Mutate | packages/client/src/index.ts:1896-1946 | a mutation leaves with the control state then on disk; the server acts or not and the reply arrives or not |
| HostedPairingClient.PairingSession.MarkOutcomeUnknown | packages/cli/src/pair.ts:713-733 | a failed mutation keeps the operation and records that its outcome is unknown |
| HostedPairingClient.PairingSession.RunHostedPair | packages/cli/src/pair.ts:614-760 | the run does to disk and server exactly what the protocol step says, for every pattern of faults |
| HostedPairingClient.PairingSession.FinalizeStagedHostedPair | packages/cli/src/pair.ts:762-781 | finalizing writes the paired state with the staged token and nothing else |
| HostedPairingClient.PairingSession.RunPairCommand | packages/cli/src/pair.ts:782-840 | one command does to configuration and server what one run of the protocol does; it keeps the protocol invariant and the trusted origin, and leaves a paired configuration alone |
| HostedPairingProperties.PlannedFits | packages/cli/src/pair.ts:287-437 | a plan keeps the pending operation, or starts a new one only from an unregistered or recovery-required state, and keeps the persisted trust |
| HostedPairingGuards.PlansExactly | packages/cli/src/pair.ts:287-437 | in every control state, exactly when a run is legacy, refused or hosted, by the command line and the configuration, and which trust its plan carries |
| HostedPairingGuards.HostedPlanAims | packages/cli/src/pair.ts:336-437 | what a hosted plan sets out to do in each control state |
| HostedPairingGuards.ChangesExactly | packages/cli/src/pair.ts:782-840 | a run changes something exactly when it is accepted and its first write takes effect |
| HostedPairingGuards.TrustsOnlyTheNamedRelay | packages/cli/src/pair.ts:308-331 | trust is first written only for the origin that the command names and that is the relay's own; a run that changes anything allows registration and uses the relay whose origin is then trusted |
| HostedPairingGuards.TrustNeedsConsent | packages/cli/src/pair.ts:308-331 | over any runs, an origin trusted in the end was named by one of the commands, for its own relay |
| HostedPairingGuards.SendsExactly | packages/cli/src/pair.ts:627-712 | a run sends a request exactly when it is accepted, not staged, its write was confirmed, the capability is there and the credential at hand; it is one request, with the operation, runner, credential id and generations on disk |
| HostedPairingGuards.RepliesAreRecorded | packages/cli/src/pair.ts:713-758 | what a run leaves for every way its request ends: lost, refused, died, conflicting, created, replayed, or answered with an unexpected identity or generation |
| HostedPairingProperties.ServeInv | packages/client/src/index.ts:1428-1467 | in every invariant state an accepted reply names the server's current runner, a fresh one carries the token issued for it, and its generations are the ones the client expects |
| HostedPairingProperties.RunInv | packages/cli/src/pair.ts:614-760 | every run, cut short anywhere, keeps the protocol invariant |
| HostedPairingProperties.CredentialsMatchServer | packages/cli/src/pair.ts:224-273 | after any runs a staged or paired configuration holds exactly the server's current metadata and the token issued for it, and a recovery-required one holds the current metadata and neither token |
| HostedPairingProperties.OneOperationPerSlot | packages/cli/src/pair.ts:627-712 | every request leaves after its operation id was written and read back, and at most one id is ever sent for the initial registration and one per recovered generation |
| HostedPairingProperties.EveryWriteFollows | packages/cli/src/pair.ts:224-273 | over any runs every write is a step of the pairing lifecycle: paired is written only over that very credential staged, staged only over its pending operation and without the pairing token, recovery-required without either token |
| HostedPairingProperties.TrustStays | packages/cli/src/pair.ts:315-331 | once written, the trusted relay authorization is the same after any runs |
| HostedPairingProperties.PairedIsAbsorbing | packages/cli/src/pair.ts:405-422 | no sequence of runs changes a paired configuration or sends anything from it |
| HostedPairingProperties.StagedFinishesLocally | packages/cli/src/pair.ts:336-361 | from a staged state no sequence of runs uses the network |
| HostedPairingProgress.UnansweredPairs | packages/cli/src/pair.ts:614-760 | when the server has not performed the pending operation, one undisturbed run pairs |
| HostedPairingProgress.AnsweredRecovers | packages/cli/src/pair.ts:737-748 | when it has, one undisturbed run reaches recovery-required |
| HostedPairingProgress.TwoRunsPair | packages/cli/src/pair.ts:737-781 | two undisturbed runs pair from every invariant state in which no recovery is pending for the wrong credential |
| HostedPairingProgress.WrongRecoveryStays | packages/cli/src/pair.ts:363-383 | a recovery pending for the wrong credential stays pending under every command and every fault |
| HostedPairingProgress.CanBePairedExactly | packages/cli/src/pair.ts:363-403 | some sequence of runs completes the pairing if and only if no recovery is pending for the wrong credential |
| HostedPairingProgress.WrongRecoveryStartsExactly | packages/cli/src/pair.ts:384-403 | a run starts such a recovery if and only if the configuration is recovery-required, the command passes another id than its registration's, allows registration and names the trusted origin and no other, and the first write takes effect |
| HostedPairingProgress.WrongRecoveryExample | packages/cli/src/pair.ts:384-403 | three runs that lead from a fresh configuration to one that can never be paired: a lost reply, a retry, a mistyped id |
| ConfigDocument.PatchFrame | packages/cli/src/config.ts:1164-1193 | a hosted patch leaves every field outside the runtime section and the patched daemon keys as it was |
| ConfigDocument.PatchIdempotent | packages/cli/src/config.ts:1164-1193 | applying a patch again, as a retry does, changes nothing |
| ConfigDocument.PatchesExactly | packages/cli/src/config.ts:1171-1193 | a patch yields exactly the document that differs as asked, key by key: the runtime section, the three set keys, the pairing token removed exactly on request, the runner token kept, removed or set; it is refused exactly without a daemon section or for an empty runner token |
| ConfigFile.InstalledTokens | packages/cli/src/config.ts:1179-1183 | read back after a successful hosted write, the file has the pairing token exactly when it was there and removal was not asked for, and the runner token as asked |
| ConfigWriters.StepInv | packages/cli/src/config.ts:889-1007 | every filesystem operation of every writer, succeeding, failing or dying, keeps the lock, file and history invariant |
| ConfigWriters.MutualExclusion | packages/cli/src/config.ts:889-953 | in every reachable state at most one writer is between lock creation and lock removal |
| ConfigWriters.AlwaysSerial | packages/cli/src/config.ts:955-1007 | the file always holds one complete document: the initial one with the requests whose rename took effect applied one after another, each once, in lock order |
| ConfigWriters.OutcomesAreTruthful | packages/cli/src/config.ts:926-952 | under all interleavings, by the log of what a writer performed: returned exactly when everything worked, with every operation done in order; unknown outcome exactly when something failed and the rename had worked; ordinary error exactly when the document was never installed |
| ConfigWriters.WholeWay | packages/cli/src/config.ts:889-1007 | the operations of a write on which nothing fails, listed in order |
| ConfigWriters.PatchesKeepTheRest | packages/cli/src/config.ts:1164-1199 | after any interleaving of hosted writes the document agrees with the initial one outside the patched keys |
| ConfigWriters.LockCanBeFreedExactly | packages/cli/src/config.ts:902-952 | from a reachable state some schedule frees the lock if and only if it is free or its owner is a live holder; otherwise neither lock nor file ever changes |
| ConfigWriters.BothWaysOfBlocking | packages/cli/src/config.ts:805-829 | two concrete schedules that block: the holder dies, and the holder finishes after its removal failed |
| ConfigFile.FileSystem.FsyncDirectory | packages/cli/src/config.ts:1038-1065 | succeeds exactly when opening, syncing and closing the directory all do, and then it has done all three, in order |
| ConfigFile.FileSystem.ReleaseConfigLock | packages/cli/src/config.ts:805-829 | reports no error exactly when closing, removing and syncing all succeed, and then the lock is gone; it attempts the removal in every case and never touches the configuration |
| ConfigFile.FileSystem.AcquireLock | packages/cli/src/config.ts:894-924 | succeeds exactly when every operation does; fails without any effect when the lock exists; gives up a lock that it created and could not record |
| ConfigFile.FileSystem.WriteTemp | packages/cli/src/config.ts:961-971 | the temporary file is written, synced and closed in order, and the first failure stops and is reported |
| ConfigFile.FileSystem.ReplaceConfigFileDurably | packages/cli/src/config.ts:955-1007 | succeeds exactly when nothing fails, after syncing the file before and the directory behind the rename and validating what it read back; reports an unknown outcome exactly when something fails after the rename; otherwise the configuration is untouched and the temporary file given up |
| ConfigFile.FileSystem.PreparePatch | packages/cli/src/config.ts:1169-1194 | reads, parses, patches and validates, stopping at the first failure, and yields the text of the document that differs from the one held as the patch asks, key by key |
| ConfigFile.FileSystem.RunOperation | packages/cli/src/config.ts:1169-1198 | the file then holds the whole new content, or the document held before changed as the patch asks, key by key, with the same three endings, each decided by what failed |
| ConfigFile.FileSystem.WithCliConfigLock | packages/cli/src/config.ts:889-953 | for every pattern of failures, by a journal of what was performed: it returns exactly when nothing failed, having performed every operation in order; it reports an unknown outcome exactly when something failed and the rename had happened, which it does only after everything before succeeded; any other error leaves the file unchanged; a lock it created it tries to remove, and another writer's lock it never touches |
| SecretPaths.ReplaceFieldChanges | packages/cli/src/config.ts:1093-1123 | replacing one path turns the present non-null values at its ends into the placeholder and leaves every other position of the tree as it was |
| SecretPaths.ReplacesExactlyAcceptable | packages/cli/src/config.ts:1098-1101 | it throws exactly when some present value on the path is not an acceptable secret |
| SecretPaths.ReplaceFieldsChanges | packages/cli/src/config.ts:1125-1130 | folding over all paths changes exactly the present secrets, position by position |
| SecretPaths.ReplacesAllExactlyAcceptable | packages/cli/src/config.ts:1125-1130 | whether the fold throws depends on the original document only |
| SecretPaths.OrderDoesNotMatter | packages/cli/src/config.ts:1125-1130 | the result and whether it throws are independent of the order of the paths |
| SecretPaths.ReplacementIdempotent | packages/cli/src/config.ts:1125-1130 | folding again changes nothing |
| SecretPaths.KnownSecretsClashless | packages/cli/src/config.ts:1069-1091 | no path of the actual list ends above an end of another, which is what the fold needs |
| SecretPaths.KnownSecretsProjected | packages/cli/src/config.ts:1069-1130 | for the actual list, on every document: order-independent, idempotent, throwing exactly on an unacceptable secret, and changing exactly the present secrets |
| CommandText.TokenizeCommand | packages/core/src/mention.ts:199-260 | the loop computes the automaton: its tokens, and one diagnostic when a quote is left open |
| CommandText.SplitsAtSpace | packages/core/src/mention.ts:199-260 | tokenizing a text split at white space outside quotes and escapes is the concatenation of the two token lists |
| CommandText.WrittenTokensReadBack | packages/core/src/mention.ts:199-260 | any non-empty tokens, each written in stretches that are plain, escaped character by character or quoted, and separated by any white space, tokenize back to exactly that list with no diagnostic |
| CommandText.PlainTextTokens | packages/core/src/mention.ts:206-249 | a text without quotes and backslashes tokenizes to its maximal runs of characters other than white space, in order, and to nothing else |
| CommandText.LoneBackslashStays | packages/core/src/mention.ts:243-245 | a backslash at the very end stands for itself |
| CommandText.OpenQuoteKeepsText | packages/core/src/mention.ts:251-257 | a quote left open keeps the text after it as one token and is reported |
| CommandText.ProducibleLists | packages/core/src/mention.ts:243-249 | a list of tokens is the result for some text if and only if it holds no empty token |
| CommandFlags.EveryTokenUsedOnce | packages/core/src/mention.ts:262-324 | every token is used exactly once and in order: as prompt word, flag, flag value, reported empty flag or skipped empty token |
| CommandFlags.FlagTextReads | packages/core/src/mention.ts:278-281 | a flag is named by the text before its first equals sign and its value is the text after it |
| CommandFlags.PartsReadBack | packages/core/src/mention.ts:262-324 | a command written part by part, as words, flags with values after an equals sign or in the next token, and bare flags, is taken apart into those words, names and values in order |
| CommandFlags.NumeralsExactly | packages/core/src/mention.ts:330-334 | a value is a number exactly when it is an optional minus sign, digits, and optionally a point and digits |
| CommandFlags.TrimsBothEnds | packages/core/src/mention.ts:326-331 | trimming takes exactly the white space at both ends |
| CommandFlags.WordsAreSpaced | packages/core/src/mention.ts:323-323 | prompt words are joined with single spaces |
| CommandFlags.CommandParser.AppendFlagValue | packages/core/src/mention.ts:340-349 | appending adds the value at the end of that name's list, across the step from scalar to array, and changes no other name |
| CommandFlags.CommandParser.ReportFlag | packages/core/src/mention.ts:292-319 | a flag is reported as unknown or as a duplicate exactly where it is, in order |
| CommandFlags.CommandParser.RecordFlag | packages/core/src/mention.ts:292-320 | recording a flag appends its value and its warnings to what the earlier tokens left |
| CommandFlags.CommandParser.ParseCommandTokens | packages/core/src/mention.ts:262-324 | the lookahead loop leaves each name's values in order of occurrence as valuesForFlag reads them and the diagnostics in order, and returns the prompt words joined and trimmed |
| CommandFlags.DuplicateWarnings | packages/core/src/mention.ts:312-319 | a flag is reported as a duplicate once for every occurrence after its first if it takes a single value, and else never |
| CommandFlags.UnknownWarnings | packages/core/src/mention.ts:292-299 | every occurrence of a flag that is none of the twelve known ones is reported as unknown, and no other |
| CommandFlags.ReadingsOfCommand | packages/core/src/mention.ts:435-471 | in any command --approval and --executor read the last value given that is more than white space, and --network the first, lower-cased |
| CommandFlags.LaterValue | packages/core/src/mention.ts:435-471 | flags appended to any command replace every reading that they give a value for, but never that of --network |
| CommandFlags.NetworkFollowsWarning | packages/core/src/mention.ts:88-96 | in any command the reading of --network agrees with the last value, as its duplicate warning says, if and only if the first and the last value given are the same up to case and surrounding white space; where it disagrees the warning was given |
| CommandFlags.NetworkIgnoresLastValue | packages/core/src/mention.ts:312-319 | the command `--network restricted --network open`: exactly one duplicate warning, and the reading is restricted |
| OAuthTokens.TokenProvider.GetToken | packages/cli/src/start.ts:766-774 | a call returns the cached token only when no refresh is due, and otherwise waits for the one refresh in flight, starting it if there is none |
| OAuthTokens.TokenProvider.TakeResponse | packages/cli/src/start.ts:685-727 | a response replaces both tokens first, then expiry and scopes; an expiry that no date can hold leaves those two as they were and throws |
| OAuthTokens.TokenProvider.PersistRefreshedToken | packages/cli/src/start.ts:721-755 | an answer updates the variables before persisting, and the promise holds its token or, when the expiry or the persisting throws, a rejection |
| OAuthTokens.TokenProvider.RefreshFailed | packages/cli/src/start.ts:757-764 | a failed refresh changes no token and rejects the callers |
| OAuthTokens.TokenProvider.ClearInFlight | packages/cli/src/start.ts:770-772 | settling only makes room for the next refresh |
| OAuthTokens.TokenProvider.Resume | packages/cli/src/start.ts:770-773 | a waiting call resumes with what the promise of its refresh holds |
| OAuthTokens.AtMostOneOutstanding | packages/cli/src/start.ts:766-774 | over every interleaving at most one refresh is unanswered, and it is the one in flight |
| OAuthTokens.RefreshSendsNewestToken | packages/cli/src/start.ts:721-764 | each refresh sends the newest refresh token received so far, even when persisting it failed |
| OAuthTokens.CachedTokenIsLive | packages/cli/src/start.ts:690-694 | a cached token is the newest one received, and is returned only when its expiry lies beyond now plus the skew |
| OAuthTokens.RecordsWhatWasTold | packages/cli/src/start.ts:685-727 | over any events the recorded expiry is the arrival time plus the seconds that the newest response to tell them told, and the scope the newest one told |
| OAuthTokens.ServedExactlyWhileLive | packages/cli/src/start.ts:690-774 | a call is served the newest token without a refresh exactly while that expiry lies beyond now plus the skew; otherwise it waits for one refresh, sent now if none is in flight |
| OAuthTokens.ResolvesExactly | packages/cli/src/start.ts:721-755 | a refresh gives its callers the response's token exactly when its expiry is a date and persisting does not throw |
| OAuthTokens.NothingIsReplaced | packages/cli/src/start.ts:766-774 | over any events an answer and its promise are never replaced, and a waiting call keeps its refresh and what it got |
| OAuthTokens.CallersGetOneOutcome | packages/cli/src/start.ts:766-774 | every call got a cached token or waits for one refresh; whatever a caller got is the outcome of that refresh's one answer, so any two callers of a refresh got the same |
| OAuthTokens.CallStaysWithRefresh | packages/cli/src/start.ts:766-774 | a call that needs a refresh joins the one in flight and sends nothing, or sends the only one; it never joins one that had settled, stays with it whatever follows, and gets its outcome |
| ServiceEscapes.UnescapeXmlInverts | packages/cli/src/service.ts:169-185 | the unescaping chain of replacements undoes the escaping chain, for every text |
| ServiceEscapes.EscapedHasNoTag | packages/cli/src/service.ts:169-176 | escaped text holds no tag delimiter |
| ServiceEscapes.XmlEscapesEach | packages/cli/src/service.ts:169-176 | XML text is escaped character by character, each of the five by its own entity |
| ServiceEscapes.EscapeSystemdEncodes | packages/cli/src/service.ts:243-245 | the four replacements together encode each character on its own |
| ServiceEscapes.SystemdEscapesEach | packages/cli/src/service.ts:243-245 | unit values are quoted and escaped character by character, each of the four in its own way |
| ServiceEscapes.UnescapeSystemdInverts | packages/cli/src/service.ts:806-812 | undoing percent signs first and backslashes last recovers every value |
| LaunchAgent.PairsReadBack | packages/cli/src/service.ts:797-803 | the pairs matched in written entries are exactly those entries, in order |
| LaunchAgent.EnvironmentReadsBack | packages/cli/src/service.ts:191-241 | every environment written into a launch agent file, between any other contents, is read back entry for entry; an empty one is read as none |
| LaunchAgent.EnvironmentMapReadsBack | packages/cli/src/service.ts:791-804 | so the environment read is the environment written, for all keys and values |
| LaunchAgentFields.FieldsReadBack | packages/cli/src/service.ts:215-241 | label, log paths and working directory each follow their own key, whatever their text |
| LaunchAgentFields.SwitchesReadBack | packages/cli/src/service.ts:225-228 | the two switches each follow their own key |
| LaunchAgentFields.ArgumentsReadBack | packages/cli/src/service.ts:187-224 | the program arguments are read back as the list they were |
| SystemdUnit.EntryReadsBack | packages/cli/src/service.ts:818-826 | one written environment line is matched by its quoted alternative and read as its entry |
| SystemdUnit.SplitReads | packages/cli/src/service.ts:818-818 | splitting the file at line feeds, with or without carriage return, recovers what its lines say |
| SystemdUnit.ReadsBackExactlyRepresentable | packages/cli/src/service.ts:251-281 | with the other text on single lines, the environment is read back if and only if every key is non-empty without `=` and no key or value holds a line feed |
| SystemdUnit.EnvironmentMapReadsBack | packages/cli/src/service.ts:814-828 | so a representable environment is read back as it was written |
| SystemdUnitFields.SettingsReadBack | packages/cli/src/service.ts:251-281 | for text on single lines each setting holds its own value, and the command is read back word by word |

## Left out

- Two `pair` commands at the same time: the plan is computed outside the lock, and the at-most-one property is not claimed for them.
- Pairing without hosted control (`packages/cli/src/pair.ts:587-612`): it writes other fields and has no recovery.
- The refused messages of the plan are abbreviated; schema checks of persisted control and trust records are not modelled, and neither is trimming of `--recover`.
- The capability request before a mutation is one fault of the run: it succeeds or the run ends.
- HTTP plumbing, timeouts, response size limits and URL building in `packages/client/src/index.ts`; digests over canonical text.
- The coordinators for hosted runs, permissions and jobs, and the store.
- The contents of the lock record and the message built from it; file modes and symbolic-link checks; Windows, where directories are not synced.
- Data lost by a machine crash between rename and directory sync: the model's crashes are those of processes.
- SystemdUnit.ReadsBackExactlyRepresentable: a line feed in a path or an argument is outside its scope.
- ConfigWriters.OutcomesAreTruthful: a writer that dies reports nothing, so nothing is said of its outcome.
- The regular-expression credential patterns that follow the private-key pass, URL checks and `sanitizeCredentialLikeValue`.
- Typed schemas of configuration and protocol messages, and the fields they check.
- The values accepted for each flag, `--line` and `--range` readings, references and scopes derived from flags, and object-prototype effects of flag names such as `__proto__`.
- Property-key order in JavaScript for integer-like keys: maps are compared as maps.
- Merging the environments of both service files into one record, and the calls to launchctl and systemctl.
- Web console, chat platform adapters, text formatting and live scripts.
