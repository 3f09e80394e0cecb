/**
 The code of one configuration write: take the lock file, write and sync a temporary file, rename
 it over the configuration, sync the directory, read back, release the lock.  Every file-system
 operation may fail; what an error says about the file is proved for every pattern of failures.
 */
module ConfigFile {
  import opened Options
  import opened ConfigDocument

  datatype Path = ConfigPath | LockPath | TempPath(nonce: nat)

  // One file-system operation, or one check of what was read or is to be written.
  datatype Act =
    | MakeDirectory
    | Open(path: Path)
    | Chmod(path: Path)
    | Write(path: Path)
    | Fsync(path: Path)
    | Close(path: Path)
    | Rename(nonce: nat)
    | Remove(path: Path)
    | Stat(path: Path)
    | Read(path: Path)
    | Parse
    | Validate
    | OpenDirectory
    | SyncDirectory
    | CloseDirectory

  // An operation that was performed, and how it went, whatever the code makes of it.
  datatype Record = Record(act: Act, failed: bool)

  function Ok(act: Act): Record {
    Record(act, false)
  }

  type Journal = seq<Record>

  ghost predicate Failed(done: Journal) {
    exists i :: 0 <= i < |done| && done[i].failed
  }

  // The temporary file took the place of the configuration.
  ghost predicate Renamed(done: Journal, nonce: nat) {
    Ok(Rename(nonce)) in done
  }

  ghost predicate Attempted(done: Journal, act: Act) {
    Record(act, false) in done || Record(act, true) in done
  }

  lemma FailedConcat(a: Journal, b: Journal)
    ensures Failed(a + b) <==> Failed(a) || Failed(b)
  {
    if Failed(a) {
      var i :| 0 <= i < |a| && a[i].failed;
      assert (a + b)[i].failed;
    }
    if Failed(b) {
      var i :| 0 <= i < |b| && b[i].failed;
      assert (a + b)[|a| + i].failed;
    }
  }

  lemma FailedNothing()
    ensures !Failed([])
  {}

  lemma FailedOne(r: Record)
    ensures Failed([r]) <==> r.failed
  {
    assert [r][0] == r;
  }

  // ----- What a write performs when nothing fails -----

  const DIRECTORY_SYNCED: Journal := [Ok(OpenDirectory), Ok(SyncDirectory), Ok(CloseDirectory)]

  const LOCK_RECORDED: Journal := [Ok(Chmod(LockPath)), Ok(Write(LockPath)), Ok(Fsync(LockPath))]

  const LOCK_ACQUIRED: Journal := [Ok(MakeDirectory), Ok(Open(LockPath))] + LOCK_RECORDED

  const LOCK_RELEASED: Journal := [Ok(Close(LockPath)), Ok(Remove(LockPath))] + DIRECTORY_SYNCED

  function TempWritten(nonce: nat): Journal {
    var temp := TempPath(nonce);
    [Ok(Open(temp)), Ok(Chmod(temp)), Ok(Write(temp)), Ok(Fsync(temp)), Ok(Close(temp))]
  }

  function TempInstalled(nonce: nat): Journal {
    TempWritten(nonce) + [Ok(Rename(nonce))]
  }

  const CONFIRMED: Journal := DIRECTORY_SYNCED + [Ok(Read(ConfigPath)), Ok(Validate)]

  function Replaced(nonce: nat): Journal {
    TempInstalled(nonce) + CONFIRMED
  }

  const PATCH_PREPARED: Journal := [Ok(Stat(ConfigPath)), Ok(Read(ConfigPath)), Ok(Parse), Ok(Validate)]

  function Prepared(op: Operation): Journal {
    if op.PatchHosted? then PATCH_PREPARED else []
  }

  function Completed(op: Operation, nonce: nat): Journal {
    LOCK_ACQUIRED + (Prepared(op) + Replaced(nonce)) + LOCK_RELEASED
  }

  // ----- Errors -----

  datatype Error =
    | Exists                                       // EEXIST
    | Fault(act: Act)
    | Invalid                                      // unreadable, unparsable or rejected by validation
    | Combined(primary: Error, cleanup: Error)
    | OutcomeUnknown(cause: Error)                 // CliConfigWriteOutcomeUnknownError

  function CombinedFailure(primary: Option<Error>, cleanup: Option<Error>): Option<Error> {
    if primary.None? then cleanup
    else if cleanup.None? then primary
    else Some(Combined(primary.value, cleanup.value))
  }

  // No error, or one that is not about an unknown outcome.
  predicate Plain(e: Option<Error>) {
    e.Some? ==> !e.value.OutcomeUnknown?
  }

  // ----- What a call may have done to the files -----

  function Others(files: map<Path, string>, nonce: nat): map<Path, string> {
    files - {TempPath(nonce), LockPath, ConfigPath}
  }

  function ConfigText(files: map<Path, string>): Option<string> {
    if ConfigPath in files then Some(files[ConfigPath]) else None
  }

  // Only the writer's own temporary file and the lock may differ.
  ghost predicate Untouched(before: map<Path, string>, after: map<Path, string>, nonce: nat) {
    ConfigText(after) == ConfigText(before) && Others(after, nonce) == Others(before, nonce)
  }

  // The configuration holds the new text, the temporary file is gone, and nothing else changed but the lock.
  ghost predicate Installed(before: map<Path, string>, after: map<Path, string>, nonce: nat, text: string) {
    && ConfigText(after) == Some(text)
    && TempPath(nonce) !in after
    && Others(after, nonce) == Others(before, nonce)
  }

  predicate Locked(files: map<Path, string>) {
    LockPath in files
  }

  lemma SameOutside(before: map<Path, string>, after: map<Path, string>, nonce: nat)
    requires after - {TempPath(nonce)} == before - {TempPath(nonce)}
    ensures Untouched(before, after, nonce) && Locked(after) == Locked(before)
  {
    assert forall p :: p != TempPath(nonce) ==>
      (p in after <==> p in after - {TempPath(nonce)}) && (p in before <==> p in before - {TempPath(nonce)});
    assert forall p :: p in after && p != TempPath(nonce) ==> after[p] == (after - {TempPath(nonce)})[p];
    assert forall p :: p in before && p != TempPath(nonce) ==> before[p] == (before - {TempPath(nonce)})[p];
  }

  lemma UntouchedThrough(a: map<Path, string>, b: map<Path, string>, c: map<Path, string>, nonce: nat)
    ensures Untouched(a, a, nonce)
    ensures Untouched(b, c, nonce) ==> (Untouched(a, b, nonce) ==> Untouched(a, c, nonce))
  {}

  // ----- The file system -----

  class FileSystem {
    var files: map<Path, string>
    ghost var journal: Journal

    // An operation without effect on names or contents: mkdir, chmod, fsync, close, stat.
    method Perform(act: Act) returns (error: Option<Error>)
      modifies this`journal
      ensures Plain(error)
      ensures journal == old(journal) + [Record(act, error.Some?)]
    {
      error := None;
      if * { error := Some(Fault(act)); }
      journal := journal + [Record(act, error.Some?)];
    }

    // A check of text: parsing or validation.
    method Check(act: Act, holds: bool) returns (error: Option<Error>)
      modifies this`journal
      ensures Plain(error) && (error.None? <==> holds)
      ensures journal == old(journal) + [Record(act, error.Some?)]
    {
      error := if holds then None else Some(Invalid);
      journal := journal + [Record(act, error.Some?)];
    }

    // open(path, "wx"): atomic, fails when the file exists.
    method OpenExclusive(path: Path) returns (error: Option<Error>)
      modifies this
      ensures Plain(error)
      ensures journal == old(journal) + [Record(Open(path), error.Some?)]
      ensures error.None? ==> path !in old(files) && files == old(files)[path := ""]
      ensures error.Some? ==> files == old(files)
      ensures path in old(files) ==> error == Some(Exists)
    {
      error := None;
      if path in files {
        error := Some(Exists);
      } else if * {
        error := Some(Fault(Open(path)));
      } else {
        files := files[path := ""];
      }
      journal := journal + [Record(Open(path), error.Some?)];
    }

    // A failed write leaves anything behind.
    method WriteFile(path: Path, contents: string) returns (error: Option<Error>)
      modifies this
      ensures Plain(error)
      ensures journal == old(journal) + [Record(Write(path), error.Some?)]
      ensures error.None? ==> files == old(files)[path := contents]
      ensures path in files && files == old(files)[path := files[path]]
    {
      error := None;
      if * {
        var torn: string := *;
        files := files[path := torn];
        error := Some(Fault(Write(path)));
      } else {
        files := files[path := contents];
      }
      journal := journal + [Record(Write(path), error.Some?)];
    }

    // Renames a temporary file over the configuration.
    method RenameFile(nonce: nat) returns (error: Option<Error>)
      modifies this
      ensures Plain(error)
      ensures journal == old(journal) + [Record(Rename(nonce), error.Some?)]
      ensures error.None? ==>
                && TempPath(nonce) in old(files)
                && files == (old(files) - {TempPath(nonce)})[ConfigPath := old(files)[TempPath(nonce)]]
      ensures error.Some? ==> files == old(files)
    {
      error := None;
      if TempPath(nonce) !in files {
        error := Some(Fault(Rename(nonce)));
      } else if * {
        error := Some(Fault(Rename(nonce)));
      } else {
        files := (files - {TempPath(nonce)})[ConfigPath := files[TempPath(nonce)]];
      }
      journal := journal + [Record(Rename(nonce), error.Some?)];
    }

    // rm -f; a failed removal may have removed the file.
    method RemoveFile(path: Path) returns (error: Option<Error>)
      modifies this
      ensures Plain(error)
      ensures journal == old(journal) + [Record(Remove(path), error.Some?)]
      ensures error.None? ==> files == old(files) - {path}
      ensures files == old(files) || files == old(files) - {path}
    {
      error := None;
      if * {
        if * { files := files - {path}; }
        error := Some(Fault(Remove(path)));
      } else {
        files := files - {path};
      }
      journal := journal + [Record(Remove(path), error.Some?)];
    }

    method ReadFile(path: Path) returns (error: Option<Error>, contents: string)
      modifies this`journal
      ensures Plain(error)
      ensures journal == old(journal) + [Record(Read(path), error.Some?)]
      ensures error.None? ==> path in files && contents == files[path]
    {
      error, contents := None, "";
      if path !in files {
        error := Some(Fault(Read(path)));
      } else if * {
        error := Some(Fault(Read(path)));
      } else {
        contents := files[path];
      }
      journal := journal + [Record(Read(path), error.Some?)];
    }

    // fsyncDirectory: open, fsync and close; both failures are reported.
    method FsyncDirectory() returns (error: Option<Error>, ghost done: Journal)
      modifies this`journal
      ensures Plain(error) && journal == old(journal) + done
      ensures error.None? <==> !Failed(done)
      ensures error.None? ==> done == DIRECTORY_SYNCED
      ensures forall r :: r in done ==> r.act in {OpenDirectory, SyncDirectory, CloseDirectory}
    {
      error := Perform(OpenDirectory);
      done := [Record(OpenDirectory, error.Some?)];
      FailedOne(done[0]);
      if error.Some? { return; }
      var fsyncError := Perform(SyncDirectory);
      var closeError := Perform(CloseDirectory);
      error := CombinedFailure(fsyncError, closeError);
      done := done + [Record(SyncDirectory, fsyncError.Some?), Record(CloseDirectory, closeError.Some?)];
      assert done[1].failed <==> fsyncError.Some?;
      assert done[2].failed <==> closeError.Some?;
    }

    // ----- releaseConfigLock -----

    method ReleaseConfigLock(ghost nonce: nat) returns (cleanupError: Option<Error>, ghost done: Journal)
      modifies this
      ensures Plain(cleanupError) && journal == old(journal) + done
      ensures cleanupError.None? <==> !Failed(done)
      ensures cleanupError.None? ==> done == LOCK_RELEASED && !Locked(files)
      ensures Attempted(done, Remove(LockPath)) && !Renamed(done, nonce)
      ensures Untouched(old(files), files, nonce) && (TempPath(nonce) in files <==> TempPath(nonce) in old(files))
    {
      var closeError := Perform(Close(LockPath));
      var removeError := RemoveFile(LockPath);
      cleanupError := CombinedFailure(closeError, removeError);
      ghost var given := [Record(Close(LockPath), closeError.Some?), Record(Remove(LockPath), removeError.Some?)];
      assert given[0].failed <==> closeError.Some?;
      assert given[1].failed <==> removeError.Some?;
      assert given[1] in given;
      var syncError;
      syncError, done := FsyncDirectory();
      cleanupError := CombinedFailure(cleanupError, syncError);
      FailedConcat(given, done);
      done := given + done;
    }

    // ----- replaceConfigFileDurably -----

    // Creates, writes, syncs and closes the temporary file.
    method WriteTemp(nonce: nat, contents: string)
      returns (error: Option<Error>, tempOpen: bool, ghost done: Journal)
      modifies this
      ensures Plain(error) && journal == old(journal) + done
      ensures error.None? <==> !Failed(done)
      ensures error.None? ==>
                done == TempWritten(nonce) && TempPath(nonce) in files && files[TempPath(nonce)] == contents
      ensures !Renamed(done, nonce)
      ensures files - {TempPath(nonce)} == old(files) - {TempPath(nonce)}
    {
      hide Failed;
      var temp := TempPath(nonce);
      tempOpen := false;
      error := OpenExclusive(temp);
      done := [Record(Open(temp), error.Some?)];
      FailedOne(done[0]);
      if error.Some? { return; }
      tempOpen := true;
      error := Perform(Chmod(temp));
      done := Noted(done, Chmod(temp), error);
      if error.Some? { return; }
      error := WriteFile(temp, contents);
      done := Noted(done, Write(temp), error);
      if error.Some? { return; }
      error := Perform(Fsync(temp));
      done := Noted(done, Fsync(temp), error);
      if error.Some? { return; }
      tempOpen := false;
      error := Perform(Close(temp));
      done := Noted(done, Close(temp), error);
    }

    // Renames the written temporary file over the configuration.
    method InstallTemp(nonce: nat, contents: string)
      returns (error: Option<Error>, tempOpen: bool, ghost done: Journal)
      modifies this
      ensures Plain(error) && journal == old(journal) + done && Locked(files) == old(Locked(files))
      ensures error.None? <==> !Failed(done)
      ensures error.None? <==> Renamed(done, nonce)
      ensures error.None? ==> done == TempInstalled(nonce) && Installed(old(files), files, nonce, contents)
      ensures error.Some? ==> Untouched(old(files), files, nonce)
    {
      hide Failed;
      error, tempOpen, done := WriteTemp(nonce, contents);
      SameOutside(old(files), files, nonce);
      if error.Some? { return; }
      error := RenameFile(nonce);
      done := Noted(done, Rename(nonce), error);
    }

    // Syncs the directory and validates what is read back.
    method ConfirmInstalled(validate: string -> bool) returns (error: Option<Error>, ghost done: Journal)
      modifies this`journal
      ensures Plain(error) && journal == old(journal) + done
      ensures error.None? <==> !Failed(done)
      ensures error.None? ==> done == CONFIRMED && ConfigPath in files && validate(files[ConfigPath])
    {
      hide Failed;
      error, done := FsyncDirectory();
      if error.Some? { return; }
      var back;
      error, back := ReadFile(ConfigPath);
      done := Noted(done, Read(ConfigPath), error);
      if error.Some? { return; }
      error := Check(Validate, validate(back));
      done := Noted(done, Validate, error);
    }

    // Closes a temporary file left open, and removes it unless it was renamed.
    method GiveUpTemp(nonce: nat, tempOpen: bool, renamed: bool)
      returns (cleanupError: Option<Error>, ghost done: Journal)
      modifies this
      ensures Plain(cleanupError) && journal == old(journal) + done && !Renamed(done, nonce)
      ensures cleanupError.None? <==> !Failed(done)
      ensures if renamed then files == old(files) else Attempted(done, Remove(TempPath(nonce)))
      ensures files - {TempPath(nonce)} == old(files) - {TempPath(nonce)}
    {
      hide Failed;
      cleanupError, done := None, [];
      FailedNothing();
      if tempOpen {
        cleanupError := Perform(Close(TempPath(nonce)));
        done := Noted(done, Close(TempPath(nonce)), cleanupError);
      }
      if !renamed {
        var removeError := RemoveFile(TempPath(nonce));
        done := Noted(done, Remove(TempPath(nonce)), removeError);
        cleanupError := CombinedFailure(cleanupError, removeError);
      }
    }

    /**
     No error: installed, read back and validated.  Plain error: untouched, the temporary file given
     up.  Unknown outcome: installed, and something failed after the rename.
     */
    method ReplaceConfigFileDurably(nonce: nat, contents: string, validate: string -> bool)
      returns (error: Option<Error>, ghost done: Journal)
      modifies this
      ensures journal == old(journal) + done && Locked(files) == old(Locked(files))
      ensures error.None? <==> !Failed(done)
      ensures error.None? ==> done == Replaced(nonce) && validate(contents)
      ensures !Plain(error) <==> Renamed(done, nonce) && Failed(done)
      ensures Renamed(done, nonce) ==> TempInstalled(nonce) <= done && Installed(old(files), files, nonce, contents)
      ensures !Renamed(done, nonce) ==>
                Untouched(old(files), files, nonce) && Attempted(done, Remove(TempPath(nonce)))
    {
      hide Failed, Untouched;
      var tempOpen;
      error, tempOpen, done := InstallTemp(nonce, contents);
      var renamed := error.None?;
      if renamed {
        ghost var confirmed;
        error, confirmed := ConfirmInstalled(validate);
        FailedConcat(done, confirmed);
        done := done + confirmed;
      }
      if error.Some? {
        hide Installed;
        label before:
        var cleanupError;
        ghost var given;
        cleanupError, given := GiveUpTemp(nonce, tempOpen, renamed);
        SameOutside(old@before(files), files, nonce);
        UntouchedThrough(old(files), old@before(files), files, nonce);
        FailedConcat(done, given);
        done := done + given;
        error := CombinedFailure(error, cleanupError);
        if renamed {
          error := Some(OutcomeUnknown(error.value));
        }
      }
    }

    // ----- The operation under the lock -----

    method RunOperation(op: Operation, codec: Codec, nonce: nat) returns (error: Option<Error>, ghost done: Journal)
      modifies this
      ensures journal == old(journal) + done && Locked(files) == old(Locked(files))
      ensures error.None? <==> !Failed(done)
      ensures error.None? ==>
                && done == Prepared(op) + Replaced(nonce)
                && NewContents(op, codec, old(ConfigText(files))).Some?
                && codec.validate(NewContents(op, codec, old(ConfigText(files))).value)
      ensures !Plain(error) <==> Renamed(done, nonce) && Failed(done)
      ensures Renamed(done, nonce) ==>
                && Prepared(op) + TempInstalled(nonce) <= done
                && NewContents(op, codec, old(ConfigText(files))).Some?
                && Installed(old(files), files, nonce, NewContents(op, codec, old(ConfigText(files))).value)
                && HoldsNew(op, codec, old(ConfigText(files)), ConfigText(files))
      ensures !Renamed(done, nonce) ==> Untouched(old(files), files, nonce)
    {
      hide Failed, Untouched, ApplyPatch, HoldsNew;
      match op {
        case WriteWhole(contents) =>
          error, done := ReplaceConfigFileDurably(nonce, contents, codec.validate);
          NewContentsHeld(op, codec, old(ConfigText(files)));
        case PatchHosted(patch) =>
          var text;
          UntouchedThrough(files, files, files, nonce);
          error, text, done := PreparePatch(patch, codec, nonce);
          if error.Some? { return; }
          ghost var replaced;
          error, replaced := ReplaceConfigFileDurably(nonce, text, codec.validate);
          FailedConcat(done, replaced);
          done := done + replaced;
      }
    }

    // Reads, parses and patches the configuration, and validates the result before it is written.
    method PreparePatch(patch: Patch, codec: Codec, ghost nonce: nat)
      returns (error: Option<Error>, text: string, ghost done: Journal)
      modifies this`journal
      ensures Plain(error) && journal == old(journal) + done && !Renamed(done, nonce)
      ensures error.None? <==> !Failed(done)
      ensures error.None? ==>
                && done == PATCH_PREPARED && codec.validate(text)
                && NewContents(PatchHosted(patch), codec, ConfigText(files)) == Some(text)
                && HoldsNew(PatchHosted(patch), codec, ConfigText(files), Some(text))
    {
      hide Failed, ApplyPatch, HoldsNew;
      text := "";
      error := Perform(Stat(ConfigPath));
      done := [Record(Stat(ConfigPath), error.Some?)];
      FailedOne(done[0]);
      if error.Some? { return; }
      var raw;
      error, raw := ReadFile(ConfigPath);
      done := Noted(done, Read(ConfigPath), error);
      if error.Some? { return; }
      var doc := codec.parse(raw);
      error := Check(Parse, doc.Some? && ApplyPatch(doc.value, patch).Some?);
      done := Noted(done, Parse, error);
      if error.Some? { return; }
      text := codec.render(ApplyPatch(doc.value, patch).value);
      error := Check(Validate, codec.validate(text));
      done := Noted(done, Validate, error);
      if error.None? { NewContentsHeld(PatchHosted(patch), codec, ConfigText(files)); }
    }

    // ----- withCliConfigLock -----

    // The record in the lock file, synced.
    method RecordLock(ghost nonce: nat) returns (error: Option<Error>, ghost done: Journal)
      modifies this
      ensures Plain(error) && journal == old(journal) + done && !Renamed(done, nonce)
      ensures error.None? <==> !Failed(done)
      ensures error.None? ==> done == LOCK_RECORDED
      ensures old(Locked(files)) ==> Locked(files)
      ensures Untouched(old(files), files, nonce)
    {
      hide Failed;
      error := Perform(Chmod(LockPath));
      done := [Record(Chmod(LockPath), error.Some?)];
      FailedOne(done[0]);
      if error.Some? { return; }
      error := WriteFile(LockPath, "lock record");
      done := Noted(done, Write(LockPath), error);
      if error.Some? { return; }
      error := Perform(Fsync(LockPath));
      done := Noted(done, Fsync(LockPath), error);
    }

    // Creates the lock file and its record; gives it up again when that fails.
    method AcquireLock(ghost nonce: nat) returns (error: Option<Error>, ghost done: Journal)
      modifies this
      ensures Plain(error) && journal == old(journal) + done && !Renamed(done, nonce)
      ensures error.None? <==> !Failed(done)
      ensures error.None? ==> done == LOCK_ACQUIRED && Locked(files)
      ensures error.Some? && Ok(Open(LockPath)) in done ==> Attempted(done, Remove(LockPath))
      ensures old(Locked(files)) ==> error.Some? && files == old(files)
      ensures Untouched(old(files), files, nonce)
    {
      hide Failed;
      error := Perform(MakeDirectory);
      done := [Record(MakeDirectory, error.Some?)];
      FailedOne(done[0]);
      if error.Some? { return; }
      error := OpenExclusive(LockPath);
      done := Noted(done, Open(LockPath), error);
      if error.Some? { return; }
      assert Untouched(old(files), files, nonce);
      ghost var recorded;
      error, recorded := RecordLock(nonce);
      FailedConcat(done, recorded);
      done := done + recorded;
      if error.Some? {
        var cleanup;
        ghost var released;
        cleanup, released := ReleaseConfigLock(nonce);
        error := CombinedFailure(error, cleanup);
        FailedConcat(done, released);
        done := done + released;
      }
    }

    /**
     How one write ends, for every pattern of failures.  It returns exactly when everything it performs
     succeeds; it reports an unknown outcome exactly when something fails after the rename; any other
     failure leaves the configuration as it was.  Another writer's lock is never touched.
     */
    method WithCliConfigLock(op: Operation, codec: Codec, nonce: nat)
      returns (error: Option<Error>, ghost done: Journal)
      modifies this
      ensures journal == old(journal) + done
      ensures error.None? <==> !Failed(done)
      ensures !Plain(error) <==> Renamed(done, nonce) && Failed(done)
      ensures error.None? ==>
                && done == Completed(op, nonce) && !Locked(files)
                && NewContents(op, codec, old(ConfigText(files))).Some?
                && codec.validate(NewContents(op, codec, old(ConfigText(files))).value)
      ensures Renamed(done, nonce) ==>
                && LOCK_ACQUIRED + (Prepared(op) + TempInstalled(nonce)) <= done
                && NewContents(op, codec, old(ConfigText(files))).Some?
                && Installed(old(files), files, nonce, NewContents(op, codec, old(ConfigText(files))).value)
                && HoldsNew(op, codec, old(ConfigText(files)), ConfigText(files))
      ensures !Renamed(done, nonce) ==> Untouched(old(files), files, nonce)
      ensures Ok(Open(LockPath)) in done ==> Attempted(done, Remove(LockPath))
      ensures old(Locked(files)) ==> error.Some? && files == old(files)
    {
      hide Failed, HoldsNew, NewContents;
      error, done := AcquireLock(nonce);
      if error.Some? { return; }
      var operationError, cleanupError;
      ghost var performed, released;
      operationError, performed := RunOperation(op, codec, nonce);
      cleanupError, released := ReleaseConfigLock(nonce);
      FailedConcat(done, performed);
      FailedConcat(done + performed, released);
      done := done + performed + released;
      if operationError.Some? {
        var failure := CombinedFailure(operationError, cleanupError);
        if operationError.value.OutcomeUnknown? {
          error := if cleanupError.None? then operationError else Some(OutcomeUnknown(failure.value));
        } else {
          error := failure;
        }
      } else if cleanupError.Some? {
        error := Some(OutcomeUnknown(cleanupError.value));
      } else {
        error := None;
      }
    }
  }

  // One more record.
  ghost function Noted(done: Journal, act: Act, error: Option<Error>): (r: Journal)
    ensures r == done + [Record(act, error.Some?)]
    ensures Failed(r) <==> Failed(done) || error.Some?
  {
    FailedConcat(done, [Record(act, error.Some?)]);
    FailedOne(Record(act, error.Some?));
    done + [Record(act, error.Some?)]
  }

  // Reading, rendering and validating configuration text.
  datatype Codec = Codec(parse: string -> Option<Json>, render: Json -> string, validate: string -> bool)

  // writeCliConfigAtomic or writeHostedControlConfigAtomic
  datatype Operation = WriteWhole(contents: string) | PatchHosted(patch: Patch)

  // The text a successful operation leaves in the configuration file, given what it held.
  function NewContents(op: Operation, codec: Codec, held: Option<string>): Option<string> {
    match op
    case WriteWhole(contents) => Some(contents)
    case PatchHosted(patch) =>
      if held.None? || codec.parse(held.value).None? then None
      else
        match ApplyPatch(codec.parse(held.value).value, patch)
        case Some(doc) => Some(codec.render(doc))
        case None => None
  }

  // The file holds what the operation was to install: the given text, or the text of a document that
  // differs from the one held before as the patch asks.
  ghost predicate HoldsNew(op: Operation, codec: Codec, before: Option<string>, after: Option<string>) {
    match op
    case WriteWhole(contents) => after == Some(contents)
    case PatchHosted(patch) =>
      && before.Some? && codec.parse(before.value).Some?
      && exists doc :: Patched(codec.parse(before.value).value, doc, patch) && after == Some(codec.render(doc))
  }

  lemma NewContentsHeld(op: Operation, codec: Codec, before: Option<string>)
    requires NewContents(op, codec, before).Some?
    ensures HoldsNew(op, codec, before, NewContents(op, codec, before))
  {
    hide Patched, ApplyPatch;
    if op.PatchHosted? {
      var doc := codec.parse(before.value).value;
      PatchesExactly(doc, op.patch, ApplyPatch(doc, op.patch).value);
    }
  }

  /** Read back, the installed document has the pairing token and the runner token as the patch asks. */
  lemma InstalledTokens(patch: Patch, codec: Codec, before: string, after: string)
    requires forall doc :: codec.parse(codec.render(doc)) == Some(doc)
    requires HoldsNew(PatchHosted(patch), codec, Some(before), Some(after))
    ensures codec.parse(after).Some? && HasDaemon(codec.parse(before).value) && HasDaemon(codec.parse(after).value)
    ensures var held := codec.parse(before).value.fields["daemon"].fields;
            var now := codec.parse(after).value.fields["daemon"].fields;
            && ("pairingToken" in now <==> "pairingToken" in held && !patch.removePairingToken)
            && ("pairingToken" in now ==> now["pairingToken"] == held["pairingToken"])
            && (patch.runnerToken.DeleteToken? ==> "runnerToken" !in now)
            && (patch.runnerToken.KeepToken? ==> SameAt(held, now, "runnerToken"))
            && (patch.runnerToken.SetToken? ==> Holds(now, "runnerToken", Str(patch.runnerToken.token)))
  {
    var doc :| Patched(codec.parse(before).value, doc, patch) && Some(after) == Some(codec.render(doc));
    assert codec.parse(after) == Some(doc);
  }
}
