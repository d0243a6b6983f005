/** begin_install and finish_install on a target whose record is replaced in place, when nothing interrupts them. */
module Install {
  import opened Wrappers
  import opened InstallSpec
  import opened InstallRuns

  class RecordFile {
    var seen: Saved
    var kept: Saved

    ghost function View(files: Files): Target
      reads this
    {
      Target(seen, kept, files, Idle)
    }

    constructor ()
      ensures View(map[]) == FRESH
    {
      seen, kept := None, None;
    }

    /** save_state, for a begin or a finish that has passed its checks: the two steps that replace the record and sync
        the directory, after which any power failure leaves this record. */
    method SaveState(record: Record, ghost files: Files, ghost digest: Record -> string)
      modifies this
      ensures View(files) == Run(old(View(files)).(doing := Writing(record)), [Replace, SyncDirectory], digest)
      ensures Step(View(files), PowerFailure, digest) == View(files) && seen == Some(record)
    {
      RunTwo(View(files).(doing := Writing(record)), Replace, SyncDirectory, digest);
      seen := Some(record);
      kept := seen;
    }

    /** The token when the package may be installed; then its pending record is on the disk. */
    method BeginInstall(candidate: Package, files: Files, foreign: bool, digest: Record -> string)
      returns (token: Option<string>)
      requires candidate.Valid()
      modifies this
      ensures token == if MayBegin(old(seen), candidate, files, foreign)
                       then Some(digest(Record(candidate, Pending))) else None
      ensures View(files) == Run(old(View(files)), [Begin(candidate, foreign), Replace, SyncDirectory], digest)
    {
      RunThree(View(files), Begin(candidate, foreign), Replace, SyncDirectory, digest);
      if seen.Some? {
        var before := seen.value.package;
        if seen.value.status == Pending {
          if before != candidate { return None; }
        } else {
          if candidate.build.number < before.build.number || Below(candidate.build.version, before.build.version) {
            return None;
          }
          if candidate.build.number == before.build.number && before != candidate { return None; }
          if !FilesMatch(before, files) { return None; }
        }
      } else if foreign { return None; }
      SaveState(Record(candidate, Pending), files, digest);
      token := Some(digest(Record(candidate, Pending)));
    }

    method FinishInstall(candidate: Package, files: Files, token: string, digest: Record -> string) returns (ok: bool)
      requires candidate.Valid()
      modifies this
      ensures ok == MayFinish(old(seen), candidate, files, token, digest)
      ensures View(files) == Run(old(View(files)), [Finish(candidate, token), Replace, SyncDirectory], digest)
      ensures ok ==> kept == Some(Record(candidate, Installed))
    {
      RunThree(View(files), Finish(candidate, token), Replace, SyncDirectory, digest);
      var pending := Record(candidate, Pending);
      if seen != Some(pending) || digest(pending) != token { return false; }
      if !FilesMatch(candidate, files) { return false; }
      SaveState(Record(candidate, Installed), files, digest);
      ok := true;
    }
  }
}
