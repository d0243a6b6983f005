/** The install record: what may follow what, and the steps in which a record reaches the disk. */
module InstallSpec {
  import opened Wrappers

  const MAX_BUILD: nat := 9007199254740991

  datatype Version = Version(major: nat, minor: nat, patch: nat)

  datatype Build = Build(version: Version, number: nat, identity: string)

  /** A verified package: its identity, the digest of its list, and the digest of every file it installs. */
  datatype Package = Package(build: Build, payload: string, files: map<string, string>) {
    predicate Valid() {
      0 < build.number <= MAX_BUILD && files != map[]
    }
  }

  datatype Status = Pending | Installed

  datatype Record = Record(package: Package, status: Status)

  type Saved = Option<Record>

  predicate Below(a: Version, b: Version) {
    a.major < b.major || (a.major == b.major && (a.minor < b.minor || (a.minor == b.minor && a.patch < b.patch)))
  }

  /** Versions are in one order, the major number first, then the minor, then the patch. */
  lemma VersionOrder(a: Version, b: Version)
    ensures
      || (Below(a, b) && a != b && !Below(b, a))
      || (a == b && !Below(a, b))
      || (Below(b, a) && a != b && !Below(a, b))
    ensures a.major < b.major ==> Below(a, b)
    ensures a.major == b.major && a.minor < b.minor ==> Below(a, b)
    ensures a.major == b.major && a.minor == b.minor && a.patch < b.patch ==> Below(a, b)
  {
  }

  /** The target's files, by name and digest. */
  type Files = map<string, string>

  predicate FilesMatch(package: Package, files: Files) {
    forall name :: name in package.files ==> name in files && files[name] == package.files[name]
  }

  /** What begin_install asks of the record it finds; foreign says a driver is there that no record explains. */
  predicate MayBegin(before: Saved, candidate: Package, files: Files, foreign: bool) {
    match before
    case None => !foreign
    case Some(Record(was, Pending)) => was == candidate
    case Some(Record(was, Installed)) =>
      && candidate.build.number >= was.build.number && !Below(candidate.build.version, was.build.version)
      && (candidate.build.number == was.build.number ==> was == candidate)
      && FilesMatch(was, files)
  }

  /** What finish_install asks; token is what the caller got from begin_install. */
  predicate MayFinish(before: Saved, candidate: Package, files: Files, token: string, digest: Record -> string) {
    && before == Some(Record(candidate, Pending)) && digest(Record(candidate, Pending)) == token
    && FilesMatch(candidate, files)
  }

  /** How one saved record may differ from an earlier one. */
  predicate Follows(before: Saved, after: Saved) {
    before.Some? ==>
      && after.Some?
      && var a, b := before.value.package, after.value.package;
      && a.build.number <= b.build.number && !Below(b.build.version, a.build.version)
      && (a.build.number == b.build.number ==> a == b)
  }

  lemma FollowsTransitive(a: Saved, b: Saved, c: Saved)
    requires Follows(a, b) && Follows(b, c)
    ensures Follows(a, c)
  {
  }

  lemma BeginFollows(before: Saved, candidate: Package, files: Files, foreign: bool)
    requires MayBegin(before, candidate, files, foreign)
    ensures Follows(before, Some(Record(candidate, Pending)))
  {
  }

  /** The one process that holds the lock: at rest, or between the checks and the end of save_state. */
  datatype Doing = Idle | Writing(record: Record) | Replaced

  /** seen is what a read of the record gives; kept is what a power failure would leave of it. */
  datatype Target = Target(seen: Saved, kept: Saved, files: Files, doing: Doing)

  datatype Event =
    | Begin(candidate: Package, foreign: bool)
    | Finish(candidate: Package, token: string)
    | Replace
    | SyncDirectory
    | Write(name: string, hash: string)
    | Remove(name: string)
    | Kill
    | Flush
    | PowerFailure

  /** One step of the installer or of the world around it. A refused begin or finish changes nothing. */
  function Step(t: Target, e: Event, digest: Record -> string): Target {
    match e
    case Begin(candidate, foreign) =>
      if t.doing == Idle && candidate.Valid() && MayBegin(t.seen, candidate, t.files, foreign) then
        t.(doing := Writing(Record(candidate, Pending)))
      else t
    case Finish(candidate, token) =>
      if t.doing == Idle && candidate.Valid() && MayFinish(t.seen, candidate, t.files, token, digest) then
        t.(doing := Writing(Record(candidate, Installed)))
      else t
    case Replace => if t.doing.Writing? then t.(seen := Some(t.doing.record), doing := Replaced) else t
    case SyncDirectory => if t.doing == Replaced then t.(kept := t.seen, doing := Idle) else t
    case Write(name, hash) => t.(files := t.files[name := hash])
    case Remove(name) => t.(files := t.files - {name})
    case Kill => t.(doing := Idle)
    case Flush => t.(kept := t.seen)
    case PowerFailure => t.(seen := t.kept, doing := Idle)
  }

  function Run(t: Target, events: seq<Event>, digest: Record -> string): Target
    decreases |events|
  {
    if events == [] then t else Run(Step(t, events[0], digest), events[1..], digest)
  }

  const FRESH: Target := Target(None, None, map[], Idle)
}
