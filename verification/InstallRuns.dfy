/** What holds of the install record over every run, whatever crashes. */
module InstallRuns {
  import opened Wrappers
  import opened InstallSpec

  /** A record about to be written follows the one seen, and the one seen follows the one kept. */
  predicate Inv(t: Target) {
    && Follows(t.kept, t.seen)
    && (t.doing.Writing? ==> Follows(t.seen, Some(t.doing.record)))
  }

  lemma StepKeeps(t: Target, e: Event, digest: Record -> string)
    requires Inv(t)
    ensures Inv(Step(t, e, digest)) && Follows(t.kept, Step(t, e, digest).kept)
  {
    match e
    case Begin(candidate, foreign) =>
      if MayBegin(t.seen, candidate, t.files, foreign) { BeginFollows(t.seen, candidate, t.files, foreign); }
    case Replace =>
      if t.doing.Writing? { FollowsTransitive(t.kept, t.seen, Some(t.doing.record)); }
    case _ =>
  }

  /** Over every run, the record that would survive never goes back to a lower build number or version, and the same
      number always means the same package; what is seen is never behind what would survive. */
  lemma {:induction false} NeverBack(t: Target, events: seq<Event>, digest: Record -> string)
    requires Inv(t)
    ensures var end := Run(t, events, digest);
      Inv(end) && Follows(t.kept, end.kept) && Follows(t.kept, end.seen)
    decreases |events|
  {
    if events != [] {
      var u := Step(t, events[0], digest);
      StepKeeps(t, events[0], digest);
      NeverBack(u, events[1..], digest);
      var end := Run(u, events[1..], digest);
      FollowsTransitive(t.kept, u.kept, end.kept);
      FollowsTransitive(t.kept, u.kept, end.seen);
    }
  }

  lemma {:induction false} RunAppend(t: Target, es: seq<Event>, fs: seq<Event>, digest: Record -> string)
    ensures Run(t, es + fs, digest) == Run(Run(t, es, digest), fs, digest)
    decreases |es|
  {
    if es == [] {
      assert es + fs == fs;
    } else {
      assert (es + fs)[0] == es[0] && (es + fs)[1..] == es[1..] + fs;
      RunAppend(Step(t, es[0], digest), es[1..], fs, digest);
    }
  }

  /** The target after the first k events. */
  function After(events: seq<Event>, k: nat, digest: Record -> string): Target
    requires k <= |events|
  {
    Run(FRESH, events[..k], digest)
  }

  lemma AfterOne(events: seq<Event>, k: nat, digest: Record -> string)
    requires k < |events|
    ensures After(events, k + 1, digest) == Step(After(events, k, digest), events[k], digest)
  {
    assert events[..k + 1] == events[..k] + [events[k]];
    RunAppend(FRESH, events[..k], [events[k]], digest);
    assert [events[k]][1..] == [];
  }

  /** Any two moments of a run from a target without a record: the later surviving record follows the earlier one. */
  lemma AnyTwoMoments(events: seq<Event>, i: nat, j: nat, digest: Record -> string)
    requires i <= j <= |events|
    ensures Follows(After(events, i, digest).kept, After(events, j, digest).kept)
    ensures Follows(After(events, i, digest).kept, After(events, j, digest).seen)
  {
    NeverBack(FRESH, events[..i], digest);
    RunAppend(FRESH, events[..i], events[i..j], digest);
    assert events[..j] == events[..i] + events[i..j];
    NeverBack(After(events, i, digest), events[i..j], digest);
  }

  // ---- what is seen ----

  /** Power is lost while the record seen is of another package than the one that would survive. */
  predicate TakesBack(t: Target, e: Event) {
    && e.PowerFailure? && t.seen.Some?
    && (t.kept.None? || t.kept.value.package != t.seen.value.package)
  }

  /** The record seen after a step follows the one seen before if and only if the step is not such a power failure. */
  lemma SeenStep(t: Target, e: Event, digest: Record -> string)
    requires Inv(t)
    ensures Follows(t.seen, Step(t, e, digest).seen) <==> !TakesBack(t, e)
  {
  }

  predicate NoneTaken(events: seq<Event>, i: nat, j: nat, digest: Record -> string)
    requires i <= j <= |events|
  {
    forall k :: i <= k < j ==> !TakesBack(After(events, k, digest), events[k])
  }

  lemma InvAfter(events: seq<Event>, k: nat, digest: Record -> string)
    requires k <= |events|
    ensures Inv(After(events, k, digest))
  {
    NeverBack(FRESH, events[..k], digest);
  }

  /** Between two moments without such a power failure, the record seen never goes back to a lower build number or
      version, and the same number means the same package. */
  lemma {:induction false} SeenNeverBack(events: seq<Event>, i: nat, j: nat, digest: Record -> string)
    requires i <= j <= |events| && NoneTaken(events, i, j, digest)
    ensures Follows(After(events, i, digest).seen, After(events, j, digest).seen)
    decreases j
  {
    hide After, Step, Inv;
    if i < j {
      SeenNeverBack(events, i, j - 1, digest);
      InvAfter(events, j - 1, digest);
      AfterOne(events, j - 1, digest);
      SeenStep(After(events, j - 1, digest), events[j - 1], digest);
      FollowsTransitive(
        After(events, i, digest).seen, After(events, j - 1, digest).seen, After(events, j, digest).seen);
    } else {
      assert Follows(After(events, i, digest).seen, After(events, j, digest).seen) by { FollowsItself(); }
    }
  }

  lemma FollowsItself()
    ensures forall a :: Follows(a, a)
  {
  }

  /** In particular through any kills, and whatever the disk writes back on its own. */
  lemma SeenNeverBackByKills(events: seq<Event>, i: nat, j: nat, digest: Record -> string)
    requires i <= j <= |events| && forall k :: i <= k < j ==> !events[k].PowerFailure?
    ensures Follows(After(events, i, digest).seen, After(events, j, digest).seen)
  {
    SeenNeverBack(events, i, j, digest);
  }

  ghost predicate SeenAscends(events: seq<Event>, digest: Record -> string) {
    forall i, j :: 0 <= i <= j <= |events| ==>
      Follows(After(events, i, digest).seen, After(events, j, digest).seen)
  }

  /** A run never takes the record seen back if and only if it has no such power failure. */
  lemma SeenAscendsExactly(events: seq<Event>, digest: Record -> string)
    ensures SeenAscends(events, digest) <==> NoneTaken(events, 0, |events|, digest)
  {
    hide After, Step, Inv, Follows;
    if NoneTaken(events, 0, |events|, digest) {
      forall i: nat, j: nat | i <= j <= |events|
        ensures Follows(After(events, i, digest).seen, After(events, j, digest).seen)
      {
        SeenNeverBack(events, i, j, digest);
      }
    } else {
      var k :| 0 <= k < |events| && TakesBack(After(events, k, digest), events[k]);
      InvAfter(events, k, digest);
      AfterOne(events, k, digest);
      SeenStep(After(events, k, digest), events[k], digest);
      assert !Follows(After(events, k, digest).seen, After(events, k + 1, digest).seen);
    }
  }

  // ---- where records come from ----

  /** Where a run finished an installation: the matching record was pending, the token was its digest, and at that
      moment every file was in place. */
  predicate FinishedAt(events: seq<Event>, k: nat, package: Package, digest: Record -> string) {
    && k < |events| && events[k] == Finish(package, digest(Record(package, Pending)))
    && After(events, k, digest).seen == Some(Record(package, Pending))
    && FilesMatch(package, After(events, k, digest).files)
  }

  predicate BegunAt(events: seq<Event>, k: nat, package: Package, digest: Record -> string) {
    && k < |events| && events[k].Begin? && events[k].candidate == package && package.Valid()
    && MayBegin(After(events, k, digest).seen, package, After(events, k, digest).files, events[k].foreign)
  }

  /** Where a record comes from: an installed one from a finish, a pending one from a begin, at some earlier event. */
  ghost predicate Explained(events: seq<Event>, n: nat, record: Record, digest: Record -> string) {
    match record.status
    case Installed => exists k: nat :: k < n && FinishedAt(events, k, record.package, digest)
    case Pending => exists k: nat :: k < n && BegunAt(events, k, record.package, digest)
  }

  ghost predicate AllExplained(events: seq<Event>, n: nat, digest: Record -> string)
    requires n <= |events|
  {
    var t := After(events, n, digest);
    && (t.seen.Some? ==> Explained(events, n, t.seen.value, digest))
    && (t.kept.Some? ==> Explained(events, n, t.kept.value, digest))
    && (t.doing.Writing? ==> Explained(events, n, t.doing.record, digest))
  }

  lemma StillExplained(events: seq<Event>, n: nat, record: Record, digest: Record -> string)
    requires Explained(events, n, record, digest)
    ensures Explained(events, n + 1, record, digest)
  {
  }

  /** Every record there ever is, seen, surviving or about to be written, has its begin or its finish in the run. */
  lemma {:induction false} RecordsAreExplained(events: seq<Event>, n: nat, digest: Record -> string)
    requires n <= |events|
    ensures AllExplained(events, n, digest)
    decreases n
  {
    if n > 0 {
      RecordsAreExplained(events, n - 1, digest);
      AfterOne(events, n - 1, digest);
      StepExplained(events, n - 1, digest);
    } else {
      assert events[..0] == [];
    }
  }

  lemma StepExplained(events: seq<Event>, n: nat, digest: Record -> string)
    requires n < |events| && AllExplained(events, n, digest)
    requires After(events, n + 1, digest) == Step(After(events, n, digest), events[n], digest)
    ensures AllExplained(events, n + 1, digest)
  {
    hide Run, After, FilesMatch, MayBegin;
    var t := After(events, n, digest);
    if t.seen.Some? { StillExplained(events, n, t.seen.value, digest); }
    if t.kept.Some? { StillExplained(events, n, t.kept.value, digest); }
    if t.doing.Writing? { StillExplained(events, n, t.doing.record, digest); }
    match events[n]
    case Begin(candidate, foreign) =>
      assert Step(t, events[n], digest) != t ==> BegunAt(events, n, candidate, digest);
    case Finish(candidate, token) =>
      assert Step(t, events[n], digest) != t ==> FinishedAt(events, n, candidate, digest);
    case _ =>
  }

  /** This pending record is seen, and nothing else is being written. */
  predicate Waiting(t: Target, package: Package) {
    && t.seen == Some(Record(package, Pending))
    && (t.doing.Writing? ==> t.doing.record == Record(package, Pending))
  }

  /** The two ways out of waiting: the package's own finish with its token and all its files in place, or a power
      failure before the pending record was synced. */
  predicate Ends(t: Target, e: Event, package: Package, digest: Record -> string) {
    || (e == Finish(package, digest(Record(package, Pending))) && t.doing == Idle && package.Valid()
        && FilesMatch(package, t.files))
    || (e.PowerFailure? && t.kept != t.seen)
  }

  lemma WaitingStep(t: Target, e: Event, package: Package, digest: Record -> string)
    requires Waiting(t, package)
    ensures Waiting(Step(t, e, digest), package) <==> !Ends(t, e, package, digest)
  {
    hide FilesMatch;
  }

  /** Once a pending record is seen, synced or not, and until one of these two, it is the only record there is to see
      or to write, through any kills and any other begin or finish. */
  lemma {:induction false} OnlyItsOwnFinish(
      events: seq<Event>, i: nat, j: nat, package: Package, digest: Record -> string)
    requires i <= j <= |events| && Waiting(After(events, i, digest), package)
    requires forall k :: i <= k < j ==> !Ends(After(events, k, digest), events[k], package, digest)
    ensures Waiting(After(events, j, digest), package)
    decreases j
  {
    hide After, Waiting, Ends;
    if i < j {
      OnlyItsOwnFinish(events, i, j - 1, package, digest);
      AfterOne(events, j - 1, digest);
      WaitingStep(After(events, j - 1, digest), events[j - 1], package, digest);
    }
  }

  /** Once it is synced as well, power failures do not matter: only its own finish ends the wait. */
  lemma {:induction false} SyncedWaits(
      events: seq<Event>, i: nat, j: nat, package: Package, digest: Record -> string)
    requires i <= j <= |events| && Waiting(After(events, i, digest), package)
    requires After(events, i, digest).kept == After(events, i, digest).seen
    requires forall k :: i <= k < j ==> !FinishedAt(events, k, package, digest)
    ensures Waiting(After(events, j, digest), package)
    ensures After(events, j, digest).kept == After(events, j, digest).seen
    decreases j
  {
    hide Run, FilesMatch;
    if i < j {
      SyncedWaits(events, i, j - 1, package, digest);
      AfterOne(events, j - 1, digest);
      assert !FinishedAt(events, j - 1, package, digest);
    }
  }

  lemma RunTwo(t: Target, a: Event, b: Event, digest: Record -> string)
    ensures Run(t, [a, b], digest) == Step(Step(t, a, digest), b, digest)
  {
    assert [a, b][1..] == [b] && [b][1..] == [];
    assert Run(Step(t, a, digest), [b], digest) == Step(Step(t, a, digest), b, digest);
  }

  lemma RunThree(t: Target, a: Event, b: Event, c: Event, digest: Record -> string)
    ensures Run(t, [a, b, c], digest) == Step(Step(Step(t, a, digest), b, digest), c, digest)
  {
    assert [a, b, c][1..] == [b, c];
    RunTwo(Step(t, a, digest), b, c, digest);
  }

  /** A target on which a package is installed, its files in place and its record synced. */
  function Settled(package: Package): Target {
    var saved := Some(Record(package, Installed));
    Target(saved, saved, package.files, Idle)
  }

  lemma InstallSettles(package: Package, digest: Record -> string)
    requires package.Valid()
    ensures var begun := Run(FRESH.(files := package.files), [Begin(package, false), Replace, SyncDirectory], digest);
      Run(begun, [Finish(package, digest(Record(package, Pending))), Replace, SyncDirectory], digest)
      == Settled(package)
  {
    var t := FRESH.(files := package.files);
    RunThree(t, Begin(package, false), Replace, SyncDirectory, digest);
    var begun := Run(t, [Begin(package, false), Replace, SyncDirectory], digest);
    RunThree(begun, Finish(package, digest(Record(package, Pending))), Replace, SyncDirectory, digest);
  }

  /** A begin is let through exactly if the record it would write follows the one that is there, a pending one being of
      the same package and an installed one still describing the files, and if there is no record, no driver either. */
  lemma BeginsExactly(before: Saved, candidate: Package, files: Files, foreign: bool)
    ensures MayBegin(before, candidate, files, foreign) <==>
      && Follows(before, Some(Record(candidate, Pending)))
      && (before.None? ==> !foreign)
      && (before.Some? && before.value.status == Pending ==> before.value.package == candidate)
      && (before.Some? && before.value.status == Installed ==> FilesMatch(before.value.package, files))
  {
  }

  /** Of the packages that may begin, it writes down exactly those with files and a build number in 1..2^53 - 1. */
  lemma OnlyValidBegins(t: Target, candidate: Package, foreign: bool, digest: Record -> string)
    requires t.doing == Idle && MayBegin(t.seen, candidate, t.files, foreign)
    ensures Step(t, Begin(candidate, foreign), digest).doing == Writing(Record(candidate, Pending))
       <==> 1 <= candidate.build.number < 0x20_0000_0000_0000 && candidate.files != map[]
  {
  }

  /** A pending package can always be begun again, whatever has become of the files and whoever else put a driver there;
      undisturbed, and with its files in place at the end, that installs it. */
  lemma ResumeSettles(t: Target, package: Package, files: Files, foreign: bool, digest: Record -> string)
    requires t.doing == Idle && t.seen == Some(Record(package, Pending)) && package.Valid()
    requires FilesMatch(package, files)
    ensures var begun := Run(t, [Begin(package, foreign), Replace, SyncDirectory], digest);
      var token := digest(Record(package, Pending));
      && begun == t.(kept := t.seen)
      && Run(begun.(files := files), [Finish(package, token), Replace, SyncDirectory], digest)
         == Target(Some(Record(package, Installed)), Some(Record(package, Installed)), files, Idle)
  {
    RunThree(t, Begin(package, foreign), Replace, SyncDirectory, digest);
    var begun := Run(t, [Begin(package, foreign), Replace, SyncDirectory], digest);
    RunThree(begun.(files := files), Finish(package, digest(Record(package, Pending))), Replace, SyncDirectory, digest);
  }

  /** Losing power between the replacement and the directory sync can take a higher build number back: it was seen,
      and did not survive. */
  lemma SeenMayGoBack(a: Package, b: Package, digest: Record -> string)
    requires b.Valid() && a.build.number < b.build.number && !Below(b.build.version, a.build.version)
    ensures var begun := Run(Settled(a), [Begin(b, false), Replace], digest);
      && begun.seen == Some(Record(b, Pending)) && Step(begun, PowerFailure, digest) == Settled(a)
      && !Follows(begun.seen, Settled(a).seen)
  {
    RunTwo(Settled(a), Begin(b, false), Replace, digest);
  }
}
