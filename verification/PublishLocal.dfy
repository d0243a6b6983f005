/** Local builds replace what is at their path, artifact and receipt one after the other: what that promises, and
    when. */
module PublishLocal {
  import opened Wrappers
  import opened PublishSpec

  /** Every builder started is given one of these candidates. */
  predicate StartsAmong(events: seq<Event>, candidates: set<Artifact>) {
    forall k :: 0 <= k < |events| && events[k].Start? ==> events[k].candidate in candidates
  }

  predicate IsLocalOf(a: Artifact, v: string) {
    a.build.isLocal && a.build.version == v
  }

  /** The receipt of a version's local build describes the artifact beside it. */
  predicate Described(s: Store, v: string, digest: Digest) {
    Local(v) in s.receipts ==>
      Local(v) in s.artifacts && s.receipts[Local(v)] == Describe(s.artifacts[Local(v)], digest)
  }

  /** The artifact of a version's local build is still there, with the same bytes. */
  predicate Kept(s: Store, u: Store, v: string) {
    Local(v) in s.artifacts ==> Local(v) in u.artifacts && u.artifacts[Local(v)] == s.artifacts[Local(v)]
  }

  /** All local candidates of the version have one description. */
  predicate Agree(candidates: set<Artifact>, v: string, digest: Digest) {
    forall a, b :: a in candidates && b in candidates && IsLocalOf(a, v) && IsLocalOf(b, v)
      ==> Describe(a, digest) == Describe(b, digest)
  }

  /** There is at most one of them. */
  predicate Single(candidates: set<Artifact>, v: string) {
    forall a, b :: a in candidates && b in candidates && IsLocalOf(a, v) && IsLocalOf(b, v) ==> a == b
  }

  /** A local builder only replaces, a formal one never does; who is about to replace the receipt has placed an
      artifact before. */
  predicate Placed(s: Store, b: Builder, candidates: set<Artifact>) {
    && b.candidate in candidates
    && (b.candidate.build.isLocal ==>
          b.phase in {ReplaceArtifact, ReplaceReceipt, Done, Crashed}
          && (b.phase == ReplaceReceipt ==> PathOf(b.candidate.build) in s.artifacts))
    && (b.phase in {ReplaceArtifact, ReplaceReceipt} ==> b.candidate.build.isLocal)
  }

  predicate FromCandidates(s: Store, v: string, candidates: set<Artifact>) {
    Local(v) in s.artifacts ==> s.artifacts[Local(v)] in candidates && IsLocalOf(s.artifacts[Local(v)], v)
  }

  ghost predicate Inv(w: World, v: string, candidates: set<Artifact>) {
    && FromCandidates(w.store, v, candidates)
    && forall i :: 0 <= i < |w.builders| ==> Placed(w.store, w.builders[i], candidates)
  }

  /** What one step of one builder does to the local paths. */
  lemma ActLocal(s: Store, b: Builder, v: string, candidates: set<Artifact>, digest: Digest)
    requires Placed(s, b, candidates) && FromCandidates(s, v, candidates)
    ensures var (u, phase) := Act(s, b, digest);
      && FromCandidates(u, v, candidates) && Placed(u, b.(phase := phase), candidates)
      && s.artifacts.Keys <= u.artifacts.Keys
      && (Agree(candidates, v, digest) && Described(s, v, digest) ==> Described(u, v, digest))
      && (Single(candidates, v) ==> Kept(s, u, v))
  {
  }

  lemma StepLocal(w: World, e: Event, v: string, candidates: set<Artifact>, digest: Digest)
    requires Inv(w, v, candidates) && (e.Start? ==> e.candidate in candidates)
    ensures var u := Step(w, e, digest);
      && Inv(u, v, candidates)
      && (Agree(candidates, v, digest) && Described(w.store, v, digest) ==> Described(u.store, v, digest))
      && (Single(candidates, v) ==> Kept(w.store, u.store, v))
  {
    hide Act, Agree, Single, Described, FromCandidates;
    var u := Step(w, e, digest);
    if e.Go? && e.i < |w.builders| {
      ActLocal(w.store, w.builders[e.i], v, candidates, digest);
      forall j | 0 <= j < |u.builders| ensures Placed(u.store, u.builders[j], candidates)
      {
        if j != e.i { assert Placed(w.store, w.builders[j], candidates); }
      }
    } else {
      assert u.store == w.store;
    }
  }

  lemma {:induction false} RunLocal(w: World, events: seq<Event>, v: string, candidates: set<Artifact>, digest: Digest)
    requires Inv(w, v, candidates) && StartsAmong(events, candidates)
    ensures var u := Run(w, events, digest);
      && Inv(u, v, candidates)
      && (Agree(candidates, v, digest) && Described(w.store, v, digest) ==> Described(u.store, v, digest))
      && (Single(candidates, v) ==> Kept(w.store, u.store, v))
    decreases |events|
  {
    hide Step, Inv, Agree, Single, Described;
    if events != [] {
      StepLocal(w, events[0], v, candidates, digest);
      RunLocal(Step(w, events[0], digest), events[1..], v, candidates, digest);
    }
  }

  /** Two builders of one version interleaved: the receipt of one beside the artifact of the other. */
  lemma LocalRace(a: Artifact, b: Artifact, digest: Digest)
    requires a.build.isLocal && b.build.isLocal && a.build.version == b.build.version
    ensures var end := Run(EMPTY, Race(a, b), digest).store; var p := PathOf(a.build);
      && p in end.artifacts && end.artifacts[p] == b
      && p in end.receipts && end.receipts[p] == Describe(a, digest)
  {
    var begun, rest := [Start(a, None), Start(b, None), Go(0)], [Go(1), Go(1), Go(0)];
    RunAppend(EMPTY, begun, rest, digest);
    RunThree(EMPTY, Start(a, None), Start(b, None), Go(0), digest);
    RunThree(Run(EMPTY, begun, digest), Go(1), Go(1), Go(0), digest);
  }

  function Race(a: Artifact, b: Artifact): seq<Event> {
    [Start(a, None), Start(b, None), Go(0)] + [Go(1), Go(1), Go(0)]
  }

  /** One builder after the other: the second replaces the artifact of the first. */
  lemma LocalReplaced(a: Artifact, b: Artifact, digest: Digest)
    requires a.build.isLocal && b.build.isLocal && a.build.version == b.build.version
    ensures var one := Run(EMPTY, [Start(a, None), Go(0)], digest);
      var two := Run(one, [Start(b, None), Go(1)], digest); var p := PathOf(a.build);
      p in one.store.artifacts && one.store.artifacts[p] == a && p in two.store.artifacts && two.store.artifacts[p] == b
  {
    RunTwo(EMPTY, Start(a, None), Go(0), digest);
    RunTwo(Run(EMPTY, [Start(a, None), Go(0)], digest), Start(b, None), Go(1), digest);
  }

  /** In every run of builders of these candidates, local and formal, the version's local receipt describes the artifact
      beside it. */
  ghost predicate AlwaysDescribed(candidates: set<Artifact>, v: string, digest: Digest) {
    forall events :: StartsAmong(events, candidates) ==> Described(Run(EMPTY, events, digest).store, v, digest)
  }

  /** And in every run the version's local artifact keeps its bytes once it is there. */
  ghost predicate AlwaysKept(candidates: set<Artifact>, v: string, digest: Digest) {
    forall es, fs :: StartsAmong(es, candidates) && StartsAmong(fs, candidates) ==>
      Kept(Run(EMPTY, es, digest).store, Run(Run(EMPTY, es, digest), fs, digest).store, v)
  }

  /** Local receipts are right under every interleaving and crash if and only if all local candidates of the version
      have one description. */
  lemma DescribedExactly(candidates: set<Artifact>, v: string, digest: Digest)
    ensures AlwaysDescribed(candidates, v, digest) <==> Agree(candidates, v, digest)
  {
    hide Run;
    if Agree(candidates, v, digest) {
      forall events | StartsAmong(events, candidates)
        ensures Described(Run(EMPTY, events, digest).store, v, digest)
      {
        RunLocal(EMPTY, events, v, candidates, digest);
      }
    } else {
      var a, b :| a in candidates && b in candidates && IsLocalOf(a, v) && IsLocalOf(b, v)
                  && Describe(a, digest) != Describe(b, digest);
      LocalRace(a, b, digest);
      assert StartsAmong(Race(a, b), candidates);
    }
  }

  /** Local artifacts never change if and only if there is at most one such candidate. */
  lemma KeptExactly(candidates: set<Artifact>, v: string, digest: Digest)
    ensures AlwaysKept(candidates, v, digest) <==> Single(candidates, v)
  {
    hide Run;
    if Single(candidates, v) {
      forall es, fs | StartsAmong(es, candidates) && StartsAmong(fs, candidates)
        ensures Kept(Run(EMPTY, es, digest).store, Run(Run(EMPTY, es, digest), fs, digest).store, v)
      {
        RunLocal(EMPTY, es, v, candidates, digest);
        RunLocal(Run(EMPTY, es, digest), fs, v, candidates, digest);
      }
    } else {
      var a, b :| a in candidates && b in candidates && IsLocalOf(a, v) && IsLocalOf(b, v) && a != b;
      var es, fs := [Start(a, None), Go(0)], [Start(b, None), Go(1)];
      LocalReplaced(a, b, digest);
      assert StartsAmong(es, candidates) && StartsAmong(fs, candidates);
    }
  }

  lemma {:induction false} RunAppend(w: World, es: seq<Event>, fs: seq<Event>, digest: Digest)
    ensures Run(w, es + fs, digest) == Run(Run(w, es, digest), fs, digest)
    decreases |es|
  {
    hide Step;
    if es == [] {
      assert es + fs == fs;
    } else {
      assert (es + fs)[0] == es[0] && (es + fs)[1..] == es[1..] + fs;
      RunAppend(Step(w, es[0], digest), es[1..], fs, digest);
    }
  }

  lemma RunTwo(w: World, e: Event, f: Event, digest: Digest)
    ensures Run(w, [e, f], digest) == Step(Step(w, e, digest), f, digest)
  {
    hide Step;
    assert [e, f][1..] == [f] && [f][1..] == [];
    assert Run(Step(w, e, digest), [f], digest) == Step(Step(w, e, digest), f, digest);
  }

  lemma RunThree(w: World, e: Event, f: Event, g: Event, digest: Digest)
    ensures Run(w, [e, f, g], digest) == Step(Step(Step(w, e, digest), f, digest), g, digest)
  {
    hide Step;
    assert [e, f, g][1..] == [f, g];
    RunTwo(Step(w, e, digest), f, g, digest);
  }
}
