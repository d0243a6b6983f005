/** What holds of the shared directory in every interleaving, crashes included. */
module PublishRuns {
  import opened Wrappers
  import opened PublishSpec

  /** Nothing at a formal path or an output path has gone or changed. */
  predicate Keeps(s: Store, u: Store) {
    && (forall p :: p in s.artifacts && p.Formal? ==> p in u.artifacts && u.artifacts[p] == s.artifacts[p])
    && (forall p :: p in s.receipts && p.Formal? ==> p in u.receipts && u.receipts[p] == s.receipts[p])
    && forall out :: out in s.outputs ==> out in u.outputs && u.outputs[out] == s.outputs[out]
  }

  /** Every formal receipt describes the artifact beside it, and everything is where its identity says. */
  predicate Sound(s: Store, digest: Digest) {
    && (forall p :: p in s.receipts && p.Formal? ==>
          p in s.artifacts && s.receipts[p] == Describe(s.artifacts[p], digest))
    && forall p :: p in s.artifacts ==> PathOf(s.artifacts[p].build) == p
  }

  /** The builder's own artifact is at its path. */
  predicate Linked(s: Store, b: Builder) {
    var p := PathOf(b.candidate.build);
    p in s.artifacts && s.artifacts[p] == b.candidate
  }

  /** The output builder b was asked for is there, with its bytes. */
  predicate Written(s: Store, b: Builder) {
    b.output.Some? ==> b.output.value in s.outputs && s.outputs[b.output.value] == b.candidate
  }

  predicate Past(phase: Phase) {
    phase in {LinkReceipt, CompareReceipt, CopyOut, Done} || phase.CompareOut?
  }

  predicate Receipted(phase: Phase) {
    phase in {CompareReceipt, CopyOut, Done} || phase.CompareOut?
  }

  /** A formal builder past the artifact has its own at the path, past the receipt there is one, what it copies out is
      its own too, and at the end its output is there; a local one only replaces. */
  predicate Honest(s: Store, b: Builder) {
    if b.candidate.build.isLocal then b.phase in {ReplaceArtifact, ReplaceReceipt, Done, Crashed}
    else
      && b.phase !in {ReplaceArtifact, ReplaceReceipt}
      && (Past(b.phase) ==> Linked(s, b))
      && (Receipted(b.phase) ==> PathOf(b.candidate.build) in s.receipts)
      && (b.phase.CompareOut? ==> b.phase.copy == b.candidate)
      && (b.phase == Done ==> Written(s, b))
  }

  predicate Inv(w: World, digest: Digest) {
    Sound(w.store, digest) && forall i :: 0 <= i < |w.builders| ==> Honest(w.store, w.builders[i])
  }

  lemma ActKeeps(s: Store, b: Builder, digest: Digest)
    requires Honest(s, b)
    ensures Keeps(s, Act(s, b, digest).0)
  {
  }

  lemma ActSound(s: Store, b: Builder, digest: Digest)
    requires Sound(s, digest) && Honest(s, b)
    ensures Sound(Act(s, b, digest).0, digest)
  {
  }

  lemma ActHonest(s: Store, b: Builder, digest: Digest)
    requires Honest(s, b)
    ensures Honest(Act(s, b, digest).0, b.(phase := Act(s, b, digest).1))
  {
  }

  lemma StillHonest(s: Store, u: Store, b: Builder)
    requires Honest(s, b) && Keeps(s, u)
    ensures Honest(u, b)
  {
  }

  lemma KeepsTransitive(s: Store, t: Store, u: Store)
    requires Keeps(s, t) && Keeps(t, u)
    ensures Keeps(s, u)
  {
  }

  lemma StepKeeps(w: World, e: Event, digest: Digest)
    requires Inv(w, digest)
    ensures Inv(Step(w, e, digest), digest) && Keeps(w.store, Step(w, e, digest).store)
  {
    hide Act, Keeps, Sound, Honest;
    var u := Step(w, e, digest);
    match e
    case Start(candidate, output) =>
      FreshHonest(w.store, candidate, output);
      KeepsItself(w.store);
    case Go(i) =>
      if i < |w.builders| {
        var b := w.builders[i];
        ActKeeps(w.store, b, digest);
        ActSound(w.store, b, digest);
        ActHonest(w.store, b, digest);
        forall j | 0 <= j < |u.builders| ensures Honest(u.store, u.builders[j])
        {
          if j != i { StillHonest(w.store, u.store, w.builders[j]); }
        }
      } else {
        KeepsItself(w.store);
      }
    case Crash(i) =>
      KeepsItself(w.store);
      if i < |w.builders| { CrashHonest(w.store, w.builders[i]); }
  }

  lemma KeepsItself(s: Store)
    ensures Keeps(s, s)
  {
  }

  lemma FreshHonest(s: Store, candidate: Artifact, output: Option<string>)
    ensures Honest(s, Fresh(candidate, output))
  {
  }

  lemma CrashHonest(s: Store, b: Builder)
    requires Honest(s, b)
    ensures Honest(s, b.(phase := Crashed))
  {
  }

  /** In every run, however the builders interleave and crash: what is at a formal path or an output path stays as it
      is, and every formal receipt describes the artifact beside it. */
  lemma {:induction false} NothingChanges(w: World, events: seq<Event>, digest: Digest)
    requires Inv(w, digest)
    ensures Inv(Run(w, events, digest), digest) && Keeps(w.store, Run(w, events, digest).store)
    decreases |events|
  {
    hide Act, Keeps, Sound, Honest;
    if events == [] {
      KeepsItself(w.store);
    } else {
      var u := Step(w, events[0], digest);
      StepKeeps(w, events[0], digest);
      NothingChanges(u, events[1..], digest);
      KeepsTransitive(w.store, u.store, Run(u, events[1..], digest).store);
    }
  }

  lemma EmptyInv(digest: Digest)
    ensures Inv(EMPTY, digest)
  {
  }

  /** Two formal builders that finished for one path had the same candidate, and it is there with its receipt and their
      outputs. */
  lemma OneWinner(events: seq<Event>, i: nat, j: nat, digest: Digest)
    requires var w := Run(EMPTY, events, digest);
      && i < |w.builders| && j < |w.builders| && w.builders[i].phase == Done && w.builders[j].phase == Done
      && PathOf(w.builders[i].candidate.build) == PathOf(w.builders[j].candidate.build)
      && !w.builders[i].candidate.build.isLocal
    ensures var w := Run(EMPTY, events, digest); var a := w.builders[i].candidate; var p := PathOf(a.build);
      && w.builders[j].candidate == a && p in w.store.artifacts && w.store.artifacts[p] == a
      && p in w.store.receipts && w.store.receipts[p] == Describe(a, digest)
      && Written(w.store, w.builders[i]) && Written(w.store, w.builders[j])
  {
    hide Run;
    EmptyInv(digest);
    NothingChanges(EMPTY, events, digest);
    var w := Run(EMPTY, events, digest);
    assert Honest(w.store, w.builders[i]) && Honest(w.store, w.builders[j]);
  }

  // ---- building the same bytes again ----

  /** Nobody else is after that output with other bytes. */
  predicate Alone(w: World, b: Builder) {
    forall j :: 0 <= j < |w.builders| && b.output.Some? && w.builders[j].output == b.output
      ==> w.builders[j].candidate == b.candidate
  }

  /** The output is there already, or is not there and undisputed. */
  predicate Clear(w: World, b: Builder) {
    Written(w.store, b) || (b.output.Some? && b.output.value !in w.store.outputs && Alone(w, b))
  }

  /** A new builder would be after the same output with other bytes. */
  predicate Disputes(e: Event, b: Builder) {
    e.Start? && b.output.Some? && e.output == b.output && e.candidate != b.candidate
  }

  predicate OnItsWay(phase: Phase) {
    phase in {CheckReceipt, LinkArtifact, CompareArtifact, LinkReceipt, CompareReceipt, CopyOut, Done, Crashed}
    || phase.CompareOut?
  }

  /** A formal builder that is still on its way or at the end, whose bytes are at the path already and whose output, if
      it was asked for one, is clear. */
  predicate Replays(w: World, i: nat) {
    && i < |w.builders| && !w.builders[i].candidate.build.isLocal && OnItsWay(w.builders[i].phase)
    && Linked(w.store, w.builders[i]) && Clear(w, w.builders[i])
    && (w.builders[i].phase == CopyOut || w.builders[i].phase.CompareOut? ==> w.builders[i].output.Some?)
    && (w.builders[i].phase.CompareOut? ==> Written(w.store, w.builders[i]))
  }

  /** The steps a builder has left. */
  function Left(phase: Phase): nat {
    match phase
    case CheckReceipt => 7
    case LinkArtifact => 6
    case CompareArtifact => 5
    case LinkReceipt => 4
    case CompareReceipt => 3
    case CopyOut => 2
    case CompareOut(_) => 1
    case _ => 0
  }

  /** One event as a replaying builder sees it: it does not fail, its own step brings it nearer to the end, and
      writes nothing but a receipt or an output that was missing. */
  lemma ReplayStep(w: World, e: Event, i: nat, digest: Digest)
    requires Inv(w, digest) && Replays(w, i) && e != Crash(i)
    requires Written(w.store, w.builders[i]) || !Disputes(e, w.builders[i])
    ensures var u := Step(w, e, digest); var b := w.builders[i];
      && Replays(u, i) && u.builders[i] == b.(phase := u.builders[i].phase)
      && Left(u.builders[i].phase) <= Left(b.phase)
      && (e == Go(i) && b.phase !in {Done, Crashed} ==> Left(u.builders[i].phase) < Left(b.phase))
      && (e == Go(i) ==> OnlyAdds(w.store, u.store, b, digest))
  {
    hide Sound, Honest, Keeps, Inv, Clear, Linked, Act, Written;
    var b := w.builders[i];
    LinkedStays(w, e, b, digest);
    ClearStays(w, e, i, digest);
    if e == Go(i) { OwnStep(w, i, digest); }
    SamePromise(Step(w, e, digest), b, Step(w, e, digest).builders[i]);
  }

  /** Nothing is written but the builder's receipt or output, and neither unless it was missing. */
  predicate OnlyAdds(s: Store, u: Store, b: Builder, digest: Digest) {
    var p := PathOf(b.candidate.build);
    && u.artifacts == s.artifacts
    && (u.receipts == s.receipts || (p !in s.receipts && u.receipts == s.receipts[p := Describe(b.candidate, digest)]))
    && (u.outputs == s.outputs || (b.output.Some? && b.output.value !in s.outputs
                                   && u.outputs == s.outputs[b.output.value := b.candidate]))
  }

  /** The builder's own step. */
  lemma OwnStep(w: World, i: nat, digest: Digest)
    requires Inv(w, digest) && Replays(w, i)
    ensures var b := w.builders[i]; var (s, phase) := Act(w.store, b, digest);
      && OnItsWay(phase) && Left(phase) <= Left(b.phase)
      && (b.phase !in {Done, Crashed} ==> Left(phase) < Left(b.phase))
      && (phase == CopyOut || phase.CompareOut? ==> b.output.Some?)
      && (phase.CompareOut? ==> Written(s, b))
      && OnlyAdds(w.store, s, b, digest)
  {
    hide Inv, Sound;
    ReceiptFits(w, i, digest);
  }

  lemma LinkedStays(w: World, e: Event, b: Builder, digest: Digest)
    requires Inv(w, digest) && Linked(w.store, b) && !b.candidate.build.isLocal
    ensures Linked(Step(w, e, digest).store, b)
  {
    StepKeeps(w, e, digest);
  }

  lemma ClearStays(w: World, e: Event, i: nat, digest: Digest)
    requires Inv(w, digest) && i < |w.builders| && Clear(w, w.builders[i])
    requires Written(w.store, w.builders[i]) || !Disputes(e, w.builders[i])
    ensures Clear(Step(w, e, digest), w.builders[i])
    ensures Written(w.store, w.builders[i]) ==> Written(Step(w, e, digest).store, w.builders[i])
  {
    hide Sound, Act;
    StepKeeps(w, e, digest);
    if e.Go? && e.i < |w.builders| {
      assert Honest(w.store, w.builders[e.i]);
      OutputsOf(w.store, w.builders[e.i], digest);
    }
  }

  /** What a step may add to the outputs: the builder's own bytes under the name it was asked for. */
  lemma OutputsOf(s: Store, b: Builder, digest: Digest)
    requires Honest(s, b)
    ensures var u := Act(s, b, digest).0;
      u.outputs == s.outputs || (b.output.Some? && u.outputs == s.outputs[b.output.value := b.candidate])
  {
  }

  lemma ReceiptFits(w: World, i: nat, digest: Digest)
    requires Inv(w, digest) && Replays(w, i)
    ensures var b := w.builders[i]; var p := PathOf(b.candidate.build);
      && (p in w.store.receipts ==> w.store.receipts[p] == Describe(b.candidate, digest))
      && (b.phase == CompareReceipt ==> p in w.store.receipts)
      && (b.phase.CompareOut? ==> b.phase.copy == b.candidate)
  {
    assert Honest(w.store, w.builders[i]);
  }

  /** How many steps builder i takes in a run. */
  function Turns(events: seq<Event>, i: nat): nat {
    if events == [] then 0 else (if events[0] == Go(i) then 1 else 0) + Turns(events[1..], i)
  }

  /** Building the same bytes again, after a crash between artifact and receipt as well: however other builders
      interleave, the builder does not fail, and seven steps of its own bring it to the end. Of its output it is asked
      only that it is there already, with these bytes, or that nobody is after it with other bytes. */
  lemma {:induction false} ReplayCompletes(w: World, events: seq<Event>, i: nat, digest: Digest)
    requires Inv(w, digest) && Replays(w, i) && w.builders[i].phase != Crashed && Crash(i) !in events
    requires Written(w.store, w.builders[i]) || forall k :: 0 <= k < |events| ==> !Disputes(events[k], w.builders[i])
    ensures var u := Run(w, events, digest);
      && Replays(u, i) && u.builders[i].phase != Crashed
      && (Turns(events, i) >= Left(w.builders[i].phase) ==> u.builders[i].phase == Done)
    decreases |events|
  {
    hide Inv, Linked, Act, Written, Clear, Disputes;
    if events != [] {
      var u := Step(w, events[0], digest);
      ReplayStep(w, events[0], i, digest);
      ClearReplays(w, i);
      ClearStays(w, events[0], i, digest);
      SamePromise(u, w.builders[i], u.builders[i]);
      NotCrashed(w, events[0], i, digest);
      StepKeeps(w, events[0], digest);
      ReplayCompletes(u, events[1..], i, digest);
    }
  }

  lemma ClearReplays(w: World, i: nat)
    requires Replays(w, i)
    ensures Clear(w, w.builders[i])
  {
  }

  /** What is asked of a builder's output does not depend on its phase. */
  lemma SamePromise(w: World, b: Builder, c: Builder)
    requires c == b.(phase := c.phase)
    ensures Written(w.store, b) == Written(w.store, c) && Linked(w.store, b) == Linked(w.store, c)
    ensures Clear(w, b) == Clear(w, c) && forall e :: Disputes(e, b) == Disputes(e, c)
  {
  }

  lemma NotCrashed(w: World, e: Event, i: nat, digest: Digest)
    requires i < |w.builders| && w.builders[i].phase != Crashed && e != Crash(i)
    ensures i < |Step(w, e, digest).builders| && Step(w, e, digest).builders[i].phase != Crashed
    ensures w.builders[i].phase == Done && e == Go(i) ==> Step(w, e, digest).builders[i].phase == Done
  {
  }

  // ---- the first build ----

  /** Nobody else is after the path of builder b with other bytes. */
  predicate Unrivalled(w: World, b: Builder) {
    forall j :: 0 <= j < |w.builders| && PathOf(w.builders[j].candidate.build) == PathOf(b.candidate.build)
      ==> w.builders[j].candidate == b.candidate
  }

  /** A new builder would be after the same path with other bytes. */
  predicate Contests(e: Event, b: Builder) {
    e.Start? && PathOf(e.candidate.build) == PathOf(b.candidate.build) && e.candidate != b.candidate
  }

  /** A formal builder before its link, whose path is free and unrivalled and whose output is clear. */
  predicate Opens(w: World, i: nat) {
    && i < |w.builders| && !w.builders[i].candidate.build.isLocal
    && w.builders[i].phase in {CheckReceipt, LinkArtifact}
    && PathOf(w.builders[i].candidate.build) !in w.store.artifacts
    && Unrivalled(w, w.builders[i]) && Clear(w, w.builders[i])
  }

  /** Any event but a rival's start leaves such a builder before its link, with its bytes at the path or nobody's. */
  lemma OpenStep(w: World, e: Event, i: nat, digest: Digest)
    requires Inv(w, digest) && Opens(w, i) && e != Crash(i) && e != Go(i) && !Contests(e, w.builders[i])
    requires Written(w.store, w.builders[i]) || !Disputes(e, w.builders[i])
    ensures var u := Step(w, e, digest); u.builders[i] == w.builders[i] && (Opens(u, i) || Replays(u, i))
  {
    ClearStays(w, e, i, digest);
    if e.Go? && e.i < |w.builders| {
      assert Honest(w.store, w.builders[e.i]);
      ArtifactsOf(w.store, w.builders[e.i], digest);
    }
    hide Inv, Honest, Clear, Act, Written;
  }

  /** What a step may add to the artifacts: the builder's own bytes at its path. */
  lemma ArtifactsOf(s: Store, b: Builder, digest: Digest)
    ensures var u := Act(s, b, digest).0;
      u.artifacts == s.artifacts || u.artifacts == s.artifacts[PathOf(b.candidate.build) := b.candidate]
  {
  }

  /** Its own steps find no receipt, then link its bytes. */
  lemma OpenOwnStep(w: World, i: nat, digest: Digest)
    requires Inv(w, digest) && Opens(w, i)
    ensures var u := Step(w, Go(i), digest); var b := w.builders[i];
      && u.builders[i] == b.(phase := u.builders[i].phase)
      && (b.phase == CheckReceipt ==> Opens(u, i) && u.builders[i].phase == LinkArtifact)
      && (b.phase == LinkArtifact ==> Replays(u, i) && u.builders[i].phase == LinkReceipt)
  {
    var u := Step(w, Go(i), digest);
    ClearStays(w, Go(i), i, digest);
    SamePromise(u, w.builders[i], u.builders[i]);
    hide Clear, Written;
  }

  /** A builder that opens a path, or finds its own bytes there, with no rival for the path or the output. */
  predicate Publishes(w: World, i: nat) {
    Opens(w, i) || Replays(w, i)
  }

  lemma PublishStep(w: World, e: Event, i: nat, digest: Digest)
    requires Inv(w, digest) && Publishes(w, i) && e != Crash(i)
    requires Linked(w.store, w.builders[i]) || !Contests(e, w.builders[i])
    requires Written(w.store, w.builders[i]) || !Disputes(e, w.builders[i])
    ensures var u := Step(w, e, digest); var b := w.builders[i];
      && Publishes(u, i) && u.builders[i] == b.(phase := u.builders[i].phase)
      && Left(u.builders[i].phase) <= Left(b.phase)
      && (e == Go(i) && b.phase !in {Done, Crashed} ==> Left(u.builders[i].phase) < Left(b.phase))
  {
    hide Inv, Clear, Act, Written, Disputes, Contests, Unrivalled;
    if Replays(w, i) {
      ReplayStep(w, e, i, digest);
    } else if e == Go(i) {
      OpenOwnStep(w, i, digest);
    } else {
      OpenStep(w, e, i, digest);
    }
  }

  /** A first build publishes, and a repeated one confirms: from any reachable state, a formal builder whose path is
      free or holds its bytes, with no rival for path or output now or later, is at the end after seven steps of its
      own, however others interleave; its bytes, their receipt and its output are then there. */
  lemma {:induction false} BuildPublishes(w: World, events: seq<Event>, i: nat, digest: Digest)
    requires Inv(w, digest) && Publishes(w, i) && w.builders[i].phase != Crashed && Crash(i) !in events
    requires forall k :: 0 <= k < |events| ==>
      !Contests(events[k], w.builders[i]) && !Disputes(events[k], w.builders[i])
    ensures var u := Run(w, events, digest); var b := w.builders[i]; var p := PathOf(b.candidate.build);
      && Publishes(u, i) && u.builders[i] == b.(phase := u.builders[i].phase)
      && (Turns(events, i) >= Left(b.phase) ==>
            && u.builders[i].phase == Done && Linked(u.store, b) && Written(u.store, b)
            && p in u.store.receipts && u.store.receipts[p] == Describe(b.candidate, digest))
    decreases |events|
  {
    hide Inv, Linked, Act, Written, Clear, Disputes, Contests;
    if events == [] {
      AtTheEnd(w, i, digest);
    } else {
      var u := Step(w, events[0], digest);
      PublishStep(w, events[0], i, digest);
      SameRivals(u, w.builders[i], u.builders[i]);
      NotCrashed(w, events[0], i, digest);
      StepKeeps(w, events[0], digest);
      BuildPublishes(u, events[1..], i, digest);
      SameRivals(Run(u, events[1..], digest), w.builders[i], u.builders[i]);
    }
  }

  lemma SameRivals(w: World, b: Builder, c: Builder)
    requires c == b.(phase := c.phase)
    ensures Written(w.store, b) == Written(w.store, c) && Linked(w.store, b) == Linked(w.store, c)
    ensures forall e :: Disputes(e, b) == Disputes(e, c) && Contests(e, b) == Contests(e, c)
  {
  }

  lemma AtTheEnd(w: World, i: nat, digest: Digest)
    requires Inv(w, digest) && Publishes(w, i) && w.builders[i].phase != Crashed
    ensures Left(w.builders[i].phase) == 0 ==>
      var b := w.builders[i]; var p := PathOf(b.candidate.build);
      && b.phase == Done && Linked(w.store, b) && Written(w.store, b)
      && p in w.store.receipts && w.store.receipts[p] == Describe(b.candidate, digest)
  {
    assert Honest(w.store, w.builders[i]);
  }

  /** So does a builder that starts in a reachable state where neither path nor output is taken or wanted by others. */
  lemma FreshPublishes(
      w: World, candidate: Artifact, output: Option<string>, events: seq<Event>, digest: Digest)
    requires Inv(w, digest) && !candidate.build.isLocal
    requires var b := Fresh(candidate, output); var p := PathOf(candidate.build); var i := |w.builders|;
      && p !in w.store.artifacts && (output.Some? ==> output.value !in w.store.outputs)
      && Unrivalled(w, b) && Alone(w, b) && Crash(i) !in events && Turns(events, i) >= 7
      && forall k :: 0 <= k < |events| ==> !Contests(events[k], b) && !Disputes(events[k], b)
    ensures var u := Run(w, [Start(candidate, output)] + events, digest); var p := PathOf(candidate.build);
      && |w.builders| < |u.builders| && u.builders[|w.builders|].phase == Done
      && p in u.store.artifacts && u.store.artifacts[p] == candidate
      && p in u.store.receipts && u.store.receipts[p] == Receipt(candidate.build, digest(candidate))
      && (output.Some? ==> output.value in u.store.outputs && u.store.outputs[output.value] == candidate)
  {
    var e := Start(candidate, output);
    var u := Step(w, e, digest);
    StepKeeps(w, e, digest);
    assert ([e] + events)[1..] == events;
    hide Inv, Act;
    BuildPublishes(u, events, |w.builders|, digest);
  }
}
