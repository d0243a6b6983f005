/** Builders that publish an artifact and its receipt in a shared directory, each step of each builder on its own. */
module PublishSpec {
  import opened Wrappers

  datatype Build = Build(version: string, number: nat, isLocal: bool, identity: string)

  /** A package's bytes; its identity is one of the files in it, so different identities are different bytes. */
  datatype Artifact = Artifact(build: Build, payload: string)

  /** What the receipt records of an artifact. */
  datatype Receipt = Receipt(build: Build, hash: string)

  type Digest = Artifact -> string

  function Describe(a: Artifact, digest: Digest): Receipt {
    Receipt(a.build, digest(a))
  }

  /** Where a build goes: formal builds by version and number, local ones by version alone. */
  datatype Path = Formal(version: string, number: nat) | Local(version: string)

  function PathOf(b: Build): Path {
    if b.isLocal then Local(b.version) else Formal(b.version, b.number)
  }

  datatype Store = Store(artifacts: map<Path, Artifact>, receipts: map<Path, Receipt>, outputs: map<string, Artifact>)

  /** Where a builder stands: what it does next. */
  datatype Phase =
    | CheckReceipt | LinkArtifact | CompareArtifact | LinkReceipt | CompareReceipt
    | CopyOut | CompareOut(copy: Artifact)
    | ReplaceArtifact | ReplaceReceipt
    | Done | Failed | Crashed

  /** One builder: its candidate, the output it was asked for, and its phase. */
  datatype Builder = Builder(candidate: Artifact, output: Option<string>, phase: Phase)

  function Fresh(candidate: Artifact, output: Option<string>): Builder {
    if candidate.build.isLocal then Builder(candidate, None, ReplaceArtifact)
    else Builder(candidate, output, CheckReceipt)
  }

  function Published(b: Builder): Phase {
    if b.output.None? then Done else CopyOut
  }

  /** The next step of one builder: what the directory becomes, and where the builder stands then. A link creates a
      name or leaves the one that is there; the comparison after it is a step of its own. */
  function Act(s: Store, b: Builder, digest: Digest): (Store, Phase) {
    var a := b.candidate;
    var p := PathOf(a.build);
    match b.phase
    case CheckReceipt => (s, if p in s.receipts && s.receipts[p] != Describe(a, digest) then Failed else LinkArtifact)
    case LinkArtifact =>
      if p in s.artifacts then (s, CompareArtifact) else (s.(artifacts := s.artifacts[p := a]), LinkReceipt)
    case CompareArtifact => (s, if p in s.artifacts && s.artifacts[p] == a then LinkReceipt else Failed)
    case LinkReceipt =>
      if p in s.receipts then (s, CompareReceipt)
      else (s.(receipts := s.receipts[p := Describe(a, digest)]), Published(b))
    case CompareReceipt => (s, if p in s.receipts && s.receipts[p] == Describe(a, digest) then Published(b) else Failed)
    case CopyOut =>
      if p !in s.artifacts || b.output.None? || Describe(s.artifacts[p], digest) != Describe(a, digest) then (s, Failed)
      else
        var copy, out := s.artifacts[p], b.output.value;
        if out in s.outputs then (s, CompareOut(copy)) else (s.(outputs := s.outputs[out := copy]), Done)
    case CompareOut(copy) =>
      (s, if b.output.Some? && b.output.value in s.outputs && s.outputs[b.output.value] == copy then Done else Failed)
    case ReplaceArtifact => (s.(artifacts := s.artifacts[p := a]), ReplaceReceipt)
    case ReplaceReceipt => (s.(receipts := s.receipts[p := Describe(a, digest)]), Done)
    case _ => (s, b.phase)
  }

  datatype World = World(store: Store, builders: seq<Builder>)

  datatype Event = Start(candidate: Artifact, output: Option<string>) | Go(i: nat) | Crash(i: nat)

  function Step(w: World, e: Event, digest: Digest): World {
    match e
    case Start(candidate, output) => w.(builders := w.builders + [Fresh(candidate, output)])
    case Go(i) =>
      if i < |w.builders| then
        var b := w.builders[i];
        World(Act(w.store, b, digest).0, w.builders[i := b.(phase := Act(w.store, b, digest).1)])
      else w
    case Crash(i) =>
      if i < |w.builders| then w.(builders := w.builders[i := w.builders[i].(phase := Crashed)]) else w
  }

  function Run(w: World, events: seq<Event>, digest: Digest): World
    decreases |events|
  {
    if events == [] then w else Run(Step(w, events[0], digest), events[1..], digest)
  }

  const EMPTY: World := World(Store(map[], map[], map[]), [])
}
