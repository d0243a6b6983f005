/** A command line cut in place into its arguments. */
module ParseLine {
  const NUL: char := '\0'
  const QUOTE: char := '"'
  const CMD_MAXARGS: nat := 30

  /** Where an argument lies; the NUL that ends it is at end. */
  datatype Slice = Slice(begin: nat, end: nat)

  /** What each of the three inner loops runs up to. */
  datatype Stop = NotBlank | Blank | Quote

  predicate IsBlank(c: char) {
    c == ' ' || c == '\t'
  }

  predicate Stops(c: char, stop: Stop) {
    match stop
    case NotBlank => !IsBlank(c)
    case Blank => IsBlank(c)
    case Quote => c == QUOTE
  }

  /** The first place from p on where a loop stops: such a character or the end. */
  function First(s: string, p: nat, stop: Stop): (r: nat)
    requires p <= |s|
    ensures p <= r <= |s| && (r < |s| ==> Stops(s[r], stop))
    ensures forall k :: p <= k < r ==> !Stops(s[k], stop)
    decreases |s| - p
  {
    if p == |s| || Stops(s[p], stop) then p else First(s, p + 1, stop)
  }

  /** The argument that starts at b, quoted or bare. */
  function SliceAt(s: string, b: nat): (x: Slice)
    requires b < |s|
    ensures b <= x.begin <= x.end <= |s|
  {
    if s[b] == QUOTE then Slice(b + 1, First(s, b + 1, Quote)) else Slice(b, First(s, b, Blank))
  }

  /** The arguments from p on, no more than a number of them. */
  function Slices(s: string, p: nat, room: nat): (r: seq<Slice>)
    requires p <= |s|
    ensures |r| <= room
    decreases room
  {
    var b := First(s, p, NotBlank);
    if room == 0 || b == |s| then []
    else
      var x := SliceAt(s, b);
      [x] + if x.end == |s| then [] else Slices(s, x.end + 1, room - 1)
  }

  /** The line with a NUL behind each argument. */
  function Terminated(line: string, xs: seq<Slice>): (r: string)
    requires forall i :: 0 <= i < |xs| ==> xs[i].end < |line|
    ensures |r| == |line|
  {
    if xs == [] then line else Terminated(line, xs[..|xs| - 1])[xs[|xs| - 1].end := NUL]
  }

  function Texts(s: string, xs: seq<Slice>): (r: seq<string>)
    requires forall i :: 0 <= i < |xs| ==> xs[i].begin <= xs[i].end <= |s|
    ensures |r| == |xs|
  {
    seq(|xs|, i requires 0 <= i < |xs| => s[xs[i].begin..xs[i].end])
  }

  /** In order, apart from one another, inside the text, each ended by a separator, a closing quote or the end. */
  predicate Ordered(s: string, xs: seq<Slice>, p: nat) {
    && (forall i :: 0 <= i < |xs| ==> p <= xs[i].begin <= xs[i].end <= |s| && EndsWell(s, xs[i].end))
    && forall i, j :: 0 <= i < j < |xs| ==> xs[i].end < xs[j].begin
  }

  predicate EndsWell(s: string, end: nat)
    requires end <= |s|
  {
    end == |s| || IsBlank(s[end]) || s[end] == QUOTE
  }

  lemma OrderedCons(s: string, x: Slice, xs: seq<Slice>, p: nat)
    requires p <= x.begin <= x.end <= |s| && EndsWell(s, x.end) && Ordered(s, xs, x.end + 1)
    ensures Ordered(s, [x] + xs, p)
  {
  }

  lemma {:induction false} SlicesOrdered(s: string, p: nat, room: nat)
    requires p <= |s|
    ensures Ordered(s, Slices(s, p, room), p)
    decreases room
  {
    hide First, Ordered, EndsWell, SliceAt, Slices;
    var b := First(s, p, NotBlank);
    SlicesFrom(s, p, room);
    if room > 0 && b < |s| {
      var x := SliceAt(s, b);
      SliceEndsWell(s, b);
      if x.end < |s| {
        SlicesOrdered(s, x.end + 1, room - 1);
        OrderedCons(s, x, Slices(s, x.end + 1, room - 1), p);
      } else {
        OrderedNone(s, x.end + 1);
        OrderedCons(s, x, [], p);
      }
    } else {
      OrderedNone(s, p);
    }
  }

  /** The first argument, then the rest. */
  lemma SlicesFrom(s: string, p: nat, room: nat)
    requires p <= |s|
    ensures var b := First(s, p, NotBlank);
      Slices(s, p, room) ==
      if room == 0 || b == |s| then []
      else var x := SliceAt(s, b); [x] + if x.end == |s| then [] else Slices(s, x.end + 1, room - 1)
  {
    hide First, SliceAt;
  }

  lemma SliceEndsWell(s: string, b: nat)
    requires b < |s|
    ensures EndsWell(s, SliceAt(s, b).end)
  {
    hide First;
  }

  lemma OrderedNone(s: string, p: nat)
    ensures Ordered(s, [], p)
  {
  }

  /** The arguments of a line: at most thirty. */
  function Args(s: string): (r: seq<string>)
    ensures |r| <= CMD_MAXARGS
  {
    SlicesOrdered(s, 0, CMD_MAXARGS);
    Texts(s, Slices(s, 0, CMD_MAXARGS))
  }

  predicate EndIn(xs: seq<Slice>, k: nat) {
    xs != [] && (xs[|xs| - 1].end == k || EndIn(xs[..|xs| - 1], k))
  }

  lemma {:induction false} EndsAt(xs: seq<Slice>, k: nat) returns (i: nat)
    requires EndIn(xs, k)
    ensures i < |xs| && xs[i].end == k
  {
    i := |xs| - 1;
    if xs[i].end != k { i := EndsAt(xs[..i], k); }
  }

  lemma {:induction false} EndIsIn(xs: seq<Slice>, i: nat)
    requires i < |xs|
    ensures EndIn(xs, xs[i].end)
  {
    if i < |xs| - 1 { EndIsIn(xs[..|xs| - 1], i); }
  }

  lemma {:induction false} TerminatedAt(line: string, xs: seq<Slice>, k: nat)
    requires k < |line| && forall i :: 0 <= i < |xs| ==> xs[i].end < |line|
    ensures Terminated(line, xs)[k] == if EndIn(xs, k) then NUL else line[k]
  {
    if xs != [] { TerminatedAt(line, xs[..|xs| - 1], k); }
  }

  /** The terminated line holds argument i as a C string: its characters, then a NUL. */
  lemma ArgumentHeld(s: string, line: string, xs: seq<Slice>, i: nat)
    requires s <= line && |s| < |line| && Ordered(s, xs, 0) && i < |xs|
    ensures Terminated(line, xs)[xs[i].begin..xs[i].end] == s[xs[i].begin..xs[i].end]
    ensures Terminated(line, xs)[xs[i].end] == NUL
  {
    hide Terminated, EndIn;
    var r := Terminated(line, xs);
    forall k | xs[i].begin <= k < xs[i].end
      ensures r[k] == s[k]
    {
      TerminatedAt(line, xs, k);
      if EndIn(xs, k) { var j := EndsAt(xs, k); }
    }
    TerminatedAt(line, xs, xs[i].end);
    EndIsIn(xs, i);
  }

  /** Only separators, closing quotes and the NUL that was there are written over. */
  lemma SeparatorsOnly(s: string, line: string, xs: seq<Slice>, k: nat)
    requires s <= line && |s| < |line| && line[|s|] == NUL && Ordered(s, xs, 0) && k < |line|
    requires Terminated(line, xs)[k] != line[k]
    ensures k < |s| && EndsWell(s, k)
  {
    TerminatedAt(line, xs, k);
    var i := EndsAt(xs, k);
  }

  lemma Unfold(s: string, p: nat, room: nat)
    requires p <= |s| && room > 0
    ensures var b := First(s, p, NotBlank);
      Slices(s, p, room) == if b == |s| then [] else
        var x := SliceAt(s, b);
        [x] + if x.end == |s| then [] else Slices(s, x.end + 1, room - 1)
  {
    hide First, SliceAt;
  }

  lemma Regroup(xs: seq<Slice>, x: Slice, ys: seq<Slice>)
    ensures xs + ([x] + ys) == xs + [x] + ys && xs + [x] + [] == xs + [x]
  {
  }

  /** One turn of the loop, in terms of the slices still to come. */
  lemma Turn(s: string, p: nat, xs: seq<Slice>)
    requires p <= |s| && |xs| < CMD_MAXARGS
    ensures var b := First(s, p, NotBlank); var ys := xs + Slices(s, p, CMD_MAXARGS - |xs|);
      if b == |s| then ys == xs else
        var x := SliceAt(s, b);
        ys == if x.end == |s| then xs + [x] else xs + [x] + Slices(s, x.end + 1, CMD_MAXARGS - |xs + [x]|)
  {
    hide Slices, First, SliceAt;
    var b := First(s, p, NotBlank);
    Unfold(s, p, CMD_MAXARGS - |xs|);
    if b < |s| {
      var x := SliceAt(s, b);
      Regroup(xs, x, if x.end == |s| then [] else Slices(s, x.end + 1, CMD_MAXARGS - |xs| - 1));
    }
  }

  lemma NoRoom(s: string, p: nat, xs: seq<Slice>)
    requires p <= |s|
    ensures xs + Slices(s, p, 0) == xs
  {
  }

  lemma Push(line: string, xs: seq<Slice>, x: Slice)
    requires x.end < |line| && forall i :: 0 <= i < |xs| ==> xs[i].end < |line|
    ensures Terminated(line, xs + [x]) == Terminated(line, xs)[x.end := NUL]
  {
    assert (xs + [x])[..|xs|] == xs;
  }

  /** An inner loop of parse_line: on to the first such character, or the end of the line. */
  method Skip(line: array<char>, from: nat, stop: Stop, ghost s: string) returns (p: nat)
    requires from <= |s| < line.Length && line[from..|s|] == s[from..] && line[|s|] == NUL && NUL !in s
    ensures p == First(s, from, stop) && (line[p] == NUL <==> p == |s|) && line[p..|s|] == s[p..]
    ensures p < |s| ==> line[p] == s[p]
  {
    assert forall k :: 0 <= k < |s| - from ==> line[from..|s|][k] == s[from..][k];
    p := from;
    while (stop == NotBlank || line[p] != NUL) && !Stops(line[p], stop)
      invariant from <= p <= |s| && First(s, p, stop) == First(s, from, stop)
      decreases |s| - p
    {
      p := p + 1;
    }
  }

  /** One turn of parse_line: past the blanks, to the end of one argument, and a NUL behind it. */
  method CutOne(line: array<char>, from: nat, ghost s: string)
    returns (found: bool, begin: nat, end: nat, more: bool)
    requires from <= |s| < line.Length && line[from..|s|] == s[from..] && line[|s|] == NUL && NUL !in s
    modifies line
    ensures found <==> First(s, from, NotBlank) < |s|
    ensures !found ==> line[..] == old(line[..])
    ensures found ==> Slice(begin, end) == SliceAt(s, First(s, from, NotBlank))
                      && line[..] == old(line[..])[end := NUL] && (more <==> end < |s|)
  {
    hide First, IsBlank;
    begin, end, more := 0, 0, false;
    var p := Skip(line, from, NotBlank, s);
    found := line[p] != NUL;
    if found {
      begin := if line[p] == QUOTE then p + 1 else p;
      end := Skip(line, begin, if line[p] == QUOTE then Quote else Blank, s);
      more := line[end] != NUL;
      if more { line[end] := NUL; }
    }
  }

  lemma StillText(s: string, line: string, now: string, p: nat, end: nat)
    requires p <= end < |s| < |line| && line[p..|s|] == s[p..] && now == line[end := NUL]
    ensures now[end + 1..|s|] == s[end + 1..] && now[|s|] == line[|s|]
  {
    forall k | end + 1 <= k < |s| ensures now[k] == s[k]
    {
      assert line[p..|s|][k - p] == s[p..][k - p];
    }
  }

  /** parse_line: where the arguments start, in a line that now holds a NUL behind each. */
  method Parse(line: array<char>, ghost s: string) returns (argv: seq<nat>)
    requires |s| < line.Length && line[..|s|] == s && line[|s|] == NUL && NUL !in s
    modifies line
    ensures var xs := Slices(s, 0, CMD_MAXARGS);
      && |argv| == |xs| && (forall i :: 0 <= i < |xs| ==> argv[i] == xs[i].begin)
      && Ordered(s, xs, 0) && line[..] == Terminated(old(line[..]), xs)
  {
    hide Slices, Terminated, First, Ordered, SliceAt;
    SlicesOrdered(s, 0, CMD_MAXARGS);
    argv := [];
    var p: nat := 0;
    ghost var xs: seq<Slice> := [];
    TerminatedNone(line[..]);
    while |argv| < CMD_MAXARGS
      invariant p <= |s| && |argv| == |xs| <= CMD_MAXARGS
      invariant forall i :: 0 <= i < |xs| ==> argv[i] == xs[i].begin && xs[i].end < line.Length
      invariant xs + Slices(s, p, CMD_MAXARGS - |xs|) == Slices(s, 0, CMD_MAXARGS)
      invariant line[..] == Terminated(old(line[..]), xs)
      invariant line[p..|s|] == s[p..] && line[|s|] == NUL
      decreases CMD_MAXARGS - |argv|
    {
      Turn(s, p, xs);
      ghost var was := line[..];
      var found, begin, end, more := CutOne(line, p, s);
      if !found { return; }
      Push(old(line[..]), xs, Slice(begin, end));
      xs := xs + [Slice(begin, end)];
      argv := argv + [begin];
      if !more { return; }
      StillText(s, was, line[..], p, end);
      p := end + 1;
    }
    NoRoom(s, p, xs);
  }

  lemma TerminatedNone(line: string)
    ensures Terminated(line, []) == line
  {
  }
}
