/** Cutting a printed argument list gives back the arguments. */
module ParseLineJoin {
  import opened Integers
  import opened ParseLine

  predicate HasBlank(a: string) {
    exists k :: 0 <= k < |a| && IsBlank(a[k])
  }

  predicate NeedsQuotes(a: string) {
    a == "" || HasBlank(a) || a[0] == QUOTE
  }

  /** An argument that can be written down: not one that needs quotes and holds one. */
  predicate Writable(a: string) {
    NeedsQuotes(a) ==> QUOTE !in a
  }

  function Printed(a: string): string {
    if NeedsQuotes(a) then [QUOTE] + a + [QUOTE] else a
  }

  function Join(args: seq<string>): string {
    if args == [] then ""
    else Printed(args[0]) + if |args| == 1 then "" else " " + Join(args[1..])
  }

  lemma {:induction false} FirstIs(s: string, p: nat, stop: Stop, r: nat)
    requires p <= r <= |s| && (r < |s| ==> Stops(s[r], stop)) && forall k :: p <= k < r ==> !Stops(s[k], stop)
    ensures First(s, p, stop) == r
    decreases r - p
  {
    if p < r { FirstIs(s, p + 1, stop, r); }
  }

  lemma At(s: string, p: nat, t: string, k: nat)
    requires p <= |s| && s[p..] == t && k < |t|
    ensures p + k < |s| && s[p + k] == t[k]
  {
    assert s[p..][k] == t[k];
  }

  lemma BareHead(s: string, p: nat, a: string, tail: string)
    requires p <= |s| && s[p..] == a + tail && !NeedsQuotes(a) && (tail == "" || IsBlank(tail[0]))
    ensures First(s, p, NotBlank) == p < |s| && SliceAt(s, p) == Slice(p, p + |a|)
    ensures s[p..p + |a|] == a && s[p + |a|..] == tail
  {
    forall k | 0 <= k < |s| - p ensures s[p + k] == (a + tail)[k] { At(s, p, a + tail, k); }
    FirstIs(s, p, NotBlank, p);
    FirstIs(s, p, Blank, p + |a|);
  }

  lemma QuotedText(s: string, p: nat, a: string, tail: string)
    requires p <= |s| && s[p..] == [QUOTE] + a + [QUOTE] + tail
    ensures p + |a| + 2 <= |s| && s[p] == s[p + 1 + |a|] == QUOTE
    ensures s[p + 1..p + 1 + |a|] == a && s[p + |a| + 2..] == tail
  {
    assert s[p..][1..1 + |a|] == a;
    assert s[p..][|a| + 2..] == tail;
    At(s, p, [QUOTE] + a + [QUOTE] + tail, 1 + |a|);
  }

  lemma QuotedHead(s: string, p: nat, a: string, tail: string)
    requires p <= |s| && s[p..] == [QUOTE] + a + [QUOTE] + tail && QUOTE !in a
    ensures First(s, p, NotBlank) == p < |s| && SliceAt(s, p) == Slice(p + 1, p + 1 + |a|)
    ensures s[p + 1..p + 1 + |a|] == a && p + |a| + 2 <= |s| && s[p + |a| + 2..] == tail
  {
    QuotedText(s, p, a, tail);
    FirstIs(s, p, NotBlank, p);
    forall k | p + 1 <= k < p + 1 + |a| ensures s[k] != QUOTE { assert s[k] == s[p + 1..p + 1 + |a|][k - p - 1]; }
    FirstIs(s, p + 1, Quote, p + 1 + |a|);
  }

  /** A quote inside ends the argument early. */
  lemma BrokenHead(s: string, p: nat, a: string, tail: string)
    requires p <= |s| && s[p..] == [QUOTE] + a + [QUOTE] + tail && QUOTE in a
    ensures First(s, p, NotBlank) == p < |s| && SliceAt(s, p).end - SliceAt(s, p).begin < |a|
  {
    var t := [QUOTE] + a + [QUOTE] + tail;
    var j :| 0 <= j < |a| && a[j] == QUOTE;
    At(s, p, t, 0);
    At(s, p, t, 1 + j);
    FirstIs(s, p, NotBlank, p);
    assert Stops(s[p + 1 + j], Quote);
  }

  lemma BlankSkipped(s: string, p: nat, room: nat)
    requires p < |s| && IsBlank(s[p])
    ensures Slices(s, p, room) == Slices(s, p + 1, room)
  {
    hide SliceAt, Slices;
    SlicesFrom(s, p, room);
    SlicesFrom(s, p + 1, room);
    assert First(s, p, NotBlank) == First(s, p + 1, NotBlank);
  }

  predicate AllWritable(args: seq<string>) {
    forall i :: 0 <= i < |args| ==> Writable(args[i])
  }

  /** What is read from p on, as texts. */
  function Read(s: string, p: nat, room: nat): (r: seq<string>)
    requires p <= |s|
    ensures |r| == |Slices(s, p, room)|
  {
    SlicesOrdered(s, p, room);
    Texts(s, Slices(s, p, room))
  }

  lemma ReadNone(s: string, p: nat, room: nat)
    requires p <= |s| && (p == |s| || room == 0)
    ensures Read(s, p, room) == []
  {
  }

  /** The first argument read, and the rest. */
  lemma ReadCons(s: string, p: nat, room: nat)
    requires p < |s| && room > 0 && First(s, p, NotBlank) == p
    ensures var x := SliceAt(s, p);
      Read(s, p, room) == [s[x.begin..x.end]] + if x.end == |s| then [] else Read(s, x.end + 1, room - 1)
  {
    hide First, SliceAt, Texts, Slices, EndsWell;
    Unfold(s, p, room);
    var x := SliceAt(s, p);
    SlicesOrdered(s, p, room);
    if x.end < |s| { SlicesOrdered(s, x.end + 1, room - 1); }
    TextsCons(s, x, if x.end == |s| then [] else Slices(s, x.end + 1, room - 1));
    TextsNone(s);
  }

  lemma TextsNone(s: string)
    ensures Texts(s, []) == []
  {
  }

  lemma TextsCons(s: string, x: Slice, xs: seq<Slice>)
    requires x.begin <= x.end <= |s| && forall i :: 0 <= i < |xs| ==> xs[i].begin <= xs[i].end <= |s|
    ensures Texts(s, [x] + xs) == [s[x.begin..x.end]] + Texts(s, xs)
  {
  }

  /** The text behind an argument: nothing, or a blank and the arguments still to come. */
  function Tail(args: seq<string>): string {
    if |args| <= 1 then "" else " " + Join(args[1..])
  }

  /** After an argument that is writable, reading goes on with the next. */
  lemma ReadHead(s: string, p: nat, args: seq<string>, room: nat) returns (q: nat)
    requires p <= |s| && s[p..] == Join(args) && args != [] && room > 0 && Writable(args[0])
    ensures p < q <= |s| && s[q..] == Join(args[1..])
    ensures Read(s, p, room) == [args[0]] + Read(s, q, room - 1)
  {
    hide Slices, Read, First, SliceAt, NeedsQuotes, Tail, Join, IsBlank;
    JoinIs(args);
    var a, tail := args[0], Tail(args);
    var end := p + |a| + if NeedsQuotes(a) then 2 else 0;
    if NeedsQuotes(a) { QuotedHead(s, p, a, tail); } else { BareHead(s, p, a, tail); }
    ReadCons(s, p, room);
    q := ToNext(s, end, args, room - 1);
  }

  lemma JoinIs(args: seq<string>)
    requires args != []
    ensures Join(args) == (if NeedsQuotes(args[0]) then [QUOTE] + args[0] + [QUOTE] else args[0]) + Tail(args)
    ensures Tail(args) == "" || IsBlank(Tail(args)[0])
  {
  }

  /** From the end of an argument to where the next one starts: over the blank between them. */
  lemma ToNext(s: string, end: nat, args: seq<string>, room: nat) returns (q: nat)
    requires end <= |s| && args != [] && s[end..] == Tail(args)
    ensures end <= q <= |s| && s[q..] == Join(args[1..]) && q == if end == |s| then end else end + 1
    ensures Read(s, end, room) == Read(s, q, room) && (end == |s| ==> Read(s, q, room) == [])
  {
    hide Slices, Read;
    if end == |s| {
      q := end;
      assert args[1..] == [];
      ReadNone(s, q, room);
    } else {
      q := end + 1;
      At(s, end, Tail(args), 0);
      assert s[q..] == s[end..][1..] == Join(args[1..]);
      ReadBlank(s, end, room);
    }
  }

  lemma ReadBlank(s: string, p: nat, room: nat)
    requires p < |s| && IsBlank(s[p])
    ensures Read(s, p, room) == Read(s, p + 1, room)
  {
    BlankSkipped(s, p, room);
  }

  lemma ReadBroken(s: string, p: nat, args: seq<string>, room: nat)
    requires p <= |s| && s[p..] == Join(args) && args != [] && room > 0 && !Writable(args[0])
    ensures Read(s, p, room) != [] && Read(s, p, room)[0] != args[0]
  {
    hide Slices, Read, First, SliceAt;
    BrokenHead(s, p, args[0], Tail(args));
    ReadCons(s, p, room);
  }

  /** Reading what Join wrote, from anywhere and for any number of arguments: the arguments that fit come back if and
      only if each of them is writable. */
  lemma {:induction false} ReadJoin(s: string, p: nat, args: seq<string>, room: nat)
    requires p <= |s| && s[p..] == Join(args)
    ensures var n := Min(|args|, room); Read(s, p, room) == args[..n] <==> AllWritable(args[..n])
    decreases room
  {
    hide Read, Writable, Join, AllWritable, Slices;
    var n := Min(|args|, room);
    if n == 0 {
      JoinNone(args);
      AllNone();
      ReadNone(s, p, room);
    } else if Writable(args[0]) {
      var q := ReadHead(s, p, args, room);
      ReadJoin(s, q, args[1..], room - 1);
      assert args[..n] == [args[0]] + args[1..][..n - 1];
      assert args[1..][..n - 1] == args[..n][1..];
      AllCons(args[0], args[1..][..n - 1]);
    } else {
      ReadBroken(s, p, args, room);
      assert args[..n] == [args[0]] + args[..n][1..];
      AllCons(args[0], args[..n][1..]);
    }
  }

  lemma JoinNone(args: seq<string>)
    ensures args == [] ==> Join(args) == ""
  {
  }

  lemma AllNone()
    ensures AllWritable([])
  {
  }

  lemma AllCons(a: string, args: seq<string>)
    ensures AllWritable([a] + args) <==> Writable(a) && AllWritable(args)
  {
    hide Writable;
    var all := [a] + args;
    assert all[0] == a && all[1..] == args;
    assert AllWritable(all) ==> forall i :: 0 <= i < |args| ==> args[i] == all[i + 1] && Writable(all[i + 1]);
  }

  /** parse_line undoes Join, for every list of arguments: the first thirty come back, if and only if they can
      be written. */
  lemma ParseUndoesJoin(args: seq<string>)
    ensures var n := Min(|args|, 30); Args(Join(args)) == args[..n] <==> AllWritable(args[..n])
  {
    hide Join, Slices, Ordered, Texts, AllWritable;
    ReadJoin(Join(args), 0, args, CMD_MAXARGS);
  }
}
