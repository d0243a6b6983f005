/** What was printed is what is parsed, and a verified package is the one that was built. */
module ChecksumsRoundTrip {
  import opened Wrappers
  import opened Checksums

  predicate AllListable(names: seq<string>) {
    forall i :: 0 <= i < |names| ==> Listable(names[i])
  }

  lemma {:induction false} BreakIs(t: string, at: nat, r: nat)
    requires at <= r < |t| && IsBreak(t[r]) && forall k :: at <= k < r ==> !IsBreak(t[k])
    ensures BreakAt(t, at) == r
    decreases r - at
  {
    if at < r { BreakIs(t, at + 1, r); }
  }

  /** A line without breaks and its newline come off the front of a text. */
  lemma LinesCons(line: string, rest: string)
    requires !HasBreak(line)
    ensures Lines(line + "\n" + rest) == [line] + Lines(rest)
  {
    LineEnds(line, "\n", rest);
  }

  /** So do a line and any other break: a carriage return, one with its newline, or a single control character of
      these. */
  lemma LineEnds(line: string, br: string, rest: string)
    requires !HasBreak(line)
    requires br == "\r\n" || (|br| == 1 && br[0] as int in {10, 11, 12, 13, 28, 29, 30})
    requires br == "\r" && rest != "" ==> rest[0] != '\n'
    ensures Lines(line + br + rest) == [line] + Lines(rest)
  {
    var t, n := line + br + rest, |line| + |br|;
    assert forall k :: 0 <= k < |line| ==> t[k] == line[k];
    assert t[|line|] == br[0] && (|br| == 2 ==> t[|line| + 1] == br[1]) && (n < |t| ==> t[n] == rest[0]);
    BreakIs(t, 0, |line|);
    assert NextLine(t) == n;
    assert t[..|line|] == line && t[n..] == rest;
  }

  /** And nothing else ends a line of an ASCII text. */
  lemma BreaksAre(c: char)
    ensures IsBreak(c) <==> c as int in {10, 11, 12, 13, 28, 29, 30}
    ensures IsAscii([c]) <==> c as int < 128
  {
    assert [c][0] == c;
  }

  lemma LineIsGood(hex: string, name: string)
    requires IsDigest(hex) && Listable(name)
    ensures var line := hex + "  " + name;
      GoodLine(line) && !HasBreak(line) && line[NAME_AT..] == name && line[..DIGEST_LEN] == hex
  {
    var line := hex + "  " + name;
    assert line[..DIGEST_LEN] == hex && line[NAME_AT..] == name && line[DIGEST_LEN..NAME_AT] == "  ";
    forall i | 0 <= i < |line| ensures !IsBreak(line[i])
    {
      if i < DIGEST_LEN { assert line[i] == hex[i]; } else if i >= NAME_AT { assert line[i] == name[i - NAME_AT]; }
    }
  }

  /** The digests of a list of names, added one by one. */
  function Adding(digest: Digest, names: seq<string>, files: map<string, Data>, m: map<string, string>)
    : map<string, string>
    requires forall i :: 0 <= i < |names| ==> names[i] in files
  {
    if names == [] then m
    else Adding(digest, names[1..], files, m[names[0] := digest(files[names[0]])])
  }

  lemma {:induction false} ParsePrint(
      digest: Digest, names: seq<string>, files: map<string, Data>, m: map<string, string>)
    requires GoodDigest(digest) && AllListable(names)
    requires forall i :: 0 <= i < |names| ==> names[i] in files && names[i] !in m
    requires forall i, j :: 0 <= i < j < |names| ==> names[i] != names[j]
    ensures Parse(Lines(Print(digest, names, files)), m) == Some(Adding(digest, names, files, m))
  {
    hide GoodLine, Lines, Listable;
    if names == [] {
      NoLines();
    } else {
      var name, rest := names[0], Print(digest, names[1..], files);
      var hex := digest(files[name]);
      var line := hex + "  " + name;
      LineIsGood(hex, name);
      LinesCons(line, rest);
      assert Print(digest, names, files) == line + "\n" + rest;
      var lines := [line] + Lines(rest);
      assert lines[0] == line && lines[1..] == Lines(rest);
      ParsePrint(digest, names[1..], files, m[name := hex]);
    }
  }

  lemma NoLines()
    ensures Lines("") == []
  {
  }

  lemma {:induction false} AddingIs(
      digest: Digest, names: seq<string>, files: map<string, Data>, m: map<string, string>)
    requires forall i :: 0 <= i < |names| ==> names[i] in files
    ensures var r := Adding(digest, names, files, m);
      && (forall name :: name in r <==> name in m || name in names)
      && forall name :: name in r ==> r[name] == if name in names then digest(files[name]) else m[name]
  {
    if names != [] {
      AddingIs(digest, names[1..], files, m[names[0] := digest(files[names[0]])]);
      assert forall name :: name in names <==> name == names[0] || name in names[1..];
    }
  }

  lemma {:induction false} PrintIsAscii(digest: Digest, names: seq<string>, files: map<string, Data>)
    requires GoodDigest(digest) && forall i :: 0 <= i < |names| ==> names[i] in files && IsAscii(names[i])
    ensures IsAscii(Print(digest, names, files))
  {
    if names != [] {
      PrintIsAscii(digest, names[1..], files);
      assert IsDigest(digest(files[names[0]]));
    }
  }

  predicate KeysListable(m: map<string, string>) {
    forall name :: name in m ==> Listable(name)
  }

  /** Lines without breaks, of ASCII only. */
  predicate Clean(lines: seq<string>) {
    forall i :: 0 <= i < |lines| ==> IsAscii(lines[i]) && !HasBreak(lines[i])
  }

  lemma {:induction false} ParsedIsListable(lines: seq<string>, m: map<string, string>)
    requires Clean(lines) && KeysListable(m) && Parse(lines, m).Some?
    ensures KeysListable(Parse(lines, m).value)
  {
    hide Legal;
    if lines != [] {
      var line := lines[0];
      var name := line[NAME_AT..];
      assert forall i :: 0 <= i < |name| ==> name[i] == line[NAME_AT + i];
      ParsedIsListable(lines[1..], m[name := line[..DIGEST_LEN]]);
    }
  }

  lemma {:induction false} LinesAreClean(t: string)
    requires IsAscii(t)
    ensures Clean(Lines(t))
    decreases |t|
  {
    if t != "" { LinesAreClean(t[NextLine(t)..]); }
  }

  /** Parsing undoes printing, in whatever order the names were printed, if and only if every name can be listed. */
  lemma ListedUndoesPrint(digest: Digest, names: seq<string>, files: map<string, Data>)
    requires GoodDigest(digest) && Enumerates(names, files)
    ensures Listed(Print(digest, names, files)) == Some(Digests(digest, files))
       <==> forall name :: name in files ==> Listable(name)
  {
    hide Parse, Lines, Print, Listable;
    var sums := Print(digest, names, files);
    if forall name :: name in files ==> Listable(name) {
      ListableIsAscii(names);
      PrintIsAscii(digest, names, files);
      ParsePrint(digest, names, files, map[]);
      AddingIs(digest, names, files, map[]);
      assert Adding(digest, names, files, map[]) == Digests(digest, files);
    }
    if Listed(sums) == Some(Digests(digest, files)) {
      LinesAreClean(sums);
      ParsedIsListable(Lines(sums), map[]);
      assert forall name :: name in files ==> name in Digests(digest, files);
    }
  }

  lemma ListableIsAscii(names: seq<string>)
    ensures forall i :: 0 <= i < |names| && Listable(names[i]) ==> IsAscii(names[i])
  {
  }
}
