/** The checksum list of a package: printed line by line when it is built, parsed when it is verified. */
module Checksums {
  import opened Wrappers

  const SUMS: string := "SHA256SUMS"
  const DIGEST_LEN: nat := 64
  const NAME_AT: nat := 66

  /** File contents by name; the digest is a parameter everywhere. */
  type Data = string
  type Digest = string -> string

  predicate IsHex(t: string) {
    forall i :: 0 <= i < |t| ==> '0' <= t[i] <= '9' || 'a' <= t[i] <= 'f'
  }

  /** The sixteen hexadecimal digits in lower case. */
  lemma HexDigits(t: string)
    ensures IsHex(t) <==> forall i :: 0 <= i < |t| ==> t[i] in "0123456789abcdef"
  {
    if forall i :: 0 <= i < |t| ==> t[i] in "0123456789abcdef" {
    } else {
      var i :| 0 <= i < |t| && t[i] !in "0123456789abcdef";
      HexDigit(t[i]);
    }
  }

  lemma HexDigit(c: char)
    ensures '0' <= c <= '9' || 'a' <= c <= 'f' ==> c in "0123456789abcdef"
  {
    var digits := "0123456789abcdef";
    if '0' <= c <= '9' { assert digits[c as int - 48] == c; }
    if 'a' <= c <= 'f' { assert digits[c as int - 87] == c; }
  }

  predicate IsDigest(t: string) {
    |t| == DIGEST_LEN && IsHex(t)
  }

  ghost predicate GoodDigest(digest: Digest) {
    forall data :: IsDigest(digest(data))
  }

  /** Where splitlines cuts an ASCII text. */
  predicate IsBreak(c: char) {
    '\n' <= c <= '\r' || '\U{1c}' <= c <= '\U{1e}'
  }

  predicate HasBreak(t: string) {
    exists i :: 0 <= i < |t| && IsBreak(t[i])
  }

  predicate IsAscii(t: string) {
    forall i :: 0 <= i < |t| ==> t[i] < '\U{80}'
  }

  /** The parts of a relative path, as PurePosixPath keeps them: neither empty ones nor dots. */
  function Parts(name: string, from: nat, at: nat): (parts: seq<string>)
    requires from <= at <= |name|
    decreases |name| - at
  {
    if at < |name| && name[at] != '/' then Parts(name, from, at + 1)
    else
      var part := name[from..at];
      (if part == "" || part == "." then [] else [part])
      + if at == |name| then [] else Parts(name, at + 1, at + 1)
  }

  function PathText(parts: seq<string>): string {
    if parts == [] then "." else if |parts| == 1 then parts[0] else parts[0] + "/" + PathText(parts[1..])
  }

  /** The names the parser lets through: relative, normal, inside the package, and not the list itself. */
  predicate Legal(name: string) {
    && name != "" && name[0] != '/' && '\\' !in name && name != SUMS
    && ".." !in Parts(name, 0, 0) && PathText(Parts(name, 0, 0)) == name
  }

  /** Names that can be listed and read back. */
  predicate Listable(name: string) {
    Legal(name) && IsAscii(name) && !HasBreak(name)
  }

  /** The end of the first line. */
  function BreakAt(t: string, at: nat): (r: nat)
    requires at <= |t|
    ensures at <= r <= |t| && (r < |t| ==> IsBreak(t[r])) && forall k :: at <= k < r ==> !IsBreak(t[k])
    decreases |t| - at
  {
    if at == |t| || IsBreak(t[at]) then at else BreakAt(t, at + 1)
  }

  /** The start of the second line; a carriage return and a newline are one break. */
  function NextLine(t: string): (r: nat)
    requires t != ""
    ensures 0 < r <= |t|
  {
    var b := BreakAt(t, 0);
    if b == |t| then b
    else if b + 1 < |t| && t[b] == '\r' && t[b + 1] == '\n' then b + 2 else b + 1
  }

  /** splitlines. */
  function Lines(t: string): (lines: seq<string>)
    ensures forall i :: 0 <= i < |lines| ==> !HasBreak(lines[i])
    decreases |t|
  {
    if t == "" then [] else [t[..BreakAt(t, 0)]] + Lines(t[NextLine(t)..])
  }

  predicate GoodLine(line: string) {
    && |line| > NAME_AT && line[DIGEST_LEN..NAME_AT] == "  " && IsDigest(line[..DIGEST_LEN])
    && Legal(line[NAME_AT..])
  }

  /** The lines read so far into a map, and the rest of them. */
  function Parse(lines: seq<string>, expected: map<string, string>): (r: Option<map<string, string>>)
    decreases |lines|
  {
    if lines == [] then Some(expected)
    else
      var line := lines[0];
      if !GoodLine(line) || line[NAME_AT..] in expected then None
      else Parse(lines[1..], expected[line[NAME_AT..] := line[..DIGEST_LEN]])
  }

  /** What a checksum list says, or nothing when it is refused. */
  function Listed(sums: string): (r: Option<map<string, string>>) {
    if IsAscii(sums) then Parse(Lines(sums), map[]) else None
  }

  /** The parsing loop of verify. */
  method ReadSums(sums: string) returns (r: Option<map<string, string>>)
    ensures r == Listed(sums)
  {
    if !IsAscii(sums) { return None; }
    var lines := Lines(sums);
    var expected: map<string, string> := map[];
    var i := 0;
    while i < |lines|
      invariant i <= |lines| && Parse(lines[i..], expected) == Listed(sums)
    {
      var line := lines[i];
      assert lines[i..][0] == line && lines[i..][1..] == lines[i + 1..];
      if !GoodLine(line) || line[NAME_AT..] in expected { return None; }
      expected := expected[line[NAME_AT..] := line[..DIGEST_LEN]];
      i := i + 1;
    }
    r := Some(expected);
  }

  function Line(digest: Digest, name: string, data: Data): string {
    digest(data) + "  " + name + "\n"
  }

  /** The list printed, in the order of the names given. */
  function Print(digest: Digest, names: seq<string>, files: map<string, Data>): string
    requires forall i :: 0 <= i < |names| ==> names[i] in files
  {
    if names == [] then "" else Line(digest, names[0], files[names[0]]) + Print(digest, names[1..], files)
  }

  /** The names of a map, each once, in any order. */
  predicate Enumerates(names: seq<string>, files: map<string, Data>) {
    && (forall i :: 0 <= i < |names| ==> names[i] in files)
    && (forall i, j :: 0 <= i < j < |names| ==> names[i] != names[j])
    && forall name :: name in files ==> name in names
  }

  function Digests(digest: Digest, files: map<string, Data>): map<string, string> {
    map name | name in files :: digest(files[name])
  }
}
