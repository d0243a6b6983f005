/** The file check of a package, and what it lets through. */
module PackageVerify {
  import opened Wrappers
  import opened Checksums
  import opened ChecksumsRoundTrip

  const FIRMWARE: string := "firmware/aic8800D80/"
  const MODULES: string := "modules/6.17.0-14-generic/x86_64/"
  const REQUIRED: seq<string> := [
    "VERSION", "build.json", "native.json", "LICENSE", "NOTICE.md", "README.release.md",
    "scripts/install_prebuilt.sh", "scripts/collect_diagnostics.sh", "scripts/verify_package.py",
    "udev/aic.rules", "modules-load/aic8800.conf",
    MODULES + "aic8800_fdrv.ko.zst", MODULES + "aic_load_fw.ko.zst"]

  /** Every file a package needs, and beyond those firmware only. */
  predicate Declared(names: set<string>) {
    && (forall i :: 0 <= i < |REQUIRED| ==> REQUIRED[i] in names)
    && forall name :: name in names ==> name in REQUIRED || FIRMWARE <= name
  }

  const TARGET: string := "lib/modules/6.17.0-14-generic/updates/dkms/"

  /** Where on the target a file of the package goes, if it goes there at all. */
  function Destination(name: string): Option<string> {
    if MODULES <= name && name[|MODULES|..] in {"aic8800_fdrv.ko.zst", "aic_load_fw.ko.zst"}
    then Some(TARGET + name[|MODULES|..])
    else if FIRMWARE <= name then Some("lib/" + name)
    else if name == "udev/aic.rules" then Some("usr/lib/udev/rules.d/aic.rules")
    else if name == "modules-load/aic8800.conf" then Some("etc/modules-load.d/aic8800.conf")
    else None
  }

  /** No two files of a package go to one place. */
  lemma DestinationsDiffer(a: string, b: string)
    requires Destination(a).Some? && Destination(a) == Destination(b)
    ensures a == b
  {
    var d := Destination(a).value;
    DestinationUndone(a);
    DestinationUndone(b);
  }

  /** The one file of a package that goes to a place. */
  function Source(d: string): string {
    if TARGET <= d then MODULES + d[|TARGET|..]
    else if "lib/" <= d then d[4..]
    else if d == "usr/lib/udev/rules.d/aic.rules" then "udev/aic.rules" else "modules-load/aic8800.conf"
  }

  lemma DestinationUndone(name: string)
    requires Destination(name).Some?
    ensures Source(Destination(name).value) == name
  {
    var d := Destination(name).value;
    if MODULES <= name && name[|MODULES|..] in {"aic8800_fdrv.ko.zst", "aic_load_fw.ko.zst"} {
      assert d[|TARGET|..] == name[|MODULES|..] && name == MODULES + name[|MODULES|..];
    } else if FIRMWARE <= name {
      assert d[4..] == name && d[4] == 'f' && TARGET[4] == 'm';
    } else {
      assert d[0] != 'l';
    }
  }

  /** The files of the install record: digests by place on the target. */
  function Installed(expected: map<string, string>): (r: map<string, string>)
    ensures forall name :: name in expected && Destination(name).Some? ==>
              Destination(name).value in r && r[Destination(name).value] == expected[name]
    ensures forall d :: d in r ==> Source(d) in expected && Destination(Source(d)) == Some(d)
  {
    hide Destination, Source;
    AllDiffer(expected);
    map name | name in expected && Destination(name).Some? :: Destination(name).value := expected[name]
  }

  lemma AllDiffer(expected: map<string, string>)
    ensures forall a, b :: a in expected && b in expected && Destination(a).Some? && Destination(a) == Destination(b)
              ==> a == b
    ensures forall a :: a in expected && Destination(a).Some? ==> Source(Destination(a).value) == a
  {
    forall a, b | a in expected && b in expected && Destination(a).Some? && Destination(a) == Destination(b)
      ensures a == b
    {
      DestinationsDiffer(a, b);
    }
    forall a | a in expected && Destination(a).Some?
      ensures Source(Destination(a).value) == a
    {
      DestinationUndone(a);
    }
  }

  /** Some firmware is among the files to be installed. */
  predicate HasFirmware(installed: map<string, string>) {
    exists d :: d in installed && "lib/" + FIRMWARE <= d
  }

  predicate Matches(digest: Digest, tree: map<string, Data>, expected: map<string, string>, name: string)
    requires name in tree
  {
    name == SUMS || (name in expected && digest(tree[name]) == expected[name])
  }

  /** A tree whose files are those its list names, with those digests, firmware among them. */
  predicate Accepted(digest: Digest, tree: map<string, Data>) {
    && SUMS in tree && Listed(tree[SUMS]).Some?
    && var expected := Listed(tree[SUMS]).value;
    && Declared(expected.Keys) && tree.Keys == expected.Keys + {SUMS}
    && HasFirmware(Installed(expected))
    && forall name :: name in tree ==> Matches(digest, tree, expected, name)
  }

  lemma MatchesIs(digest: Digest, tree: map<string, Data>, expected: map<string, string>, name: string)
    requires name in tree
    ensures Matches(digest, tree, expected, name)
       <==> name == SUMS || (name in expected && digest(tree[name]) == expected[name])
  {
  }

  /** The walk over the files found, in any order. */
  method Walk(digest: Digest, tree: map<string, Data>, expected: map<string, string>) returns (ok: bool)
    requires SUMS in tree
    ensures ok <==> tree.Keys == expected.Keys + {SUMS}
                    && forall name :: name in tree ==> Matches(digest, tree, expected, name)
  {
    hide Matches;
    var actual: set<string> := {};
    var found := tree.Keys;
    while found != {}
      invariant actual + found == tree.Keys
      invariant forall name :: name in actual ==> Matches(digest, tree, expected, name)
      decreases found
    {
      var name :| name in found;
      MatchesIs(digest, tree, expected, name);
      if name != SUMS && (name !in expected || digest(tree[name]) != expected[name]) { return false; }
      found := found - {name};
      actual := actual + {name};
    }
    ok := actual == expected.Keys + {SUMS};
  }

  /** verify, as far as it is about names and digests. */
  method Verify(digest: Digest, tree: map<string, Data>) returns (r: Option<map<string, string>>)
    ensures r == if Accepted(digest, tree) then Some(Installed(Listed(tree[SUMS]).value)) else None
  {
    hide Listed, Declared, Matches, Destination, Source, Installed, HasFirmware;
    if SUMS !in tree { return None; }
    var sums := ReadSums(tree[SUMS]);
    if sums.None? { return None; }
    if !Declared(sums.value.Keys) { return None; }
    var ok := Walk(digest, tree, sums.value);
    if !ok { return None; }
    var installed := Installed(sums.value);
    r := if HasFirmware(installed) then Some(installed) else None;
  }

  /** No file of one map is another file of the same name and digest in the other. */
  predicate NoCollision(digest: Digest, files: map<string, Data>, tree: map<string, Data>) {
    forall name :: name in files && name in tree && digest(files[name]) == digest(tree[name])
      ==> files[name] == tree[name]
  }

  /** With the list a builder printed, and where digests tell contents apart, the one tree accepted is the one that was
      built: any changed, missing or extra file is refused. */
  lemma AcceptsOnlyWhatWasBuilt(digest: Digest, names: seq<string>, files: map<string, Data>, tree: map<string, Data>)
    requires GoodDigest(digest) && Enumerates(names, files) && forall name :: name in files ==> Listable(name)
    requires SUMS in tree && tree[SUMS] == Print(digest, names, files)
    requires NoCollision(digest, files, tree)
    ensures Accepted(digest, tree) <==>
      && Declared(files.Keys) && (exists name :: name in files && FIRMWARE <= name)
      && tree == files[SUMS := Print(digest, names, files)]
  {
    hide Listed, Print, Declared, Legal, GoodDigest, Enumerates, Destination, Source, Installed, HasFirmware;
    FirmwareIs(Digests(digest, files));
    ListedUndoesPrint(digest, names, files);
    var expected := Digests(digest, files);
    assert SUMS !in files by { NotItself(); }
    assert expected.Keys == files.Keys;
    if Accepted(digest, tree) {
      assert forall name :: name in files ==> Matches(digest, tree, expected, name);
      assert tree == files[SUMS := tree[SUMS]];
    }
  }

  /** Firmware is installed exactly if the list names some. */
  lemma FirmwareIs(expected: map<string, string>)
    ensures HasFirmware(Installed(expected)) <==> exists name :: name in expected && FIRMWARE <= name
  {
    var installed := Installed(expected);
    if d :| d in installed && "lib/" + FIRMWARE <= d {
      assert FIRMWARE <= Source(d) by { FirmwareSource(d); }
    }
    if name :| name in expected && FIRMWARE <= name {
      FirmwareDestination(name);
      assert Destination(name).value in installed;
    }
  }

  lemma FirmwareSource(d: string)
    requires "lib/" + FIRMWARE <= d
    ensures FIRMWARE <= Source(d)
  {
    assert d[4] == 'f' && TARGET[4] == 'm';
    assert d[4..][..|FIRMWARE|] == d[..4 + |FIRMWARE|][4..] == FIRMWARE;
  }

  lemma FirmwareDestination(name: string)
    requires FIRMWARE <= name
    ensures Destination(name).Some? && "lib/" + FIRMWARE <= Destination(name).value
  {
    assert name[0] == 'f' && MODULES[0] == 'm';
  }

  lemma NotItself()
    ensures !Listable(SUMS)
  {
  }
}
