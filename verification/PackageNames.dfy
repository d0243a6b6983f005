/** The names in a package: which the parser lets through, and where on the target they go. */
module PackageNames {
  import opened Wrappers
  import opened Checksums
  import opened PackageVerify

  // ---- legal names ----

  /** A part of a path: not empty, without a slash, and neither dot nor dot-dot. */
  predicate Part(part: string) {
    part != "" && '/' !in part && part != "." && part != ".."
  }

  predicate AllParts(parts: seq<string>) {
    forall i :: 0 <= i < |parts| ==> Part(parts[i])
  }

  /** Parts with a slash between any two. */
  function Joined(parts: seq<string>): string
    requires parts != []
  {
    if |parts| == 1 then parts[0] else parts[0] + "/" + Joined(parts[1..])
  }

  lemma {:induction false} JoinedIsText(parts: seq<string>)
    requires parts != []
    ensures PathText(parts) == Joined(parts)
  {
    if |parts| > 1 { JoinedIsText(parts[1..]); }
  }

  /** The scan runs to the end of a part. */
  lemma {:induction false} PartsScan(name: string, from: nat, at: nat, end: nat)
    requires from <= at <= end <= |name| && '/' !in name[at..end] && (end < |name| ==> name[end] == '/')
    ensures Parts(name, from, at) ==
      (if name[from..end] == "" || name[from..end] == "." then [] else [name[from..end]])
      + if end == |name| then [] else Parts(name, end + 1, end + 1)
    decreases end - at
  {
    if at < end {
      assert name[at..end][0] == name[at] && name[at..end][1..] == name[at + 1..end];
      PartsScan(name, from, at + 1, end);
    }
  }

  /** Splitting undoes joining, wherever the joined parts stand at the end of a name. */
  lemma {:induction false} PartsOfJoined(name: string, from: nat, parts: seq<string>)
    requires parts != [] && AllParts(parts) && from <= |name| && name[from..] == Joined(parts)
    ensures Parts(name, from, from) == parts
    decreases |parts|
  {
    hide Parts;
    var end := from + |parts[0]|;
    assert Part(parts[0]);
    assert name[from..end] == name[from..][..|parts[0]|] == parts[0];
    if |parts| == 1 {
      assert end == |name|;
      PartsScan(name, from, from, end);
    } else {
      assert name[end] == name[from..][|parts[0]|] == '/';
      assert name[end + 1..] == name[from..][|parts[0]| + 1..] == Joined(parts[1..]);
      assert forall i :: 0 <= i < |parts[1..]| ==> parts[1..][i] == parts[i + 1];
      PartsScan(name, from, from, end);
      PartsOfJoined(name, end + 1, parts[1..]);
    }
  }

  /** No part holds a slash, and none is empty or a dot. */
  lemma {:induction false} PartsAreParts(name: string, from: nat, at: nat)
    requires from <= at <= |name| && '/' !in name[from..at]
    ensures forall i :: 0 <= i < |Parts(name, from, at)| ==>
      var p := Parts(name, from, at)[i]; p != "" && p != "." && '/' !in p
    decreases |name| - at
  {
    if at < |name| && name[at] != '/' {
      assert name[from..at + 1] == name[from..at] + [name[at]];
      PartsAreParts(name, from, at + 1);
    } else if at < |name| {
      PartsAreParts(name, at + 1, at + 1);
    }
  }

  /** The parser lets a name through if and only if it is a path of proper parts without a backslash, other than the
      name of the list itself; or a single dot, which names no file. */
  lemma LegalExactly(name: string)
    ensures Legal(name) <==>
      name == "." ||
      (name != "SHA256SUMS" && '\\' !in name && exists parts :: parts != [] && AllParts(parts) && name == Joined(parts))
  {
    var ps := Parts(name, 0, 0);
    if name == "." {
      PartsScan(name, 0, 0, 1);
    } else {
      if Legal(name) {
        PartsAreParts(name, 0, 0);
        JoinedIsText(ps);
        assert AllParts(ps);
      }
      if parts :| parts != [] && AllParts(parts) && name == Joined(parts) {
        assert name[0..] == name;
        PartsOfJoined(name, 0, parts);
        JoinedIsText(parts);
        JoinedFront(parts);
      }
    }
  }

  lemma JoinedFront(parts: seq<string>)
    requires parts != [] && AllParts(parts)
    ensures Joined(parts) != "" && Joined(parts)[0] != '/'
  {
    assert Part(parts[0]);
  }

  // ---- what is installed ----

  const DRIVER: string := "lib/modules/6.17.0-14-generic/updates/dkms/aic8800_fdrv.ko.zst"
  const LOADER: string := "lib/modules/6.17.0-14-generic/updates/dkms/aic_load_fw.ko.zst"
  const RULES: string := "usr/lib/udev/rules.d/aic.rules"
  const AUTOLOAD: string := "etc/modules-load.d/aic8800.conf"

  lemma DriverName()
    ensures MODULES + "aic8800_fdrv.ko.zst" == "modules/6.17.0-14-generic/x86_64/aic8800_fdrv.ko.zst"
  {
  }

  lemma DriverPlace()
    ensures MODULES + "aic8800_fdrv.ko.zst" in REQUIRED && Destination(MODULES + "aic8800_fdrv.ko.zst") == Some(DRIVER)
  {
    assert REQUIRED[11] == MODULES + "aic8800_fdrv.ko.zst";
    assert (MODULES + "aic8800_fdrv.ko.zst")[|MODULES|..] == "aic8800_fdrv.ko.zst";
    assert TARGET + "aic8800_fdrv.ko.zst" == DRIVER;
  }

  lemma LoaderPlace()
    ensures MODULES + "aic_load_fw.ko.zst" in REQUIRED && Destination(MODULES + "aic_load_fw.ko.zst") == Some(LOADER)
  {
    assert REQUIRED[12] == MODULES + "aic_load_fw.ko.zst";
    assert (MODULES + "aic_load_fw.ko.zst")[|MODULES|..] == "aic_load_fw.ko.zst";
    assert TARGET + "aic_load_fw.ko.zst" == LOADER;
  }

  lemma ConfigPlaces()
    ensures "udev/aic.rules" in REQUIRED && Destination("udev/aic.rules") == Some(RULES)
    ensures "modules-load/aic8800.conf" in REQUIRED && Destination("modules-load/aic8800.conf") == Some(AUTOLOAD)
  {
    assert REQUIRED[9] == "udev/aic.rules" && REQUIRED[10] == "modules-load/aic8800.conf";
    assert MODULES[0] == 'm' && MODULES[7] == '/' && FIRMWARE[0] == 'f';
  }

  /** A package with the declared files installs the two modules, the rules and the autoload file, and beyond these
      nothing but files below lib/firmware/aic8800D80. */
  lemma EssentialsInstalled(expected: map<string, string>)
    requires Declared(expected.Keys)
    ensures var r := Installed(expected);
      && DRIVER in r && LOADER in r && RULES in r && AUTOLOAD in r
      && forall d :: d in r ==> d in {DRIVER, LOADER, RULES, AUTOLOAD} || "lib/firmware/aic8800D80/" <= d
  {
    DriverPlace();
    LoaderPlace();
    ConfigPlaces();
    NeedsAll(expected.Keys);
    var r := Installed(expected);
    hide Installed, Declared;
    forall d | d in r
      ensures d in {DRIVER, LOADER, RULES, AUTOLOAD} || "lib/firmware/aic8800D80/" <= d
    {
      OnlyPlaces(Source(d));
    }
    hide Destination;
  }

  /** The thirteen files alone are a package's, and what may come to them is firmware. */
  lemma DeclaredAlone(names: set<string>)
    requires forall name :: name in names <==> name in REQUIRED
    ensures Declared(names)
  {
  }

  lemma DeclaredMore(names: set<string>, name: string)
    requires Declared(names)
    ensures Declared(names + {name}) <==> name in names || "firmware/aic8800D80/" <= name
    ensures Declared(names - {name}) <==> name !in REQUIRED
  {
    NeedsAll(names);
    assert "firmware/aic8800D80/" == FIRMWARE;
    assert name in REQUIRED ==> exists i :: 0 <= i < |REQUIRED| && REQUIRED[i] == name;
    assert name in names ==> names + {name} == names;
    hide REQUIRED;
  }

  lemma NeedsAll(names: set<string>)
    requires Declared(names)
    ensures forall name :: name in REQUIRED ==> name in names
  {
  }

  lemma OnlyPlaces(name: string)
    requires Destination(name).Some?
    ensures var d := Destination(name).value;
      d in {DRIVER, LOADER, RULES, AUTOLOAD} || "lib/firmware/aic8800D80/" <= d
  {
    if MODULES <= name && name[|MODULES|..] in {"aic8800_fdrv.ko.zst", "aic_load_fw.ko.zst"} {
      ModulePlaces(name);
    } else if FIRMWARE <= name {
      FirmwarePlaces(name);
    }
  }

  lemma ModulePlaces(name: string)
    requires MODULES <= name && name[|MODULES|..] in {"aic8800_fdrv.ko.zst", "aic_load_fw.ko.zst"}
    ensures Destination(name) in {Some(DRIVER), Some(LOADER)}
  {
    assert name == MODULES + name[|MODULES|..];
    DriverPlace();
    LoaderPlace();
    hide Destination, REQUIRED;
  }

  lemma FirmwareFolder()
    ensures "lib/" + FIRMWARE == "lib/firmware/aic8800D80/"
  {
  }

  lemma FirmwarePlaces(name: string)
    requires FIRMWARE <= name
    ensures Destination(name).Some? && "lib/firmware/aic8800D80/" <= Destination(name).value
  {
    FirmwareDestination(name);
    FirmwareFolder();
    hide Destination, FIRMWARE;
  }
}
