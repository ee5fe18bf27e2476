/** What an accepted proxy release looks like on disk, with the inspections of the release scripts. */
module ArtifactSet {
  import opened Agreement
  import opened Binaries
  import opened DesktopHelpers
  import opened Encoding
  import opened Json
  import opened Manifest
  import opened Proxies
  import opened Text
  import opened Wheel

  // ----- the release scripts' own inspections -----

  /** The inspectors of the release scripts, given SHA-256, ZIP, header, CSV and UTF-8 reading. */
  function ReleaseInspectors(tools: Tools, utf8: Bytes -> Option<string>): Inspectors {
    Inspectors(tools.sha256,
               (a, v, t) => InspectWheel(tools, a, v, t),
               (a, v, t) => InspectRaw(tools.sha256, a, v, t),
               (a, v, t) => InspectConnect(tools.sha256, a, v, t),
               a => InspectBootstrap(tools.sha256, utf8, a))
  }

  lemma WheelLaw(tools: Tools, a: Artifact, v: string, t: Target)
    ensures InspectWheel(tools, a, v, t).Some? ==> v != "" && EndsWith(a.name, ".whl")
  {}

  lemma ReleaseInspectorsLawful(tools: Tools, utf8: Bytes -> Option<string>)
    ensures Lawful(ReleaseInspectors(tools, utf8))
  {
    var ins := ReleaseInspectors(tools, utf8);
    forall a, v, t | ins.wheel(a, v, t).Some? ensures v != "" && EndsWith(a.name, ".whl") { WheelLaw(tools, a, v, t); }
    forall a, b, v, s, t | ins.wheel(a, v, s).Some? && ins.wheel(b, v, t).Some? && a.name == b.name ensures s == t {
      WheelNameTellsTarget(tools, a, b, v, s, t);
    }
  }

  // ----- the six files -----

  /** The files that a record names are there, once. */
  predicate FilesFound(tree: Tree, e: Entry) {
    OnlyFile(tree, e.wheelName).Some? && OnlyFile(tree, e.rawName).Some?
  }

  function WheelOf(tree: Tree, e: Entry): (r: Node)
    requires FilesFound(tree, e)
    ensures r in tree && IsFileNamed(r, e.wheelName)
  {
    OnlyFile(tree, e.wheelName).value
  }

  function RawOf(tree: Tree, e: Entry): (r: Node)
    requires FilesFound(tree, e)
    ensures r in tree && IsFileNamed(r, e.rawName)
  {
    OnlyFile(tree, e.rawName).value
  }

  /** The wheel is a wheel of the record's target, the raw file its raw file, and they hold the same executable. */
  predicate Correlated(ins: Inspectors, tree: Tree, version: string, e: Entry) {
    && TargetNamed(TARGETS, e.target).Some? && FilesFound(tree, e)
    && var t, wheel, raw := TargetNamed(TARGETS, e.target).value, WheelOf(tree, e), RawOf(tree, e);
       && ins.wheel(ArtifactOf(wheel), version, t).Some? && ins.raw(ArtifactOf(raw), version, t).Some?
       && ins.sha256(ins.wheel(ArtifactOf(wheel), version, t).value.executable) == ins.sha256(raw.content.data)
  }

  lemma RecordCorrelates(ins: Inspectors, tree: Tree, version: string, e: Entry)
    requires Lawful(ins) && EntryAccepted(ins, tree, version, e)
    ensures Correlated(ins, tree, version, e)
  {
    var t, wheel, raw := TargetNamed(TARGETS, e.target).value, WheelOf(tree, e), RawOf(tree, e);
    assert PayloadAccepted(ins, e, wheel, raw, version, t);
    assert ins.raw(ArtifactOf(raw), version, t).value == FactsOf(ins.sha256, ArtifactOf(raw));
    HexInjective(ins.sha256(ins.wheel(ArtifactOf(wheel), version, t).value.executable), ins.sha256(raw.content.data));
  }

  lemma CorrelatedNames(ins: Inspectors, tree: Tree, version: string, e: Entry)
    requires Lawful(ins) && Correlated(ins, tree, version, e)
    ensures EndsWith(e.wheelName, ".whl") && e.rawName == RawName(version, TargetNamed(TARGETS, e.target).value)
  {
    var wheel, raw := ArtifactOf(WheelOf(tree, e)), ArtifactOf(RawOf(tree, e));
    assert wheel.name == e.wheelName && raw.name == e.rawName;
  }

  /** The names of two records with different targets are four different names. */
  lemma NamesDiffer(ins: Inspectors, tree: Tree, version: string, a: Entry, b: Entry)
    requires Lawful(ins) && Correlated(ins, tree, version, a) && Correlated(ins, tree, version, b)
    ensures a.wheelName != b.rawName
    ensures a.target != b.target ==> a.wheelName != b.wheelName && a.rawName != b.rawName
  {
    var s, t := TargetNamed(TARGETS, a.target).value, TargetNamed(TARGETS, b.target).value;
    CorrelatedNames(ins, tree, version, a);
    CorrelatedNames(ins, tree, version, b);
    RawNamesDiffer(version, t, s);
    var x, y := ArtifactOf(WheelOf(tree, a)), ArtifactOf(WheelOf(tree, b));
    assert x.name == a.wheelName && y.name == b.wheelName;
    assert ins.wheel(x, version, s).Some? && ins.wheel(y, version, t).Some?;
  }

  function SixNames(entries: seq<Entry>): (r: seq<string>)
    requires |entries| == 3
    ensures |r| == 6
  {
    [entries[0].wheelName, entries[0].rawName, entries[1].wheelName, entries[1].rawName, entries[2].wheelName, entries[2].rawName]
  }

  predicate AllFound(tree: Tree, entries: seq<Entry>) {
    |entries| == 3 && FilesFound(tree, entries[0]) && FilesFound(tree, entries[1]) && FilesFound(tree, entries[2])
  }

  /** The wheels and raw files of three records, in order. */
  function SixFiles(tree: Tree, entries: seq<Entry>): (r: seq<Node>)
    requires AllFound(tree, entries)
    ensures |r| == 6
  {
    [WheelOf(tree, entries[0]), RawOf(tree, entries[0]), WheelOf(tree, entries[1]), RawOf(tree, entries[1]),
     WheelOf(tree, entries[2]), RawOf(tree, entries[2])]
  }

  lemma SixFilesThere(tree: Tree, entries: seq<Entry>, i: nat)
    requires AllFound(tree, entries)
    requires i < 6
    ensures SixFiles(tree, entries)[i] in tree && IsFileNamed(SixFiles(tree, entries)[i], SixNames(entries)[i])
  {}

  ghost predicate DistinctNames(names: seq<string>) {
    forall i, j :: 0 <= i < j < |names| ==> names[i] != names[j]
  }

  ghost predicate PairsDiffer(entries: seq<Entry>) {
    && (forall i, j :: 0 <= i < |entries| && 0 <= j < |entries| ==> entries[i].wheelName != entries[j].rawName)
    && (forall i, j :: 0 <= i < j < |entries| ==>
          entries[i].wheelName != entries[j].wheelName && entries[i].rawName != entries[j].rawName)
  }

  lemma RecordsDiffer(ins: Inspectors, tree: Tree, version: string, entries: seq<Entry>)
    requires Lawful(ins) && Proxies.DistinctTargets(entries)
    requires forall i :: 0 <= i < |entries| ==> Correlated(ins, tree, version, entries[i])
    ensures PairsDiffer(entries)
  {
    forall i, j | 0 <= i < |entries| && 0 <= j < |entries|
      ensures entries[i].wheelName != entries[j].rawName
      ensures i < j ==> entries[i].wheelName != entries[j].wheelName && entries[i].rawName != entries[j].rawName
    {
      NamesDiffer(ins, tree, version, entries[i], entries[j]);
    }
  }

  lemma SixNamesDistinct(entries: seq<Entry>)
    requires |entries| == 3 && PairsDiffer(entries)
    ensures DistinctNames(SixNames(entries))
  {
    var a, b, c := entries[0], entries[1], entries[2];
    assert a.wheelName != b.wheelName && a.wheelName != c.wheelName && b.wheelName != c.wheelName;
    assert a.rawName != b.rawName && a.rawName != c.rawName && b.rawName != c.rawName;
    assert a.wheelName != a.rawName && a.wheelName != b.rawName && a.wheelName != c.rawName;
    assert b.wheelName != a.rawName && b.wheelName != b.rawName && b.wheelName != c.rawName;
    assert c.wheelName != a.rawName && c.wheelName != b.rawName && c.wheelName != c.rawName;
  }

  lemma FileIsOnly(tree: Tree, n: Node, name: string)
    requires n in tree && IsFileNamed(n, name) && OnlyFile(tree, name).Some?
    ensures n == OnlyFile(tree, name).value
  {
    var found := FilesNamed(tree, name);
    assert n in found && found == [found[0]];
  }

  lemma NameIsOneOfSix(entries: seq<Entry>, name: string) returns (i: nat)
    requires |entries| == 3 && name in NamesOfEntries(entries)
    ensures i < 3 && (name == entries[i].wheelName || name == entries[i].rawName)
  {
    var e :| e in entries && (name == e.wheelName || name == e.rawName);
    i :| 0 <= i < 3 && entries[i] == e;
  }

  lemma RecordFilesAreAmongSix(tree: Tree, entries: seq<Entry>, i: nat)
    requires AllFound(tree, entries) && i < 3
    ensures WheelOf(tree, entries[i]) in SixFiles(tree, entries) && RawOf(tree, entries[i]) in SixFiles(tree, entries)
  {
    var six := SixFiles(tree, entries);
    if i == 0 {
      assert six[0] == WheelOf(tree, entries[0]) && six[1] == RawOf(tree, entries[0]);
    } else if i == 1 {
      assert six[2] == WheelOf(tree, entries[1]) && six[3] == RawOf(tree, entries[1]);
    } else {
      assert six[4] == WheelOf(tree, entries[2]) && six[5] == RawOf(tree, entries[2]);
    }
  }

  lemma OneOfSix(tree: Tree, entries: seq<Entry>, n: Node)
    requires AllFound(tree, entries)
    requires n in tree && n.content.File? && n.name in NamesOfEntries(entries)
    ensures n in SixFiles(tree, entries)
  {
    var i := NameIsOneOfSix(entries, n.name);
    RecordFilesAreAmongSix(tree, entries, i);
    FileIsOnly(tree, n, n.name);
  }

  /** The tree holds these files, under different names, and otherwise only files with the manifest's name. */
  ghost predicate HoldsExactly(tree: Tree, files: seq<Node>, manifestName: string) {
    && (forall i :: 0 <= i < |files| ==> files[i] in tree && files[i].content.File?)
    && (forall i, j :: 0 <= i < j < |files| ==> files[i].name != files[j].name)
    && (forall n :: n in tree && n.content.File? ==> n in files || n.name == manifestName)
  }

  lemma ExpectedFile(manifestName: string, entries: seq<Entry>, name: string)
    requires name in Expected(manifestName, entries, []) && name != manifestName
    ensures name in NamesOfEntries(entries)
  {}

  lemma FileIsExpected(tree: Tree, entries: seq<Entry>, manifestName: string, n: Node)
    requires OnlyExpected(tree, Expected(manifestName, entries, [])) && n in tree && n.content.File?
    ensures n.name in Expected(manifestName, entries, [])
  {
    var k :| 0 <= k < |tree| && tree[k] == n;
  }

  lemma NamedFilesHeld(tree: Tree, files: seq<Node>, names: seq<string>, manifestName: string)
    requires |files| == |names| && DistinctNames(names)
    requires forall i :: 0 <= i < |files| ==> files[i] in tree && IsFileNamed(files[i], names[i])
    requires forall n :: n in tree && n.content.File? ==> n in files || n.name == manifestName
    ensures HoldsExactly(tree, files, manifestName)
  {}

  lemma SixHeldExactly(tree: Tree, entries: seq<Entry>, manifestName: string)
    requires AllFound(tree, entries)
    requires DistinctNames(SixNames(entries))
    requires OnlyExpected(tree, Expected(manifestName, entries, []))
    ensures HoldsExactly(tree, SixFiles(tree, entries), manifestName)
  {
    var six := SixFiles(tree, entries);
    forall n | n in tree && n.content.File? ensures n in six || n.name == manifestName {
      FileIsExpected(tree, entries, manifestName, n);
      if n.name != manifestName {
        ExpectedFile(manifestName, entries, n.name);
        OneOfSix(tree, entries, n);
      }
    }
    forall i | 0 <= i < 6 ensures six[i] in tree && IsFileNamed(six[i], SixNames(entries)[i]) {
      SixFilesThere(tree, entries, i);
    }
    NamedFilesHeld(tree, six, SixNames(entries), manifestName);
  }

  lemma AllCorrelated(ins: Inspectors, tree: Tree, version: string, entries: seq<Entry>)
    requires Lawful(ins) && AllAccepted(ins, tree, version, entries)
    ensures forall i :: 0 <= i < |entries| ==> Correlated(ins, tree, version, entries[i])
  {
    forall i | 0 <= i < |entries| ensures Correlated(ins, tree, version, entries[i]) {
      RecordCorrelates(ins, tree, version, entries[i]);
    }
  }

  lemma CorrelatedFound(ins: Inspectors, tree: Tree, version: string, entries: seq<Entry>)
    requires |entries| == 3 && forall i :: 0 <= i < |entries| ==> Correlated(ins, tree, version, entries[i])
    ensures AllFound(tree, entries)
  {
    assert Correlated(ins, tree, version, entries[0]) && Correlated(ins, tree, version, entries[1]);
    assert Correlated(ins, tree, version, entries[2]);
  }

  lemma RecordsExact(ins: Inspectors, tree: Tree, version: string, entries: seq<Entry>)
    requires Lawful(ins) && |entries| == 3 && AllAccepted(ins, tree, version, entries) && DistinctTargets(entries)
    ensures AllFound(tree, entries) && TargetsOf(entries) == TARGET_NAMES && DistinctNames(SixNames(entries))
    ensures forall i :: 0 <= i < |entries| ==> Correlated(ins, tree, version, entries[i])
  {
    AllCorrelated(ins, tree, version, entries);
    CorrelatedFound(ins, tree, version, entries);
    EveryTargetSeen(entries);
    RecordsDiffer(ins, tree, version, entries);
    SixNamesDistinct(entries);
  }

  /**
   An accepted proxy release is exact: its tree holds six files of different names, a wheel and a raw file for each
   of the three targets; every other file carries the manifest's own name; and the executable in each wheel has the
   SHA-256 of its raw file.
   */
  lemma ExactArtifactSet(ins: Inspectors, tree: Tree, manifestName: string, m: Json, entries: seq<Entry>, helpers: seq<Helper>)
    requires Lawful(ins) && ManifestAccepted(ins, tree, None, manifestName, m, entries, helpers)
    ensures AllFound(tree, entries) && TargetsOf(entries) == TARGET_NAMES && helpers == []
    ensures forall i :: 0 <= i < |entries| ==> Correlated(ins, tree, VersionIn(m), entries[i])
    ensures HoldsExactly(tree, SixFiles(tree, entries), manifestName)
  {
    RecordsExact(ins, tree, VersionIn(m), entries);
    SixHeldExactly(tree, entries, manifestName);
  }
}
