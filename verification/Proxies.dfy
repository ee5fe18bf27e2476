/**
 The proxy section of a release manifest: how scripts/create_release_manifest.py writes it and how
 scripts/validate_release_artifacts.py checks it.
 */
module Proxies {
  import opened Binaries
  import opened Encoding
  import opened Json
  import opened Text
  import opened Wheel

  // ----- artifact trees -----

  datatype Content = Directory | File(data: Bytes, executable: bool)

  /** One path below an artifact directory. */
  datatype Node = Node(dir: string, name: string, content: Content)

  type Tree = seq<Node>

  function ArtifactOf(n: Node): Artifact
    requires n.content.File?
  {
    Artifact(n.name, n.content.data, n.content.executable)
  }

  function Filter(s: Tree, p: Node -> bool): (r: Tree)
    ensures forall x :: x in r <==> x in s && p(x)
  {
    if s == [] then [] else (if p(s[0]) then [s[0]] else []) + Filter(s[1..], p)
  }

  lemma {:induction false} FilterConcat(a: Tree, b: Tree, p: Node -> bool)
    ensures Filter(a + b, p) == Filter(a, p) + Filter(b, p)
  {
    if a == [] {
      assert a + b == b;
    } else {
      assert (a + b)[1..] == a[1..] + b;
      FilterConcat(a[1..], b, p);
    }
  }

  /** A narrower filter that keeps a member of a one-member selection selects the same member once. */
  lemma {:induction false} FilterNarrow(s: Tree, p: Node -> bool, q: Node -> bool)
    requires |Filter(s, p)| == 1 && q(Filter(s, p)[0]) && forall x :: x in s && q(x) ==> p(x)
    ensures Filter(s, q) == Filter(s, p)
  {
    if p(s[0]) {
      FilterNone(s[1..], p, q);
    } else {
      assert forall x :: x in s[1..] ==> x in s;
      FilterNarrow(s[1..], p, q);
    }
  }

  lemma {:induction false} FilterEmpty(s: Tree, q: Node -> bool)
    requires forall x :: x in s ==> !q(x)
    ensures Filter(s, q) == []
  {
    if s != [] {
      assert s[0] in s && forall x :: x in s[1..] ==> x in s;
      FilterEmpty(s[1..], q);
    }
  }

  lemma {:induction false} FilterNone(s: Tree, p: Node -> bool, q: Node -> bool)
    requires Filter(s, p) == [] && forall x :: x in s && q(x) ==> p(x)
    ensures Filter(s, q) == []
  {
    forall x | x in s ensures !q(x) { assert x in Filter(s, p) <==> p(x); }
    FilterEmpty(s, q);
  }

  predicate IsFileNamed(n: Node, name: string) { n.content.File? && n.name == name }

  /** `rglob(name)` restricted to files. */
  function FilesNamed(tree: Tree, name: string): seq<Node> {
    Filter(tree, n => IsFileNamed(n, name))
  }

  /** The only file of that name: `_artifact_path`, `_raw_path`. */
  function OnlyFile(tree: Tree, name: string): (r: Option<Node>)
    ensures r.Some? ==> r.value in tree && IsFileNamed(r.value, name)
  {
    var found := FilesNamed(tree, name);
    if |found| != 1 then None
    else
      assert found[0] in found;
      Some(found[0])
  }

  /** Files of other names do not matter. */
  lemma OnlyFileExtended(tree: Tree, extra: Tree, name: string)
    requires forall n :: n in extra ==> n.name != name
    ensures OnlyFile(tree + extra, name) == OnlyFile(tree, name)
  {
    FilterConcat(tree, extra, n => IsFileNamed(n, name));
    FilterEmpty(extra, n => IsFileNamed(n, name));
  }

  // ----- the producer -----

  /** The inspections both sides call. */
  datatype Inspectors = Inspectors(
    sha256: Bytes -> Digest,
    wheel: (Artifact, string, Target) -> Option<WheelFacts>,
    raw: (Artifact, string, Target) -> Option<Facts>,
    connect: (Artifact, string, Target) -> Option<Facts>,
    bootstrap: Artifact -> Option<Facts>)

  /** `eggpool-{version}-*.whl`, and ending with a platform tag of the target. */
  predicate IsWheelFor(n: Node, version: string, t: Target) {
    && StartsWith(n.name, "eggpool-" + version + "-") && EndsWith(n.name, ".whl") && |n.name| >= 13 + |version|
    && exists tag :: tag in Platforms(t) && EndsWith(n.name, tag + ".whl")
  }

  function WheelsFor(tree: Tree, version: string, t: Target): seq<Node> {
    Filter(tree, n => IsWheelFor(n, version, t))
  }

  /** What the producer found for one target. */
  datatype Produced = Produced(target: Target, wheel: Node, facts: WheelFacts, raw: Node, rawFacts: Facts)

  /** The checks of `_wheel_record`. */
  function Produce(ins: Inspectors, tree: Tree, version: string, t: Target): (r: Option<Produced>)
    ensures r.Some? ==> r.value.wheel.content.File?
  {
    var wheels, raw := WheelsFor(tree, version, t), OnlyFile(tree, RawName(version, t));
    if |wheels| != 1 || wheels[0].content.Directory? || raw.None? then None
    else
      var facts, rawFacts := ins.wheel(ArtifactOf(wheels[0]), version, t), ins.raw(ArtifactOf(raw.value), version, t);
      if facts.None? || rawFacts.None? then None
      else if Hex(ins.sha256(facts.value.executable)) != rawFacts.value.sha256
              || |facts.value.executable| != rawFacts.value.size then None
      else Some(Produced(t, wheels[0], facts.value, raw.value, rawFacts.value))
  }

  function Strings(texts: seq<string>): Json { List(seq(|texts|, i requires 0 <= i < |texts| => Str(texts[i]))) }

  function WheelJson(ins: Inspectors, p: Produced): Json
    requires p.wheel.content.File?
  {
    Object(map[
      "filename" := Str(p.wheel.name),
      "platform_tags" := Strings(p.facts.tags),
      "sha256" := Str(Hex(ins.sha256(p.wheel.content.data))),
      "size" := Int(|p.wheel.content.data|),
      "executable_member" := Str(p.facts.executableMember),
      "executable_sha256" := Str(Hex(ins.sha256(p.facts.executable))),
      "executable_size" := Int(|p.facts.executable|),
      "requires_python" := Str(">=3.11")])
  }

  function RawJson(p: Produced): Json {
    Object(map["filename" := Str(p.raw.name), "sha256" := Str(p.rawFacts.sha256), "size" := Int(p.rawFacts.size)])
  }

  /** The record `_wheel_record` returns; `build` stands for the recorded tool versions. */
  function ProxyJson(ins: Inspectors, p: Produced, build: Json, qualification: string): Json
    requires p.wheel.content.File?
  {
    Object(map[
      "kind" := Str("eggpool"),
      "product_target" := Str(p.target.name),
      "rust_target" := Str(p.target.rustTarget),
      "wheel" := WheelJson(ins, p),
      "raw" := RawJson(p),
      "build" := build,
      "qualification" := Object(map["result" := Str(qualification)])])
  }

  // ----- the validator -----

  /** What the validator reads from a record. */
  datatype Entry = Entry(target: string, rustTarget: Json, wheelName: string, wheelSha: Json, wheelSize: Json,
                         executableSha: Json, rawName: string, rawSha: Json, rawSize: Json)

  /** The shape that a record must have. */
  function ReadEntry(j: Json): Option<Entry> {
    if !j.Object? then None else
    var target, wheel, raw := Get(j.fields, "product_target"), Get(j.fields, "wheel"), Get(j.fields, "raw");
    var kind := if "kind" in j.fields then j.fields["kind"] else Str("eggpool");
    if !NonEmptyString(target) || kind != Str("eggpool") || !wheel.Object? || !raw.Object? then None
    else if !NonEmptyString(Get(wheel.fields, "filename")) || !NonEmptyString(Get(raw.fields, "filename")) then None
    else Some(Entry(target.s, Get(j.fields, "rust_target"),
                    Get(wheel.fields, "filename").s, Get(wheel.fields, "sha256"), Get(wheel.fields, "size"),
                    Get(wheel.fields, "executable_sha256"),
                    Get(raw.fields, "filename").s, Get(raw.fields, "sha256"), Get(raw.fields, "size")))
  }

  function TargetNamed(targets: seq<Target>, name: string): (r: Option<Target>)
    ensures r.Some? ==> r.value in targets && r.value.name == name
    ensures r.None? ==> forall t :: t in targets ==> t.name != name
  {
    if targets == [] then None else if targets[0].name == name then Some(targets[0]) else TargetNamed(targets[1..], name)
  }

  /** JSON numbers as Python compares them with an `int`. */
  predicate NumberIs(j: Json, n: nat) { IsInt(j) && AsInt(j) == n }

  /** Wheel, raw file and record agree. */
  predicate PayloadAccepted(ins: Inspectors, e: Entry, wheel: Node, raw: Node, version: string, t: Target)
    requires wheel.content.File? && raw.content.File?
  {
    var facts, rawFacts := ins.wheel(ArtifactOf(wheel), version, t), ins.raw(ArtifactOf(raw), version, t);
    && facts.Some? && rawFacts.Some?
    && e.wheelSha == Str(Hex(ins.sha256(wheel.content.data))) && NumberIs(e.wheelSize, |wheel.content.data|)
    && e.rawSha == Str(rawFacts.value.sha256) && NumberIs(e.rawSize, rawFacts.value.size)
    && e.executableSha == Str(Hex(ins.sha256(facts.value.executable)))
    && rawFacts.value.sha256 == Hex(ins.sha256(facts.value.executable))
  }

  predicate EntryAccepted(ins: Inspectors, tree: Tree, version: string, e: Entry) {
    var t, wheel, raw := TargetNamed(TARGETS, e.target), OnlyFile(tree, e.wheelName), OnlyFile(tree, e.rawName);
    && t.Some? && e.rustTarget == Str(t.value.rustTarget) && wheel.Some? && raw.Some?
    && PayloadAccepted(ins, e, wheel.value, raw.value, version, t.value)
  }

  ghost predicate IsReading(records: seq<Json>, entries: seq<Entry>) {
    |entries| <= |records| && forall i :: 0 <= i < |entries| ==> ReadEntry(records[i]) == Some(entries[i])
  }

  ghost predicate AllAccepted(ins: Inspectors, tree: Tree, version: string, entries: seq<Entry>) {
    forall i :: 0 <= i < |entries| ==> EntryAccepted(ins, tree, version, entries[i])
  }

  ghost predicate DistinctTargets(entries: seq<Entry>) {
    forall i, j :: 0 <= i < j < |entries| ==> entries[i].target != entries[j].target
  }

  /** One accepted record per target, and no other record. */
  ghost predicate ProxiesAccepted(ins: Inspectors, tree: Tree, version: string, records: seq<Json>, entries: seq<Entry>) {
    && |entries| == |records| == |TARGETS| && IsReading(records, entries)
    && AllAccepted(ins, tree, version, entries) && DistinctTargets(entries)
  }

  /** The file names of the records. */
  function NamesOfEntries(entries: seq<Entry>): set<string> {
    (set e | e in entries :: e.wheelName) + (set e | e in entries :: e.rawName)
  }

  const TARGET_NAMES: set<string> := {LINUX_AARCH64.name, LINUX_X86_64.name, MACOS_ARM64.name}

  /** Three accepted records with different targets are one for each target. */
  lemma EveryTargetSeen(entries: seq<Entry>)
    requires |entries| == 3 && DistinctTargets(entries)
    requires forall i :: 0 <= i < 3 ==> TargetNamed(TARGETS, entries[i].target).Some?
    ensures TargetsOf(entries) == TARGET_NAMES
  {
    var a, b, c := entries[0].target, entries[1].target, entries[2].target;
    assert entries == [entries[0], entries[1], entries[2]];
    assert TargetsOf(entries) == {a, b, c};
    assert a in TARGET_NAMES && b in TARGET_NAMES && c in TARGET_NAMES;
  }

  /** The loop of `validate_manifest` over the proxy records. */
  method ValidateProxies(ins: Inspectors, tree: Tree, version: string, records: seq<Json>)
    returns (ok: bool, expected: set<string>, ghost entries: seq<Entry>)
    ensures ok ==> ProxiesAccepted(ins, tree, version, records, entries) && expected == NamesOfEntries(entries)
    ensures !ok ==> forall all :: !ProxiesAccepted(ins, tree, version, records, all)
  {
    entries, expected := [], {};
    if |records| != |TARGETS| { return false, expected, entries; }
    var accept := (e: Entry) => EntryAccepted(ins, tree, version, e);
    var seen;
    ok, seen, expected, entries := CheckRecords(records, accept);
    if ok {
      EveryTargetSeen(entries);
      ok := seen == TARGET_NAMES;
    }
    forall all | ProxiesAccepted(ins, tree, version, records, all) ensures RecordsAccepted(records, accept, all) {}
  }

  ghost predicate RecordsAccepted(records: seq<Json>, accept: Entry -> bool, entries: seq<Entry>) {
    && |entries| == |records| && IsReading(records, entries) && DistinctTargets(entries)
    && forall i :: 0 <= i < |entries| ==> accept(entries[i])
  }

  function TargetsOf(entries: seq<Entry>): set<string> { set e | e in entries :: e.target }

  /** The state of the loop after some records. */
  ghost predicate Checked(records: seq<Json>, accept: Entry -> bool, entries: seq<Entry>, seen: set<string>, expected: set<string>) {
    && IsReading(records, entries) && DistinctTargets(entries) && (forall i :: 0 <= i < |entries| ==> accept(entries[i]))
    && seen == TargetsOf(entries) && expected == NamesOfEntries(entries)
  }

  /** The loop itself: each record is read, is the first of its target, and is accepted. */
  method CheckRecords(records: seq<Json>, accept: Entry -> bool)
    returns (ok: bool, seen: set<string>, expected: set<string>, ghost entries: seq<Entry>)
    ensures ok ==> RecordsAccepted(records, accept, entries) && expected == NamesOfEntries(entries) && seen == TargetsOf(entries)
    ensures !ok ==> forall all :: !RecordsAccepted(records, accept, all)
  {
    entries, expected, seen := [], {}, {};
    var k := 0;
    while k < |records|
      invariant k == |entries| && Checked(records, accept, entries, seen, expected)
    {
      var entry := ReadEntry(records[k]);
      if entry.None? {
        Unreadable(records, accept, k);
        return false, seen, expected, entries;
      }
      if entry.value.target in seen {
        Repeated(records, accept, entries, entry.value);
        return false, seen, expected, entries;
      }
      if !accept(entry.value) {
        Unaccepted(records, accept, k, entry.value);
        return false, seen, expected, entries;
      }
      CheckedPush(records, accept, entries, seen, expected, entry.value);
      seen := seen + {entry.value.target};
      expected := expected + {entry.value.wheelName, entry.value.rawName};
      entries := entries + [entry.value];
      k := k + 1;
    }
    ok := true;
  }

  lemma Unreadable(records: seq<Json>, accept: Entry -> bool, k: nat)
    requires k < |records| && ReadEntry(records[k]).None?
    ensures forall all :: !RecordsAccepted(records, accept, all)
  {}

  lemma Unaccepted(records: seq<Json>, accept: Entry -> bool, k: nat, e: Entry)
    requires k < |records| && ReadEntry(records[k]) == Some(e) && !accept(e)
    ensures forall all :: !RecordsAccepted(records, accept, all)
  {}

  lemma Repeated(records: seq<Json>, accept: Entry -> bool, entries: seq<Entry>, e: Entry)
    requires IsReading(records, entries) && |entries| < |records| && ReadEntry(records[|entries|]) == Some(e)
    requires e.target in TargetsOf(entries)
    ensures forall all :: !RecordsAccepted(records, accept, all)
  {
    var i :| 0 <= i < |entries| && entries[i].target == e.target;
    assert ReadEntry(records[i]) == Some(entries[i]);
  }

  lemma NamesPush(entries: seq<Entry>, e: Entry)
    ensures NamesOfEntries(entries + [e]) == NamesOfEntries(entries) + {e.wheelName, e.rawName}
    ensures TargetsOf(entries + [e]) == TargetsOf(entries) + {e.target}
  {
    assert forall x :: x in entries + [e] <==> x in entries || x == e;
  }

  lemma CheckedPush(records: seq<Json>, accept: Entry -> bool, entries: seq<Entry>, seen: set<string>, expected: set<string>, e: Entry)
    requires Checked(records, accept, entries, seen, expected) && e.target !in seen && accept(e)
    requires |entries| < |records| && ReadEntry(records[|entries|]) == Some(e)
    ensures Checked(records, accept, entries + [e], seen + {e.target}, expected + {e.wheelName, e.rawName})
  {
    NamesPush(entries, e);
    ReadingPush(records, entries, e);
    DistinctPush(entries, e);
  }

  lemma ReadingPush(records: seq<Json>, entries: seq<Entry>, e: Entry)
    requires IsReading(records, entries) && |entries| < |records| && ReadEntry(records[|entries|]) == Some(e)
    ensures IsReading(records, entries + [e])
  {
    var more := entries + [e];
    forall i | 0 <= i < |more| ensures ReadEntry(records[i]) == Some(more[i]) {
      assert i < |entries| ==> more[i] == entries[i];
    }
  }

  lemma DistinctPush(entries: seq<Entry>, e: Entry)
    requires DistinctTargets(entries) && e.target !in TargetsOf(entries)
    ensures DistinctTargets(entries + [e])
  {
    forall i | 0 <= i < |entries| ensures entries[i].target != e.target { assert entries[i] in entries; }
  }
}
