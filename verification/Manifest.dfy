/**
 The release manifest: its producer (scripts/create_release_manifest.py) and its validator
 (scripts/validate_release_artifacts.py).
 */
module Manifest {
  import opened Binaries
  import Catalog
  import opened DesktopHelpers
  import opened Encoding
  import opened Json
  import opened Proxies
  import opened Text

  // ----- the producer -----

  /** What `create_manifest` is given besides the trees; `build` stands for the recorded tool versions. */
  datatype Request = Request(version: string, commit: string, lock: Digest, packaging: Digest,
                             qualification: string, build: Target -> Json)

  /** All values, if every computation gave one. */
  function AllSome<T>(results: seq<Option<T>>): (r: Option<seq<T>>)
    ensures r.Some? <==> forall i :: 0 <= i < |results| ==> results[i].Some?
    ensures r.Some? ==> |r.value| == |results| && forall i :: 0 <= i < |results| ==> results[i] == Some(r.value[i])
  {
    if results == [] then Some([])
    else
      var rest := AllSome(results[1..]);
      if results[0].None? || rest.None? then None else Some([results[0].value] + rest.value)
  }

  function ProduceAll(ins: Inspectors, tree: Tree, version: string, targets: seq<Target>): (r: Option<seq<Produced>>)
    ensures r.Some? <==> forall i :: 0 <= i < |targets| ==> Produce(ins, tree, version, targets[i]).Some?
    ensures r.Some? ==> |r.value| == |targets| && forall i :: 0 <= i < |targets| ==> Produce(ins, tree, version, targets[i]) == Some(r.value[i])
  {
    var results := seq(|targets|, i requires 0 <= i < |targets| => Produce(ins, tree, version, targets[i]));
    assert forall i :: 0 <= i < |targets| ==> results[i] == Produce(ins, tree, version, targets[i]);
    AllSome(results)
  }

  function BinariesOf(ins: Inspectors, tree: Tree, version: string, targets: seq<Target>): (r: Option<seq<Found>>)
    ensures r.Some? <==> forall i :: 0 <= i < |targets| ==> ProduceBinary(ins, tree, version, targets[i]).Some?
    ensures r.Some? ==> |r.value| == |targets| && forall i :: 0 <= i < |targets| ==> ProduceBinary(ins, tree, version, targets[i]) == Some(r.value[i])
  {
    var results := seq(|targets|, i requires 0 <= i < |targets| => ProduceBinary(ins, tree, version, targets[i]));
    assert forall i :: 0 <= i < |targets| ==> results[i] == ProduceBinary(ins, tree, version, targets[i]);
    AllSome(results)
  }

  function BootstrapsOf(ins: Inspectors, tree: Tree, names: seq<string>): (r: Option<seq<Found>>)
    ensures r.Some? <==> forall i :: 0 <= i < |names| ==> ProduceBootstrap(ins, tree, names[i]).Some?
    ensures r.Some? ==> |r.value| == |names| && forall i :: 0 <= i < |names| ==> ProduceBootstrap(ins, tree, names[i]) == Some(r.value[i])
  {
    var results := seq(|names|, i requires 0 <= i < |names| => ProduceBootstrap(ins, tree, names[i]));
    assert forall i :: 0 <= i < |names| ==> results[i] == ProduceBootstrap(ins, tree, names[i]);
    AllSome(results)
  }

  function ProxyRecords(ins: Inspectors, ps: seq<Produced>, req: Request): (r: seq<Json>)
    requires forall i :: 0 <= i < |ps| ==> ps[i].wheel.content.File?
    ensures |r| == |ps|
  {
    seq(|ps|, i requires 0 <= i < |ps| => ProxyJson(ins, ps[i], req.build(ps[i].target), req.qualification))
  }

  function BinaryRecords(targets: seq<Target>, found: seq<Found>): (r: seq<Json>)
    requires |targets| == |found|
    ensures |r| == |found|
  {
    seq(|found|, i requires 0 <= i < |found| => BinaryJson(targets[i], found[i]))
  }

  function BootstrapRecords(found: seq<Found>): (r: seq<Json>)
    ensures |r| == |found|
  {
    seq(|found|, i requires 0 <= i < |found| => BootstrapJson(found[i]))
  }

  /** What `_connect_records` returns: nothing without a helper directory, else every binary and both scripts. */
  function HelperRecords(ins: Inspectors, connect: Option<Tree>, version: string): Option<seq<Json>> {
    match connect
    case None => Some([])
    case Some(tree) =>
      var binaries, scripts := BinariesOf(ins, tree, version, CONNECT_TARGETS), BootstrapsOf(ins, tree, CONNECT_BOOTSTRAPS);
      if binaries.None? || scripts.None? then None
      else Some(BinaryRecords(CONNECT_TARGETS, binaries.value) + BootstrapRecords(scripts.value))
  }

  /** `_connect_records`: the binaries, then the scripts appended one by one. */
  method ConnectRecords(ins: Inspectors, connect: Option<Tree>, version: string) returns (r: Option<seq<Json>>)
    ensures r == HelperRecords(ins, connect, version)
  {
    if connect.None? { return Some([]); }
    var tree := connect.value;
    var binaries := BinariesOf(ins, tree, version, CONNECT_TARGETS);
    if binaries.None? { return None; }
    r := AppendScripts(ins, tree, CONNECT_BOOTSTRAPS, BinaryRecords(CONNECT_TARGETS, binaries.value));
  }

  method AppendScripts(ins: Inspectors, tree: Tree, names: seq<string>, first: seq<Json>) returns (r: Option<seq<Json>>)
    ensures var scripts := BootstrapsOf(ins, tree, names);
            r == if scripts.None? then None else Some(first + BootstrapRecords(scripts.value))
  {
    var records, k := first, 0;
    ghost var found: seq<Found> := [];
    while k < |names|
      invariant k == |found| <= |names| && records == first + BootstrapRecords(found)
      invariant forall i :: 0 <= i < k ==> ProduceBootstrap(ins, tree, names[i]) == Some(found[i])
    {
      var script := ProduceBootstrap(ins, tree, names[k]);
      if script.None? { return None; }
      records := records + [BootstrapJson(script.value)];
      found := found + [script.value];
      k := k + 1;
    }
    assert BootstrapsOf(ins, tree, names).value == found;
    r := Some(records);
  }

  predicate IsQualification(j: Json) { j == Str("pending") || j == Str("pass") }

  function ManifestFields(req: Request, proxies: seq<Json>, helpers: seq<Json>): map<string, Json> {
    map[
      "manifest_version" := Str("release-manifest.v1"),
      "release_version" := Str(req.version),
      "source_commit" := Str(req.commit),
      "cargo_lock_sha256" := Str(Hex(req.lock)),
      "packaging_manifest_sha256" := Str(Hex(req.packaging)),
      "requires_python" := Str(">=3.11"),
      "artifacts" := List(proxies),
      "connect_artifacts" := List(helpers),
      "historical_backfill_candidates" := List([]),
      "qualification_result" := Str(req.qualification)]
  }

  /** `create_manifest`. */
  function Created(ins: Inspectors, tree: Tree, connect: Option<Tree>, req: Request): Option<map<string, Json>> {
    var ps, helpers := ProduceAll(ins, tree, req.version, TARGETS), HelperRecords(ins, connect, req.version);
    if !IsQualification(Str(req.qualification)) || ps.None? || helpers.None? || !Catalog.IsCommit(Str(req.commit)) then None
    else Some(ManifestFields(req, ProxyRecords(ins, ps.value, req), helpers.value))
  }

  // ----- the validator -----

  predicate HeaderAccepted(m: Json) {
    && m.Object? && Get(m.fields, "manifest_version") == Str("release-manifest.v1")
    && NonEmptyString(Get(m.fields, "release_version")) && Catalog.IsCommit(Get(m.fields, "source_commit"))
    && Catalog.IsDigest(Get(m.fields, "cargo_lock_sha256")) && Catalog.IsDigest(Get(m.fields, "packaging_manifest_sha256"))
    && Get(m.fields, "artifacts").List? && HelperSection(m).List?
    && IsQualification(Get(m.fields, "qualification_result"))
  }

  function HelperSection(m: Json): Json
    requires m.Object?
  {
    if "connect_artifacts" in m.fields then m.fields["connect_artifacts"] else List([])
  }

  function VersionIn(m: Json): string
    requires HeaderAccepted(m)
  {
    Get(m.fields, "release_version").s
  }

  predicate OnlyExpected(tree: Tree, expected: set<string>) {
    forall i :: 0 <= i < |tree| && tree[i].content.File? ==> tree[i].name in expected
  }

  function Expected(manifestName: string, entries: seq<Entry>, helpers: seq<Helper>): set<string> {
    {manifestName} + NamesOfEntries(entries) + HelperNames(helpers)
  }

  /** Everything in a manifest is accepted, and the trees hold no other files but the manifest. */
  ghost predicate ManifestAccepted(ins: Inspectors, tree: Tree, connect: Option<Tree>, manifestName: string, m: Json,
                                   entries: seq<Entry>, helpers: seq<Helper>) {
    && HeaderAccepted(m)
    && ProxiesAccepted(ins, tree, VersionIn(m), Get(m.fields, "artifacts").items, entries)
    && HelpersAccepted(ins, connect, VersionIn(m), HelperSection(m).items, helpers)
    && OnlyExpected(tree, Expected(manifestName, entries, helpers))
    && (connect.Some? ==> OnlyExpected(connect.value, Expected(manifestName, entries, helpers)))
  }

  /** `validate_manifest`, without portability evidence. */
  method ValidateManifest(ins: Inspectors, tree: Tree, connect: Option<Tree>, manifestName: string, m: Json)
    returns (ok: bool, ghost entries: seq<Entry>, ghost helpers: seq<Helper>)
    ensures ok ==> ManifestAccepted(ins, tree, connect, manifestName, m, entries, helpers)
    ensures !ok ==> forall es, hs :: !ManifestAccepted(ins, tree, connect, manifestName, m, es, hs)
  {
    entries, helpers := [], [];
    if !HeaderAccepted(m) { return false, entries, helpers; }
    var version, expected, names := VersionIn(m), {}, {};
    ok, expected, entries := ValidateProxies(ins, tree, version, Get(m.fields, "artifacts").items);
    if !ok { return; }
    ok, names, helpers := ValidateHelpers(ins, connect, version, HelperSection(m).items);
    if !ok { return; }
    ReadingsUnique(ins, tree, connect, manifestName, m, entries, helpers);
    expected := {manifestName} + expected + names;
    if connect.Some? && !OnlyExpected(connect.value, expected) { return false, entries, helpers; }
    if !OnlyExpected(tree, expected) { return false, entries, helpers; }
  }

  lemma EntriesUnique(records: seq<Json>, entries: seq<Entry>, all: seq<Entry>)
    requires Proxies.IsReading(records, entries) && Proxies.IsReading(records, all) && |all| == |entries|
    ensures all == entries
  {
    forall i | 0 <= i < |all| ensures all[i] == entries[i] { assert ReadEntry(records[i]) == Some(all[i]); }
  }

  lemma HelpersUnique(records: seq<Json>, helpers: seq<Helper>, all: seq<Helper>)
    requires IsHelperReading(records, helpers) && IsHelperReading(records, all) && |all| == |helpers|
    ensures all == helpers
  {
    forall i | 0 <= i < |all| ensures all[i] == helpers[i] { assert ReadHelper(records[i]) == Some(all[i]); }
  }

  /** What the records say is fixed by the manifest. */
  lemma ReadingsUnique(ins: Inspectors, tree: Tree, connect: Option<Tree>, manifestName: string, m: Json,
                       entries: seq<Entry>, helpers: seq<Helper>)
    requires HeaderAccepted(m) && ProxiesAccepted(ins, tree, VersionIn(m), Get(m.fields, "artifacts").items, entries)
    requires HelpersAccepted(ins, connect, VersionIn(m), HelperSection(m).items, helpers)
    ensures forall es, hs :: ManifestAccepted(ins, tree, connect, manifestName, m, es, hs) ==> es == entries && hs == helpers
  {
    forall es, hs | ManifestAccepted(ins, tree, connect, manifestName, m, es, hs) ensures es == entries && hs == helpers {
      EntriesUnique(Get(m.fields, "artifacts").items, entries, es);
      if hs != [] { HelpersUnique(HelperSection(m).items, helpers, hs); }
    }
  }
}
