/**
 The desktop helper section of a release manifest: how scripts/create_release_manifest.py writes it and how
 scripts/validate_release_artifacts.py checks it.
 */
module DesktopHelpers {
  import opened Binaries
  import opened Json
  import opened Proxies
  import opened Text

  // ----- the producer -----

  /** What the producer found for one helper binary or bootstrap script. */
  datatype Found = Found(name: string, facts: Facts)

  /** The checks of `_connect_binary_record`. */
  function ProduceBinary(ins: Inspectors, tree: Tree, version: string, t: Target): Option<Found> {
    match OnlyFile(tree, ConnectName(version, t))
    case None => None
    case Some(node) =>
      match ins.connect(ArtifactOf(node), version, t)
      case None => None
      case Some(facts) => Some(Found(node.name, facts))
  }

  /** The same for a bootstrap script. */
  function ProduceBootstrap(ins: Inspectors, tree: Tree, name: string): Option<Found> {
    match OnlyFile(tree, name)
    case None => None
    case Some(node) =>
      match ins.bootstrap(ArtifactOf(node))
      case None => None
      case Some(facts) => Some(Found(node.name, facts))
  }

  function BinaryJson(t: Target, f: Found): Json {
    Object(map[
      "kind" := Str("eggpool-connect"),
      "product_target" := Str(ConnectClass(t)),
      "rust_target" := Str(t.rustTarget),
      "filename" := Str(f.name),
      "sha256" := Str(f.facts.sha256),
      "size" := Int(f.facts.size),
      "executable" := Bool(true)])
  }

  function BootstrapJson(f: Found): Json {
    Object(map[
      "kind" := Str("connect-bootstrap"),
      "filename" := Str(f.name),
      "sha256" := Str(f.facts.sha256),
      "size" := Int(f.facts.size),
      "executable" := Bool(false)])
  }

  // ----- the validator -----

  /** What the validator reads from a helper record. */
  datatype Helper =
    | Binary(target: string, rustTarget: Json, name: string, executable: Json, sha256: Json, size: Json)
    | Bootstrap(name: string, executable: Json, sha256: Json, size: Json)

  function ReadHelper(j: Json): Option<Helper> {
    if !j.Object? then None else
    var kind, name, target := Get(j.fields, "kind"), Get(j.fields, "filename"), Get(j.fields, "product_target");
    var executable, sha256, size := Get(j.fields, "executable"), Get(j.fields, "sha256"), Get(j.fields, "size");
    if !NonEmptyString(name) then None
    else if kind == Str("eggpool-connect") then
      if NonEmptyString(target) then Some(Binary(target.s, Get(j.fields, "rust_target"), name.s, executable, sha256, size)) else None
    else if kind == Str("connect-bootstrap") then Some(Bootstrap(name.s, executable, sha256, size))
    else None
  }

  /** The target of a helper target class. */
  function ClassNamed(targets: seq<Target>, name: string): (r: Option<Target>)
    ensures r.Some? ==> r.value in targets && ConnectClass(r.value) == name
    ensures r.None? ==> forall t :: t in targets ==> ConnectClass(t) != name
  {
    if targets == [] then None
    else if ConnectClass(targets[0]) == name then Some(targets[0])
    else ClassNamed(targets[1..], name)
  }

  predicate MatchesFacts(h: Helper, facts: Facts) {
    h.sha256 == Str(facts.sha256) && NumberIs(h.size, facts.size)
  }

  predicate BinaryAccepted(ins: Inspectors, tree: Tree, version: string, h: Helper)
    requires h.Binary?
  {
    var t, node := ClassNamed(CONNECT_TARGETS, h.target), OnlyFile(tree, h.name);
    && t.Some? && h.rustTarget == Str(t.value.rustTarget) && h.name == ConnectName(version, t.value)
    && h.executable == Bool(true) && node.Some?
    && var facts := ins.connect(ArtifactOf(node.value), version, t.value);
       facts.Some? && MatchesFacts(h, facts.value)
  }

  predicate BootstrapAccepted(ins: Inspectors, tree: Tree, h: Helper)
    requires h.Bootstrap?
  {
    var node := OnlyFile(tree, h.name);
    && h.name in CONNECT_BOOTSTRAPS && h.executable == Bool(false) && node.Some?
    && var facts := ins.bootstrap(ArtifactOf(node.value));
       facts.Some? && MatchesFacts(h, facts.value)
  }

  predicate HelperAccepted(ins: Inspectors, tree: Tree, version: string, h: Helper) {
    match h
    case Binary(_, _, _, _, _, _) => BinaryAccepted(ins, tree, version, h)
    case Bootstrap(_, _, _, _) => BootstrapAccepted(ins, tree, h)
  }

  /** What a helper record stands for: target classes and bootstrap names never coincide. */
  function Identity(h: Helper): string {
    match h
    case Binary(target, _, _, _, _, _) => target
    case Bootstrap(name, _, _, _) => name
  }

  function Identities(helpers: seq<Helper>): set<string> { set h | h in helpers :: Identity(h) }

  function HelperNames(helpers: seq<Helper>): set<string> { set h | h in helpers :: h.name }

  /** The four helper binaries and the two bootstrap scripts. */
  const COMPLETE: set<string> :=
    (set t | t in CONNECT_TARGETS :: ConnectClass(t)) + (set n | n in CONNECT_BOOTSTRAPS)

  ghost predicate IsHelperReading(records: seq<Json>, helpers: seq<Helper>) {
    |helpers| <= |records| && forall i :: 0 <= i < |helpers| ==> ReadHelper(records[i]) == Some(helpers[i])
  }

  ghost predicate DistinctHelpers(helpers: seq<Helper>) {
    forall i, j :: 0 <= i < j < |helpers| ==> Identity(helpers[i]) != Identity(helpers[j])
  }

  ghost predicate HelpersRead(records: seq<Json>, accept: Helper -> bool, helpers: seq<Helper>) {
    && IsHelperReading(records, helpers) && DistinctHelpers(helpers)
    && forall i :: 0 <= i < |helpers| ==> accept(helpers[i])
  }

  /** No helper record at all, or an accepted one for every binary and script. */
  ghost predicate HelpersAccepted(ins: Inspectors, connect: Option<Tree>, version: string, records: seq<Json>, helpers: seq<Helper>) {
    && |helpers| == |records|
    && (records != [] ==>
          && connect.Some? && HelpersRead(records, h => HelperAccepted(ins, connect.value, version, h), helpers)
          && Identities(helpers) == COMPLETE)
  }

  /** `validate_connect_artifacts`. */
  method ValidateHelpers(ins: Inspectors, connect: Option<Tree>, version: string, records: seq<Json>)
    returns (ok: bool, names: set<string>, ghost helpers: seq<Helper>)
    ensures ok ==> HelpersAccepted(ins, connect, version, records, helpers) && names == HelperNames(helpers)
    ensures !ok ==> forall all :: !HelpersAccepted(ins, connect, version, records, all)
  {
    helpers, names := [], {};
    if records == [] { return true, names, helpers; }
    if connect.None? { return false, names, helpers; }
    var accept := (h: Helper) => HelperAccepted(ins, connect.value, version, h);
    var seen;
    ok, seen, names, helpers := CheckHelpers(records, accept);
    if ok {
      ReadingUnique(records, helpers);
      ok := seen == COMPLETE;
    }
  }

  /** Each record is read, is the first of its identity, and is accepted. */
  method CheckHelpers(records: seq<Json>, accept: Helper -> bool)
    returns (ok: bool, seen: set<string>, names: set<string>, ghost helpers: seq<Helper>)
    ensures ok ==> |helpers| == |records| && HelpersRead(records, accept, helpers)
    ensures ok ==> seen == Identities(helpers) && names == HelperNames(helpers)
    ensures !ok ==> forall all :: |all| == |records| ==> !HelpersRead(records, accept, all)
  {
    helpers, names, seen := [], {}, {};
    var k := 0;
    while k < |records|
      invariant k == |helpers| <= |records| && HelpersRead(records, accept, helpers)
      invariant seen == Identities(helpers) && names == HelperNames(helpers)
    {
      var helper := ReadHelper(records[k]);
      if helper.None? {
        Unreadable(records, accept, k);
        return false, seen, names, helpers;
      }
      var h := helper.value;
      if Identity(h) in seen {
        Repeated(records, accept, helpers, h);
        return false, seen, names, helpers;
      }
      if !accept(h) {
        Unaccepted(records, accept, k, h);
        return false, seen, names, helpers;
      }
      HelpersPush(records, accept, helpers, h);
      seen := seen + {Identity(h)};
      names := names + {h.name};
      helpers := helpers + [h];
      k := k + 1;
    }
    ok := true;
  }

  lemma ReadingUnique(records: seq<Json>, helpers: seq<Helper>)
    requires IsHelperReading(records, helpers) && |helpers| == |records|
    ensures forall all :: IsHelperReading(records, all) && |all| == |records| ==> all == helpers
  {
    forall all | IsHelperReading(records, all) && |all| == |records| ensures all == helpers {
      forall i | 0 <= i < |all| ensures all[i] == helpers[i] { assert ReadHelper(records[i]) == Some(all[i]); }
    }
  }

  lemma Unreadable(records: seq<Json>, accept: Helper -> bool, k: nat)
    requires k < |records| && ReadHelper(records[k]).None?
    ensures forall all :: |all| == |records| ==> !HelpersRead(records, accept, all)
  {}

  lemma Unaccepted(records: seq<Json>, accept: Helper -> bool, k: nat, h: Helper)
    requires k < |records| && ReadHelper(records[k]) == Some(h) && !accept(h)
    ensures forall all :: |all| == |records| ==> !HelpersRead(records, accept, all)
  {}

  lemma Repeated(records: seq<Json>, accept: Helper -> bool, helpers: seq<Helper>, h: Helper)
    requires IsHelperReading(records, helpers) && |helpers| < |records| && ReadHelper(records[|helpers|]) == Some(h)
    requires Identity(h) in Identities(helpers)
    ensures forall all :: |all| == |records| ==> !HelpersRead(records, accept, all)
  {
    var i :| 0 <= i < |helpers| && Identity(helpers[i]) == Identity(h);
    assert ReadHelper(records[i]) == Some(helpers[i]);
  }

  lemma HelperReadingPush(records: seq<Json>, helpers: seq<Helper>, h: Helper)
    requires IsHelperReading(records, helpers) && |helpers| < |records| && ReadHelper(records[|helpers|]) == Some(h)
    ensures IsHelperReading(records, helpers + [h])
  {
    var more := helpers + [h];
    forall i | 0 <= i < |more| ensures ReadHelper(records[i]) == Some(more[i]) {
      assert i < |helpers| ==> more[i] == helpers[i];
    }
  }

  lemma DistinctHelpersPush(helpers: seq<Helper>, h: Helper)
    requires DistinctHelpers(helpers) && Identity(h) !in Identities(helpers)
    ensures DistinctHelpers(helpers + [h])
  {
    forall i | 0 <= i < |helpers| ensures Identity(helpers[i]) != Identity(h) { assert helpers[i] in helpers; }
  }

  lemma HelpersPush(records: seq<Json>, accept: Helper -> bool, helpers: seq<Helper>, h: Helper)
    requires HelpersRead(records, accept, helpers) && |helpers| < |records| && ReadHelper(records[|helpers|]) == Some(h)
    requires Identity(h) !in Identities(helpers) && accept(h)
    ensures HelpersRead(records, accept, helpers + [h])
    ensures Identities(helpers + [h]) == Identities(helpers) + {Identity(h)}
    ensures HelperNames(helpers + [h]) == HelperNames(helpers) + {h.name}
  {
    HelperReadingPush(records, helpers, h);
    DistinctHelpersPush(helpers, h);
    assert forall x :: x in helpers + [h] <==> x in helpers || x == h;
  }
}
