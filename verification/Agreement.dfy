/** The producer and the validator of a release manifest agree. */
module Agreement {
  import opened Binaries
  import opened DesktopHelpers
  import opened Encoding
  import opened Json
  import opened Manifest
  import opened Proxies
  import opened Text

  // ----- what the inspections promise -----

  /** A raw file is named after its target and hashed; the name of a wheel tells its target. */
  ghost predicate Lawful(ins: Inspectors) {
    && (forall a, v, t :: ins.raw(a, v, t).Some? ==> a.name == RawName(v, t) && ins.raw(a, v, t).value == FactsOf(ins.sha256, a))
    && (forall a, v, t :: ins.wheel(a, v, t).Some? ==> v != "" && EndsWith(a.name, ".whl"))
    && (forall a, b, v, s, t :: ins.wheel(a, v, s).Some? && ins.wheel(b, v, t).Some? && a.name == b.name ==> s == t)
  }

  // ----- one proxy record -----

  /** What the validator reads from the record of a produced target. */
  function EntryFor(ins: Inspectors, p: Produced): Entry
    requires p.wheel.content.File?
  {
    Entry(p.target.name, Str(p.target.rustTarget), p.wheel.name, Str(Hex(ins.sha256(p.wheel.content.data))),
          Int(|p.wheel.content.data|), Str(Hex(ins.sha256(p.facts.executable))), p.raw.name, Str(p.rawFacts.sha256),
          Int(p.rawFacts.size))
  }

  lemma RecordRoundTrip(ins: Inspectors, p: Produced, build: Json, qualification: string)
    requires p.wheel.content.File? && p.target.name != "" && p.wheel.name != "" && p.raw.name != ""
    ensures ReadEntry(ProxyJson(ins, p, build, qualification)) == Some(EntryFor(ins, p))
  {}

  /** The one wheel of a target is the one file of its name. */
  lemma WheelFoundAgain(ins: Inspectors, tree: Tree, version: string, t: Target)
    requires Produce(ins, tree, version, t).Some?
    ensures var p := Produce(ins, tree, version, t).value;
            p.wheel.name != "" && OnlyFile(tree, p.wheel.name) == Some(p.wheel)
  {
    var p := Produce(ins, tree, version, t).value;
    var found := WheelsFor(tree, version, t);
    assert found[0] in found;
    FilterNarrow(tree, n => IsWheelFor(n, version, t), n => IsFileNamed(n, p.wheel.name));
  }

  lemma TargetFound(t: Target)
    requires t in TARGETS
    ensures TargetNamed(TARGETS, t.name) == Some(t) && t.name != ""
  {
    assert LINUX_AARCH64.name[6] == 'a' && LINUX_X86_64.name[6] == 'x' && MACOS_ARM64.name[0] == 'm';
    var found := TargetNamed(TARGETS, t.name);
    assert found.Some?;
    assert found.value == LINUX_AARCH64 || found.value == LINUX_X86_64 || found.value == MACOS_ARM64;
  }

  /** What the producer found, the validator accepts, whatever other names the tree holds. */
  lemma ProducedAccepted(ins: Inspectors, tree: Tree, extra: Tree, version: string, t: Target)
    requires Produce(ins, tree, version, t).Some? && t in TARGETS
    requires var p := Produce(ins, tree, version, t).value;
             forall n :: n in extra ==> n.name != p.wheel.name && n.name != p.raw.name
    ensures var p := Produce(ins, tree, version, t).value;
            EntryAccepted(ins, tree + extra, version, EntryFor(ins, p))
  {
    var p := Produce(ins, tree, version, t).value;
    WheelFoundAgain(ins, tree, version, t);
    OnlyFileExtended(tree, extra, p.wheel.name);
    OnlyFileExtended(tree, extra, p.raw.name);
    TargetFound(t);
  }

  // ----- one helper record -----

  function BinaryFor(t: Target, f: Found): Helper {
    Binary(ConnectClass(t), Str(t.rustTarget), f.name, Bool(true), Str(f.facts.sha256), Int(f.facts.size))
  }

  function BootstrapFor(f: Found): Helper {
    Bootstrap(f.name, Bool(false), Str(f.facts.sha256), Int(f.facts.size))
  }

  lemma HelperRoundTrip(t: Target, f: Found)
    requires f.name != ""
    ensures ReadHelper(BinaryJson(t, f)) == Some(BinaryFor(t, f)) && ReadHelper(BootstrapJson(f)) == Some(BootstrapFor(f))
  {
    assert "eggpool-connect"[0] == 'e' && "connect-bootstrap"[0] == 'c';
  }

  lemma ClassFound(t: Target)
    requires t in CONNECT_TARGETS
    ensures ClassNamed(CONNECT_TARGETS, ConnectClass(t)) == Some(t)
  {
    var found := ClassNamed(CONNECT_TARGETS, ConnectClass(t));
    assert found.Some?;
    PrefixCancels("connect-", found.value.name, t.name);
    assert LINUX_AARCH64.name[6] == 'a' && LINUX_X86_64.name[6] == 'x' && MACOS_ARM64.name[0] == 'm' && WINDOWS_X86_64.name[0] == 'w';
  }

  lemma BinaryAcceptedAgain(ins: Inspectors, tree: Tree, extra: Tree, version: string, t: Target)
    requires ProduceBinary(ins, tree, version, t).Some? && t in CONNECT_TARGETS
    requires forall n :: n in extra ==> n.name != ConnectName(version, t)
    ensures var f := ProduceBinary(ins, tree, version, t).value;
            f.name == ConnectName(version, t) && HelperAccepted(ins, tree + extra, version, BinaryFor(t, f))
  {
    OnlyFileExtended(tree, extra, ConnectName(version, t));
    ClassFound(t);
  }

  lemma BootstrapAcceptedAgain(ins: Inspectors, tree: Tree, extra: Tree, version: string, name: string)
    requires ProduceBootstrap(ins, tree, name).Some? && name in CONNECT_BOOTSTRAPS
    requires forall n :: n in extra ==> n.name != name
    ensures var f := ProduceBootstrap(ins, tree, name).value;
            f.name == name && HelperAccepted(ins, tree + extra, version, BootstrapFor(f))
  {
    OnlyFileExtended(tree, extra, name);
  }

  // ----- the two sections -----

  function EntriesFor(ins: Inspectors, ps: seq<Produced>): (r: seq<Entry>)
    requires forall i :: 0 <= i < |ps| ==> ps[i].wheel.content.File?
    ensures |r| == |ps| && forall i :: 0 <= i < |ps| ==> r[i] == EntryFor(ins, ps[i])
  {
    seq(|ps|, i requires 0 <= i < |ps| => EntryFor(ins, ps[i]))
  }

  ghost predicate Avoids(extra: Tree, names: set<string>) {
    forall n :: n in extra ==> n.name !in names
  }

  lemma TargetNamesDiffer()
    ensures forall i, j :: 0 <= i < j < |TARGETS| ==> TARGETS[i].name != TARGETS[j].name
  {
    assert LINUX_AARCH64.name[6] == 'a' && LINUX_X86_64.name[6] == 'x' && MACOS_ARM64.name[0] == 'm';
  }

  lemma EntryReads(ins: Inspectors, tree: Tree, req: Request, ps: seq<Produced>, i: nat)
    requires ProduceAll(ins, tree, req.version, TARGETS) == Some(ps) && i < |ps|
    ensures ReadEntry(ProxyRecords(ins, ps, req)[i]) == Some(EntriesFor(ins, ps)[i])
    ensures EntriesFor(ins, ps)[i].target == TARGETS[i].name
  {
    var t := TARGETS[i];
    assert Produce(ins, tree, req.version, t) == Some(ps[i]);
    WheelFoundAgain(ins, tree, req.version, t);
    TargetFound(t);
    RecordRoundTrip(ins, ps[i], req.build(t), req.qualification);
  }

  lemma EntryOk(ins: Inspectors, tree: Tree, extra: Tree, version: string, ps: seq<Produced>, i: nat)
    requires ProduceAll(ins, tree, version, TARGETS) == Some(ps) && i < |ps|
    requires Avoids(extra, NamesOfEntries(EntriesFor(ins, ps)))
    ensures EntryAccepted(ins, tree + extra, version, EntriesFor(ins, ps)[i])
  {
    var t, e := TARGETS[i], EntriesFor(ins, ps)[i];
    assert Produce(ins, tree, version, t) == Some(ps[i]);
    assert e in EntriesFor(ins, ps);
    assert e.wheelName in NamesOfEntries(EntriesFor(ins, ps)) && e.rawName in NamesOfEntries(EntriesFor(ins, ps));
    ProducedAccepted(ins, tree, extra, version, t);
  }

  /** The validator accepts the proxy records the producer writes. */
  lemma ProxiesAgree(ins: Inspectors, tree: Tree, extra: Tree, req: Request, ps: seq<Produced>)
    requires ProduceAll(ins, tree, req.version, TARGETS) == Some(ps)
    requires Avoids(extra, NamesOfEntries(EntriesFor(ins, ps)))
    ensures ProxiesAccepted(ins, tree + extra, req.version, ProxyRecords(ins, ps, req), EntriesFor(ins, ps))
  {
    var records, entries := ProxyRecords(ins, ps, req), EntriesFor(ins, ps);
    forall i | 0 <= i < |ps|
      ensures ReadEntry(records[i]) == Some(entries[i]) && EntryAccepted(ins, tree + extra, req.version, entries[i])
      ensures entries[i].target == TARGETS[i].name
    {
      EntryReads(ins, tree, req, ps, i);
      EntryOk(ins, tree, extra, req.version, ps, i);
    }
    TargetNamesDiffer();
  }

  function HelpersFor(binaries: seq<Found>, scripts: seq<Found>): (r: seq<Helper>)
    requires |binaries| == |CONNECT_TARGETS|
    ensures |r| == |binaries| + |scripts|
    ensures forall i :: 0 <= i < |binaries| ==> r[i] == BinaryFor(CONNECT_TARGETS[i], binaries[i])
    ensures forall i :: 0 <= i < |scripts| ==> r[|binaries| + i] == BootstrapFor(scripts[i])
  {
    seq(|binaries|, i requires 0 <= i < |binaries| => BinaryFor(CONNECT_TARGETS[i], binaries[i])) +
    seq(|scripts|, i requires 0 <= i < |scripts| => BootstrapFor(scripts[i]))
  }

  /** The identity of each of the six helper records, in order. */
  ghost predicate InOrder(helpers: seq<Helper>) {
    && |helpers| == 6
    && (forall i :: 0 <= i < 4 ==> Identity(helpers[i]) == ConnectClass(CONNECT_TARGETS[i]))
    && (forall i :: 4 <= i < 6 ==> Identity(helpers[i]) == CONNECT_BOOTSTRAPS[i - 4])
  }

  lemma ClassesDiffer(s: Target, t: Target)
    requires s in CONNECT_TARGETS && t in CONNECT_TARGETS && s != t
    ensures ConnectClass(s) != ConnectClass(t)
  {
    if ConnectClass(s) == ConnectClass(t) {
      ClassFound(s);
      ClassFound(t);
    }
  }

  lemma OrderedDistinct(helpers: seq<Helper>)
    requires InOrder(helpers)
    ensures DistinctHelpers(helpers)
  {
    assert CONNECT_BOOTSTRAPS[0][16] == 's' && CONNECT_BOOTSTRAPS[1][16] == 'p';
    forall i, j | 0 <= i < j < |helpers| ensures Identity(helpers[i]) != Identity(helpers[j]) {
      if j < 4 {
        ClassesDiffer(CONNECT_TARGETS[i], CONNECT_TARGETS[j]);
      } else if i < 4 {
        assert ConnectClass(CONNECT_TARGETS[i])[0] == 'c' && CONNECT_BOOTSTRAPS[j - 4][0] == 'e';
      }
    }
  }

  lemma OrderedComplete(helpers: seq<Helper>)
    requires InOrder(helpers)
    ensures Identities(helpers) == COMPLETE
  {
    forall id | id in Identities(helpers) ensures id in COMPLETE {
      var i :| 0 <= i < 6 && Identity(helpers[i]) == id;
      if i < 4 { assert CONNECT_TARGETS[i] in CONNECT_TARGETS; } else { assert CONNECT_BOOTSTRAPS[i - 4] in CONNECT_BOOTSTRAPS; }
    }
    forall id | id in COMPLETE ensures id in Identities(helpers) {
      if t :| t in CONNECT_TARGETS && ConnectClass(t) == id {
        var i :| 0 <= i < 4 && CONNECT_TARGETS[i] == t;
        assert helpers[i] in helpers;
      } else {
        var i :| 0 <= i < 2 && CONNECT_BOOTSTRAPS[i] == id;
        assert helpers[4 + i] in helpers && Identity(helpers[4 + i]) == id;
      }
    }
  }

  /** The validator accepts the helper records the producer writes. */
  lemma HelpersAgree(ins: Inspectors, tree: Tree, extra: Tree, version: string, binaries: seq<Found>, scripts: seq<Found>)
    requires BinariesOf(ins, tree, version, CONNECT_TARGETS) == Some(binaries)
    requires BootstrapsOf(ins, tree, CONNECT_BOOTSTRAPS) == Some(scripts)
    requires Avoids(extra, HelperNames(HelpersFor(binaries, scripts)))
    ensures HelpersAccepted(ins, Some(tree + extra), version,
                            BinaryRecords(CONNECT_TARGETS, binaries) + BootstrapRecords(scripts), HelpersFor(binaries, scripts))
  {
    var records, helpers := BinaryRecords(CONNECT_TARGETS, binaries) + BootstrapRecords(scripts), HelpersFor(binaries, scripts);
    forall i | 0 <= i < 6
      ensures ReadHelper(records[i]) == Some(helpers[i]) && HelperAccepted(ins, tree + extra, version, helpers[i])
      ensures Identity(helpers[i]) == if i < 4 then ConnectClass(CONNECT_TARGETS[i]) else CONNECT_BOOTSTRAPS[i - 4]
    {
      HelperOk(ins, tree, extra, version, binaries, scripts, i);
    }
    OrderedDistinct(helpers);
    OrderedComplete(helpers);
  }

  lemma HelperOk(ins: Inspectors, tree: Tree, extra: Tree, version: string, binaries: seq<Found>, scripts: seq<Found>, i: nat)
    requires BinariesOf(ins, tree, version, CONNECT_TARGETS) == Some(binaries)
    requires BootstrapsOf(ins, tree, CONNECT_BOOTSTRAPS) == Some(scripts) && i < 6
    requires Avoids(extra, HelperNames(HelpersFor(binaries, scripts)))
    ensures var records := BinaryRecords(CONNECT_TARGETS, binaries) + BootstrapRecords(scripts);
            var h := HelpersFor(binaries, scripts)[i];
            && ReadHelper(records[i]) == Some(h) && HelperAccepted(ins, tree + extra, version, h)
            && Identity(h) == if i < 4 then ConnectClass(CONNECT_TARGETS[i]) else CONNECT_BOOTSTRAPS[i - 4]
  {
    if i < 4 {
      BinaryOk(ins, tree, extra, version, binaries, scripts, i);
    } else {
      ScriptOk(ins, tree, extra, version, binaries, scripts, i - 4);
    }
  }

  lemma BinaryOk(ins: Inspectors, tree: Tree, extra: Tree, version: string, binaries: seq<Found>, scripts: seq<Found>, i: nat)
    requires BinariesOf(ins, tree, version, CONNECT_TARGETS) == Some(binaries) && i < |binaries|
    requires Avoids(extra, HelperNames(HelpersFor(binaries, scripts)))
    ensures var h := HelpersFor(binaries, scripts)[i];
            && ReadHelper(BinaryRecords(CONNECT_TARGETS, binaries)[i]) == Some(h)
            && HelperAccepted(ins, tree + extra, version, h) && Identity(h) == ConnectClass(CONNECT_TARGETS[i])
  {
    var t, h := CONNECT_TARGETS[i], HelpersFor(binaries, scripts)[i];
    assert ProduceBinary(ins, tree, version, t) == Some(binaries[i]);
    assert h in HelpersFor(binaries, scripts) && h.name in HelperNames(HelpersFor(binaries, scripts));
    HelperRoundTrip(t, binaries[i]);
    BinaryAcceptedAgain(ins, tree, extra, version, t);
  }

  lemma ScriptOk(ins: Inspectors, tree: Tree, extra: Tree, version: string, binaries: seq<Found>, scripts: seq<Found>, i: nat)
    requires |binaries| == |CONNECT_TARGETS| && BootstrapsOf(ins, tree, CONNECT_BOOTSTRAPS) == Some(scripts) && i < |scripts|
    requires Avoids(extra, HelperNames(HelpersFor(binaries, scripts)))
    ensures var h := HelpersFor(binaries, scripts)[4 + i];
            && ReadHelper(BootstrapRecords(scripts)[i]) == Some(h)
            && HelperAccepted(ins, tree + extra, version, h) && Identity(h) == CONNECT_BOOTSTRAPS[i]
  {
    var name, h := CONNECT_BOOTSTRAPS[i], HelpersFor(binaries, scripts)[4 + i];
    assert ProduceBootstrap(ins, tree, name) == Some(scripts[i]);
    assert h in HelpersFor(binaries, scripts) && h.name in HelperNames(HelpersFor(binaries, scripts));
    HelperRoundTrip(LINUX_X86_64, scripts[i]);
    BootstrapAcceptedAgain(ins, tree, extra, version, name);
  }

  // ----- the whole manifest -----

  /** The proxy and helper artifacts a created manifest names. */
  function ProducedEntries(ins: Inspectors, tree: Tree, req: Request): seq<Entry>
    requires ProduceAll(ins, tree, req.version, TARGETS).Some?
  {
    EntriesFor(ins, ProduceAll(ins, tree, req.version, TARGETS).value)
  }

  function ProducedHelpers(ins: Inspectors, connect: Option<Tree>, req: Request): seq<Helper>
    requires HelperRecords(ins, connect, req.version).Some?
  {
    match connect
    case None => []
    case Some(tree) =>
      HelpersFor(BinariesOf(ins, tree, req.version, CONNECT_TARGETS).value, BootstrapsOf(ins, tree, CONNECT_BOOTSTRAPS).value)
  }

  function Extended(connect: Option<Tree>, extra: Tree): Option<Tree> {
    if connect.None? then None else Some(connect.value + extra)
  }

  lemma CreatedHeader(req: Request, proxies: seq<Json>, helpers: seq<Json>)
    requires req.version != "" && IsQualification(Str(req.qualification)) && Catalog.IsCommit(Str(req.commit))
    ensures var m := Object(ManifestFields(req, proxies, helpers));
            && HeaderAccepted(m) && VersionIn(m) == req.version
            && Get(m.fields, "artifacts").items == proxies && HelperSection(m).items == helpers
  {}

  lemma VersionPresent(ins: Inspectors, tree: Tree, req: Request)
    requires Lawful(ins) && ProduceAll(ins, tree, req.version, TARGETS).Some?
    ensures req.version != ""
  {
    assert Produce(ins, tree, req.version, TARGETS[0]).Some?;
  }

  lemma HelperSectionAgrees(ins: Inspectors, connect: Option<Tree>, extra: Tree, req: Request)
    requires HelperRecords(ins, connect, req.version).Some? && Avoids(extra, HelperNames(ProducedHelpers(ins, connect, req)))
    ensures HelpersAccepted(ins, Extended(connect, extra), req.version, HelperRecords(ins, connect, req.version).value,
                            ProducedHelpers(ins, connect, req))
  {
    if connect.Some? {
      HelpersAgree(ins, connect.value, extra, req.version, BinariesOf(ins, connect.value, req.version, CONNECT_TARGETS).value,
                   BootstrapsOf(ins, connect.value, CONNECT_BOOTSTRAPS).value);
    }
  }

  /**
   Producer and validator agree. On the trees a manifest was created from, and whatever files of other names came
   to them since, the validator accepts the manifest exactly if the trees hold only files that it names and files
   with its own name.
   */
  lemma ProducerValidatorAgree(ins: Inspectors, tree: Tree, extra: Tree, connect: Option<Tree>, extraHelpers: Tree,
                               req: Request, manifestName: string)
    requires Lawful(ins) && Created(ins, tree, connect, req).Some?
    requires Avoids(extra, NamesOfEntries(ProducedEntries(ins, tree, req)))
    requires Avoids(extraHelpers, HelperNames(ProducedHelpers(ins, connect, req)))
    ensures var m, helpers := Object(Created(ins, tree, connect, req).value), Extended(connect, extraHelpers);
            var expected := Expected(manifestName, ProducedEntries(ins, tree, req), ProducedHelpers(ins, connect, req));
            (exists es, hs :: ManifestAccepted(ins, tree + extra, helpers, manifestName, m, es, hs)) <==>
              OnlyExpected(tree + extra, expected) && (helpers.Some? ==> OnlyExpected(helpers.value, expected))
  {
    VersionPresent(ins, tree, req);
    var ps := ProduceAll(ins, tree, req.version, TARGETS).value;
    CreatedHeader(req, ProxyRecords(ins, ps, req), HelperRecords(ins, connect, req.version).value);
    ProxiesAgree(ins, tree, extra, req, ps);
    HelperSectionAgrees(ins, connect, extraHelpers, req);
    AcceptedExactly(ins, tree + extra, Extended(connect, extraHelpers), manifestName,
                    Object(Created(ins, tree, connect, req).value),
                    ProducedEntries(ins, tree, req), ProducedHelpers(ins, connect, req));
  }

  /** With accepted records, only the other files decide. */
  lemma AcceptedExactly(ins: Inspectors, tree: Tree, connect: Option<Tree>, manifestName: string, m: Json,
                        entries: seq<Entry>, helpers: seq<Helper>)
    requires HeaderAccepted(m) && ProxiesAccepted(ins, tree, VersionIn(m), Get(m.fields, "artifacts").items, entries)
    requires HelpersAccepted(ins, connect, VersionIn(m), HelperSection(m).items, helpers)
    ensures (exists es, hs :: ManifestAccepted(ins, tree, connect, manifestName, m, es, hs)) <==>
              OnlyExpected(tree, Expected(manifestName, entries, helpers))
              && (connect.Some? ==> OnlyExpected(connect.value, Expected(manifestName, entries, helpers)))
  {
    ReadingsUnique(ins, tree, connect, manifestName, m, entries, helpers);
    if OnlyExpected(tree, Expected(manifestName, entries, helpers))
       && (connect.Some? ==> OnlyExpected(connect.value, Expected(manifestName, entries, helpers))) {
      assert ManifestAccepted(ins, tree, connect, manifestName, m, entries, helpers);
    }
  }
}
