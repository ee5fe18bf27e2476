/** Validation of the release catalog (scripts/check_release_catalog.py). */
module Catalog {
  import opened Expansion
  import opened Json
  import opened Text
  import opened Version

  const QUALIFIED_TARGETS: set<string> := {"linux-x86_64", "linux-aarch64", "macos-arm64"}

  /** How versions are normalised, filled in and ordered. */
  datatype Tools = Tools(rules: Rules, key: string -> Option<Key>)

  const TOOLS := Tools(RULES, raw => VersionKey(raw))

  datatype Refusal =
    | BadHeader | BadAuthority | BadReleases | BadEntry | BadExpansion | Duplicate(version: string)
    | BadOrder | BadEra | BadSource | BadStatus | BadFiles | BadTargets | BadState | BadArtifacts | BadNative | BadText
    | BadInventory | BadRollback | BadGapPolicy

  // ----- version_authority -----

  datatype Phase = Reserved | Candidate | Published

  function ReadPhase(j: Json): Option<Phase> {
    if j == Str("reserved") then Some(Reserved)
    else if j == Str("candidate") then Some(Candidate)
    else if j == Str("published") then Some(Published)
    else None
  }

  datatype Authority = Authority(native: string, nativeKey: Key, historicalKey: Key, phase: Phase, commit: Json)

  predicate IsCommit(j: Json) { j.Str? && |j.s| == 40 && AllHex(j.s) }

  predicate IsDigest(j: Json) { j.Str? && |j.s| == 64 && AllHex(j.s) }

  function VersionField(tools: Tools, fields: Fields, name: string): Option<string> {
    var value := Get(fields, name);
    if NonEmptyString(value) && tools.key(value.s).Some? then tools.rules.normalize(value.s) else None
  }

  /** The version and publication part of the authority checks. */
  function ReadAuthority(tools: Tools, f: Fields): Option<Authority> {
    var native, phase := VersionField(tools, f, "native_release_version"), ReadPhase(Get(f, "publication_status"));
    var historical, cargo := Get(f, "historical_python_project_version"), Get(f, "rust_cargo_version");
    var commit := Get(f, "native_release_source_commit");
    if native.None? || phase.None? || tools.key(native.value).None? then None
    else if VersionField(tools, f, "historical_python_project_version").None? || VersionField(tools, f, "rust_cargo_version").None? then None
    else if phase.value == Reserved && historical != cargo then None
    else if phase.value != Reserved && cargo != Str(native.value) then None
    else if Get(f, "native_release_tag") != Str("v" + native.value) then None
    else if commit != Null && !IsCommit(commit) then None
    else if (phase.value == Published) != (commit != Null) then None
    else Some(Authority(native.value, tools.key(native.value).value, tools.key(historical.s).value, phase.value, commit))
  }

  // ----- one release -----

  /** What every release is checked against. */
  datatype Context = Context(tools: Tools, defaults: Fields, active: bool, authority: Authority)

  function KeyAt(ctx: Context, version: string): Option<Key> { ctx.tools.key(version) }

  predicate OrderAccepted(ctx: Context, e: Fields, version: string) {
    match KeyAt(ctx, version)
    case None => false
    case Some(key) =>
      && !KeyLess(ctx.authority.nativeKey, key)
      && !(key == ctx.authority.nativeKey && ctx.authority.phase != Published
           && Get(e, "public_release_status") == Str("published"))
  }

  predicate EraAccepted(ctx: Context, e: Fields, version: string) {
    match KeyAt(ctx, version)
    case None => false
    case Some(key) =>
      Get(e, "implementation_era") == Str(if KeyAtMost(key, ctx.authority.historicalKey) then "python" else "rust")
  }

  predicate SourceAccepted(e: Fields, version: string) {
    Get(e, "source_tag") == Str("v" + version) && IsCommit(Get(e, "source_commit"))
  }

  predicate StatusAccepted(e: Fields) {
    var status := Get(e, "public_release_status");
    (status == Str("published") || status == Str("yanked") || status == Str("unavailable")) && Get(e, "pypi_presence").Bool?
  }

  predicate FileAccepted(version: string, file: Json) {
    && file.Object? && NonEmptyString(Get(file.fields, "filename"))
    && StartsWith(Get(file.fields, "filename").s, "eggpool-" + version) && IsDigest(Get(file.fields, "sha256"))
  }

  function FileName(file: Json): string
    requires file.Object? && NonEmptyString(Get(file.fields, "filename"))
  {
    Get(file.fields, "filename").s
  }

  /** Every file is named after the version, has a digest, and no name comes twice. */
  ghost predicate FilesAccepted(version: string, files: seq<Json>) {
    && (forall i :: 0 <= i < |files| ==> FileAccepted(version, files[i]))
    && (forall i, j :: 0 <= i < j < |files| ==> FileName(files[i]) != FileName(files[j]))
  }

  ghost predicate PypiAccepted(e: Fields, version: string) {
    var files := Get(e, "pypi_files");
    && (Get(e, "pypi_presence") == Bool(true) ==> files.List? && files.items != [])
    && (files != Null ==> files.List? && FilesAccepted(version, files.items))
  }

  predicate TargetsAccepted(e: Fields) {
    var supported := Get(e, "supported_target_classes");
    supported.List? && forall i :: 0 <= i < |supported.items| ==>
      supported.items[i].Str? && supported.items[i].s in QUALIFIED_TARGETS
  }

  predicate StateAccepted(e: Fields, version: string) {
    && Get(e, "expected_version") == Str(version)
    && Get(e, "yanked").Bool? && Get(e, "unavailable").Bool?
    && (Get(e, "public_release_status") == Str("published") ==>
          Get(e, "yanked") == Bool(false) && Get(e, "unavailable") == Bool(false))
  }

  predicate ArtifactsAccepted(ctx: Context, e: Fields) {
    ctx.active && Get(e, "implementation_era") == Str("rust") ==>
      Get(e, "supported_wheels").Object? && Get(e, "supported_wheels").fields.Keys == QUALIFIED_TARGETS
  }

  predicate NativeAccepted(ctx: Context, e: Fields, version: string) {
    ctx.authority.phase == Published && version == ctx.authority.native ==>
      Get(e, "implementation_era") == Str("rust") && Get(e, "source_commit") == ctx.authority.commit
  }

  predicate TextAccepted(e: Fields) {
    NonEmptyString(Get(e, "db_config_compatibility")) && NonEmptyString(Get(e, "rollback_suitability"))
  }

  /** The checks on one expanded release, apart from its being new. */
  ghost predicate EntryAccepted(ctx: Context, e: Fields, version: string) {
    && OrderAccepted(ctx, e, version) && EraAccepted(ctx, e, version) && SourceAccepted(e, version)
    && StatusAccepted(e) && PypiAccepted(e, version) && TargetsAccepted(e) && StateAccepted(e, version)
    && ArtifactsAccepted(ctx, e) && NativeAccepted(ctx, e, version) && TextAccepted(e)
  }

  /** The loop over `pypi_files`. */
  method CheckFiles(version: string, files: seq<Json>) returns (ok: bool)
    ensures ok <==> FilesAccepted(version, files)
  {
    var filenames: set<string> := {};
    var k := 0;
    while k < |files|
      invariant k <= |files|
      invariant forall i :: 0 <= i < k ==> FileAccepted(version, files[i]) && FileName(files[i]) in filenames
      invariant forall i, j :: 0 <= i < j < k ==> FileName(files[i]) != FileName(files[j])
      invariant forall n :: n in filenames ==> exists i :: 0 <= i < k && FileName(files[i]) == n
    {
      if !FileAccepted(version, files[k]) { return false; }
      var filename := FileName(files[k]);
      if filename in filenames { return false; }
      filenames := filenames + {filename};
      k := k + 1;
    }
    return true;
  }

  /** The checks of the loop body on one expanded release. */
  method CheckEntry(ctx: Context, e: Fields, version: string) returns (refusal: Option<Refusal>)
    ensures refusal.None? <==> EntryAccepted(ctx, e, version)
  {
    if !OrderAccepted(ctx, e, version) { return Some(BadOrder); }
    if !EraAccepted(ctx, e, version) { return Some(BadEra); }
    if !SourceAccepted(e, version) { return Some(BadSource); }
    if !StatusAccepted(e) { return Some(BadStatus); }
    var files := Get(e, "pypi_files");
    if Get(e, "pypi_presence") == Bool(true) && (!files.List? || files.items == []) { return Some(BadFiles); }
    if files != Null {
      if !files.List? { return Some(BadFiles); }
      var ok := CheckFiles(version, files.items);
      if !ok { return Some(BadFiles); }
    }
    if !TargetsAccepted(e) { return Some(BadTargets); }
    if !StateAccepted(e, version) { return Some(BadState); }
    if !ArtifactsAccepted(ctx, e) { return Some(BadArtifacts); }
    if !NativeAccepted(ctx, e, version) { return Some(BadNative); }
    if !TextAccepted(e) { return Some(BadText); }
    return None;
  }

  // ----- the releases -----

  /** The entry of the `i`th release after expansion. */
  function EntryOf(ctx: Context, release: Json): Option<Fields> {
    if !release.Object? then None
    else match Expanded(ctx.tools.rules, ctx.defaults, release.fields)
      case Err(_) => None
      case Ok(e) => if Get(e, "version").Str? then Some(e) else None
  }

  ghost predicate ReleaseAccepted(ctx: Context, release: Json) {
    EntryOf(ctx, release).Some? && EntryAccepted(ctx, EntryOf(ctx, release).value, VersionOf(ctx, release))
  }

  function VersionOf(ctx: Context, release: Json): string
    requires EntryOf(ctx, release).Some?
  {
    Get(EntryOf(ctx, release).value, "version").s
  }

  ghost predicate Distinct(names: seq<string>) {
    forall i, j :: 0 <= i < j < |names| ==> names[i] != names[j]
  }

  /** `versions` are the versions of the first releases, all of them accepted. */
  ghost predicate VersionsOf(ctx: Context, releases: seq<Json>, versions: seq<string>) {
    && |versions| <= |releases|
    && forall i :: 0 <= i < |versions| ==>
         ReleaseAccepted(ctx, releases[i]) && versions[i] == VersionOf(ctx, releases[i])
  }

  /** Every release is accepted, and no two have the same version. */
  ghost predicate ReleasesAccepted(ctx: Context, releases: seq<Json>, versions: seq<string>) {
    releases != [] && |versions| == |releases| && VersionsOf(ctx, releases, versions) && Distinct(versions)
  }

  ghost predicate IsSetOf(seen: set<string>, names: seq<string>) {
    |seen| == |names| && forall n :: n in seen <==> n in names
  }

  /** The loop over the releases. */
  method CheckReleases(ctx: Context, releases: seq<Json>)
    returns (r: Result<set<string>, Refusal>, ghost versions: seq<string>)
    ensures r.Ok? ==> ReleasesAccepted(ctx, releases, versions) && IsSetOf(r.value, versions)
    ensures r.Err? ==> forall all :: !ReleasesAccepted(ctx, releases, all)
  {
    versions := [];
    if releases == [] { return Err(BadReleases), versions; }
    var seen: set<string> := {};
    var k := 0;
    while k < |releases|
      invariant k == |versions| && VersionsOf(ctx, releases, versions) && Distinct(versions) && IsSetOf(seen, versions)
    {
      if EntryOf(ctx, releases[k]).None? {
        Refused(ctx, releases, k);
        return Err(BadExpansion), versions;
      }
      var version := VersionOf(ctx, releases[k]);
      if version in seen {
        SeenTwice(ctx, releases, versions);
        return Err(Duplicate(version)), versions;
      }
      var refusal := CheckEntry(ctx, EntryOf(ctx, releases[k]).value, version);
      if refusal.Some? {
        Refused(ctx, releases, k);
        return Err(refusal.value), versions;
      }
      DistinctPush(versions, version, seen);
      VersionsPush(ctx, releases, versions);
      seen := seen + {version};
      versions := versions + [version];
      k := k + 1;
    }
    r := Ok(seen);
  }

  lemma Refused(ctx: Context, releases: seq<Json>, k: nat)
    requires k < |releases| && !ReleaseAccepted(ctx, releases[k])
    ensures forall all :: !ReleasesAccepted(ctx, releases, all)
  {}

  lemma SeenTwice(ctx: Context, releases: seq<Json>, versions: seq<string>)
    requires |versions| < |releases| && VersionsOf(ctx, releases, versions) && EntryOf(ctx, releases[|versions|]).Some?
    requires VersionOf(ctx, releases[|versions|]) in versions
    ensures forall all :: !ReleasesAccepted(ctx, releases, all)
  {
    var k := |versions|;
    var i :| 0 <= i < k && versions[i] == VersionOf(ctx, releases[k]);
    forall all ensures !ReleasesAccepted(ctx, releases, all) { TwiceRefuted(ctx, releases, all, i, k); }
  }

  lemma TwiceRefuted(ctx: Context, releases: seq<Json>, all: seq<string>, i: nat, k: nat)
    requires i < k < |releases| && EntryOf(ctx, releases[i]).Some? && EntryOf(ctx, releases[k]).Some?
    requires VersionOf(ctx, releases[i]) == VersionOf(ctx, releases[k])
    ensures !ReleasesAccepted(ctx, releases, all)
  {}

  lemma DistinctPush(names: seq<string>, name: string, seen: set<string>)
    requires Distinct(names) && IsSetOf(seen, names) && name !in seen
    ensures Distinct(names + [name]) && IsSetOf(seen + {name}, names + [name])
  {}

  lemma VersionsPush(ctx: Context, releases: seq<Json>, versions: seq<string>)
    requires |versions| < |releases| && VersionsOf(ctx, releases, versions) && ReleaseAccepted(ctx, releases[|versions|])
    ensures VersionsOf(ctx, releases, versions + [VersionOf(ctx, releases[|versions|])])
  {}

  // ----- inventory and rollback window -----

  predicate LatestAccepted(ctx: Context, latest: Key) {
    if ctx.authority.phase == Published then latest == ctx.authority.nativeKey else KeyLess(latest, ctx.authority.nativeKey)
  }

  /** The counts are the number of releases, and the latest version stands right to the native release. */
  predicate InventoryAccepted(ctx: Context, inventory: Fields, count: nat) {
    && Get(inventory, "github_stable_release_count") == Int(count)
    && Get(inventory, "pypi_stable_release_count") == Int(count)
    && Get(inventory, "missing_pypi_versions") == List([])
    && NonEmptyString(Get(inventory, "latest_stable_version"))
    && var latest := ctx.tools.key(Get(inventory, "latest_stable_version").s);
       latest.Some? && LatestAccepted(ctx, latest.value)
  }

  function RollbackVersion(ctx: Context, j: Json): Option<string> {
    if NonEmptyString(j) then ctx.tools.rules.normalize(j.s) else None
  }

  /** Every listed version is one of the releases. */
  ghost predicate RollbackAccepted(ctx: Context, listed: seq<Json>, versions: seq<string>) {
    listed != [] && forall i :: 0 <= i < |listed| ==>
      RollbackVersion(ctx, listed[i]).Some? && RollbackVersion(ctx, listed[i]).value in versions
  }

  method CheckRollback(ctx: Context, listed: seq<Json>, seen: set<string>, ghost versions: seq<string>) returns (ok: bool)
    requires IsSetOf(seen, versions)
    ensures ok <==> RollbackAccepted(ctx, listed, versions)
  {
    if listed == [] { return false; }
    var k := 0;
    while k < |listed|
      invariant k <= |listed|
      invariant forall i :: 0 <= i < k ==> RollbackVersion(ctx, listed[i]).Some? && RollbackVersion(ctx, listed[i]).value in versions
    {
      var version := RollbackVersion(ctx, listed[k]);
      if version.None? || version.value !in seen { return false; }
      k := k + 1;
    }
    return true;
  }

  predicate GapPolicyAccepted(policy: Json) {
    && policy.Object? && Get(policy.fields, "historical_files_are_immutable") == Bool(true)
    && NonEmptyString(Get(policy.fields, "historical_file_mutation_policy"))
  }

  // ----- the catalog -----

  datatype Summary = Summary(native: string, releaseCount: nat, rollbackCount: nat)

  /** The parts of a catalog that its releases are checked against. */
  function ContextOf(tools: Tools, catalog: Fields): Option<Context> {
    var stage, defaults, authority := Get(catalog, "artifact_stage"), Get(catalog, "release_defaults"), Get(catalog, "version_authority");
    if Get(catalog, "catalog_version") != Str("release-catalog.v1") || Get(catalog, "package_name") != Str("eggpool") then None
    else if stage != Str("active") && stage != Str("not-active") then None
    else if !defaults.Object? || !authority.Object? then None
    else match ReadAuthority(tools, authority.fields)
      case None => None
      case Some(a) => Some(Context(tools, defaults.fields, stage == Str("active"), a))
  }

  function ItemsOf(j: Json): Option<seq<Json>> { if j.List? then Some(j.items) else None }

  function RollbackOf(catalog: Fields): Option<seq<Json>> {
    var window := Get(catalog, "rollback_window");
    if window.Object? then ItemsOf(Get(window.fields, "compatible_versions")) else None
  }

  /** What an accepted catalog holds; `versions` are the normalised versions of its releases, in order. */
  ghost predicate CatalogAccepted(tools: Tools, catalog: Fields, versions: seq<string>) {
    && ContextOf(tools, catalog).Some?
    && var ctx := ContextOf(tools, catalog).value;
       var releases, listed := ItemsOf(Get(catalog, "releases")), RollbackOf(catalog);
       && releases.Some? && ReleasesAccepted(ctx, releases.value, versions)
       && Get(catalog, "official_inventory").Object?
       && InventoryAccepted(ctx, Get(catalog, "official_inventory").fields, |versions|)
       && listed.Some? && RollbackAccepted(ctx, listed.value, versions)
       && GapPolicyAccepted(Get(catalog, "historical_gap_policy"))
  }

  /** `validate_catalog`, after the walk for secrets and the target matrix. */
  method ValidateCatalog(tools: Tools, catalog: Fields) returns (r: Result<Summary, Refusal>, ghost versions: seq<string>)
    ensures r.Ok? ==> CatalogAccepted(tools, catalog, versions)
    ensures r.Ok? ==> r.value.releaseCount == |versions| && r.value.native == ContextOf(tools, catalog).value.authority.native
    ensures r.Ok? ==> r.value.rollbackCount == |RollbackOf(catalog).value|
    ensures r.Err? ==> forall all :: !CatalogAccepted(tools, catalog, all)
  {
    versions := [];
    var context, releases, listed := ContextOf(tools, catalog), ItemsOf(Get(catalog, "releases")), RollbackOf(catalog);
    if context.None? { return Err(BadHeader), versions; }
    if releases.None? { return Err(BadReleases), versions; }
    var ctx, seen := context.value, Err(BadReleases);
    seen, versions := CheckReleases(ctx, releases.value);
    if seen.Err? { return Err(seen.error), versions; }
    VersionsUnique(ctx, releases.value, versions);
    var inventory := Get(catalog, "official_inventory");
    if !inventory.Object? || !InventoryAccepted(ctx, inventory.fields, |releases.value|) { return Err(BadInventory), versions; }
    if listed.None? { return Err(BadRollback), versions; }
    var ok := CheckRollback(ctx, listed.value, seen.value, versions);
    if !ok { return Err(BadRollback), versions; }
    if !GapPolicyAccepted(Get(catalog, "historical_gap_policy")) { return Err(BadGapPolicy), versions; }
    r := Ok(Summary(ctx.authority.native, |releases.value|, |listed.value|));
  }

  lemma VersionsUnique(ctx: Context, releases: seq<Json>, versions: seq<string>)
    requires ReleasesAccepted(ctx, releases, versions)
    ensures forall all :: ReleasesAccepted(ctx, releases, all) ==> all == versions
  {
    forall all | ReleasesAccepted(ctx, releases, all) ensures all == versions {
      assert forall i :: 0 <= i < |all| ==> all[i] == versions[i];
    }
  }

  // ----- what acceptance implies -----

  function EraOf(ctx: Context, release: Json): Json
    requires EntryOf(ctx, release).Some?
  {
    Get(EntryOf(ctx, release).value, "implementation_era")
  }

  lemma EraDecidedByKey(ctx: Context, release: Json)
    requires ReleaseAccepted(ctx, release)
    ensures var key := KeyAt(ctx, VersionOf(ctx, release));
            && key.Some? && !KeyLess(ctx.authority.nativeKey, key.value)
            && (EraOf(ctx, release) == Str("python") <==> KeyAtMost(key.value, ctx.authority.historicalKey))
            && (EraOf(ctx, release) == Str("rust") <==> !KeyAtMost(key.value, ctx.authority.historicalKey))
  {
    assert "python"[0] == 'p' && "rust"[0] == 'r';
  }

  /**
   In an accepted catalog every Python release is strictly older than every Rust release, none is newer than the
   native release, and until the native release is published no entry at its key is marked published.
   */
  lemma CatalogOrder(tools: Tools, catalog: Fields, versions: seq<string>, i: nat, j: nat)
    requires CatalogAccepted(tools, catalog, versions) && i < |versions| && j < |versions|
    ensures var ctx, releases := ContextOf(tools, catalog).value, Get(catalog, "releases").items;
            && tools.key(versions[i]).Some? && tools.key(versions[j]).Some?
            && (EraOf(ctx, releases[i]) == Str("python") && EraOf(ctx, releases[j]) == Str("rust") ==>
                  KeyLess(tools.key(versions[i]).value, tools.key(versions[j]).value))
            && KeyAtMost(tools.key(versions[i]).value, ctx.authority.nativeKey)
            && (ctx.authority.phase != Published && tools.key(versions[i]).value == ctx.authority.nativeKey ==>
                  Get(EntryOf(ctx, releases[i]).value, "public_release_status") != Str("published"))
  {
    var ctx, releases := ContextOf(tools, catalog).value, Get(catalog, "releases").items;
    EraDecidedByKey(ctx, releases[i]);
    EraDecidedByKey(ctx, releases[j]);
    var x, y := tools.key(versions[i]).value, tools.key(versions[j]).value;
    KeyOrder(x, ctx.authority.historicalKey, y);
    KeyOrder(ctx.authority.historicalKey, y, x);
    KeyOrder(x, ctx.authority.nativeKey, y);
  }

  ghost predicate DistinctKeys(versions: seq<string>) {
    forall i, j :: 0 <= i < j < |versions| ==> VersionKey(versions[i]) != VersionKey(versions[j])
  }

  ghost predicate DistinctForms(versions: seq<string>) {
    forall i, j :: 0 <= i < j < |versions| ==> CanonOf(versions[i]) != CanonOf(versions[j])
  }

  /**
   The versions of an accepted catalog are different spellings; their keys are different if and only if their canonical
   forms are.
   */
  lemma CatalogKeys(catalog: Fields, versions: seq<string>)
    requires CatalogAccepted(TOOLS, catalog, versions)
    ensures DistinctKeys(versions) <==> DistinctForms(versions)
  {
    var ctx, releases := ContextOf(TOOLS, catalog).value, Get(catalog, "releases").items;
    forall i, j | 0 <= i < j < |versions|
      ensures VersionKey(versions[i]) == VersionKey(versions[j]) <==> CanonOf(versions[i]) == CanonOf(versions[j])
    {
      EraDecidedByKey(ctx, releases[i]);
      EraDecidedByKey(ctx, releases[j]);
      KeyDecidesSpelling(versions[i], versions[j]);
    }
  }

  lemma {:induction false} SetOfDistinct(names: seq<string>)
    requires Distinct(names)
    ensures |set n | n in names| == |names|
  {
    if names != [] {
      var init, last := names[..|names| - 1], names[|names| - 1];
      SetOfDistinct(init);
      assert names == init + [last] && last !in init;
      assert (set n | n in names) == (set n | n in init) + {last};
    }
  }

  /** The recorded counts are the number of different versions, and the rollback window holds only such versions. */
  lemma CatalogCounts(tools: Tools, catalog: Fields, versions: seq<string>)
    requires CatalogAccepted(tools, catalog, versions)
    ensures var inventory := Get(catalog, "official_inventory").fields;
            Get(inventory, "github_stable_release_count") == Get(inventory, "pypi_stable_release_count")
            == Int(|set v | v in versions|)
    ensures forall k :: 0 <= k < |RollbackOf(catalog).value| ==>
              RollbackVersion(ContextOf(tools, catalog).value, RollbackOf(catalog).value[k]).Some? &&
              RollbackVersion(ContextOf(tools, catalog).value, RollbackOf(catalog).value[k]).value in versions
  {
    SetOfDistinct(versions);
  }
}
