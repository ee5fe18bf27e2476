/** A catalog that lists one version under two spellings is accepted (scripts/check_release_catalog.py). */
module TwinCatalog {
  import opened Catalog
  import opened Expansion
  import opened Json
  import opened Text
  import opened Version

  // ----- one release -----

  /** A version that normalisation and filling leave alone, and its key. */
  ghost predicate Reads(tools: Tools, v: string, key: Key) {
    && v != "" && tools.rules.normalize(v) == Some(v) && tools.key(v) == Some(key)
    && tools.rules.fill(v, v) == v && tools.rules.fill("eggpool", v) == "eggpool"
  }

  /** What both releases share. */
  function Defaults(commit: Json): Fields {
    map[
      "package_manager_requirement" := Str("eggpool"),
      "implementation_era" := Str("python"),
      "source_commit" := commit,
      "public_release_status" := Str("published"),
      "pypi_presence" := Bool(false),
      "supported_target_classes" := List([]),
      "yanked" := Bool(false),
      "unavailable" := Bool(false),
      "db_config_compatibility" := Str("unchanged"),
      "rollback_suitability" := Str("suitable")]
  }

  function Release(v: string): Fields { map["version" := Str(v), "source_tag" := Str("v" + v)] }

  function EntryFor(commit: Json, v: string): Fields { With(Defaults(commit) + Release(v), Texts(v, v, "eggpool")) }

  ghost predicate HasSource(e: Fields, commit: Json, v: string) {
    && Get(e, "version") == Str(v) && Get(e, "expected_version") == Str(v) && Get(e, "source_tag") == Str("v" + v)
    && Get(e, "implementation_era") == Str("python") && Get(e, "source_commit") == commit
    && Get(e, "public_release_status") == Str("published") && Get(e, "pypi_presence") == Bool(false)
  }

  ghost predicate HasState(e: Fields) {
    && Get(e, "pypi_files") == Null && Get(e, "supported_target_classes") == List([])
    && Get(e, "yanked") == Bool(false) && Get(e, "unavailable") == Bool(false)
    && Get(e, "db_config_compatibility") == Str("unchanged") && Get(e, "rollback_suitability") == Str("suitable")
  }

  lemma SourceFields(commit: Json, v: string)
    ensures HasSource(EntryFor(commit, v), commit, v)
  {}

  lemma StateFields(commit: Json, v: string)
    ensures HasState(EntryFor(commit, v))
  {}

  ghost predicate IsMerged(merged: Fields, v: string) {
    && Get(merged, "version") == Str(v) && "expected_version" !in merged
    && Get(merged, "package_manager_requirement") == Str("eggpool")
  }

  lemma MergedFields(commit: Json, v: string)
    ensures IsMerged(Defaults(commit) + Release(v), v)
  {}

  lemma ReleaseExpands(tools: Tools, defaults: Fields, release: Fields, v: string, key: Key)
    requires Reads(tools, v, key) && IsMerged(defaults + release, v)
    ensures Expanded(tools.rules, defaults, release) == Ok(With(defaults + release, Texts(v, v, "eggpool")))
  {}

  /** Before a native version above the historical one is published. */
  function ContextFor(tools: Tools, defaults: Fields, n: string, native: Key, historical: Key): Context {
    Context(tools, defaults, false, Authority(n, native, historical, Reserved, Null))
  }

  lemma EntryIsAccepted(tools: Tools, defaults: Fields, e: Fields, commit: Json, v: string, n: string, native: Key, key: Key)
    requires HasSource(e, commit, v) && HasState(e) && IsCommit(commit) && Reads(tools, v, key) && KeyLess(key, native)
    ensures EntryAccepted(ContextFor(tools, defaults, n, native, key), e, v)
  {
    KeyOrder(key, native, key);
  }

  /** The release of a context whose entry is this one. */
  ghost predicate Lists(ctx: Context, release: Json, v: string) {
    ReleaseAccepted(ctx, release) && VersionOf(ctx, release) == v
  }

  lemma EntryLists(ctx: Context, release: Json, e: Fields, commit: Json, v: string)
    requires EntryOf(ctx, release) == Some(e) && HasSource(e, commit, v) && EntryAccepted(ctx, e, v)
    ensures Lists(ctx, release, v)
  {}

  lemma ExpandedEntry(ctx: Context, release: Fields, e: Fields, commit: Json, v: string)
    requires Expanded(ctx.tools.rules, ctx.defaults, release) == Ok(e) && HasSource(e, commit, v)
    ensures EntryOf(ctx, Object(release)) == Some(e)
  {}

  lemma ReleaseIsAccepted(tools: Tools, commit: Json, v: string, n: string, native: Key, key: Key)
    requires IsCommit(commit) && Reads(tools, v, key) && KeyLess(key, native)
    ensures Lists(ContextFor(tools, Defaults(commit), n, native, key), Object(Release(v)), v)
  {
    var ctx, e := ContextFor(tools, Defaults(commit), n, native, key), EntryFor(commit, v);
    MergedFields(commit, v);
    ReleaseExpands(tools, Defaults(commit), Release(v), v, key);
    SourceFields(commit, v);
    StateFields(commit, v);
    ExpandedEntry(ctx, Release(v), e, commit, v);
    EntryIsAccepted(tools, Defaults(commit), e, commit, v, n, native, key);
    EntryLists(ctx, Object(Release(v)), e, commit, v);
  }

  lemma PairIsAccepted(ctx: Context, first: Json, second: Json, a: string, b: string)
    requires Lists(ctx, first, a) && Lists(ctx, second, b) && a != b
    ensures ReleasesAccepted(ctx, [first, second], [a, b])
  {}

  // ----- the catalog -----

  function AuthorityFor(a: string, n: string): Fields {
    map[
      "native_release_version" := Str(n),
      "publication_status" := Str("reserved"),
      "historical_python_project_version" := Str(a),
      "rust_cargo_version" := Str(a),
      "native_release_tag" := Str("v" + n),
      "native_release_source_commit" := Null]
  }

  ghost predicate IsAuthority(f: Fields, a: string, n: string) {
    && Get(f, "native_release_version") == Str(n) && Get(f, "publication_status") == Str("reserved")
    && Get(f, "historical_python_project_version") == Str(a) && Get(f, "rust_cargo_version") == Str(a)
    && Get(f, "native_release_tag") == Str("v" + n) && Get(f, "native_release_source_commit") == Null
  }

  lemma AuthorityFields(a: string, n: string)
    ensures IsAuthority(AuthorityFor(a, n), a, n)
  {}

  lemma AuthorityRead(tools: Tools, f: Fields, a: string, n: string, native: Key, key: Key)
    requires IsAuthority(f, a, n) && Reads(tools, a, key) && Reads(tools, n, native)
    ensures ReadAuthority(tools, f) == Some(Authority(n, native, key, Reserved, Null))
  {}

  function InventoryFor(a: string): Fields {
    map[
      "github_stable_release_count" := Int(2),
      "pypi_stable_release_count" := Int(2),
      "missing_pypi_versions" := List([]),
      "latest_stable_version" := Str(a)]
  }

  lemma InventoryIsAccepted(tools: Tools, defaults: Fields, a: string, n: string, native: Key, key: Key)
    requires Reads(tools, a, key) && KeyLess(key, native)
    ensures InventoryAccepted(ContextFor(tools, defaults, n, native, key), InventoryFor(a), 2)
  {}

  lemma RollbackIsAccepted(tools: Tools, defaults: Fields, a: string, b: string, n: string, native: Key, key: Key)
    requires Reads(tools, a, key)
    ensures RollbackAccepted(ContextFor(tools, defaults, n, native, key), [Str(a)], [a, b])
  {
    assert [a, b][0] == a;
  }

  function PolicyFor(): Json {
    Object(map["historical_files_are_immutable" := Bool(true), "historical_file_mutation_policy" := Str("never")])
  }

  lemma PolicyIsAccepted()
    ensures GapPolicyAccepted(PolicyFor())
  {}

  function CatalogFor(defaults: Fields, authority: Fields, releases: seq<Json>, inventory: Fields, listed: seq<Json>,
                      policy: Json): Fields
  {
    map[
      "catalog_version" := Str("release-catalog.v1"),
      "package_name" := Str("eggpool"),
      "artifact_stage" := Str("not-active"),
      "release_defaults" := Object(defaults),
      "version_authority" := Object(authority),
      "releases" := List(releases),
      "official_inventory" := Object(inventory),
      "rollback_window" := Object(map["compatible_versions" := List(listed)]),
      "historical_gap_policy" := policy]
  }

  ghost predicate HasHeader(c: Fields, defaults: Fields, authority: Fields) {
    && Get(c, "catalog_version") == Str("release-catalog.v1") && Get(c, "package_name") == Str("eggpool")
    && Get(c, "artifact_stage") == Str("not-active") && Get(c, "release_defaults") == Object(defaults)
    && Get(c, "version_authority") == Object(authority)
  }

  ghost predicate HasBody(c: Fields, releases: seq<Json>, inventory: Fields, listed: seq<Json>, policy: Json) {
    && Get(c, "releases") == List(releases) && Get(c, "official_inventory") == Object(inventory)
    && RollbackOf(c) == Some(listed) && Get(c, "historical_gap_policy") == policy
  }

  lemma HeaderFields(defaults: Fields, authority: Fields, releases: seq<Json>, inventory: Fields, listed: seq<Json>, policy: Json)
    ensures HasHeader(CatalogFor(defaults, authority, releases, inventory, listed, policy), defaults, authority)
  {}

  lemma BodyFields(defaults: Fields, authority: Fields, releases: seq<Json>, inventory: Fields, listed: seq<Json>, policy: Json)
    ensures HasBody(CatalogFor(defaults, authority, releases, inventory, listed, policy), releases, inventory, listed, policy)
  {}

  lemma ContextRead(tools: Tools, c: Fields, defaults: Fields, authority: Fields, n: string, native: Key, key: Key)
    requires HasHeader(c, defaults, authority) && ReadAuthority(tools, authority) == Some(Authority(n, native, key, Reserved, Null))
    ensures ContextOf(tools, c) == Some(ContextFor(tools, defaults, n, native, key))
  {
    assert |"active"| != |"not-active"|;
  }

  lemma PartsAccepted(tools: Tools, c: Fields, ctx: Context, releases: seq<Json>, inventory: Fields, listed: seq<Json>,
                      policy: Json, versions: seq<string>)
    requires ContextOf(tools, c) == Some(ctx) && HasBody(c, releases, inventory, listed, policy)
    requires ReleasesAccepted(ctx, releases, versions) && InventoryAccepted(ctx, inventory, |versions|)
    requires RollbackAccepted(ctx, listed, versions) && GapPolicyAccepted(policy)
    ensures CatalogAccepted(tools, c, versions)
  {}

  /** The releases `a` and `b`, before the native version `n`. */
  function TwinsOf(commit: Json, a: string, b: string, n: string): Fields {
    CatalogFor(Defaults(commit), AuthorityFor(a, n), [Object(Release(a)), Object(Release(b))], InventoryFor(a), [Str(a)], PolicyFor())
  }

  lemma TwinsRead(tools: Tools, commit: Json, a: string, b: string, n: string, native: Key, key: Key)
    requires IsCommit(commit) && a != b && Reads(tools, a, key) && Reads(tools, b, key) && Reads(tools, n, native)
    requires KeyLess(key, native)
    ensures CatalogAccepted(tools, TwinsOf(commit, a, b, n), [a, b])
  {
    var defaults, authority, inventory, policy := Defaults(commit), AuthorityFor(a, n), InventoryFor(a), PolicyFor();
    var releases, listed := [Object(Release(a)), Object(Release(b))], [Str(a)];
    var ctx, c := ContextFor(tools, defaults, n, native, key), TwinsOf(commit, a, b, n);
    AuthorityFields(a, n);
    AuthorityRead(tools, authority, a, n, native, key);
    HeaderFields(defaults, authority, releases, inventory, listed, policy);
    BodyFields(defaults, authority, releases, inventory, listed, policy);
    ContextRead(tools, c, defaults, authority, n, native, key);
    ReleaseIsAccepted(tools, commit, a, n, native, key);
    ReleaseIsAccepted(tools, commit, b, n, native, key);
    PairIsAccepted(ctx, releases[0], releases[1], a, b);
    InventoryIsAccepted(tools, defaults, a, n, native, key);
    RollbackIsAccepted(tools, defaults, a, b, n, native, key);
    PolicyIsAccepted();
    PartsAccepted(tools, c, ctx, releases, inventory, listed, policy, [a, b]);
  }

  lemma {:induction false} VersionReads(v: string)
    requires Parse(v).Some?
    ensures VersionKey(v).Some? && Reads(TOOLS, v, VersionKey(v).value)
  {
    NormalizeOfVersion(v);
    VersionChars(v);
    FillVersion(v, v);
    forall i ensures !OccursAt("eggpool", PLACEHOLDER, i) { OccurrenceChar("eggpool", PLACEHOLDER, i, 0); }
    ReplaceNothing("eggpool", PLACEHOLDER, v);
  }

  /** Whenever two different spellings have one canonical form, a catalog that lists both is accepted. */
  lemma TwinsAccepted(commit: Json, a: string, b: string, n: string)
    requires IsCommit(commit) && Parse(a).Some? && Parse(b).Some? && Parse(n).Some? && a != b && CanonOf(a) == CanonOf(b)
    requires VersionKey(a).Some? && VersionKey(n).Some? && KeyLess(VersionKey(a).value, VersionKey(n).value)
    ensures CatalogAccepted(TOOLS, TwinsOf(commit, a, b, n), [a, b]) && VersionKey(a) == VersionKey(b)
  {
    VersionReads(a);
    VersionReads(b);
    VersionReads(n);
    KeyDecidesSpelling(a, b);
    TwinsRead(TOOLS, commit, a, b, n, VersionKey(n).value, VersionKey(a).value);
  }

  lemma RenderedKey(v: Version)
    requires WellFormed(v)
    ensures Parse(Render(v)) == Some(v) && VersionKey(Render(v)) == Some(KeyOf(v)) && CanonOf(Render(v)) == Some(Canon(v))
  {
    ParseExact(Render(v), v);
    NormalizeOfVersion(Render(v));
  }

  /** Every version that is not written canonically can be listed beside its canonical spelling. */
  lemma SpeltTwice(commit: Json, v: Version, n: Version)
    requires IsCommit(commit) && WellFormed(v) && !Canonical(v) && WellFormed(n) && KeyLess(KeyOf(v), KeyOf(n))
    ensures var a, b := Render(v), Render(Canon(v));
            a != b && CatalogAccepted(TOOLS, TwinsOf(commit, a, b, Render(n)), [a, b]) && VersionKey(a) == VersionKey(b)
  {
    OtherSpelling(v);
    CanonKeepsKey(v);
    CanonOfCanonical(Canon(v));
    RenderedKey(v);
    RenderedKey(Canon(v));
    RenderedKey(n);
    TwinsAccepted(commit, Render(v), Render(Canon(v)), Render(n));
  }

  /** `1.0.0rc0` beside `1.0.0rc`, before `1.0.0`. */
  lemma SameKeyTwice(commit: Json)
    requires IsCommit(commit)
    ensures CatalogAccepted(TOOLS, TwinsOf(commit, "1.0.0rc0", "1.0.0rc", "1.0.0"), ["1.0.0rc0", "1.0.0rc"])
    ensures VersionKey("1.0.0rc0") == VersionKey("1.0.0rc")
  {
    var v, n := Version("1", "0", "0", "rc", "0"), Version("1", "0", "0", "", "");
    assert "0"[..0] == "" && "0"[1..] == "";
    assert StripZeros("0") == "" && StripZeros("1") == "1";
    assert Canon(v) == Version("1", "0", "0", "rc", "");
    assert Render(v) == "1.0.0rc0" && Render(Canon(v)) == "1.0.0rc" && Render(n) == "1.0.0";
    SpeltTwice(commit, v, n);
  }
}
