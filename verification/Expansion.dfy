/** Expansion of a release entry against the catalog defaults (scripts/check_release_catalog.py). */
module Expansion {
  import opened Json
  import opened Text
  import opened Version

  const PLACEHOLDER := "{version}"

  /** `text.replace(needle, fill)`: from the left, without overlap. */
  function Replace(text: string, needle: string, fill: string): string
    requires needle != ""
    decreases |text|
  {
    var i := Find(text, needle);
    if i == -1 then text else text[..i] + fill + Replace(text[i + |needle|..], needle, fill)
  }

  /** No occurrence lies in a text joined from a part without one, an insertion of other characters, and a part without one. */
  lemma NoOccurrenceAcross(text: string, n: nat, needle: string, fill: string, rest: string, j: int)
    requires n <= |text| && needle != "" && fill != "" && needle[0] !in fill && fill[0] !in needle
    requires forall k :: 0 <= k < n ==> !OccursAt(text, needle, k)
    requires !Occurs(rest, needle)
    ensures !OccursAt(text[..n] + fill + rest, needle, j)
  {
    var p := text[..n];
    var all := p + fill + rest;
    if j >= n + |fill| {
      OccursInHalf(p + fill, rest, needle, j);
    } else if j >= n {
      OccurrenceChar(all, needle, j, 0);
      assert all[j] == fill[j - n];
    } else if j >= 0 && j + |needle| <= n {
      assert all == p + (fill + rest) && p + text[n..] == text;
      OccursInHalf(p, fill + rest, needle, j);
      OccursInHalf(p, text[n..], needle, j);
    } else if j >= 0 {
      OccurrenceChar(all, needle, j, n - j);
      assert all[n] == fill[0];
    }
  }

  /** If the insertion shares no boundary character with the needle, no needle is left or made. */
  lemma {:induction false} ReplaceLeavesNone(text: string, needle: string, fill: string)
    requires needle != "" && fill != "" && needle[0] !in fill && fill[0] !in needle
    ensures !Occurs(Replace(text, needle, fill), needle)
    decreases |text|
  {
    var i := Find(text, needle);
    if i != -1 {
      var rest := text[i + |needle|..];
      ReplaceLeavesNone(rest, needle, fill);
      forall j ensures !OccursAt(Replace(text, needle, fill), needle, j) {
        NoOccurrenceAcross(text, i, needle, fill, Replace(rest, needle, fill), j);
      }
    }
  }

  lemma {:induction false} ReplaceNothing(text: string, needle: string, fill: string)
    requires needle != "" && !Occurs(text, needle)
    ensures Replace(text, needle, fill) == text
  {}

  lemma {:induction false} ReplaceNonEmpty(text: string, needle: string, fill: string)
    requires needle != "" && text != "" && fill != ""
    ensures Replace(text, needle, fill) != ""
  {}

  // ----- expanded_release -----

  datatype Error = DefaultsMissing | Missing(field: string) | InvalidVersion

  type Fields = map<string, Json>

  /** How versions are normalised and placeholders filled. */
  datatype Rules = Rules(normalize: string -> Option<string>, fill: (string, string) -> string)

  /** `normalize_version` and `.replace("{version}", version)`. */
  const RULES := Rules(raw => Normalize(raw), (text, version) => Replace(text, PLACEHOLDER, version))

  /** The three texts that expansion fills in. */
  datatype Texts = Texts(version: string, expected: string, requirement: string)

  function Fill(rules: Rules, version: Json, expected: Json, requirement: Json): Result<Texts, Error> {
    if !NonEmptyString(version) then Err(Missing("version")) else
    match rules.normalize(version.s)
    case None => Err(InvalidVersion)
    case Some(v) =>
      if !NonEmptyString(expected) then Err(Missing("expected_version")) else
      match rules.normalize(rules.fill(expected.s, v))
      case None => Err(InvalidVersion)
      case Some(e) =>
        if !NonEmptyString(requirement) then Err(Missing("package_manager_requirement"))
        else Ok(Texts(v, e, rules.fill(requirement.s, v)))
  }

  function With(fields: Fields, t: Texts): Fields {
    fields["version" := Str(t.version)]["expected_version" := Str(t.expected)]
          ["package_manager_requirement" := Str(t.requirement)]
  }

  function ExpectedOf(merged: Fields): Json {
    if "expected_version" in merged then merged["expected_version"] else Get(merged, "version")
  }

  function TextsOf(rules: Rules, merged: Fields): Result<Texts, Error> {
    Fill(rules, Get(merged, "version"), ExpectedOf(merged), Get(merged, "package_manager_requirement"))
  }

  /** A release entry over its defaults, with its texts filled in. */
  function Expanded(rules: Rules, defaults: Fields, release: Fields): Result<Fields, Error> {
    match TextsOf(rules, defaults + release)
    case Err(error) => Err(error)
    case Ok(texts) => Ok(With(defaults + release, texts))
  }

  /** `expanded_release`. */
  method ExpandRelease(rules: Rules, catalog: Fields, release: Fields) returns (r: Result<Fields, Error>)
    ensures r.Ok? ==> Get(catalog, "release_defaults").Object?
    ensures Get(catalog, "release_defaults").Object? ==> r == Expanded(rules, Get(catalog, "release_defaults").fields, release)
  {
    if !Get(catalog, "release_defaults").Object? { return Err(DefaultsMissing); }
    var result := Get(catalog, "release_defaults").fields;
    result := result + release;
    if !NonEmptyString(Get(result, "version")) { return Err(Missing("version")); }
    var raw := Get(result, "version").s;
    var version := rules.normalize(raw);
    if version.None? { return Err(InvalidVersion); }
    result := result["version" := Str(version.value)];
    var template := if "expected_version" in result then result["expected_version"] else Str(raw);
    if !NonEmptyString(template) { return Err(Missing("expected_version")); }
    var expected := rules.normalize(rules.fill(template.s, version.value));
    if expected.None? { return Err(InvalidVersion); }
    result := result["expected_version" := Str(expected.value)];
    var requirement := Get(result, "package_manager_requirement");
    if !NonEmptyString(requirement) { return Err(Missing("package_manager_requirement")); }
    result := result["package_manager_requirement" := Str(rules.fill(requirement.s, version.value))];
    return Ok(result);
  }

  // ----- idempotence -----

  /** A text that normalisation gives back. */
  predicate IsNormal(rules: Rules, v: string) { v != "" && rules.normalize(v) == Some(v) }

  /** What idempotence rests on: normal forms are fixed, and filling leaves nothing to fill. */
  ghost predicate Lawful(rules: Rules) {
    && (forall raw :: rules.normalize(raw).Some? ==> IsNormal(rules, rules.normalize(raw).value))
    && (forall v, w :: IsNormal(rules, v) && IsNormal(rules, w) ==> rules.fill(w, v) == w)
    && (forall v, text :: IsNormal(rules, v) ==> rules.fill(rules.fill(text, v), v) == rules.fill(text, v))
    && (forall v, text :: IsNormal(rules, v) && text != "" ==> rules.fill(text, v) != "")
  }

  lemma FillAgain(rules: Rules, version: Json, expected: Json, requirement: Json)
    requires Lawful(rules) && Fill(rules, version, expected, requirement).Ok?
    ensures var t := Fill(rules, version, expected, requirement).value;
            Fill(rules, Str(t.version), Str(t.expected), Str(t.requirement)) == Ok(t)
  {
    var t := Fill(rules, version, expected, requirement).value;
    assert IsNormal(rules, t.version) && IsNormal(rules, t.expected);
    assert rules.fill(t.expected, t.version) == t.expected;
    assert rules.fill(t.requirement, t.version) == t.requirement != "";
  }

  lemma WithFields(fields: Fields, t: Texts)
    ensures var e := With(fields, t);
            && ExpectedOf(e) == Str(t.expected) && Get(e, "version") == Str(t.version)
            && Get(e, "package_manager_requirement") == Str(t.requirement) && fields.Keys <= e.Keys && With(e, t) == e
  {}

  /** Under these laws, expanding an expanded release changes nothing. */
  lemma LawfulIdempotent(rules: Rules, defaults: Fields, release: Fields)
    requires Lawful(rules) && Expanded(rules, defaults, release).Ok?
    ensures Expanded(rules, defaults, Expanded(rules, defaults, release).value) == Expanded(rules, defaults, release)
  {
    var merged := defaults + release;
    var t := TextsOf(rules, merged).value;
    var e := With(merged, t);
    FillAgain(rules, Get(merged, "version"), ExpectedOf(merged), Get(merged, "package_manager_requirement"));
    WithFields(merged, t);
    assert defaults + e == e;
  }

  lemma VersionFillsPlaceholder(version: string)
    requires Parse(version).Some?
    ensures version != "" && PLACEHOLDER[0] !in version && version[0] !in PLACEHOLDER
    ensures !Occurs(version, PLACEHOLDER)
  {
    VersionChars(version);
    forall i ensures !OccursAt(version, PLACEHOLDER, i) { OccurrenceChar(version, PLACEHOLDER, i, 0); }
  }

  lemma {:induction false} FillTwice(text: string, version: string)
    requires Parse(version).Some?
    ensures Replace(Replace(text, PLACEHOLDER, version), PLACEHOLDER, version) == Replace(text, PLACEHOLDER, version)
    ensures text != "" ==> Replace(text, PLACEHOLDER, version) != ""
  {
    VersionFillsPlaceholder(version);
    ReplaceLeavesNone(text, PLACEHOLDER, version);
    ReplaceNothing(Replace(text, PLACEHOLDER, version), PLACEHOLDER, version);
    if text != "" { ReplaceNonEmpty(text, PLACEHOLDER, version); }
  }

  lemma {:induction false} FillVersion(w: string, version: string)
    requires Parse(w).Some?
    ensures Replace(w, PLACEHOLDER, version) == w
  {
    VersionFillsPlaceholder(w);
    ReplaceNothing(w, PLACEHOLDER, version);
  }

  lemma NormalIsVersion(v: string)
    requires IsNormal(RULES, v)
    ensures Parse(v).Some?
  {}

  lemma NormalFormsAreNormal(raw: string)
    requires RULES.normalize(raw).Some?
    ensures IsNormal(RULES, RULES.normalize(raw).value)
  {
    var v := Normalize(raw).value;
    NormalizeOfVersion(v);
    VersionChars(v);
  }

  lemma RulesAreLawful()
    ensures Lawful(RULES)
  {
    forall raw | RULES.normalize(raw).Some? ensures IsNormal(RULES, RULES.normalize(raw).value) { NormalFormsAreNormal(raw); }
    forall v, w | IsNormal(RULES, v) && IsNormal(RULES, w) ensures RULES.fill(w, v) == w {
      NormalIsVersion(w);
      FillVersion(w, v);
    }
    forall v, text | IsNormal(RULES, v) ensures RULES.fill(RULES.fill(text, v), v) == RULES.fill(text, v) {
      NormalIsVersion(v);
      FillTwice(text, v);
    }
    forall v, text | IsNormal(RULES, v) && text != "" ensures RULES.fill(text, v) != "" {
      NormalIsVersion(v);
      FillTwice(text, v);
    }
  }

  /** Whenever expanding a release succeeds, expanding the result again gives the same record. */
  lemma ExpansionIdempotent(defaults: Fields, release: Fields)
    requires Expanded(RULES, defaults, release).Ok?
    ensures Expanded(RULES, defaults, Expanded(RULES, defaults, release).value) == Expanded(RULES, defaults, release)
  {
    RulesAreLawful();
    LawfulIdempotent(RULES, defaults, release);
  }
}
