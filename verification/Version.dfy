/** EggPool release versions: grammar, normalisation and order (scripts/check_release_catalog.py). */
module Version {
  import opened Text

  // ----- the grammar -----

  /** The parts of `1.2.3rc4`; `kind` and `number` are empty in a final release. */
  datatype Version = Version(major: string, minor: string, patch: string, kind: string, number: string)

  predicate IsKind(s: string) { s == "" || s == "a" || s == "b" || s == "rc" || s == "dev" || s == "post" }

  predicate IsNumeral(s: string) { s != "" && AllDigits(s) }

  predicate WellFormed(v: Version) {
    && IsNumeral(v.major) && IsNumeral(v.minor) && IsNumeral(v.patch)
    && IsKind(v.kind) && AllDigits(v.number) && (v.kind == "" ==> v.number == "")
  }

  function Render(v: Version): string {
    v.major + ("." + (v.minor + ("." + (v.patch + (v.kind + v.number)))))
  }

  predicate DigitsIn(s: string, i: nat, j: nat) {
    i <= j <= |s| && forall k :: i <= k < j ==> IsDigit(s[k])
  }

  predicate LettersIn(s: string, i: nat, j: nat) {
    i <= j <= |s| && forall k :: i <= k < j ==> IsLower(s[k])
  }

  /** The end of the run of digits that starts at `i`. */
  function DigitEnd(s: string, i: nat): (j: nat)
    requires i <= |s|
    ensures DigitsIn(s, i, j) && (j < |s| ==> !IsDigit(s[j]))
    decreases |s| - i
  {
    if i == |s| || !IsDigit(s[i]) then i else DigitEnd(s, i + 1)
  }

  function LetterEnd(s: string, i: nat): (j: nat)
    requires i <= |s|
    ensures LettersIn(s, i, j) && (j < |s| ==> !IsLower(s[j]))
    decreases |s| - i
  {
    if i == |s| || !IsLower(s[i]) then i else LetterEnd(s, i + 1)
  }

  /** Where the five parts of a version end. */
  datatype Cuts = Cuts(major: nat, minor: nat, patch: nat, kind: nat)

  predicate CutsFit(s: string, c: Cuts) {
    && 0 < c.major && c.major + 1 < c.minor && c.minor + 1 < c.patch && c.patch <= c.kind <= |s|
    && DigitsIn(s, 0, c.major) && s[c.major] == '.'
    && DigitsIn(s, c.major + 1, c.minor) && s[c.minor] == '.'
    && DigitsIn(s, c.minor + 1, c.patch)
    && LettersIn(s, c.patch, c.kind) && DigitsIn(s, c.kind, |s|)
    && IsKind(s[c.patch..c.kind]) && (c.patch == c.kind ==> c.kind == |s|)
  }

  /** One greedy pass over the text. */
  function Scan(s: string): (r: Option<Cuts>)
    ensures r.Some? ==> CutsFit(s, r.value)
  {
    var a := DigitEnd(s, 0);
    if a == 0 || a == |s| || s[a] != '.' then None else
    var b := DigitEnd(s, a + 1);
    if b == a + 1 || b == |s| || s[b] != '.' then None else
    var c := DigitEnd(s, b + 1);
    if c == b + 1 then None else
    var d := LetterEnd(s, c);
    if IsKind(s[c..d]) && DigitEnd(s, d) == |s| && (c == d ==> d == |s|) then Some(Cuts(a, b, c, d)) else None
  }

  function PartsAt(s: string, c: Cuts): Version
    requires CutsFit(s, c)
  {
    Version(s[..c.major], s[c.major + 1..c.minor], s[c.minor + 1..c.patch], s[c.patch..c.kind], s[c.kind..])
  }

  /** `_VERSION_RE.fullmatch`. */
  function Parse(s: string): Option<Version> {
    match Scan(s)
    case None => None
    case Some(cuts) => Some(PartsAt(s, cuts))
  }

  lemma {:induction false} DigitEndExact(s: string, i: nat, j: nat)
    requires DigitsIn(s, i, j) && (j < |s| ==> !IsDigit(s[j]))
    ensures DigitEnd(s, i) == j
    decreases j - i
  {
    if i < j { DigitEndExact(s, i + 1, j); }
  }

  lemma {:induction false} LetterEndExact(s: string, i: nat, j: nat)
    requires LettersIn(s, i, j) && (j < |s| ==> !IsLower(s[j]))
    ensures LetterEnd(s, i) == j
    decreases j - i
  {
    if i < j { LetterEndExact(s, i + 1, j); }
  }

  /** The greedy pass finds the only way to cut. */
  lemma ScanExact(s: string, c: Cuts)
    requires CutsFit(s, c)
    ensures Scan(s) == Some(c)
  {
    DigitEndExact(s, 0, c.major);
    DigitEndExact(s, c.major + 1, c.minor);
    DigitEndExact(s, c.minor + 1, c.patch);
    LetterEndExact(s, c.patch, c.kind);
    DigitEndExact(s, c.kind, |s|);
  }

  lemma CutDotted(s: string, i: nat, j: nat)
    requires i <= j < |s| && s[j] == '.'
    ensures s[i..] == s[i..j] + ("." + s[j + 1..])
  {}

  lemma CutLast(s: string, i: nat, j: nat, k: nat)
    requires i <= j <= k <= |s|
    ensures s[i..] == s[i..j] + (s[j..k] + s[k..])
  {}

  lemma RenderSteps(v: Version, s: string, afterMajor: string, afterMinor: string)
    requires s == v.major + ("." + afterMajor) && afterMajor == v.minor + ("." + afterMinor)
    requires afterMinor == v.patch + (v.kind + v.number)
    ensures Render(v) == s
  {}

  lemma PartsRender(s: string, a: nat, b: nat, c: nat, d: nat)
    requires a < b < c <= d <= |s| && s[a] == '.' && s[b] == '.'
    ensures Render(Version(s[..a], s[a + 1..b], s[b + 1..c], s[c..d], s[d..])) == s
  {
    CutDotted(s, 0, a);
    assert s[0..] == s && s[0..a] == s[..a];
    CutDotted(s, a + 1, b);
    CutLast(s, b + 1, c, d);
    RenderSteps(Version(s[..a], s[a + 1..b], s[b + 1..c], s[c..d], s[d..]), s, s[a + 1..], s[b + 1..]);
  }

  lemma SliceOfDigits(s: string, i: nat, j: nat)
    requires DigitsIn(s, i, j)
    ensures AllDigits(s[i..j])
  {}

  lemma PartsWellFormed(s: string, c: Cuts)
    requires CutsFit(s, c)
    ensures WellFormed(PartsAt(s, c))
  {
    SliceOfDigits(s, 0, c.major);
    SliceOfDigits(s, c.major + 1, c.minor);
    SliceOfDigits(s, c.minor + 1, c.patch);
    SliceOfDigits(s, c.kind, |s|);
    assert s[0..c.major] == s[..c.major] && s[c.kind..|s|] == s[c.kind..];
  }

  lemma KindsAreLower(kind: string)
    requires IsKind(kind)
    ensures forall i :: 0 <= i < |kind| ==> IsLower(kind[i])
  {}

  lemma Slices(s: string, a: string, x: string, b: string)
    requires s == a + (x + b)
    ensures s[|a|..|a| + |x|] == x && s[|a| + |x|..] == b
  {}

  /** Where the parts of a rendered version stand. */
  lemma RenderSlices(v: Version, s: string, c: Cuts)
    requires s == Render(v)
    requires c.major == |v.major| && c.minor == c.major + 1 + |v.minor| && c.patch == c.minor + 1 + |v.patch|
    requires c.kind == c.patch + |v.kind|
    ensures c.kind <= |s| && s[..c.major] == v.major && s[c.major] == '.' && s[c.major + 1..c.minor] == v.minor && s[c.minor] == '.'
    ensures s[c.minor + 1..c.patch] == v.patch && s[c.patch..c.kind] == v.kind && s[c.kind..] == v.number
  {
    var e := v.kind + v.number;
    var d := "." + (v.patch + e);
    var m := "." + (v.minor + d);
    assert s == v.major + m;
    Slices(s, v.major + ".", v.minor, d);
    assert s == (v.major + ".") + (v.minor + d);
    var upto := v.major + "." + v.minor + ".";
    assert s == upto + (v.patch + e);
    Slices(s, upto, v.patch, e);
    assert s == (upto + v.patch) + (v.kind + v.number);
    Slices(s, upto + v.patch, v.kind, v.number);
  }

  lemma SliceDigits(s: string, i: nat, j: nat)
    requires i <= j <= |s| && AllDigits(s[i..j])
    ensures DigitsIn(s, i, j)
  {
    forall k | i <= k < j ensures IsDigit(s[k]) { assert s[i..j][k - i] == s[k]; }
  }

  lemma SliceLetters(s: string, i: nat, j: nat)
    requires i <= j <= |s| && IsKind(s[i..j])
    ensures LettersIn(s, i, j)
  {
    KindsAreLower(s[i..j]);
    forall k | i <= k < j ensures IsLower(s[k]) { assert s[i..j][k - i] == s[k]; }
  }

  lemma RenderCuts(v: Version) returns (c: Cuts)
    requires WellFormed(v)
    ensures CutsFit(Render(v), c) && PartsAt(Render(v), c) == v
  {
    var s, a := Render(v), |v.major|;
    var b := a + 1 + |v.minor|;
    var p := b + 1 + |v.patch|;
    c := Cuts(a, b, p, p + |v.kind|);
    RenderSlices(v, s, c);
    assert s[0..a] == s[..a] && s[c.kind..|s|] == s[c.kind..];
    SliceDigits(s, 0, a);
    SliceDigits(s, a + 1, b);
    SliceDigits(s, b + 1, p);
    SliceLetters(s, p, c.kind);
    SliceDigits(s, c.kind, |s|);
  }

  lemma FittingParts(s: string, c: Cuts)
    requires CutsFit(s, c)
    ensures WellFormed(PartsAt(s, c)) && Render(PartsAt(s, c)) == s
  {
    PartsWellFormed(s, c);
    PartsRender(s, c.major, c.minor, c.patch, c.kind);
  }

  /** The regular expression accepts exactly the rendered versions, and each in one way. */
  lemma ParseExact(s: string, v: Version)
    ensures Parse(s) == Some(v) <==> WellFormed(v) && Render(v) == s
  {
    if WellFormed(v) && Render(v) == s {
      var c := RenderCuts(v);
      ScanExact(s, c);
    } else if Scan(s).Some? {
      FittingParts(s, Scan(s).value);
    }
  }

  // ----- normalisation -----

  function WithoutLeadingV(s: string): string {
    if s != "" && (s[0] == 'v' || s[0] == 'V') then s[1..] else s
  }

  function NormalizeStripped(value: string): (r: Option<string>)
    ensures r.Some? ==> Parse(r.value).Some?
  {
    if Parse(WithoutLeadingV(value)).Some? then Some(WithoutLeadingV(value)) else None
  }

  /** `normalize_version`. */
  function Normalize(raw: string): (r: Option<string>)
    ensures r.Some? ==> Parse(r.value).Some?
  {
    NormalizeStripped(Strip(raw))
  }

  /** A version begins with a digit and holds only digits, lower-case letters and dots, the last not at the end. */
  lemma VersionChars(s: string)
    requires Parse(s).Some?
    ensures s != "" && IsDigit(s[0]) && s[|s| - 1] != '.'
    ensures forall i :: 0 <= i < |s| ==> IsDigit(s[i]) || IsLower(s[i]) || s[i] == '.'
  {
    CutChars(s, Scan(s).value);
  }

  lemma CutChars(s: string, c: Cuts)
    requires CutsFit(s, c)
    ensures s != "" && IsDigit(s[0]) && s[|s| - 1] != '.'
    ensures forall i :: 0 <= i < |s| ==> IsDigit(s[i]) || IsLower(s[i]) || s[i] == '.'
  {}

  lemma LeadTaken(lead: string, v: string)
    requires v != "" && IsDigit(v[0]) && (lead == "" || lead == "v" || lead == "V")
    ensures WithoutLeadingV(lead + v) == v
  {
    if lead == "" {
      assert lead + v == v;
    } else {
      assert (lead + v)[0] == lead[0] && (lead + v)[1..] == v;
    }
  }

  lemma VersionStripped(v: string, lead: string)
    requires Parse(v).Some? && (lead == "" || lead == "v" || lead == "V")
    ensures NormalizeStripped(lead + v) == Some(v)
  {
    VersionChars(v);
    LeadTaken(lead, v);
  }

  lemma VersionTrimmed(v: string)
    requires Parse(v).Some?
    ensures v != "" && !IsSpace(v[0]) && !IsSpace(v[|v| - 1])
  {
    VersionChars(v);
  }

  /** A version is its own normal form. */
  lemma NormalizeOfVersion(v: string)
    requires Parse(v).Some?
    ensures Normalize(v) == Some(v)
  {
    VersionTrimmed(v);
    StripOfTrimmed(v);
    assert "" + v == v;
    VersionStripped(v, "");
  }

  /** Normalising twice is normalising once. */
  lemma NormalizeIdempotent(raw: string)
    ensures Normalize(raw).Some? ==> Normalize(Normalize(raw).value) == Normalize(raw)
  {
    if Normalize(raw).Some? { NormalizeOfVersion(Normalize(raw).value); }
  }

  lemma {:induction false} StripLeftExact(a: string, m: string)
    requires AllSpaces(a) && m != "" && !IsSpace(m[0])
    ensures StripLeft(a + m) == m
  {
    if a == "" {
      assert a + m == m;
    } else {
      assert (a + m)[1..] == a[1..] + m;
      StripLeftExact(a[1..], m);
    }
  }

  lemma {:induction false} StripRightExact(m: string, b: string)
    requires AllSpaces(b) && m != "" && !IsSpace(m[|m| - 1])
    ensures StripRight(m + b) == m
  {
    if b == "" {
      assert m + b == m;
    } else {
      assert (m + b)[..|m + b| - 1] == m + b[..|b| - 1];
      StripRightExact(m, b[..|b| - 1]);
    }
  }

  lemma StripExact(a: string, m: string, b: string)
    requires AllSpaces(a) && AllSpaces(b) && m != "" && !IsSpace(m[0]) && !IsSpace(m[|m| - 1])
    ensures Strip(a + m + b) == m
  {
    assert a + m + b == a + (m + b);
    StripLeftExact(a, m + b);
    StripRightExact(m, b);
  }

  /** Every accepted spelling: white space, an optional `v`, the version, white space. */
  lemma SpellingsAccepted(a: string, lead: string, v: string, b: string)
    requires AllSpaces(a) && AllSpaces(b) && (lead == "" || lead == "v" || lead == "V") && Parse(v).Some?
    ensures Normalize(a + (lead + v) + b) == Some(v)
  {
    VersionTrimmed(v);
    StripExact(a, lead + v, b);
    VersionStripped(v, lead);
  }

  // ----- the order -----

  datatype Key = Key(major: nat, minor: nat, patch: nat, rank: nat, number: nat)

  function Rank(kind: string): nat {
    if kind == "dev" then 0 else if kind == "a" then 1 else if kind == "b" then 2
    else if kind == "rc" then 3 else if kind == "" then 4 else 5
  }

  function KeyOf(v: Version): Key
    requires WellFormed(v)
  {
    Key(DigitsValue(v.major), DigitsValue(v.minor), DigitsValue(v.patch), Rank(v.kind), DigitsValue(v.number))
  }

  /** Python's order on tuples. */
  predicate KeyLess(a: Key, b: Key) {
    || a.major < b.major
    || (a.major == b.major && (
        || a.minor < b.minor
        || (a.minor == b.minor && (
            || a.patch < b.patch
            || (a.patch == b.patch && (a.rank < b.rank || (a.rank == b.rank && a.number < b.number)))))))
  }

  predicate KeyAtMost(a: Key, b: Key) { a == b || KeyLess(a, b) }

  /** `_version_key`. */
  function VersionKey(raw: string): (r: Option<Key>)
    ensures r.Some? <==> Normalize(raw).Some?
  {
    match Normalize(raw)
    case None => None
    case Some(value) =>
      ParseExact(value, Parse(value).value);
      Some(KeyOf(Parse(value).value))
  }

  /** The key sees only the normal form. */
  lemma KeyOfNormalForm(raw: string)
    ensures Normalize(raw).Some? ==> VersionKey(Normalize(raw).value) == VersionKey(raw)
  {
    if Normalize(raw).Some? { NormalizeOfVersion(Normalize(raw).value); }
  }

  /** Keys are totally ordered. */
  lemma KeyOrder(x: Key, y: Key, z: Key)
    ensures KeyLess(x, y) || KeyLess(y, x) || x == y
    ensures !(KeyLess(x, y) && KeyAtMost(y, x))
    ensures KeyAtMost(x, y) && KeyAtMost(y, z) ==> KeyAtMost(x, z)
    ensures KeyAtMost(x, y) && KeyLess(y, z) ==> KeyLess(x, z)
  {}

  lemma RankInjective(a: string, b: string)
    requires IsKind(a) && IsKind(b) && Rank(a) == Rank(b)
    ensures a == b
  {}

  /** A numeral that `str(int(...))` gives back. */
  predicate Plain(s: string) { s == "0" || (s != "" && AllDigits(s) && s[0] != '0') }

  /** Without leading zeros, and with no `0` standing for an omitted number. */
  predicate Canonical(v: Version) {
    && WellFormed(v) && Plain(v.major) && Plain(v.minor) && Plain(v.patch)
    && (v.number == "" || (Plain(v.number) && v.number != "0"))
  }

  lemma {:induction false} PlainPositive(s: string)
    requires Plain(s)
    ensures DigitsValue(s) == 0 <==> s == "0"
  {
    if |s| > 1 {
      var init := s[..|s| - 1];
      assert init[0] == s[0];
      PlainPositive(init);
    } else {
      assert s[..0] == "";
    }
  }

  lemma {:induction false} PlainUnique(s: string, t: string)
    requires Plain(s) && Plain(t) && DigitsValue(s) == DigitsValue(t)
    ensures s == t
  {
    var a, b := s[..|s| - 1], t[..|t| - 1];
    assert s == a + [s[|s| - 1]] && t == b + [t[|t| - 1]];
    var x, y := DigitsValue(a), DigitsValue(b);
    assert x == y && s[|s| - 1] == t[|t| - 1];
    if |s| > 1 && |t| > 1 {
      assert a[0] == s[0] && b[0] == t[0];
      PlainUnique(a, b);
    } else {
      assert DigitsValue("") == 0;
      if |s| > 1 { assert a[0] == s[0]; PlainPositive(a); }
      if |t| > 1 { assert b[0] == t[0]; PlainPositive(b); }
    }
  }

  lemma {:induction false} NumberUnique(s: string, t: string)
    requires (s == "" || (Plain(s) && s != "0")) && (t == "" || (Plain(t) && t != "0"))
    requires AllDigits(s) && AllDigits(t) && DigitsValue(s) == DigitsValue(t)
    ensures s == t
  {
    if s != "" { PlainPositive(s); }
    if t != "" { PlainPositive(t); }
    if s != "" && t != "" { PlainUnique(s, t); }
  }

  /** `s.lstrip("0")`. */
  function StripZeros(s: string): (r: string)
    ensures r == "" || r[0] != '0'
    ensures AllDigits(s) ==> AllDigits(r)
  {
    if s != "" && s[0] == '0' then StripZeros(s[1..]) else s
  }

  /** The canonical form: numerals without leading zeros, and an omitted number for zero. */
  function Canon(v: Version): Version {
    Version(PlainNumeral(v.major), PlainNumeral(v.minor), PlainNumeral(v.patch), v.kind, StripZeros(v.number))
  }

  function PlainNumeral(s: string): string { if StripZeros(s) == "" then "0" else StripZeros(s) }

  lemma {:induction false} LeadingZero(s: string)
    requires s != "" && s[0] == '0' && AllDigits(s)
    ensures DigitsValue(s) == DigitsValue(s[1..])
  {
    if |s| == 1 {
      assert s[..0] == "" && s[1..] == "";
    } else {
      var init := s[..|s| - 1];
      LeadingZero(init);
      assert init[1..] == s[1..][..|s| - 2];
    }
  }

  lemma {:induction false} ZerosValue(s: string)
    requires AllDigits(s)
    ensures DigitsValue(StripZeros(s)) == DigitsValue(s)
  {
    if s != "" && s[0] == '0' {
      LeadingZero(s);
      ZerosValue(s[1..]);
    }
  }

  lemma {:induction false} PlainNumeralValue(s: string)
    requires IsNumeral(s)
    ensures Plain(PlainNumeral(s)) && DigitsValue(PlainNumeral(s)) == DigitsValue(s)
  {
    ZerosValue(s);
    PlainPositive("0");
  }

  /** Every version has a canonical form with its key. */
  lemma CanonKeepsKey(v: Version)
    requires WellFormed(v)
    ensures Canonical(Canon(v)) && KeyOf(Canon(v)) == KeyOf(v)
  {
    PlainNumeralValue(v.major);
    PlainNumeralValue(v.minor);
    PlainNumeralValue(v.patch);
    ZerosValue(v.number);
  }

  lemma CanonicalUnique(a: Version, b: Version)
    requires Canonical(a) && Canonical(b) && KeyOf(a) == KeyOf(b)
    ensures a == b
  {
    PlainUnique(a.major, b.major);
    PlainUnique(a.minor, b.minor);
    PlainUnique(a.patch, b.patch);
    RankInjective(a.kind, b.kind);
    NumberUnique(a.number, b.number);
  }

  /** Two versions have one key if and only if they have one canonical form. */
  lemma KeyDecidesCanonical(a: Version, b: Version)
    requires WellFormed(a) && WellFormed(b)
    ensures KeyOf(a) == KeyOf(b) <==> Canon(a) == Canon(b)
  {
    CanonKeepsKey(a);
    CanonKeepsKey(b);
    if KeyOf(a) == KeyOf(b) { CanonicalUnique(Canon(a), Canon(b)); }
  }

  /** The canonical form behind a spelling. */
  function CanonOf(raw: string): Option<Version> {
    match Normalize(raw)
    case None => None
    case Some(value) => Some(Canon(Parse(value).value))
  }

  /** The same of spellings. */
  lemma KeyDecidesSpelling(x: string, y: string)
    requires VersionKey(x).Some? && VersionKey(y).Some?
    ensures VersionKey(x) == VersionKey(y) <==> CanonOf(x) == CanonOf(y)
  {
    var a, b := Parse(Normalize(x).value).value, Parse(Normalize(y).value).value;
    ParseExact(Normalize(x).value, a);
    ParseExact(Normalize(y).value, b);
    KeyDecidesCanonical(a, b);
  }

  /** A canonical version is its own canonical form, so distinct canonical spellings have distinct keys. */
  lemma CanonOfCanonical(v: Version)
    requires Canonical(v)
    ensures Canon(v) == v
  {
    CanonKeepsKey(v);
    CanonicalUnique(Canon(v), v);
  }

  /** A version whose spelling is not canonical shares its key with a different spelling. */
  lemma OtherSpelling(v: Version)
    requires WellFormed(v) && !Canonical(v)
    ensures Render(Canon(v)) != Render(v) && KeyOf(Canon(v)) == KeyOf(v)
  {
    CanonKeepsKey(v);
    ParseExact(Render(v), v);
    ParseExact(Render(v), Canon(v));
  }
}
