/** The migration inventory that rust/build.rs derives from the schema directory and rust/build_support.rs. */
module Migrations {
  import opened Json
  import opened Text

  const U32_MAX := 0xFFFF_FFFF

  datatype Error =
    | UnexpectedField | DuplicateFiles | MissingFiles | NotAnObject
    | NotSql | DuplicateChecksum | NotAString | InvalidChecksum | NoChecksums
    | InvalidName(name: string) | DuplicateVersion(version: nat) | AbsentChecksum(name: string) | InventoryDiffers

  // ----- checksums.json -----

  /** A JSON object as the visitor meets it: its fields in order, repetitions included. */
  type Fields = seq<(string, Json)>

  datatype RawValue = Files(fields: Fields) | NoObject

  predicate IsHexDigit(c: char) { IsDigit(c) || 'a' <= c <= 'f' || 'A' <= c <= 'F' }

  predicate ValidChecksum(checksum: string) {
    |checksum| == 64 && forall i :: 0 <= i < |checksum| ==> IsHexDigit(checksum[i])
  }

  predicate ValidField(field: (string, Json)) {
    EndsWith(field.0, ".sql") && field.1.Str? && ValidChecksum(field.1.s)
  }

  ghost predicate DistinctNames(fields: Fields) {
    forall i, j :: 0 <= i < j < |fields| ==> fields[i].0 != fields[j].0
  }

  ghost predicate ValidFiles(fields: Fields) {
    fields != [] && DistinctNames(fields) && forall i :: 0 <= i < |fields| ==> ValidField(fields[i])
  }

  /** The map holds exactly the fields. */
  ghost predicate Holds(files: map<string, string>, fields: Fields) {
    && (forall i :: 0 <= i < |fields| ==> fields[i].0 in files && fields[i].1 == Str(files[fields[i].0]))
    && (forall name :: name in files ==> exists i :: 0 <= i < |fields| && fields[i].0 == name)
  }

  /** `ChecksumFiles`. */
  method ReadFiles(fields: Fields) returns (r: Result<map<string, string>, Error>)
    ensures r.Ok? <==> ValidFiles(fields)
    ensures r.Ok? ==> Holds(r.value, fields)
  {
    var files: map<string, string> := map[];
    var k := 0;
    while k < |fields|
      invariant k <= |fields| && Holds(files, fields[..k]) && DistinctNames(fields[..k])
      invariant forall i :: 0 <= i < k ==> ValidField(fields[i])
    {
      var (name, value) := fields[k];
      if !EndsWith(name, ".sql") { return Err(NotSql); }
      if name in files {
        assert exists i :: 0 <= i < k && fields[..k][i].0 == name;
        return Err(DuplicateChecksum);
      }
      if !value.Str? { return Err(NotAString); }
      if !ValidChecksum(value.s) { return Err(InvalidChecksum); }
      HoldsPush(files, fields[..k], name, value.s);
      assert fields[..k] + [fields[k]] == fields[..k + 1];
      files := files[name := value.s];
      k := k + 1;
    }
    assert fields[..|fields|] == fields;
    if fields == [] { return Err(NoChecksums); }
    r := Ok(files);
  }

  lemma HoldsPush(files: map<string, string>, fields: Fields, name: string, checksum: string)
    requires Holds(files, fields) && DistinctNames(fields) && name !in files
    ensures Holds(files[name := checksum], fields + [(name, Str(checksum))])
    ensures DistinctNames(fields + [(name, Str(checksum))])
  {
    var more := fields + [(name, Str(checksum))];
    var updated := files[name := checksum];
    forall n | n in updated ensures exists i :: 0 <= i < |more| && more[i].0 == n {
      if n == name {
        assert more[|fields|].0 == n;
      } else {
        var i :| 0 <= i < |fields| && fields[i].0 == n;
        assert more[i].0 == n;
      }
    }
  }

  /** `ChecksumManifest`: one `files` field and nothing else. */
  method ParseChecksums(manifest: seq<(string, RawValue)>) returns (r: Result<map<string, string>, Error>)
    ensures r.Ok? <==> |manifest| == 1 && manifest[0].0 == "files" && manifest[0].1.Files? && ValidFiles(manifest[0].1.fields)
    ensures r.Ok? ==> Holds(r.value, manifest[0].1.fields)
  {
    var files: Option<map<string, string>> := None;
    var k := 0;
    while k < |manifest|
      invariant k <= |manifest| && k <= 1 && (files.Some? <==> k == 1)
      invariant k == 1 ==> manifest[0].0 == "files" && manifest[0].1.Files? && ValidFiles(manifest[0].1.fields)
      invariant k == 1 ==> Holds(files.value, manifest[0].1.fields)
    {
      if manifest[k].0 != "files" { return Err(UnexpectedField); }
      if files.Some? { return Err(DuplicateFiles); }
      if !manifest[k].1.Files? { return Err(NotAnObject); }
      var parsed := ReadFiles(manifest[k].1.fields);
      if parsed.Err? { return Err(parsed.error); }
      files := Some(parsed.value);
      k := k + 1;
    }
    if files.None? { return Err(MissingFiles); }
    r := Ok(files.value);
  }

  // ----- versions -----

  /** `str::parse::<u32>`: an optional plus sign and at least one digit, within 32 bits. */
  function ParseU32(s: string): Option<nat> {
    var digits := if s != "" && s[0] == '+' then s[1..] else s;
    if digits == "" || !AllDigits(digits) || DigitsValue(digits) > U32_MAX then None else Some(DigitsValue(digits))
  }

  /** Position of the first underscore, or -1. */
  function Underscore(name: string): int { Find(name, "_") }

  function Prefix(name: string): string
    requires Underscore(name) >= 0
  {
    name[..Underscore(name)]
  }

  function VersionOf(name: string): Option<nat> {
    if Underscore(name) < 0 then None else ParseU32(Prefix(name))
  }

  // ----- directory order -----

  /** Byte-wise order of file names. */
  predicate Less(a: string, b: string) {
    b != "" && (a == "" || a[0] < b[0] || (a[0] == b[0] && Less(a[1..], b[1..])))
  }

  lemma {:induction false} LessTrichotomy(a: string, b: string)
    ensures a == b || Less(a, b) || Less(b, a)
  {
    if a != "" && b != "" {
      LessTrichotomy(a[1..], b[1..]);
      if a[0] == b[0] && a[1..] == b[1..] { assert a == [a[0]] + a[1..] && b == [b[0]] + b[1..]; }
    }
  }

  lemma {:induction false} LessTransitive(a: string, b: string, c: string)
    requires Less(a, b) && Less(b, c)
    ensures Less(a, c)
  {
    if a != "" && a[0] == b[0] && b[0] == c[0] { LessTransitive(a[1..], b[1..], c[1..]); }
  }

  lemma {:induction false} LeastName(names: set<string>)
    requires names != {}
    ensures exists n :: n in names && forall m :: m in names ==> m == n || Less(n, m)
    decreases |names|
  {
    var x :| x in names;
    if names != {x} {
      LeastName(names - {x});
      var y :| y in names - {x} && forall m :: m in names - {x} ==> m == y || Less(y, m);
      LessTrichotomy(x, y);
      var least := if Less(x, y) then x else y;
      forall m | m in names ensures m == least || Less(least, m) {
        if m != x && m != y && Less(x, y) { LessTransitive(x, y, m); }
      }
      assert least in names;
    }
  }

  ghost predicate SortedNames(names: seq<string>) {
    forall i, j :: 0 <= i < j < |names| ==> Less(names[i], names[j])
  }

  /** `paths.sort()`. */
  method SortNames(names: set<string>) returns (r: seq<string>)
    ensures SortedNames(r) && |r| == |names| && forall n :: n in r <==> n in names
  {
    r := [];
    var rest := names;
    while rest != {}
      invariant rest <= names && SortedNames(r) && |r| + |rest| == |names|
      invariant forall n :: n in names <==> n in r || n in rest
      invariant forall n, m :: n in r && m in rest ==> Less(n, m)
      decreases |rest|
    {
      LeastName(rest);
      var least :| least in rest && forall m :: m in rest ==> m == least || Less(least, m);
      r := r + [least];
      rest := rest - {least};
    }
  }

  // ----- the inventory -----

  datatype Migration = Migration(version: nat, name: string, checksum: string)

  /** `Path::extension` is `sql`: a dot file without a stem has no extension. */
  predicate IsSqlFile(name: string) { |name| > 4 && EndsWith(name, ".sql") }

  ghost predicate Listed(migrations: seq<Migration>, names: seq<string>, checksums: map<string, string>) {
    && |migrations| == |names|
    && (forall i :: 0 <= i < |names| ==>
          && migrations[i].name == names[i] && VersionOf(names[i]) == Some(migrations[i].version)
          && names[i] in checksums && migrations[i].checksum == checksums[names[i]])
    && (forall i, j :: 0 <= i < j < |migrations| ==> migrations[i].version != migrations[j].version)
  }

  /** What an accepted build needs of the directory and of the checksums. */
  ghost predicate Acceptable(files: set<string>, checksums: map<string, string>) {
    && (forall n :: n in files && IsSqlFile(n) ==> VersionOf(n).Some?)
    && (forall n, m :: n in files && m in files && IsSqlFile(n) && IsSqlFile(m) && n != m ==> VersionOf(n) != VersionOf(m))
    && (set n | n in files && IsSqlFile(n)) == checksums.Keys
  }

  /** The list holds every migration of the checksums, in the order of the names. */
  ghost predicate ListsInOrder(migrations: seq<Migration>, checksums: map<string, string>) {
    exists names :: SortedNames(names) && (forall n :: n in names <==> n in checksums) && Listed(migrations, names, checksums)
  }

  method Inventory(files: set<string>, checksums: map<string, string>) returns (r: Result<seq<Migration>, Error>)
    ensures r.Ok? <==> Acceptable(files, checksums)
    ensures r.Ok? ==> ListsInOrder(r.value, checksums)
  {
    var sql := set n | n in files && IsSqlFile(n);
    var names := SortNames(sql);
    var migrations: seq<Migration> := [];
    var versions: map<nat, string> := map[];
    var k := 0;
    while k < |names|
      invariant k <= |names| && Listed(migrations, names[..k], checksums)
      invariant forall v :: v in versions <==> HasVersion(migrations, v)
    {
      var name := names[k];
      assert name in names && name in sql;
      var version := VersionOf(name);
      if version.None? { return Err(InvalidName(name)); }
      if version.value in versions {
        VersionClash(files, checksums, names, k, migrations);
        return Err(DuplicateVersion(version.value));
      }
      if name !in checksums {
        assert name !in checksums.Keys;
        return Err(AbsentChecksum(name));
      }
      ListedPush(migrations, names[..k], checksums, name);
      HasVersionPush(migrations, Migration(version.value, name, checksums[name]));
      PrefixPush(names, k);
      versions := versions[version.value := name];
      migrations := migrations + [Migration(version.value, name, checksums[name])];
      k := k + 1;
    }
    assert names[..|names|] == names;
    if |migrations| != |checksums| {
      assert |sql| != |checksums.Keys|;
      return Err(InventoryDiffers);
    }
    ListedAcceptable(files, checksums, names, migrations);
    r := Ok(migrations);
  }

  lemma PrefixPush(names: seq<string>, k: nat)
    requires k < |names|
    ensures names[..k + 1] == names[..k] + [names[k]]
  {}

  ghost predicate HasVersion(migrations: seq<Migration>, version: nat) {
    exists i :: 0 <= i < |migrations| && migrations[i].version == version
  }

  lemma HasVersionPush(migrations: seq<Migration>, m: Migration)
    ensures forall v :: HasVersion(migrations + [m], v) <==> HasVersion(migrations, v) || v == m.version
  {
    var more := migrations + [m];
    forall v ensures HasVersion(more, v) <==> HasVersion(migrations, v) || v == m.version {
      if HasVersion(migrations, v) {
        var i :| 0 <= i < |migrations| && migrations[i].version == v;
        assert more[i].version == v;
      }
      if v == m.version { assert more[|migrations|].version == v; }
    }
  }

  lemma ListedPush(migrations: seq<Migration>, names: seq<string>, checksums: map<string, string>, name: string)
    requires Listed(migrations, names, checksums) && name in checksums && VersionOf(name).Some?
    requires !HasVersion(migrations, VersionOf(name).value)
    ensures Listed(migrations + [Migration(VersionOf(name).value, name, checksums[name])], names + [name], checksums)
  {}

  lemma VersionClash(files: set<string>, checksums: map<string, string>, names: seq<string>, k: nat, migrations: seq<Migration>)
    requires k < |names| && SortedNames(names) && forall n :: n in names ==> n in files && IsSqlFile(n)
    requires Listed(migrations, names[..k], checksums)
    requires VersionOf(names[k]).Some? && HasVersion(migrations, VersionOf(names[k]).value)
    ensures !Acceptable(files, checksums)
  {
    var i :| 0 <= i < |migrations| && migrations[i].version == VersionOf(names[k]).value;
    assert names[..k][i] == names[i];
    assert names[i] in names && names[k] in names;
    LessIrreflexive(names[i]);
    assert Less(names[i], names[k]);
  }

  lemma ListedAcceptable(files: set<string>, checksums: map<string, string>, names: seq<string>, migrations: seq<Migration>)
    requires (forall n :: n in names <==> n in files && IsSqlFile(n)) && Listed(migrations, names, checksums)
    requires |set n | n in files && IsSqlFile(n)| == |checksums|
    ensures Acceptable(files, checksums) && forall n :: n in names <==> n in checksums
  {
    var sql := set n | n in files && IsSqlFile(n);
    forall n | n in sql ensures n in checksums.Keys {
      var i :| 0 <= i < |names| && names[i] == n;
    }
    assert |checksums.Keys| == |checksums|;
    SubsetOfSameSize(sql, checksums.Keys);
    VersionsDistinct(migrations, names, checksums);
  }

  lemma {:induction false} LessIrreflexive(a: string)
    ensures !Less(a, a)
  {
    if a != "" { LessIrreflexive(a[1..]); }
  }

  lemma SubsetOfSameSize(a: set<string>, b: set<string>)
    requires a <= b && |a| == |b|
    ensures a == b
  {
    assert |b - a| == |b| - |a|;
  }

  lemma VersionsDistinct(migrations: seq<Migration>, names: seq<string>, checksums: map<string, string>)
    requires Listed(migrations, names, checksums)
    ensures forall n :: n in names ==> VersionOf(n).Some?
    ensures forall n, m :: n in names && m in names && n != m ==> VersionOf(n) != VersionOf(m)
  {
    forall n, m | n in names && m in names && n != m ensures VersionOf(n) != VersionOf(m) {
      var i :| 0 <= i < |names| && names[i] == n;
      var j :| 0 <= j < |names| && names[j] == m;
      assert if i < j then migrations[i].version != migrations[j].version else migrations[j].version != migrations[i].version;
    }
  }

  // ----- emitted order -----

  ghost predicate Increasing(migrations: seq<Migration>) {
    forall i, j :: 0 <= i < j < |migrations| ==> migrations[i].version < migrations[j].version
  }

  lemma {:induction false} LessAppend(p: string, q: string, x: string, y: string)
    requires |p| == |q|
    ensures Less(p + x, q + y) <==> Less(p, q) || (p == q && Less(x, y))
  {
    if p == "" {
      assert p + x == x && q + y == y;
    } else {
      assert (p + x)[1..] == p[1..] + x && (q + y)[1..] == q[1..] + y;
      LessAppend(p[1..], q[1..], x, y);
      if p[0] == q[0] { assert p == q <==> p[1..] == q[1..] by { assert p == [p[0]] + p[1..] && q == [q[0]] + q[1..]; } }
    }
  }

  /** On digit strings of one width, byte order is numeric order. */
  lemma {:induction false} SameWidthOrder(p: string, q: string)
    requires |p| == |q| && AllDigits(p) && AllDigits(q)
    ensures Less(p, q) <==> DigitsValue(p) < DigitsValue(q)
    ensures p == q <==> DigitsValue(p) == DigitsValue(q)
  {
    if p != "" {
      var n := |p| - 1;
      SameWidthOrder(p[..n], q[..n]);
      assert p == p[..n] + [p[n]] && q == q[..n] + [q[n]];
      LessAppend(p[..n], q[..n], [p[n]], [q[n]]);
    }
  }

  /** Strings that differ before either ends are ordered whatever follows. */
  lemma {:induction false} LessDecided(u: string, v: string, x: string, y: string)
    requires !(u <= v) && !(v <= u)
    ensures Less(u + x, v + y) <==> Less(u, v)
  {
    if u[0] == v[0] {
      assert u == [u[0]] + u[1..] && v == [v[0]] + v[1..];
      assert (u + x)[1..] == u[1..] + x && (v + y)[1..] == v[1..] + y;
      LessDecided(u[1..], v[1..], x, y);
    }
  }

  lemma {:induction false} PrefixParts(name: string)
    requires Underscore(name) >= 0
    ensures var p := Prefix(name); name == p + "_" + name[|p| + 1..] && '_' !in p
  {
    var n := Underscore(name);
    OccurrenceChar(name, "_", n, 0);
    assert name == name[..n] + "_" + name[n + 1..];
    forall k | 0 <= k < n ensures name[..n][k] != '_' {
      assert !OccursAt(name, "_", k);
      assert name[k..k + 1] == [name[k]];
    }
  }

  /** The order of two names is the order of their different prefixes, each closed by its underscore. */
  lemma {:induction false} PrefixOrderDecides(a: string, b: string)
    requires Underscore(a) >= 0 && Underscore(b) >= 0 && Prefix(a) != Prefix(b)
    ensures Less(a, b) <==> Less(Prefix(a) + "_", Prefix(b) + "_")
  {
    PrefixParts(a);
    PrefixParts(b);
    ClosedPrefixes(Prefix(a), Prefix(b));
    ClosedPrefixes(Prefix(b), Prefix(a));
    LessDecided(Prefix(a) + "_", Prefix(b) + "_", a[|Prefix(a)| + 1..], b[|Prefix(b)| + 1..]);
  }

  lemma ClosedPrefixes(p: string, q: string)
    requires '_' !in p && '_' !in q
    ensures p + "_" <= q + "_" ==> p == q
  {
    if p + "_" <= q + "_" {
      assert (q + "_")[|p|] == (p + "_")[|p|] == '_';
      assert p == (p + "_")[..|p|] == (q + "_")[..|q|] == q;
    }
  }

  lemma {:induction false} LessAsymmetric(a: string, b: string)
    requires Less(a, b)
    ensures !Less(b, a)
  {
    if Less(b, a) {
      LessTransitive(a, b, a);
      LessIrreflexive(a);
    }
  }

  /** Two names are emitted in the order of their versions. */
  ghost predicate NamesAgree(a: string, b: string)
    requires VersionOf(a).Some? && VersionOf(b).Some?
  {
    Less(Prefix(a) + "_", Prefix(b) + "_") <==> VersionOf(a).value < VersionOf(b).value
  }

  /**
   Any emitted list is strictly increasing in version if and only if the closed prefixes are ordered as the versions
   they stand for.
   */
  lemma EmittedByPrefixes(migrations: seq<Migration>, names: seq<string>, checksums: map<string, string>)
    requires SortedNames(names) && Listed(migrations, names, checksums)
    ensures Increasing(migrations) <==>
            (forall i, j :: 0 <= i < |names| && 0 <= j < |names| && i != j ==> NamesAgree(names[i], names[j]))
  {
    forall i, j | 0 <= i < |names| && 0 <= j < |names| && i != j
      ensures NamesAgree(names[i], names[j]) <==> (i < j <==> migrations[i].version < migrations[j].version)
    {
      assert VersionOf(names[i]) == Some(migrations[i].version) && VersionOf(names[j]) == Some(migrations[j].version);
      assert if i < j then migrations[i].version != migrations[j].version else migrations[j].version != migrations[i].version;
      PrefixOrderDecides(names[i], names[j]);
      if j < i { LessAsymmetric(names[j], names[i]); }
    }
  }

  ghost predicate DigitPrefixes(names: seq<string>) {
    forall i :: 0 <= i < |names| ==> Underscore(names[i]) >= 0 && AllDigits(Prefix(names[i]))
  }

  /** Byte order against the front of the longer prefix is numeric order. */
  predicate WidthsAgree(p: string, q: string)
    requires |p| <= |q| && AllDigits(p) && AllDigits(q)
  {
    Less(p, q[..|p|]) <==> DigitsValue(p) < DigitsValue(q)
  }

  /** An underscore follows every digit in byte order. */
  lemma {:induction false} ClosedOrder(p: string, q: string)
    requires |p| <= |q| && AllDigits(p) && AllDigits(q) && p != q
    ensures Less(p + "_", q + "_") <==> Less(p, q[..|p|])
  {
    var front, back := q[..|p|], q[|p|..] + "_";
    assert q + "_" == front + back;
    LessAppend(p, front, "_", back);
    if |p| == |q| {
      assert front == q && back == "_";
      LessIrreflexive("_");
    } else {
      assert back[0] == q[|p|];
    }
  }

  lemma {:induction false} NamesAgreeByWidth(a: string, b: string)
    requires VersionOf(a).Some? && VersionOf(b).Some? && VersionOf(a) != VersionOf(b)
    requires AllDigits(Prefix(a)) && AllDigits(Prefix(b)) && |Prefix(a)| <= |Prefix(b)|
    ensures NamesAgree(a, b) <==> NamesAgree(b, a)
    ensures NamesAgree(a, b) <==> |Prefix(a)| == |Prefix(b)| || WidthsAgree(Prefix(a), Prefix(b))
  {
    var p, q := Prefix(a), Prefix(b);
    DigitsNotSigned(p);
    DigitsNotSigned(q);
    ClosedOrder(p, q);
    LessTrichotomy(p + "_", q + "_");
    ClosedDiffer(p, q);
    if Less(p + "_", q + "_") { LessAsymmetric(p + "_", q + "_"); }
    if |p| == |q| {
      SameWidthOrder(p, q);
      assert q[..|p|] == q;
    }
  }

  lemma ClosedDiffer(p: string, q: string)
    ensures p + "_" == q + "_" ==> p == q
  {
    if p + "_" == q + "_" { assert p == (p + "_")[..|p|] && q == (q + "_")[..|q|]; }
  }

  /**
   With digit prefixes the migrations are emitted in strictly increasing version order if and only if, for every two
   prefixes of different widths, byte order against the front of the longer one is numeric order.
   */
  lemma EmittedInVersionOrder(migrations: seq<Migration>, names: seq<string>, checksums: map<string, string>)
    requires SortedNames(names) && Listed(migrations, names, checksums) && DigitPrefixes(names)
    ensures Increasing(migrations) <==>
            (forall i, j :: 0 <= i < |names| && 0 <= j < |names| && |Prefix(names[i])| < |Prefix(names[j])| ==>
                              WidthsAgree(Prefix(names[i]), Prefix(names[j])))
  {
    EmittedByPrefixes(migrations, names, checksums);
    forall i, j | 0 <= i < |names| && 0 <= j < |names| && i != j && |Prefix(names[i])| <= |Prefix(names[j])|
      ensures NamesAgree(names[i], names[j]) <==> NamesAgree(names[j], names[i])
      ensures NamesAgree(names[i], names[j]) <==>
              |Prefix(names[i])| == |Prefix(names[j])| || WidthsAgree(Prefix(names[i]), Prefix(names[j]))
    {
      assert if i < j then migrations[i].version != migrations[j].version else migrations[j].version != migrations[i].version;
      NamesAgreeByWidth(names[i], names[j]);
    }
  }

  lemma {:induction false} DigitsNotSigned(p: string)
    requires AllDigits(p)
    ensures ParseU32(p).Some? ==> ParseU32(p).value == DigitsValue(p)
  {}

  function SqlName(p: string, stem: string): string { p + "_" + (stem + ".sql") }

  lemma {:induction false} NameOfPrefix(p: string, rest: string)
    requires p != "" && AllDigits(p) && DigitsValue(p) <= U32_MAX
    ensures VersionOf(p + "_" + rest) == Some(DigitsValue(p)) && Prefix(p + "_" + rest) == p
  {
    var name := p + "_" + rest;
    assert OccursAt(name, "_", |p|);
    forall k | 0 <= k < |p| ensures !OccursAt(name, "_", k) { OccurrenceChar(name, "_", k, 0); }
    assert Underscore(name) == |p| && name[..|p|] == p && p[0] != '+';
  }

  lemma {:induction false} SqlNameParts(p: string, stem: string)
    requires p != "" && AllDigits(p) && DigitsValue(p) <= U32_MAX
    ensures IsSqlFile(SqlName(p, stem)) && VersionOf(SqlName(p, stem)) == Some(DigitsValue(p)) && Prefix(SqlName(p, stem)) == p
  {
    NameOfPrefix(p, stem + ".sql");
    var name := SqlName(p, stem);
    assert name == (p + "_" + stem) + ".sql" && name[|name| - 4..] == ".sql";
  }

  lemma PairAcceptable(a: string, b: string, checksum: string)
    requires IsSqlFile(a) && IsSqlFile(b) && VersionOf(a).Some? && VersionOf(b).Some? && VersionOf(a) != VersionOf(b)
    ensures Acceptable({a, b}, map[a := checksum, b := checksum])
  {
    assert (set n | n in {a, b} && IsSqlFile(n)) == map[a := checksum, b := checksum].Keys;
  }

  /** Any two digit prefixes of different values make an accepted directory, whatever their widths. */
  lemma {:induction false} PairAccepted(p: string, q: string, stem: string, other: string, checksum: string)
    requires p != "" && AllDigits(p) && q != "" && AllDigits(q) && DigitsValue(p) != DigitsValue(q)
    requires DigitsValue(p) <= U32_MAX && DigitsValue(q) <= U32_MAX
    ensures var a, b := SqlName(p, stem), SqlName(q, other);
            Acceptable({a, b}, map[a := checksum, b := checksum])
  {
    SqlNameParts(p, stem);
    SqlNameParts(q, other);
    PairAcceptable(SqlName(p, stem), SqlName(q, other), checksum);
  }

  lemma NineAndTen()
    ensures DigitsValue("9") == 9 && DigitsValue("10") == 10 && !WidthsAgree("9", "10")
  {
    assert "10"[..1] == "1" && "1"[..0] == "" && "9"[..0] == "";
  }

  /** Prefixes of different widths: an accepted directory whose higher version comes first. */
  lemma {:induction false} MixedWidthsMisorder(stem: string, other: string, checksum: string)
    ensures var a, b := SqlName("9", stem), SqlName("10", other);
            Acceptable({a, b}, map[a := checksum, b := checksum]) && Less(b, a) && VersionOf(a) == Some(9) && VersionOf(b) == Some(10)
  {
    NineAndTen();
    PairAccepted("9", "10", stem, other, checksum);
    SqlNameParts("9", stem);
    SqlNameParts("10", other);
  }
}
