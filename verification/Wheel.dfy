/** Inspection of a release wheel and its RECORD (scripts/inspect_release_wheel.py). */
module Wheel {
  import opened Binaries
  import opened Encoding
  import opened Text
  import WheelName

  /** A member of the ZIP archive, with its executable mode bits summed up. */
  datatype Member = Member(name: string, data: Bytes, executable: bool)

  /** What the inspector takes from elsewhere: SHA-256, ZIP, header and CSV reading. */
  datatype Tools = Tools(
    sha256: Bytes -> Digest,
    unzip: Bytes -> Option<seq<Member>>,
    headers: (Bytes, string) -> seq<string>,
    csv: Bytes -> Option<seq<seq<string>>>)

  const MAX_WHEEL_BYTES := 100_000_000
  const RECORD_SUFFIX := ".dist-info/RECORD"

  function Platforms(t: Target): set<string> {
    if t == LINUX_X86_64 then {"manylinux2014_x86_64", "manylinux_2_17_x86_64"}
    else if t == LINUX_AARCH64 then {"manylinux2014_aarch64", "manylinux_2_17_aarch64"}
    else if t == MACOS_ARM64 then {"macosx_11_0_arm64"}
    else {}
  }

  // ----- members -----

  function NamesOf(archive: seq<Member>): (r: seq<string>)
    ensures |r| == |archive| && forall i :: 0 <= i < |r| ==> r[i] == archive[i].name
  {
    seq(|archive|, i requires 0 <= i < |archive| => archive[i].name)
  }

  predicate DistinctNames(archive: seq<Member>) {
    forall i, j :: 0 <= i < j < |archive| ==> archive[i].name != archive[j].name
  }

  /** `members[name]`. */
  function DataOf(archive: seq<Member>, name: string): Bytes {
    if archive == [] then [] else if archive[0].name == name then archive[0].data else DataOf(archive[1..], name)
  }

  lemma {:induction false} DataOfMember(archive: seq<Member>, i: nat)
    requires DistinctNames(archive) && i < |archive|
    ensures DataOf(archive, archive[i].name) == archive[i].data
  {
    if i > 0 {
      assert archive[0].name != archive[i].name;
      assert archive[1..][i - 1] == archive[i];
      DataOfMember(archive[1..], i - 1);
    }
  }

  function Ending(names: seq<string>, suffix: string): (r: seq<string>)
    ensures forall n :: n in r <==> n in names && EndsWith(n, suffix)
  {
    if names == [] then [] else (if EndsWith(names[0], suffix) then [names[0]] else []) + Ending(names[1..], suffix)
  }

  /** The parts of a POSIX path. */
  function Parts(names: seq<string>): seq<string> {
    if names == [] then [] else (if names[0] == "" || names[0] == "." then [] else [names[0]]) + Parts(names[1..])
  }

  function PathParts(name: string): seq<string> { Parts(WheelName.SplitOn(name, '/')) }

  predicate SafePath(name: string) {
    !StartsWith(name, "/") && !StartsWith(name, "\\") && ".." !in PathParts(name)
  }

  function BaseName(name: string): string {
    var parts := PathParts(name);
    if parts == [] then "" else parts[|parts| - 1]
  }

  /** The members outside `dist-info` whose file name is `eggpool`. */
  function Executables(names: seq<string>, distInfo: string): seq<string> {
    if names == [] then []
    else (if !StartsWith(names[0], distInfo) && BaseName(names[0]) == "eggpool" then [names[0]] else []) +
         Executables(names[1..], distInfo)
  }

  // ----- RECORD -----

  function HashCell(tools: Tools, data: Bytes): string { "sha256=" + Base64Url(tools.sha256(data)) }

  /** One row: the RECORD itself has no hash and no size, any other member has both. */
  predicate RowAccepted(tools: Tools, archive: seq<Member>, row: seq<string>) {
    && |row| == 3 && row[0] != ""
    && (if EndsWith(row[0], RECORD_SUFFIX) then row[1] == "" && row[2] == ""
        else row[1] == HashCell(tools, DataOf(archive, row[0])) && row[2] == Decimal(|DataOf(archive, row[0])|))
  }

  /** The names in the first column. */
  function RecordNames(rows: seq<seq<string>>): set<string> {
    set i | 0 <= i < |rows| && rows[i] != [] :: rows[i][0]
  }

  function NameSet(archive: seq<Member>): set<string> {
    set i | 0 <= i < |archive| :: archive[i].name
  }

  /** `_validate_record`, once the rows are parsed. */
  predicate RowsAccepted(tools: Tools, archive: seq<Member>, rows: seq<seq<string>>, executable: string) {
    && RecordNames(rows) == NameSet(archive)
    && (forall i :: 0 <= i < |rows| ==> RowAccepted(tools, archive, rows[i]))
    && executable in RecordNames(rows)
  }

  /** Every member is named by a row. */
  lemma RowOf(tools: Tools, archive: seq<Member>, rows: seq<seq<string>>, executable: string, name: string) returns (i: nat)
    requires RowsAccepted(tools, archive, rows, executable) && name in NameSet(archive)
    ensures i < |rows| && RowAccepted(tools, archive, rows[i]) && rows[i][0] == name
  {
    assert name in RecordNames(rows);
    i :| 0 <= i < |rows| && rows[i] != [] && rows[i][0] == name;
  }

  // ----- headers -----

  function HeaderValue(tools: Tools, data: Bytes, name: string): Option<string> {
    var values := tools.headers(data, name);
    if values == [] || Strip(values[0]) == "" then None else Some(Strip(values[0]))
  }

  function WithoutLeadingSlashes(s: string): string {
    if s != "" && s[0] == '/' then WithoutLeadingSlashes(s[1..]) else s
  }

  /** `tag.rsplit("-", 1)[-1]`. */
  function AfterLastDash(tag: string): string {
    var parts := WheelName.SplitOn(tag, '-');
    parts[|parts| - 1]
  }

  predicate MetadataAccepted(tools: Tools, metadata: Bytes, names: seq<string>, version: string) {
    var name, licenses := HeaderValue(tools, metadata, "Name"), tools.headers(metadata, "License-File");
    && name.Some? && Lower(name.value) == "eggpool"
    && HeaderValue(tools, metadata, "Version") == Some(version)
    && HeaderValue(tools, metadata, "Requires-Python") == Some(">=3.11")
    && HeaderValue(tools, metadata, "Summary").Some?
    && (exists i :: 0 <= i < |licenses| && EndsWith(Lower(licenses[i]), "license"))
    && (exists i, j :: 0 <= i < |licenses| && 0 <= j < |names| && EndsWith(names[j], WithoutLeadingSlashes(licenses[i])))
    && tools.headers(metadata, "Requires-Dist") == []
  }

  predicate WheelHeadersAccepted(tools: Tools, info: Bytes, platforms: seq<string>) {
    var pure, tags := HeaderValue(tools, info, "Root-Is-Purelib"), tools.headers(info, "Tag");
    && pure.Some? && Lower(pure.value) == "false" && tags != []
    && forall i :: 0 <= i < |platforms| ==> exists j :: 0 <= j < |tags| && AfterLastDash(tags[j]) == platforms[i]
  }

  // ----- the inspection -----

  /** What is kept of an accepted wheel; `executable` is the data of its executable member. */
  datatype WheelFacts = WheelFacts(tags: seq<string>, executableMember: string, executable: Bytes)

  predicate NameAccepted(a: Artifact, version: string, t: Target) {
    var name := WheelName.Parse(a.name);
    && name.Some? && name.value.version == version
    && forall i :: 0 <= i < |name.value.tags| ==> name.value.tags[i] in Platforms(t)
  }

  function ExecutableMember(version: string): string { "eggpool-" + version + ".data/scripts/eggpool" }

  /** The one `dist-info` set of an archive: METADATA, WHEEL and RECORD with one prefix. */
  function DistInfo(names: seq<string>): Option<(string, string, string)> {
    var metadata, wheel, record := Ending(names, ".dist-info/METADATA"), Ending(names, ".dist-info/WHEEL"), Ending(names, RECORD_SUFFIX);
    if |metadata| != 1 || |wheel| != 1 || |record| != 1 then None
    else
      assert metadata[0] in metadata;
      var prefix := metadata[0][..|metadata[0]| - 8];
      if StartsWith(wheel[0], prefix) && StartsWith(record[0], prefix) then Some((prefix, wheel[0], record[0])) else None
  }

  predicate ExecutableAccepted(archive: seq<Member>, member: string, t: Target) {
    && (exists i :: 0 <= i < |archive| && archive[i].name == member && archive[i].executable)
    && NativeKind(DataOf(archive, member)) == Some((t.format, t.machine))
  }

  predicate ArchiveAccepted(tools: Tools, archive: seq<Member>, platforms: seq<string>, version: string, t: Target) {
    var names := NamesOf(archive);
    var info := DistInfo(names);
    && DistinctNames(archive) && (forall i :: 0 <= i < |names| ==> SafePath(names[i]))
    && info.Some?
    && MetadataAccepted(tools, DataOf(archive, info.value.0 + "METADATA"), names, version)
    && WheelHeadersAccepted(tools, DataOf(archive, info.value.1), platforms)
    && Executables(names, info.value.0) == [ExecutableMember(version)]
    && ExecutableAccepted(archive, ExecutableMember(version), t)
    && RecordAccepted(tools, archive, ExecutableMember(version))
  }

  predicate RecordAccepted(tools: Tools, archive: seq<Member>, executable: string) {
    var info := DistInfo(NamesOf(archive));
    && info.Some? && tools.csv(DataOf(archive, info.value.2)).Some?
    && RowsAccepted(tools, archive, tools.csv(DataOf(archive, info.value.2)).value, executable)
  }

  /** `inspect_wheel`. */
  function InspectWheel(tools: Tools, a: Artifact, version: string, t: Target): Option<WheelFacts> {
    var archive := tools.unzip(a.data);
    if !IsVersion(version) || Platforms(t) == {} then None
    else if |a.data| == 0 || |a.data| >= MAX_WHEEL_BYTES || !NameAccepted(a, version, t) then None
    else if archive.None? || !ArchiveAccepted(tools, archive.value, WheelName.Parse(a.name).value.tags, version, t) then None
    else
      var tags := tools.headers(DataOf(archive.value, DistInfo(NamesOf(archive.value)).value.1), "Tag");
      Some(WheelFacts(tags, ExecutableMember(version), DataOf(archive.value, ExecutableMember(version))))
  }

  // ----- RECORD is a full witness -----

  /** The name of the RECORD of an archive that has one. */
  function RecordName(archive: seq<Member>): string
    requires DistInfo(NamesOf(archive)).Some?
  {
    DistInfo(NamesOf(archive)).value.2
  }

  lemma OneRecord(archive: seq<Member>)
    requires DistInfo(NamesOf(archive)).Some?
    ensures forall n :: n in NameSet(archive) && EndsWith(n, RECORD_SUFFIX) <==> n == RecordName(archive)
  {
    var found := Ending(NamesOf(archive), RECORD_SUFFIX);
    assert found == [RecordName(archive)];
    assert forall n :: n in found <==> n == RecordName(archive);
    assert forall n :: n in NamesOf(archive) <==> n in NameSet(archive);
  }

  predicate HasRow(rows: seq<seq<string>>, row: seq<string>) {
    exists i :: 0 <= i < |rows| && rows[i] == row
  }

  /** A hashed member has a row with its digest and its length. */
  predicate Witnessed(tools: Tools, rows: seq<seq<string>>, m: Member) {
    HasRow(rows, [m.name, HashCell(tools, m.data), Decimal(|m.data|)])
  }

  lemma MemberWitnessed(tools: Tools, archive: seq<Member>, rows: seq<seq<string>>, executable: string, k: nat)
    requires DistinctNames(archive) && RowsAccepted(tools, archive, rows, executable)
    requires k < |archive| && !EndsWith(archive[k].name, RECORD_SUFFIX)
    ensures Witnessed(tools, rows, archive[k])
  {
    var i := RowOf(tools, archive, rows, executable, archive[k].name);
    DataOfMember(archive, k);
    assert rows[i] == [rows[i][0], rows[i][1], rows[i][2]];
  }

  /**
   Exactly one member of an accepted archive, its RECORD, is not hashed and has an empty row; every other member
   has a row with its digest and length.
   */
  lemma {:induction false} RecordWitness(tools: Tools, archive: seq<Member>, executable: string)
    requires DistinctNames(archive) && RecordAccepted(tools, archive, executable)
    ensures RecordName(archive) in NameSet(archive)
    ensures var rows := tools.csv(DataOf(archive, RecordName(archive))).value;
            && HasRow(rows, [RecordName(archive), "", ""])
            && forall k :: 0 <= k < |archive| ==>
                 if archive[k].name == RecordName(archive) then !Witnessed(tools, rows, archive[k])
                 else Witnessed(tools, rows, archive[k])
  {
    OneRecord(archive);
    var rows := tools.csv(DataOf(archive, RecordName(archive))).value;
    RecordHasRow(tools, archive, rows, executable, RecordName(archive));
    forall k | 0 <= k < |archive|
      ensures if archive[k].name == RecordName(archive) then !Witnessed(tools, rows, archive[k])
              else Witnessed(tools, rows, archive[k])
    {
      assert archive[k].name in NameSet(archive);
      if archive[k].name == RecordName(archive) {
        RecordNotHashed(tools, archive, rows, executable, archive[k]);
      } else {
        MemberWitnessed(tools, archive, rows, executable, k);
      }
    }
  }

  /** The same for an inspected wheel. */
  lemma WheelWitness(tools: Tools, a: Artifact, version: string, t: Target)
    requires InspectWheel(tools, a, version, t).Some?
    ensures var archive := tools.unzip(a.data).value;
            var rows := tools.csv(DataOf(archive, RecordName(archive))).value;
            forall k :: 0 <= k < |archive| && archive[k].name != RecordName(archive) ==> Witnessed(tools, rows, archive[k])
  {
    RecordWitness(tools, tools.unzip(a.data).value, ExecutableMember(version));
  }

  lemma RecordHasRow(tools: Tools, archive: seq<Member>, rows: seq<seq<string>>, executable: string, name: string)
    requires RowsAccepted(tools, archive, rows, executable) && name in NameSet(archive) && EndsWith(name, RECORD_SUFFIX)
    ensures HasRow(rows, [name, "", ""])
  {
    var i := RowOf(tools, archive, rows, executable, name);
    assert rows[i] == [rows[i][0], rows[i][1], rows[i][2]];
  }

  lemma RecordNotHashed(tools: Tools, archive: seq<Member>, rows: seq<seq<string>>, executable: string, m: Member)
    requires RowsAccepted(tools, archive, rows, executable) && EndsWith(m.name, RECORD_SUFFIX)
    ensures !Witnessed(tools, rows, m)
  {
    forall i | 0 <= i < |rows| ensures rows[i] != [m.name, HashCell(tools, m.data), Decimal(|m.data|)] {
      assert RowAccepted(tools, archive, rows[i]);
    }
  }

  /** A row fixes the digest and the length of the member it names. */
  lemma {:induction false} RowFixesMember(tools: Tools, a: seq<Member>, b: seq<Member>, row: seq<string>)
    requires RowAccepted(tools, a, row) && RowAccepted(tools, b, row) && !EndsWith(row[0], RECORD_SUFFIX)
    ensures tools.sha256(DataOf(a, row[0])) == tools.sha256(DataOf(b, row[0]))
    ensures |DataOf(a, row[0])| == |DataOf(b, row[0])|
  {
    var x, y := DataOf(a, row[0]), DataOf(b, row[0]);
    PrefixCancels("sha256=", Base64Url(tools.sha256(x)), Base64Url(tools.sha256(y)));
    Base64UrlInjective(tools.sha256(x), tools.sha256(y));
    DecimalInjective(|x|, |y|);
  }

  /** Archives accepted with the same RECORD bytes have the same members, with the same digests and lengths. */
  lemma {:induction false} SameRecordSameMembers(tools: Tools, a: seq<Member>, b: seq<Member>, x: string, y: string, name: string)
    requires RecordAccepted(tools, a, x) && RecordAccepted(tools, b, y)
    requires DataOf(a, RecordName(a)) == DataOf(b, RecordName(b))
    ensures NameSet(a) == NameSet(b)
    ensures name in NameSet(a) ==>
              tools.sha256(DataOf(a, name)) == tools.sha256(DataOf(b, name)) && |DataOf(a, name)| == |DataOf(b, name)|
  {
    var rows := tools.csv(DataOf(a, RecordName(a))).value;
    OneRecord(a);
    OneRecord(b);
    if name in NameSet(a) && !EndsWith(name, RECORD_SUFFIX) {
      var i := RowOf(tools, a, rows, x, name);
      RowFixesMember(tools, a, b, rows[i]);
    }
  }

  /** The same for two inspected wheels. */
  lemma {:induction false} SameRecordSameWheel(tools: Tools, a: Artifact, b: Artifact, v: string, w: string, s: Target, t: Target, name: string)
    requires InspectWheel(tools, a, v, s).Some? && InspectWheel(tools, b, w, t).Some?
    requires var x, y := tools.unzip(a.data).value, tools.unzip(b.data).value;
             DataOf(x, RecordName(x)) == DataOf(y, RecordName(y))
    ensures var x, y := tools.unzip(a.data).value, tools.unzip(b.data).value;
            && NameSet(x) == NameSet(y)
            && (name in NameSet(x) ==>
                  tools.sha256(DataOf(x, name)) == tools.sha256(DataOf(y, name)) && |DataOf(x, name)| == |DataOf(y, name)|)
  {
    var x, y := tools.unzip(a.data).value, tools.unzip(b.data).value;
    SameRecordSameMembers(tools, x, y, ExecutableMember(v), ExecutableMember(w), name);
  }

  // ----- names and targets -----

  lemma PlatformsDisjoint(s: Target, t: Target, tag: string)
    requires tag in Platforms(s) && tag in Platforms(t)
    ensures s == t
  {
    assert |"manylinux2014_x86_64"| == 20 && |"manylinux_2_17_x86_64"| == 21;
    assert |"manylinux2014_aarch64"| == 21 && |"manylinux_2_17_aarch64"| == 22 && |"macosx_11_0_arm64"| == 17;
    assert "manylinux2014_aarch64"[9] == '2' && "manylinux_2_17_x86_64"[9] == '_';
  }

  /** The name of a wheel tells its target, and ends in `.whl`. */
  lemma WheelNameTellsTarget(tools: Tools, a: Artifact, b: Artifact, version: string, s: Target, t: Target)
    requires InspectWheel(tools, a, version, s).Some? && InspectWheel(tools, b, version, t).Some? && a.name == b.name
    ensures s == t && EndsWith(a.name, ".whl")
  {
    var tags := WheelName.Parse(a.name).value.tags;
    PlatformsDisjoint(s, t, tags[0]);
  }
}
