/** Raw executables and desktop helpers of a release (scripts/inspect_release_raw.py, scripts/inspect_connect_artifact.py). */
module Binaries {
  import opened Encoding
  import opened Text
  import opened Version

  // ----- native executables -----

  datatype Format = Elf | MachO | Pe

  function Little16(b: Bytes, i: nat): nat
    requires i + 2 <= |b|
  {
    (b[i] as int) + 256 * (b[i + 1] as int)
  }

  function Little32(b: Bytes, i: nat): nat
    requires i + 4 <= |b|
  {
    Little16(b, i) + 65536 * Little16(b, i + 2)
  }

  function Big32(b: Bytes, i: nat): nat
    requires i + 4 <= |b|
  {
    (b[i + 3] as int) + 256 * ((b[i + 2] as int) + 256 * ((b[i + 1] as int) + 256 * (b[i] as int)))
  }

  const ELF_MAGIC: Bytes := [0x7F, 0x45, 0x4C, 0x46]
  const MACHO_LITTLE: Bytes := [0xCF, 0xFA, 0xED, 0xFE]
  const MACHO_BIG: Bytes := [0xFE, 0xED, 0xFA, 0xCF]
  const MZ_MAGIC: Bytes := [0x4D, 0x5A]
  const PE_MAGIC: Bytes := [0x50, 0x45, 0, 0]

  /** Format and machine number of an ELF or 64-bit Mach-O file. */
  function NativeKind(payload: Bytes): Option<(Format, nat)> {
    if ELF_MAGIC <= payload && |payload| >= 20 then Some((Elf, Little16(payload, 18)))
    else if MACHO_LITTLE <= payload && |payload| >= 8 then Some((MachO, Little32(payload, 4)))
    else if MACHO_BIG <= payload && |payload| >= 8 then Some((MachO, Big32(payload, 4)))
    else None
  }

  /** The same, or of a PE file; one without a readable COFF header has machine 0. */
  function HelperKind(payload: Bytes): Option<(Format, nat)> {
    if NativeKind(payload).Some? then NativeKind(payload)
    else if MZ_MAGIC <= payload && |payload| >= 64 then
      var header := Little32(payload, 60);
      if header + 6 <= |payload| && payload[header..header + 4] == PE_MAGIC then Some((Pe, Little16(payload, header + 4)))
      else Some((Pe, 0))
    else None
  }

  // ----- targets -----

  datatype Target = Target(name: string, rustTarget: string, os: string, arch: string, format: Format, machine: nat, suffix: string)

  const LINUX_AARCH64 := Target("linux-aarch64", "aarch64-unknown-linux-gnu", "linux", "aarch64", Elf, 183, "")
  const LINUX_X86_64 := Target("linux-x86_64", "x86_64-unknown-linux-gnu", "linux", "x86_64", Elf, 62, "")
  const MACOS_ARM64 := Target("macos-arm64", "aarch64-apple-darwin", "macos", "aarch64", MachO, 0x0100000C, "")
  const WINDOWS_X86_64 := Target("windows-x86_64", "x86_64-pc-windows-msvc", "windows", "x86_64", Pe, 0x8664, ".exe")

  /** The target classes of the proxy, sorted by name. */
  const TARGETS := [LINUX_AARCH64, LINUX_X86_64, MACOS_ARM64]

  /** The targets of the helper, sorted by name. */
  const CONNECT_TARGETS := [LINUX_AARCH64, LINUX_X86_64, MACOS_ARM64, WINDOWS_X86_64]

  /** The name of a helper's target class. */
  function ConnectClass(t: Target): string { "connect-" + t.name }

  const CONNECT_BOOTSTRAPS := ["eggpool-connect.sh", "eggpool-connect.ps1"]

  const MAX_RAW_BYTES := 100_000_000
  const MAX_CONNECT_BYTES := 50_000_000
  const MAX_BOOTSTRAP_BYTES := 65_536

  predicate IsVersion(s: string) { Parse(s).Some? }

  // ----- inspections -----

  /** A file as the inspectors see it. */
  datatype Artifact = Artifact(name: string, data: Bytes, executable: bool)

  datatype Facts = Facts(sha256: string, size: nat)

  function FactsOf(sha256: Bytes -> Digest, a: Artifact): Facts { Facts(Hex(sha256(a.data)), |a.data|) }

  function RawName(version: string, t: Target): string { "eggpool-" + version + ("-" + t.os + "-" + t.arch) }

  function ConnectName(version: string, t: Target): string {
    "eggpool-connect-" + version + ("-" + t.os + "-" + t.arch + t.suffix)
  }

  /** `inspect_raw`. */
  function InspectRaw(sha256: Bytes -> Digest, a: Artifact, version: string, t: Target): Option<Facts> {
    if !IsVersion(version) || a.name != RawName(version, t) then None
    else if |a.data| == 0 || |a.data| >= MAX_RAW_BYTES || !a.executable then None
    else if NativeKind(a.data) != Some((t.format, t.machine)) then None
    else Some(FactsOf(sha256, a))
  }

  /** `inspect_connect_artifact`. */
  function InspectConnect(sha256: Bytes -> Digest, a: Artifact, version: string, t: Target): Option<Facts> {
    if !IsVersion(version) || a.name != ConnectName(version, t) then None
    else if |a.data| == 0 || |a.data| >= MAX_CONNECT_BYTES || (t.os != "windows" && !a.executable) then None
    else if HelperKind(a.data) != Some((t.format, t.machine)) then None
    else Some(FactsOf(sha256, a))
  }

  /** `inspect_connect_bootstrap`; `utf8` is the decoder. */
  function InspectBootstrap(sha256: Bytes -> Digest, utf8: Bytes -> Option<string>, a: Artifact): Option<Facts> {
    if a.name !in CONNECT_BOOTSTRAPS then None
    else if |a.data| == 0 || |a.data| > MAX_BOOTSTRAP_BYTES then None
    else if utf8(a.data).None? || '\0' in utf8(a.data).value then None
    else Some(FactsOf(sha256, a))
  }

  // ----- names -----

  /** Raw names of different targets differ, and none is the name of a wheel. */
  lemma RawNamesDiffer(version: string, s: Target, t: Target)
    requires s in TARGETS && t in TARGETS
    ensures RawName(version, s) == RawName(version, t) ==> s == t
    ensures !EndsWith(RawName(version, s), ".whl")
  {
    var x, y := "-" + s.os + "-" + s.arch, "-" + t.os + "-" + t.arch;
    SuffixChar(RawName(version, s), ".whl", 1);
    assert RawName(version, s)[|RawName(version, s)| - 1] == x[|x| - 1] == '4';
    if RawName(version, s) == RawName(version, t) {
      PrefixCancels("eggpool-" + version, x, y);
      assert s == LINUX_X86_64 ==> |x| == 13;
      assert s == LINUX_AARCH64 ==> |x| == 14 && x[1] == 'l';
      assert s == MACOS_ARM64 ==> |x| == 14 && x[1] == 'm';
    }
  }

  /** Recorded digests and sizes agree exactly when the SHA-256 digests and the sizes do. */
  lemma FactsDecide(sha256: Bytes -> Digest, a: Artifact, b: Artifact)
    ensures FactsOf(sha256, a) == FactsOf(sha256, b) <==> sha256(a.data) == sha256(b.data) && |a.data| == |b.data|
  {
    if FactsOf(sha256, a) == FactsOf(sha256, b) { HexInjective(sha256(a.data), sha256(b.data)); }
  }
}
