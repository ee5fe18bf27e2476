/** File names of release wheels (scripts/inspect_release_wheel.py). */
module WheelName {
  import opened Text

  /** Where `c` first stands at or after `i`, or the length. */
  function IndexFrom(s: string, c: char, i: nat): (j: nat)
    requires i <= |s|
    ensures i <= j <= |s| && (j < |s| ==> s[j] == c) && forall k :: i <= k < j ==> s[k] != c
    decreases |s| - i
  {
    if i == |s| || s[i] == c then i else IndexFrom(s, c, i + 1)
  }

  lemma {:induction false} IndexExact(a: string, c: char, rest: string)
    requires c !in a && (rest == "" || rest[0] == c)
    ensures IndexFrom(a + rest, c, 0) == |a|
  {
    var s := a + rest;
    var j := IndexFrom(s, c, 0);
    assert rest != "" ==> s[|a|] == c;
    assert forall k :: 0 <= k < |a| ==> s[k] == a[k] && a[k] in a;
  }

  // ----- str.split and str.join with one character -----

  function SplitOn(s: string, c: char): (r: seq<string>)
    ensures r != []
    decreases |s|
  {
    var i := IndexFrom(s, c, 0);
    if i == |s| then [s] else [s[..i]] + SplitOn(s[i + 1..], c)
  }

  function JoinOn(parts: seq<string>, c: char): string
    requires parts != []
  {
    if |parts| == 1 then parts[0] else parts[0] + ([c] + JoinOn(parts[1..], c))
  }

  ghost predicate Free(parts: seq<string>, c: char) {
    forall i :: 0 <= i < |parts| ==> c !in parts[i]
  }

  lemma {:induction false} JoinOfSplit(s: string, c: char)
    ensures JoinOn(SplitOn(s, c), c) == s && Free(SplitOn(s, c), c)
    decreases |s|
  {
    var i := IndexFrom(s, c, 0);
    if i < |s| {
      var rest := SplitOn(s[i + 1..], c);
      JoinOfSplit(s[i + 1..], c);
      assert ([s[..i]] + rest)[1..] == rest;
      assert s == s[..i] + ([c] + s[i + 1..]);
    }
  }

  lemma {:induction false} SplitWhole(p: string, c: char)
    requires c !in p
    ensures SplitOn(p, c) == [p]
  {
    IndexExact(p, c, "");
    assert p + "" == p;
  }

  lemma {:induction false} SplitFirst(p: string, c: char, tail: string)
    requires c !in p
    ensures SplitOn(p + ([c] + tail), c) == [p] + SplitOn(tail, c)
  {
    var s := p + ([c] + tail);
    IndexExact(p, c, [c] + tail);
    assert s[..|p|] == p && s[|p| + 1..] == tail;
  }

  lemma {:induction false} SplitOfJoin(parts: seq<string>, c: char)
    requires parts != [] && Free(parts, c)
    ensures SplitOn(JoinOn(parts, c), c) == parts
  {
    if |parts| == 1 {
      SplitWhole(parts[0], c);
    } else {
      SplitFirst(parts[0], c, JoinOn(parts[1..], c));
      SplitOfJoin(parts[1..], c);
    }
  }

  // ----- wheel names -----

  datatype Name = Name(version: string, python: string, abi: string, tags: seq<string>)

  predicate Part(s: string) { s != "" && '-' !in s }

  ghost predicate WellTagged(tags: seq<string>) {
    tags != [] && Free(tags, '.') && forall i :: 0 <= i < |tags| ==> tags[i] != ""
  }

  ghost predicate WellNamed(n: Name) {
    Part(n.version) && Part(n.python) && Part(n.abi) && WellTagged(n.tags)
  }

  function Dashed(part: string, rest: string): string { part + ("-" + rest) }

  /** The name after its prefix. */
  function Body(n: Name): string
    requires n.tags != []
  {
    Dashed(n.version, Dashed(n.python, Dashed(n.abi, JoinOn(n.tags, '.') + ".whl")))
  }

  function Render(n: Name): string
    requires n.tags != []
  {
    "eggpool-" + Body(n)
  }

  /** A non-empty part, the dash after it and the rest. */
  function TakePart(s: string): Option<(string, string)> {
    var i := IndexFrom(s, '-', 0);
    if i == 0 || i == |s| then None else Some((s[..i], s[i + 1..]))
  }

  function TakeTags(s: string): Option<seq<string>> {
    if !EndsWith(s, ".whl") then None
    else
      var tags := SplitOn(s[..|s| - 4], '.');
      if exists i :: 0 <= i < |tags| && tags[i] == "" then None else Some(tags)
  }

  /** `WHEEL_NAME_RE.fullmatch`. */
  function Parse(name: string): (r: Option<Name>)
    ensures r.Some? ==> r.value.tags != [] && EndsWith(name, ".whl")
  {
    if !StartsWith(name, "eggpool-") then None else
    match TakePart(name[8..])
    case None => None
    case Some((version, afterVersion)) =>
      match TakePart(afterVersion)
      case None => None
      case Some((python, afterPython)) =>
        match TakePart(afterPython)
        case None => None
        case Some((abi, afterAbi)) =>
          match TakeTags(afterAbi)
          case None => None
          case Some(tags) =>
            EndOfRest(name[8..], afterVersion);
            EndOfRest(afterVersion, afterPython);
            EndOfRest(afterPython, afterAbi);
            EndOfSlice(name, 8, ".whl");
            Some(Name(version, python, abi, tags))
  }

  lemma EndOfSlice(s: string, i: nat, suffix: string)
    requires i <= |s| && EndsWith(s[i..], suffix)
    ensures EndsWith(s, suffix)
  {
    assert s[i..][|s[i..]| - |suffix|..] == s[|s| - |suffix|..];
  }

  lemma EndOfRest(s: string, rest: string)
    requires TakePart(s).Some? && TakePart(s).value.1 == rest
    ensures EndsWith(rest, ".whl") ==> EndsWith(s, ".whl")
  {
    if EndsWith(rest, ".whl") { EndOfSlice(s, IndexFrom(s, '-', 0) + 1, ".whl"); }
  }

  lemma TakePartExact(s: string, part: string, rest: string)
    ensures TakePart(s) == Some((part, rest)) <==> Part(part) && s == Dashed(part, rest)
  {
    var i := IndexFrom(s, '-', 0);
    if Part(part) && s == Dashed(part, rest) {
      IndexExact(part, '-', "-" + rest);
      assert s[..i] == part && s[i + 1..] == rest;
    }
    if TakePart(s).Some? {
      assert s == s[..i] + ("-" + s[i + 1..]);
      assert '-' !in s[..i];
    }
  }

  lemma {:induction false} TakeTagsExact(s: string, tags: seq<string>)
    ensures TakeTags(s) == Some(tags) <==> WellTagged(tags) && s == JoinOn(tags, '.') + ".whl"
  {
    if WellTagged(tags) && s == JoinOn(tags, '.') + ".whl" {
      assert s[..|s| - 4] == JoinOn(tags, '.') && s[|s| - 4..] == ".whl";
      SplitOfJoin(tags, '.');
    }
    if TakeTags(s).Some? {
      JoinOfSplit(s[..|s| - 4], '.');
      assert s == s[..|s| - 4] + s[|s| - 4..];
    }
  }

  lemma BodyReads(n: Name, a: string, b: string, c: string)
    requires WellNamed(n) && c == JoinOn(n.tags, '.') + ".whl" && b == Dashed(n.abi, c) && a == Dashed(n.python, b)
    ensures TakePart(Body(n)) == Some((n.version, a)) && TakePart(a) == Some((n.python, b))
    ensures TakePart(b) == Some((n.abi, c)) && TakeTags(c) == Some(n.tags)
  {
    TakePartExact(Body(n), n.version, a);
    TakePartExact(a, n.python, b);
    TakePartExact(b, n.abi, c);
    TakeTagsExact(c, n.tags);
  }

  lemma BodyRenders(s: string, n: Name, a: string, b: string, c: string)
    requires TakePart(s) == Some((n.version, a)) && TakePart(a) == Some((n.python, b))
    requires TakePart(b) == Some((n.abi, c)) && TakeTags(c) == Some(n.tags)
    ensures WellNamed(n) && Body(n) == s
  {
    TakePartExact(s, n.version, a);
    TakePartExact(a, n.python, b);
    TakePartExact(b, n.abi, c);
    TakeTagsExact(c, n.tags);
  }

  lemma RenderedParses(n: Name)
    requires WellNamed(n)
    ensures Parse(Render(n)) == Some(n)
  {
    var name := Render(n);
    assert name[..8] == "eggpool-" && name[8..] == Body(n);
    var c := JoinOn(n.tags, '.') + ".whl";
    var b := Dashed(n.abi, c);
    BodyReads(n, Dashed(n.python, b), b, c);
  }

  lemma ParsedRenders(name: string)
    ensures Parse(name).Some? ==> WellNamed(Parse(name).value) && Render(Parse(name).value) == name
  {
    if Parse(name).Some? {
      var a := TakePart(name[8..]).value.1;
      var b := TakePart(a).value.1;
      BodyRenders(name[8..], Parse(name).value, a, b, TakePart(b).value.1);
      assert name == "eggpool-" + name[8..];
    }
  }

  /** The pattern accepts exactly the rendered names, and each in one way. */
  lemma ParseExact(name: string, n: Name)
    ensures Parse(name) == Some(n) <==> WellNamed(n) && Render(n) == name
  {
    if WellNamed(n) && Render(n) == name { RenderedParses(n); }
    ParsedRenders(name);
  }
}
