/**
 Workflows on which helper removal goes wrong although the text of every helper block occurs once: the last
 block is a helper without a final line break, and removing another helper first brings an earlier copy of
 its text together.
 */
module UnterminatedHelper {
  import opened HelperJobs
  import opened Text
  import opened Workflow

  // ----- the lines -----

  predicate JobName(name: string) {
    name != "" && IsLower(name[0]) && forall i :: 0 <= i < |name| ==> IsNameChar(name[i])
  }

  function Header(name: string): string { "  " + name + ":\n" }

  const JOBS := "jobs:\n"
  const OTHER := "  o:\n"
  const TAIL := "  o"

  /** Indented once more, a header line is no header. */
  function Decoy(name: string): string { "  " + Header(name) }

  function Lines(a: string, b: string): seq<string> {
    [JOBS, Decoy(b), Header(a), OTHER, Header(b), TAIL]
  }

  function Sample(a: string, b: string): string {
    JOBS + (Decoy(b) + (Header(a) + (OTHER + (Header(b) + TAIL))))
  }

  /** A line whose only line break is a final line feed. */
  predicate PlainLine(l: string) {
    l != "" && l[|l| - 1] == '\n' && forall i :: 0 <= i < |l| - 1 ==> !IsLineBreak(l[i])
  }

  lemma {:induction false} PlainLineEnd(l: string, rest: string)
    requires PlainLine(l)
    ensures LineEnd(l + rest, 0) == |l|
  {
    var s := l + rest;
    var e := LineEnd(s, 0);
    assert s[|l| - 1] == '\n';
    assert |l| < |s| ==> BreakAt(s, |l|);
    assert forall i :: 0 <= i < |l| ==> s[i] == l[i];
  }

  lemma PlainLineSplits(l: string, rest: string)
    requires PlainLine(l)
    ensures SplitLines(l + rest) == [l] + SplitLines(rest)
  {
    PlainLineEnd(l, rest);
    LinesOfRest(l + rest, |l|);
    assert (l + rest)[0..|l|] == l && (l + rest)[|l|..] == rest;
  }

  lemma HeaderPlain(name: string)
    requires JobName(name)
    ensures PlainLine(Header(name)) && PlainLine(Decoy(name))
  {
    var l := Header(name);
    forall i | 0 <= i < |l| - 1 ensures !IsLineBreak(l[i]) {
      if 2 <= i < 2 + |name| { assert l[i] == name[i - 2]; }
    }
    forall i | 0 <= i < |Decoy(name)| - 1 ensures !IsLineBreak(Decoy(name)[i]) {
      if i >= 2 { assert Decoy(name)[i] == l[i - 2]; }
    }
  }

  lemma TailSplits()
    ensures SplitLines(TAIL) == [TAIL]
  {
    assert LineEnd(TAIL, 0) == 3;
    assert TAIL[0..3] == TAIL;
  }

  lemma SampleSplits(a: string, b: string)
    requires JobName(a) && JobName(b)
    ensures SplitLines(Sample(a, b)) == Lines(a, b)
  {
    HeaderPlain(a);
    HeaderPlain(b);
    TailSplits();
    PlainLineSplits(Header(b), TAIL);
    PlainLineSplits(OTHER, Header(b) + TAIL);
    PlainLineSplits(Header(a), OTHER + (Header(b) + TAIL));
    PlainLineSplits(Decoy(b), Header(a) + (OTHER + (Header(b) + TAIL)));
    PlainLineSplits(JOBS, Decoy(b) + (Header(a) + (OTHER + (Header(b) + TAIL))));
  }

  // ----- the entries -----

  lemma HeaderOf(name: string)
    requires JobName(name)
    ensures HeaderName(Header(name)) == Some(name) && HeaderName(Decoy(name)) == None
  {
    var line := Header(name);
    var rest := line[2..];
    assert rest == name + ":\n";
    NameLengthOf(rest, |name|);
    assert line[2..2 + |name|] == name && line[3 + |name|..] == "\n";
    assert Decoy(name)[2] == ' ';
  }

  lemma FixedHeaders()
    ensures HeaderName(OTHER) == Some("o") && HeaderName(TAIL) == None && HeaderName(JOBS) == None
    ensures IsJobsLine(JOBS)
  {
    HeaderOf("o");
    assert Header("o") == OTHER;
    assert TAIL[2..] == "o" && NameLength("o") == 1;
    assert JOBS[..5] == "jobs:" && JOBS[5..] == "\n";
  }

  lemma {:induction false} StartsEnd(lines: seq<string>)
    requires |lines| == 6 && HeaderName(lines[3]).Some? && HeaderName(lines[4]).Some? && HeaderName(lines[5]).None?
    ensures Starts(lines, 3) == [3, 4]
  {
    StartsHere(lines, 5);
    StartsHere(lines, 4);
    StartsHere(lines, 3);
  }

  lemma {:induction false} ThreeStarts(lines: seq<string>)
    requires |lines| == 6 && HeaderName(lines[1]).None? && HeaderName(lines[5]).None?
    requires HeaderName(lines[2]).Some? && HeaderName(lines[3]).Some? && HeaderName(lines[4]).Some?
    ensures Starts(lines, 1) == [2, 3, 4]
  {
    StartsEnd(lines);
    StartsHere(lines, 2);
    StartsHere(lines, 1);
  }

  lemma StartsHere(lines: seq<string>, i: nat)
    requires i < |lines|
    ensures Starts(lines, i) == (if HeaderName(lines[i]).Some? then [i] else []) + Starts(lines, i + 1)
  {}

  lemma HeadersFound(a: string, b: string)
    requires JobName(a) && JobName(b)
    ensures var lines := Lines(a, b);
            && IsJobsLine(lines[0]) && HeaderName(lines[1]) == None && HeaderName(lines[5]) == None
            && HeaderName(lines[2]) == Some(a) && HeaderName(lines[3]) == Some("o") && HeaderName(lines[4]) == Some(b)
  {
    HeaderOf(a);
    HeaderOf(b);
    FixedHeaders();
  }

  function Blocks(a: string, b: string): Dict {
    [(a, Header(a)), ("o", OTHER), (b, Header(b) + TAIL)]
  }

  lemma JoinOne(x: string)
    ensures Join([x]) == x
  {}

  lemma JoinTwo(x: string, y: string)
    ensures Join([x, y]) == x + y
  {
    assert [x, y][1..] == [y];
    JoinOne(y);
  }

  lemma PiecesJoin(a: string, b: string)
    ensures var lines := Lines(a, b);
            && Join(lines[2..3]) == Header(a) && Join(lines[3..4]) == OTHER && Join(lines[4..6]) == Header(b) + TAIL
            && Join(lines[..2]) == JOBS + Decoy(b)
  {
    var lines := Lines(a, b);
    assert lines[2..3] == [Header(a)] && lines[3..4] == [OTHER] && lines[4..6] == [Header(b), TAIL] && lines[..2] == [JOBS, Decoy(b)];
    JoinOne(Header(a));
    JoinOne(OTHER);
    JoinTwo(Header(b), TAIL);
    JoinTwo(JOBS, Decoy(b));
  }

  lemma ThreeEntries(lines: seq<string>, starts: seq<nat>, d: Dict)
    requires |lines| == 6 && starts == [2, 3, 4] && ValidStarts(lines, starts) && |d| == 3
    requires HeaderName(lines[2]) == Some(d[0].0) && HeaderName(lines[3]) == Some(d[1].0) && HeaderName(lines[4]) == Some(d[2].0)
    requires Join(lines[2..3]) == d[0].1 && Join(lines[3..4]) == d[1].1 && Join(lines[4..6]) == d[2].1
    ensures EntryList(lines, starts) == d
  {
    assert Entry(lines, starts, 0) == d[0] && Entry(lines, starts, 1) == d[1] && Entry(lines, starts, 2) == d[2];
  }

  lemma ThreeJobs(lines: seq<string>)
    requires |lines| == 6 && IsJobsLine(lines[0]) && HeaderName(lines[1]).None? && HeaderName(lines[5]).None?
    requires HeaderName(lines[2]).Some? && HeaderName(lines[3]).Some? && HeaderName(lines[4]).Some?
    ensures HasJobs(lines) && JobStarts(lines) == [2, 3, 4]
  {
    ThreeStarts(lines);
    assert JobsIndex(lines) == 0;
  }

  lemma BlocksFound(a: string, b: string, lines: seq<string>)
    requires JobName(a) && JobName(b) && lines == Lines(a, b)
    ensures HasJobs(lines) && JobStarts(lines) == [2, 3, 4] && EntryList(lines, JobStarts(lines)) == Blocks(a, b)
  {
    HeadersFound(a, b);
    ThreeJobs(lines);
    PiecesJoin(a, b);
    ThreeEntries(lines, JobStarts(lines), Blocks(a, b));
  }

  lemma SampleBlocks(a: string, b: string)
    requires JobName(a) && JobName(b)
    ensures HasJobs(SplitLines(Sample(a, b)))
    ensures Entries(Sample(a, b)) == Blocks(a, b) && Preamble(Sample(a, b)) == JOBS + Decoy(b)
  {
    SampleSplits(a, b);
    BlocksFound(a, b, Lines(a, b));
    PiecesJoin(a, b);
  }

  // ----- one occurrence -----

  /** Only the line ends hold line feeds. */
  lemma LineFeeds(l: string, rest: string, x: nat)
    requires PlainLine(l) && x < |l| + |rest| && (l + rest)[x] == '\n'
    ensures x + 1 == |l| || (x >= |l| && rest[x - |l|] == '\n')
  {
    if x < |l| { assert (l + rest)[x] == l[x]; }
  }

  /** A header that ends where another one ends is that one. */
  lemma HeaderEndsUnique(before: string, a: string, b: string)
    requires JobName(a) && JobName(b) && EndsWith(before + Header(a), Header(b))
    ensures a == b
  {
    var s, h := before + Header(a), Header(b);
    SuffixChar(s, h, |a| + 3);
    SuffixChar(s, h, |b| + 3);
    if |a| == |b| {
      assert Header(a) == s[|before|..] == h;
      assert a == Header(a)[2..2 + |a|] && b == h[2..2 + |b|];
    }
  }

  ghost predicate Names(a: string, b: string) {
    JobName(a) && JobName(b) && a != b && a[0] != 'o' && b[0] != 'o'
  }

  /** In five complete lines and a rest without line feed, line feeds stand at the five line ends. */
  lemma FiveLineFeeds(l1: string, l2: string, l3: string, l4: string, l5: string, rest: string, x: nat)
    requires PlainLine(l1) && PlainLine(l2) && PlainLine(l3) && PlainLine(l4) && PlainLine(l5) && '\n' !in rest
    requires x < |l1 + (l2 + (l3 + (l4 + (l5 + rest))))| && (l1 + (l2 + (l3 + (l4 + (l5 + rest)))))[x] == '\n'
    ensures var p2 := |l1| + |l2|; var p3 := p2 + |l3|; var p4 := p3 + |l4|;
            x + 1 == |l1| || x + 1 == p2 || x + 1 == p3 || x + 1 == p4 || x + 1 == p4 + |l5|
  {
    var s5 := l5 + rest;
    var s4 := l4 + s5;
    var s3 := l3 + s4;
    var s2 := l2 + s3;
    LineFeeds(l1, s2, x);
    if x + 1 != |l1| {
      LineFeeds(l2, s3, x - |l1|);
      if x + 1 != |l1| + |l2| {
        LineFeeds(l3, s4, x - |l1| - |l2|);
        if x + 1 != |l1| + |l2| + |l3| {
          LineFeeds(l4, s5, x - |l1| - |l2| - |l3|);
          if x + 1 != |l1| + |l2| + |l3| + |l4| { LineFeeds(l5, rest, x - |l1| - |l2| - |l3| - |l4|); }
        }
      }
    }
  }

  /** The text up to the end of an occurrence ends with what occurs. */
  lemma OccurrenceEnds(text: string, h: string, i: int)
    requires OccursAt(text, h, i)
    ensures EndsWith(text[..i + |h|], h)
  {
    assert text[..i + |h|][i..] == text[i..i + |h|];
  }

  lemma FivePrefixes(l1: string, l2: string, l3: string, l4: string, l5: string, rest: string)
    ensures var t := l1 + (l2 + (l3 + (l4 + (l5 + rest)))); var p2 := |l1| + |l2|; var p3 := p2 + |l3|; var p4 := p3 + |l4|;
            && t[..|l1|] == l1 && t[..p2] == l1 + l2 && t[..p3] == l1 + l2 + l3 && t[..p4] == l1 + l2 + l3 + l4
            && t[..p4 + |l5|] == l1 + l2 + l3 + l4 + l5
  {}

  /** Anything that ends in a line feed occurs only at the end of a line. */
  lemma OccursAtLineEnd(l1: string, l2: string, l3: string, l4: string, l5: string, rest: string, h: string, i: int)
    requires PlainLine(l1) && PlainLine(l2) && PlainLine(l3) && PlainLine(l4) && PlainLine(l5) && '\n' !in rest
    requires h != "" && h[|h| - 1] == '\n' && OccursAt(l1 + (l2 + (l3 + (l4 + (l5 + rest)))), h, i)
    ensures var p2 := |l1| + |l2|; var p3 := p2 + |l3|; var p4 := p3 + |l4|;
            || (i + |h| == |l1| && EndsWith(l1, h))
            || (i + |h| == p2 && EndsWith(l1 + l2, h))
            || (i + |h| == p3 && EndsWith(l1 + l2 + l3, h))
            || (i + |h| == p4 && EndsWith(l1 + l2 + l3 + l4, h))
            || (i + |h| == p4 + |l5| && EndsWith(l1 + l2 + l3 + l4 + l5, h))
  {
    var t := l1 + (l2 + (l3 + (l4 + (l5 + rest))));
    OccurrenceChar(t, h, i, |h| - 1);
    FiveLineFeeds(l1, l2, l3, l4, l5, rest, i + |h| - 1);
    OccurrenceEnds(t, h, i);
    FivePrefixes(l1, l2, l3, l4, l5, rest);
  }

  lemma NotAtJobsLine(h: string)
    requires JobName(h)
    ensures !EndsWith(JOBS, Header(h))
  {
    SuffixChar(JOBS, Header(h), |Header(h)|);
  }

  lemma NotAtOtherHeader(before: string, x: string, h: string)
    requires JobName(x) && JobName(h) && x != h
    ensures !EndsWith(before + Header(x), Header(h))
  {
    if EndsWith(before + Header(x), Header(h)) { HeaderEndsUnique(before, x, h); }
  }

  /** Where the header of a job can occur: only in its own place or in the decoy. */
  lemma HeaderPlaces(a: string, b: string, h: string, i: int)
    requires Names(a, b) && (h == a || h == b) && OccursAt(Sample(a, b), Header(h), i)
    ensures h == a ==> i == |JOBS| + |Decoy(b)|
    ensures h == b ==> i == |JOBS| + 2 || i == |JOBS| + |Decoy(b)| + |Header(a)| + |OTHER|
  {
    HeaderPlain(a);
    HeaderPlain(b);
    OccursAtLineEnd(JOBS, Decoy(b), Header(a), OTHER, Header(b), TAIL, Header(h), i);
    NotAtJobsLine(h);
    assert (JOBS + "  ") + Header(b) == JOBS + Decoy(b);
    assert Header("o") == OTHER;
    NotAtOtherHeader(JOBS + Decoy(b) + Header(a), "o", h);
    if h == a {
      NotAtOtherHeader(JOBS + "  ", b, h);
      NotAtOtherHeader(JOBS + Decoy(b) + Header(a) + OTHER, b, h);
    } else {
      NotAtOtherHeader(JOBS + Decoy(b), a, h);
    }
  }

  lemma StartsOfOccurrence(t: string, h: string, rest: string, i: int)
    requires OccursAt(t, h + rest, i)
    ensures OccursAt(t, h, i)
  {
    assert t[i..i + |h|] == t[i..i + |h + rest|][..|h|];
  }

  lemma AfterDecoy(a: string, b: string)
    requires a != ""
    ensures |Sample(a, b)| > |JOBS| + |Decoy(b)| + 2 && Sample(a, b)[|JOBS| + |Decoy(b)| + 2] == a[0]
  {
    var n := |JOBS| + |Decoy(b)|;
    var rest := OTHER + (Header(b) + TAIL);
    assert Sample(a, b) == (JOBS + Decoy(b)) + (Header(a) + rest);
    assert Sample(a, b)[n + 2] == Header(a)[2];
  }

  lemma BlockPlace(a: string, b: string, i: int)
    requires Names(a, b) && OccursAt(Sample(a, b), Header(b) + TAIL, i)
    ensures i == |JOBS| + |Decoy(b)| + |Header(a)| + |OTHER|
  {
    var t, block := Sample(a, b), Header(b) + TAIL;
    StartsOfOccurrence(t, Header(b), TAIL, i);
    HeaderPlaces(a, b, b, i);
    OccurrenceChar(t, block, i, |block| - 1);
    AfterDecoy(a, b);
  }

  lemma HelpersOccurOnce(a: string, b: string)
    requires Names(a, b)
    ensures OccursOnce(Sample(a, b), Header(a)) && OccursOnce(Sample(a, b), Header(b) + TAIL)
  {
    var t, block := Sample(a, b), Header(b) + TAIL;
    forall i | OccursAt(t, Header(a), i) ensures i == |JOBS| + |Decoy(b)| { HeaderPlaces(a, b, a, i); }
    forall i | OccursAt(t, block, i) ensures i == |JOBS| + |Decoy(b)| + |Header(a)| + |OTHER| { BlockPlace(a, b, i); }
  }

  // ----- the wrong removal -----

  /** What is left in front of the last block when its turn comes. */
  function Front(b: string): string { JOBS + Decoy(b) + OTHER }

  /** The decoy brings a copy of the last block together. */
  lemma DecoyHoldsBlock(b: string)
    ensures !NotBefore(Front(b), Header(b) + TAIL)
  {
    var lead, block := JOBS + "  ", Header(b) + TAIL;
    var t := Front(b) + block;
    assert t == lead + (block + (":\n" + block));
    assert t[|lead|..|lead| + |block|] == block;
    assert OccursAt(t, block, |lead|);
  }

  // ----- the helper jobs of the release workflow -----

  /** The first two jobs to remove are `a` and `b`; the rest, and the other job, are neither. */
  ghost predicate Removes(jobs: seq<string>, a: string, b: string) {
    && |jobs| >= 2 && jobs[0] == a && jobs[1] == b && "o" !in jobs
    && forall i :: 2 <= i < |jobs| ==> jobs[i] != a && jobs[i] != b
  }

  lemma {:induction false} StrangersRemoveNothing(text: string, d: Dict, jobs: seq<string>, k: nat)
    requires k <= |jobs| && forall i :: k <= i < |jobs| ==> Lookup(d, jobs[i]).None?
    ensures RemoveEach(text, d, jobs) == RemoveEach(text, d, jobs[..k])
  {
    if k == |jobs| {
      assert jobs[..k] == jobs;
    } else {
      StrangersRemoveNothing(text, d, jobs[..|jobs| - 1], k);
      assert jobs[..|jobs| - 1][..k] == jobs[..k];
    }
  }

  lemma BlocksLookup(a: string, b: string, job: string)
    requires Names(a, b)
    ensures Lookup(Blocks(a, b), a) == Some(Header(a)) && Lookup(Blocks(a, b), b) == Some(Header(b) + TAIL)
    ensures job != a && job != b && job != "o" ==> Lookup(Blocks(a, b), job) == None
  {
    var d := Blocks(a, b);
    assert "o"[0] == 'o' && a != "o" && b != "o";
    assert d[0].0 == a && d[1].0 == "o" && d[2].0 == b;
    assert IndexOf(d, a) == 0 && IndexOf(d, b) == 2;
  }

  lemma {:induction false} StrangersIgnored(a: string, b: string, jobs: seq<string>)
    requires Names(a, b) && Removes(jobs, a, b)
    ensures RemoveEach(Sample(a, b), Blocks(a, b), jobs) == RemoveEach(Sample(a, b), Blocks(a, b), [a, b])
  {
    forall i | 2 <= i < |jobs| ensures Lookup(Blocks(a, b), jobs[i]).None? {
      assert jobs[i] in jobs;
      BlocksLookup(a, b, jobs[i]);
    }
    StrangersRemoveNothing(Sample(a, b), Blocks(a, b), jobs, 2);
    assert jobs[..2] == [a, b];
  }

  lemma {:induction false} KeptOnSample(a: string, b: string, jobs: seq<string>)
    requires a in jobs && b in jobs && "o" !in jobs
    ensures Keep(Blocks(a, b), jobs) == [("o", OTHER)]
  {
    var x, y, z := (a, Header(a)), ("o", OTHER), (b, Header(b) + TAIL);
    KeepCons(x, [y, z], jobs);
    KeepCons(y, [z], jobs);
    KeepCons(z, [], jobs);
    assert Blocks(a, b) == [x] + [y, z] && [y, z] == [y] + [z] && [z] == [z] + [];
  }

  lemma {:induction false} KeepSecond(x: (string, string), y: (string, string))
    requires x.0 != y.0
    ensures Keep([x, y], [x.0]) == [y]
  {
    KeepCons(x, [y], [x.0]);
    KeepCons(y, [], [x.0]);
    assert [x] + [y] == [x, y] && [y] + [] == [y];
  }

  lemma {:induction false} LeftOnSample(a: string, b: string)
    requires Names(a, b)
    ensures LeftBefore(JOBS + Decoy(b), Blocks(a, b), [a, b], 1) == Front(b)
  {
    var x, y := (a, Header(a)), ("o", OTHER);
    assert "o"[0] == 'o' && a != "o";
    assert Blocks(a, b)[..2] == [x, y] && [a, b][..1] == [a];
    KeepSecond(x, y);
    assert Values([y]) == [OTHER];
    JoinOne(OTHER);
  }

  lemma SampleEndsOpen(a: string, b: string)
    ensures !Terminated(Sample(a, b))
  {
    var t := Sample(a, b);
    assert t[|t| - 1] == 'o';
  }

  /** The last block is not found in its place. */
  lemma {:induction false} LastNotFound(a: string, b: string)
    requires Names(a, b)
    ensures !LastFound(Sample(a, b), JOBS + Decoy(b), Blocks(a, b), [a, b])
  {
    SampleEndsOpen(a, b);
    LeftOnSample(a, b);
    DecoyHoldsBlock(b);
    assert [a, b][1] == Blocks(a, b)[2].0;
  }

  /**
   Distinct job names, and the text of each removed block occurs once, yet the removal is not exact: the block
   that ends the file has no line break, and an earlier copy of its text is removed in its place.
   */
  lemma {:induction false} RemovalNotExact(a: string, b: string, jobs: seq<string>)
    requires Names(a, b) && Removes(jobs, a, b)
    ensures var t := Sample(a, b);
            && HasJobs(SplitLines(t)) && DistinctKeys(Entries(t))
            && EachOnce(t, Entries(t), jobs)
            && RemoveEach(t, PutAll(Entries(t)), jobs) != Preamble(t) + Join(Values(Keep(Entries(t), jobs)))
  {
    var t, d := Sample(a, b), Blocks(a, b);
    SampleBlocks(a, b);
    assert Entries(t) == d;
    BlocksOccurOnce(a, b, jobs);
    BlocksOccurOnce(a, b, [a, b]);
    PutAllDistinct(d);
    WorkflowCut(t);
    RemovalExactly(t, Preamble(t), d, [a, b]);
    LastNotFound(a, b);
    StrangersIgnored(a, b, jobs);
    assert [a, b][0] == a && [a, b][1] == b;
    KeptOnSample(a, b, jobs);
    KeptOnSample(a, b, [a, b]);
  }

  lemma BlocksOccurOnce(a: string, b: string, jobs: seq<string>)
    requires Names(a, b) && Removes(jobs, a, b)
    ensures DistinctKeys(Blocks(a, b))
    ensures forall h :: 0 <= h < |Blocks(a, b)| && Blocks(a, b)[h].0 in jobs ==> OccursOnce(Sample(a, b), Blocks(a, b)[h].1)
  {
    HelpersOccurOnce(a, b);
    assert "o"[0] == 'o' && a != "o" && b != "o";
  }

  /** It happens with the helper jobs of the release workflow. */
  lemma UnterminatedHelperEscapes()
    ensures Names(CONNECT_JOBS[0], CONNECT_JOBS[1]) && Removes(CONNECT_JOBS, CONNECT_JOBS[0], CONNECT_JOBS[1])
  {
    ConnectJobsDistinct();
    assert forall i :: 0 <= i < |CONNECT_JOBS| ==> |CONNECT_JOBS[i]| > 1;
  }
}
