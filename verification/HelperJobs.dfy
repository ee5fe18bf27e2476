/** Removal of the helper build jobs from a workflow (scripts/validate_release_workflow.py). */
module HelperJobs {
  import opened Text
  import opened Workflow

  const CONNECT_JOBS: seq<string> :=
    ["build-connect-linux-x86-64", "build-connect-linux-aarch64", "build-connect-macos-arm64", "build-connect-windows-x86-64"]

  // ----- without_helper_blocks, up to the pass over `needs` lines -----

  /** `text.replace(needle, "", 1)`. */
  function RemoveFirst(text: string, needle: string): string {
    var i := Find(text, needle);
    if i == -1 then text else text[..i] + text[i + |needle|..]
  }

  function RemoveJob(text: string, blocks: Dict, job: string): string {
    match Lookup(blocks, job)
    case None => text
    case Some(block) => RemoveFirst(text, block)
  }

  function RemoveEach(text: string, blocks: Dict, jobs: seq<string>): string {
    if jobs == [] then text
    else RemoveJob(RemoveEach(text, blocks, jobs[..|jobs| - 1]), blocks, jobs[|jobs| - 1])
  }

  method WithoutHelperBlocks(text: string, blocks: Dict) returns (remaining: string)
    ensures remaining == RemoveEach(text, blocks, CONNECT_JOBS)
  {
    remaining := text;
    var k := 0;
    while k < |CONNECT_JOBS|
      invariant k <= |CONNECT_JOBS| && remaining == RemoveEach(text, blocks, CONNECT_JOBS[..k])
    {
      assert CONNECT_JOBS[..k + 1][..k] == CONNECT_JOBS[..k];
      var block := Lookup(blocks, CONNECT_JOBS[k]);
      if block.Some? && Find(remaining, block.value) != -1 {
        var i := Find(remaining, block.value);
        remaining := remaining[..i] + remaining[i + |block.value|..];
      }
      k := k + 1;
    }
    assert CONNECT_JOBS[..|CONNECT_JOBS|] == CONNECT_JOBS;
  }

  // ----- lines and headers -----

  predicate Terminated(s: string) {
    s != "" && IsLineBreak(s[|s| - 1])
  }

  function FirstLine(s: string): string
    requires s != ""
  {
    s[..LineEnd(s, 0)]
  }

  /** The text begins with a job header that has its line break. */
  ghost predicate BeginsHeader(s: string) {
    exists m: nat :: HeaderLength(s, m)
  }

  predicate HeaderLength(s: string, m: nat) {
    0 < m <= |s| && HeaderName(s[..m]).Some? && IsLineBreak(s[m - 1])
  }

  lemma {:induction false} NameLengthOf(s: string, n: nat)
    requires n < |s| && (forall i :: 0 <= i < n ==> IsNameChar(s[i])) && !IsNameChar(s[n])
    ensures NameLength(s) == n
  {
    if n > 0 {
      assert IsNameChar(s[0]);
      NameLengthOf(s[1..], n - 1);
    }
  }

  /** The shape of a header line. */
  lemma HeaderShape(line: string) returns (n: nat)
    requires HeaderName(line).Some?
    ensures 3 + n <= |line| && line[0] == ' ' && line[1] == ' ' && IsLower(line[2]) && line[2 + n] == ':'
    ensures forall i :: 2 <= i < 2 + n ==> IsNameChar(line[i])
    ensures forall i :: 3 + n <= i < |line| ==> IsSpace(line[i])
  {
    n := NameLength(line[2..]);
    assert forall i :: 0 <= i < n ==> line[2..][i] == line[2 + i];
    assert forall i :: 3 + n <= i < |line| ==> line[3 + n..][i - 3 - n] == line[i];
  }

  lemma HeaderFromShape(line: string, n: nat)
    requires 3 + n <= |line| && line[0] == ' ' && line[1] == ' ' && IsLower(line[2]) && line[2 + n] == ':'
    requires forall i :: 2 <= i < 2 + n ==> IsNameChar(line[i])
    requires forall i :: 3 + n <= i < |line| ==> IsSpace(line[i])
    ensures HeaderName(line).Some?
  {
    NameLengthOf(line[2..], n);
  }

  /** A header cut just after one of its line breaks, or given one more white space, is a header. */
  lemma HeaderCut(line: string, m: nat)
    requires HeaderName(line).Some? && 0 < m <= |line| && IsLineBreak(line[m - 1])
    ensures HeaderName(line[..m]).Some?
  {
    var n := HeaderShape(line);
    assert m >= 4 + n;
    HeaderFromShape(line[..m], n);
  }

  lemma HeaderExtend(line: string, c: char)
    requires HeaderName(line).Some? && IsSpace(c)
    ensures HeaderName(line + [c]).Some?
  {
    var n := HeaderShape(line);
    HeaderFromShape(line + [c], n);
  }

  /** Any terminated beginning of a text that begins with a header has a header as its first line. */
  lemma FirstLineIsHeader(s: string, q: nat)
    requires BeginsHeader(s) && 0 < q <= |s| && IsLineBreak(s[q - 1])
    ensures HeaderName(FirstLine(s[..q])).Some?
  {
    var m: nat :| HeaderLength(s, m);
    var v := s[..q];
    var n := LineEnd(v, 0);
    assert IsLineBreak(v[n - 1]);
    if n <= m {
      assert v[..n] == s[..m][..n];
      HeaderCut(s[..m], n);
    } else {
      assert v[m - 1] == s[m - 1] && v[m] == s[m];
      assert !BreakAt(v, m);
      assert m + 1 == |v| || BreakAt(v, m + 1);
      assert v[..n] == s[..m] + [s[m]];
      LineBreaksAreSpaces(s[m]);
      HeaderExtend(s[..m], s[m]);
    }
  }

  lemma BeginsHeaderExtends(s: string, t: string)
    requires BeginsHeader(s)
    ensures BeginsHeader(s + t)
  {
    var m: nat :| HeaderLength(s, m);
    assert (s + t)[..m] == s[..m];
    assert HeaderLength(s + t, m);
  }

  // ----- a block is found at its own place -----

  /** A terminated job block: a header line, and no other header line. */
  ghost predicate GoodBlock(b: string) {
    && Terminated(b) && BeginsHeader(b)
    && forall k: nat :: BreakAt(b, k) ==> HeaderName(FirstLine(b[k..])).None?
  }

  /** A block cannot begin inside one piece and end in the next, because a header would then stand inside it. */
  lemma NoStraddle(a: string, s: string, b: string, j: nat)
    requires Terminated(a) && BeginsHeader(s) && GoodBlock(b) && j < |a| < j + |b|
    ensures !OccursAt(a + s, b, j)
  {
    var k := |a| - j;
    if OccursAt(a + s, b, j) {
      OccurrenceChar(a + s, b, j, k - 1);
      OccurrenceChar(a + s, b, j, k);
      OccurrenceChar(a + s, b, j, |b| - 1);
      var m: nat :| HeaderLength(s, m);
      var n := HeaderShape(s[..m]);
      assert s[0] == ' ' && BreakAt(b, k);
      var q := |b| - k;
      assert b[k..] == s[..q] by { assert (a + s)[j..j + |b|][k..] == s[..q]; }
      FirstLineIsHeader(s, q);
    }
  }

  ghost predicate GoodPieces(pieces: seq<string>, b: string) {
    && (forall i :: 0 <= i < |pieces| ==> Terminated(pieces[i]) && !Occurs(pieces[i], b))
    && (forall i :: 0 < i < |pieces| ==> BeginsHeader(pieces[i]))
  }

  /** After a piece the text goes on with a header: of the next piece, or of the block itself. */
  lemma {:induction false} NextBegins(tail: seq<string>, b: string, rest: string)
    requires BeginsHeader(b) && (tail != [] ==> BeginsHeader(tail[0]))
    ensures BeginsHeader(Join(tail) + b + rest)
  {
    if tail == [] {
      assert Join(tail) + b + rest == b + rest;
      BeginsHeaderExtends(b, rest);
    } else {
      ConcatStep(tail[0], Join(tail[1..]), b, rest);
      BeginsHeaderExtends(tail[0], Join(tail[1..]) + b + rest);
    }
  }

  lemma ConcatStep(w: string, x: string, y: string, z: string)
    ensures (w + x) + y + z == w + (x + y + z)
  {}

  lemma NotInFirstPiece(a: string, s: string, b: string, j: nat)
    requires Terminated(a) && !Occurs(a, b) && BeginsHeader(s) && GoodBlock(b) && j < |a|
    ensures !OccursAt(a + s, b, j)
  {
    OccursInHalf(a, s, b, j);
    if |a| < j + |b| { NoStraddle(a, s, b, j); }
  }

  lemma {:induction false} NotEarlier(pieces: seq<string>, b: string, rest: string, j: nat)
    requires GoodPieces(pieces, b) && GoodBlock(b) && j < |Join(pieces)|
    ensures !OccursAt(Join(pieces) + b + rest, b, j)
  {
    var a, tail := pieces[0], pieces[1..];
    var s := Join(tail) + b + rest;
    assert Join(pieces) + b + rest == a + s;
    assert GoodPieces(tail, b) && (tail != [] ==> tail[0] == pieces[1]);
    if j < |a| {
      NextBegins(tail, b, rest);
      NotInFirstPiece(a, s, b, j);
    } else {
      NotEarlier(tail, b, rest, j - |a|);
      OccursInHalf(a, s, b, j);
    }
  }

  /** Removing the first occurrence of a block's text removes the block. */
  lemma {:induction false} RemovesTheBlock(pieces: seq<string>, b: string, rest: string)
    requires GoodPieces(pieces, b) && GoodBlock(b)
    ensures RemoveFirst(Join(pieces) + b + rest, b) == Join(pieces) + rest
  {
    var text, n := Join(pieces) + b + rest, |Join(pieces)|;
    assert text[n..n + |b|] == b;
    assert OccursAt(text, b, n);
    forall j: nat | j < n ensures !OccursAt(text, b, j) { NotEarlier(pieces, b, rest, j); }
    assert Find(text, b) == n;
    assert text[..n] == Join(pieces) && text[n + |b|..] == rest;
  }

  // ----- the pieces of a workflow -----

  /** Where the first `i` lines from `p` on end. */
  lemma {:induction false} LinesCut(s: string, p: nat, i: nat) returns (q: nat)
    requires p <= |s| && i <= |LinesFrom(s, p)|
    ensures p <= q <= |s| && (if i == 0 then q == p else p < q && (q == |s| || BreakAt(s, q)))
    ensures LinesFrom(s, p)[i..] == LinesFrom(s, q)
    ensures Join(LinesFrom(s, p)[..i]) == s[p..q]
    decreases i
  {
    var lines := LinesFrom(s, p);
    if i == 0 {
      q := p;
    } else {
      var e := LineEnd(s, p);
      var rest := LinesFrom(s, e);
      q := LinesCut(s, e, i - 1);
      assert lines == [s[p..e]] + rest;
      assert lines[i..] == rest[i - 1..] && lines[..i] == [s[p..e]] + rest[..i - 1];
      JoinCons(s[p..e], rest[..i - 1]);
    }
  }

  lemma PrefixFromSuffix<T>(l: seq<T>, a: seq<T>, n: nat)
    requires n <= |l| && l == a + l[n..]
    ensures a == l[..n]
  {
    assert |a| == n;
  }

  lemma BreakInRest(s: string, p: nat, q: nat)
    requires p < q && BreakAt(s, q)
    ensures BreakAt(s[p..], q - p)
  {}

  lemma {:induction false} SplitOfPrefix(s: string, p: nat, q: nat, n: nat)
    requires p < q && BreakAt(s, q) && n <= |LinesFrom(s, p)| && LinesFrom(s, p)[n..] == LinesFrom(s, q)
    ensures SplitLines(s[p..q]) == LinesFrom(s, p)[..n]
  {
    var t := s[p..];
    BreakInRest(s, p, q);
    SplitAtBreak(t, q - p);
    assert t[..q - p] == s[p..q] && t[q - p..] == s[q..];
    LinesOfRest(s, p);
    LinesOfRest(s, q);
    PrefixFromSuffix(LinesFrom(s, p), SplitLines(s[p..q]), n);
  }

  lemma {:induction false} SplitOfRange(s: string, p: nat, q: nat, n: nat)
    requires p <= q <= |s| && n <= |LinesFrom(s, p)| && LinesFrom(s, p)[n..] == LinesFrom(s, q)
    requires q == p || q == |s| || BreakAt(s, q)
    ensures SplitLines(s[p..q]) == LinesFrom(s, p)[..n]
  {
    if q == |s| {
      assert s[p..q] == s[p..];
      LinesOfRest(s, p);
    } else if p < q {
      SplitOfPrefix(s, p, q, n);
    }
  }

  /** A stretch of lines is a stretch of the text, which splits into those lines again. */
  lemma Stretch(s: string, lines: seq<string>, i: nat, j: nat) returns (p: nat, q: nat)
    requires lines == SplitLines(s) && i < j <= |lines|
    ensures p < q <= |s| && Join(lines[i..j]) == s[p..q] && SplitLines(s[p..q]) == lines[i..j]
    ensures if j < |lines| then BreakAt(s, q) else q == |s|
  {
    p := LinesCut(s, 0, i);
    assert lines[i..] == LinesFrom(s, p);
    q := LinesCut(s, p, j - i);
    SplitOfRange(s, p, q, j - i);
    assert lines[i..][..j - i] == lines[i..j] && lines[i..][j - i..] == lines[j..];
  }

  lemma StretchTerminated(s: string, lines: seq<string>, i: nat, j: nat)
    requires lines == SplitLines(s) && i < j <= |lines| && (j < |lines| || Terminated(s))
    ensures Terminated(Join(lines[i..j]))
  {
    var p, q := Stretch(s, lines, i, j);
    assert s[p..q][q - p - 1] == s[q - 1];
  }

  /** A line after the first, found at its break. */
  lemma LaterLine(block: string, k: nat) returns (i: nat)
    requires BreakAt(block, k)
    ensures 0 < i < |SplitLines(block)| && SplitLines(block)[i] == FirstLine(block[k..])
  {
    SplitAtBreak(block, k);
    i := |SplitLines(block[..k])|;
  }

  /** A terminated stretch of lines that starts with a header and has no other is a good block. */
  lemma StretchIsGood(block: string, lines: seq<string>)
    requires SplitLines(block) == lines && lines != [] && Terminated(block)
    requires HeaderName(lines[0]).Some? && forall i :: 0 < i < |lines| ==> HeaderName(lines[i]).None?
    ensures GoodBlock(block)
  {
    var n := LineEnd(block, 0);
    assert block[0..n] == block[..n];
    assert HeaderLength(block, n);
    forall k: nat | BreakAt(block, k) ensures HeaderName(FirstLine(block[k..])).None? {
      var i := LaterLine(block, k);
      assert HeaderName(lines[i]).None?;
    }
  }

  lemma NoStartBetween(starts: seq<nat>, p: nat, k: nat, end: nat)
    requires forall a, b :: 0 <= a < b < |starts| ==> starts[a] < starts[b]
    requires p < |starts| && starts[p] < k < end && (p + 1 < |starts| ==> end == starts[p + 1])
    ensures k !in starts
  {
    forall q | 0 <= q < |starts| ensures starts[q] != k {
      if p + 1 < q { assert starts[p + 1] < starts[q]; }
    }
  }

  lemma OnlyFirstIsHeader(lines: seq<string>, starts: seq<nat>, p: nat)
    requires ValidStarts(lines, starts) && p < |starts|
    requires forall k :: starts[p] < k < |lines| && HeaderName(lines[k]).Some? ==> k in starts
    ensures forall k :: starts[p] < k < EndOf(lines, starts, p) ==> HeaderName(lines[k]).None?
  {
    var end := EndOf(lines, starts, p);
    forall k | starts[p] < k < end ensures HeaderName(lines[k]).None? { NoStartBetween(starts, p, k, end); }
  }

  lemma StretchHeaders(lines: seq<string>, i: nat, j: nat)
    requires i < j <= |lines| && HeaderName(lines[i]).Some? && forall k :: i < k < j ==> HeaderName(lines[k]).None?
    ensures HeaderName(lines[i..j][0]).Some?
    ensures forall k :: 0 < k < j - i ==> HeaderName(lines[i..j][k]).None?
  {
    forall k | 0 < k < j - i ensures HeaderName(lines[i..j][k]).None? { assert lines[i..j][k] == lines[i + k]; }
  }

  lemma EntryIsGood(s: string, lines: seq<string>, starts: seq<nat>, p: nat)
    requires lines == SplitLines(s) && ValidStarts(lines, starts) && p < |starts|
    requires forall k :: starts[p] < k < |lines| && HeaderName(lines[k]).Some? ==> k in starts
    requires p + 1 < |starts| || Terminated(s)
    ensures GoodBlock(Entry(lines, starts, p).1)
  {
    var i, j := starts[p], EndOf(lines, starts, p);
    OnlyFirstIsHeader(lines, starts, p);
    StretchHeaders(lines, i, j);
    StretchTerminated(s, lines, i, j);
    var a, b := Stretch(s, lines, i, j);
    StretchIsGood(s[a..b], lines[i..j]);
  }

  /** What the removal relies on in a workflow cut into its preamble and its blocks. */
  ghost predicate Cut(text: string, preamble: string, e: Dict) {
    && Terminated(preamble) && NonEmptyValues(e)
    && preamble + Join(Values(e)) == text
    && forall p :: 0 <= p < |e| && (p + 1 < |e| || Terminated(text)) ==> GoodBlock(e[p].1)
  }

  lemma EntriesAreGood(s: string, lines: seq<string>, starts: seq<nat>)
    requires lines == SplitLines(s) && HasJobs(lines) && starts == JobStarts(lines)
    ensures forall p :: 0 <= p < |starts| && (p + 1 < |starts| || Terminated(s)) ==> GoodBlock(EntryList(lines, starts)[p].1)
  {
    forall p | 0 <= p < |starts| && (p + 1 < |starts| || Terminated(s)) ensures GoodBlock(EntryList(lines, starts)[p].1) {
      EntryIsGood(s, lines, starts, p);
    }
  }

  lemma WorkflowCut(text: string)
    requires HasJobs(SplitLines(text))
    ensures Cut(text, Preamble(text), Entries(text))
  {
    var lines := SplitLines(text);
    var starts := JobStarts(lines);
    PiecesAreText(text);
    BlocksNonEmpty(lines, starts);
    StretchTerminated(text, lines, 0, starts[0]);
    assert lines[0..starts[0]] == lines[..starts[0]];
    EntriesAreGood(text, lines, starts);
  }

  // ----- one occurrence -----

  ghost predicate OccursOnce(text: string, b: string) {
    forall i, j :: OccursAt(text, b, i) && OccursAt(text, b, j) ==> i == j
  }

  lemma {:induction false} OccursInPiece(pieces: seq<string>, q: nat, b: string, i: int)
    requires q < |pieces| && OccursAt(pieces[q], b, i)
    ensures OccursAt(Join(pieces), b, |Join(pieces[..q])| + i)
  {
    var before, after := Join(pieces[..q]), Join(pieces[q + 1..]);
    assert pieces == pieces[..q] + ([pieces[q]] + pieces[q + 1..]);
    JoinConcat(pieces[..q], [pieces[q]] + pieces[q + 1..]);
    assert Join([pieces[q]] + pieces[q + 1..]) == pieces[q] + after;
    OccursInHalf(pieces[q], after, b, i);
    OccursInHalf(before, pieces[q] + after, b, |before| + i);
  }

  lemma JoinPrefixLength(pieces: seq<string>, q: nat, h: nat)
    requires q < h <= |pieces|
    ensures |Join(pieces[..q])| + |pieces[q]| <= |Join(pieces[..h])|
  {
    var middle := pieces[q + 1..h];
    assert pieces[..h] == pieces[..q] + ([pieces[q]] + middle);
    JoinConcat(pieces[..q], [pieces[q]] + middle);
    assert Join([pieces[q]] + middle) == pieces[q] + Join(middle);
  }

  /** A piece whose text occurs once in the whole occurs in no other piece. */
  lemma {:induction false} NotInOtherPiece(pieces: seq<string>, h: nat, q: nat)
    requires h < |pieces| && q < |pieces| && q != h && pieces[h] != "" && OccursOnce(Join(pieces), pieces[h])
    ensures !Occurs(pieces[q], pieces[h])
  {
    var b := pieces[h];
    forall i ensures !OccursAt(pieces[q], b, i) {
      if OccursAt(pieces[q], b, i) {
        OccursInPiece(pieces, q, b, i);
        OccursInPiece(pieces, h, b, 0);
        if q < h { JoinPrefixLength(pieces, q, h); } else { JoinPrefixLength(pieces, h, q); }
      }
    }
  }

  // ----- the removal theorem -----

  /** The entries whose names are not listed, in order. */
  function Keep(d: Dict, removed: seq<string>): Dict {
    if d == [] then [] else (if d[0].0 in removed then [] else [d[0]]) + Keep(d[1..], removed)
  }

  lemma {:induction false} KeepConcat(a: Dict, b: Dict, removed: seq<string>)
    ensures Keep(a + b, removed) == Keep(a, removed) + Keep(b, removed)
  {
    if a == [] {
      assert a + b == b;
    } else {
      assert (a + b)[1..] == a[1..] + b;
      KeepConcat(a[1..], b, removed);
    }
  }

  lemma {:induction false} KeepSame(d: Dict, removed: seq<string>, job: string)
    requires forall i :: 0 <= i < |d| ==> d[i].0 != job
    ensures Keep(d, removed + [job]) == Keep(d, removed)
  {
    if d != [] { KeepSame(d[1..], removed, job); }
  }

  lemma {:induction false} KeepMembers(d: Dict, removed: seq<string>)
    ensures forall e :: e in Keep(d, removed) ==> e in d
  {
    if d != [] { KeepMembers(d[1..], removed); }
  }

  lemma {:induction false} KeepCons(x: (string, string), d: Dict, removed: seq<string>)
    ensures Keep([x] + d, removed) == (if x.0 in removed then [] else [x]) + Keep(d, removed)
  {
    assert ([x] + d)[1..] == d;
  }

  lemma {:induction false} KeepCut(d: Dict, a: Dict, x: (string, string), c: Dict, removed: seq<string>)
    requires d == a + [x] + c
    ensures Keep(d, removed) == Keep(a, removed) + (if x.0 in removed then [] else [x]) + Keep(c, removed)
  {
    assert d == a + ([x] + c);
    KeepConcat(a, [x] + c, removed);
    KeepCons(x, c, removed);
  }

  lemma KeysAround(d: Dict, a: Dict, x: (string, string), c: Dict)
    requires d == a + [x] + c && DistinctKeys(d)
    ensures forall i :: 0 <= i < |a| ==> a[i].0 != x.0
    ensures forall i :: 0 <= i < |c| ==> c[i].0 != x.0
  {
    assert d[|a|] == x;
    forall i | 0 <= i < |a| ensures a[i].0 != x.0 { assert a[i] == d[i]; }
    forall i | 0 <= i < |c| ensures c[i].0 != x.0 { assert c[i] == d[|a| + 1 + i]; }
  }

  lemma {:induction false} KeepAround(d: Dict, a: Dict, x: (string, string), c: Dict, removed: seq<string>)
    requires d == a + [x] + c && DistinctKeys(d)
    ensures Keep(d, removed + [x.0]) == Keep(a, removed) + Keep(c, removed)
  {
    var more := removed + [x.0];
    KeepCut(d, a, x, c, more);
    assert Keep(d, more) == Keep(a, more) + Keep(c, more);
    KeysAround(d, a, x, c);
    KeepSame(a, removed, x.0);
    KeepSame(c, removed, x.0);
  }

  function Assemble(preamble: string, d: Dict): string {
    preamble + Join(Values(d))
  }

  lemma AssembleWith(preamble: string, a: Dict, b: (string, string), c: Dict)
    ensures Assemble(preamble, a + [b] + c) == Join([preamble] + Values(a)) + b.1 + Join(Values(c))
  {
    assert Values(a + [b] + c) == Values(a) + ([b.1] + Values(c));
    JoinConcat(Values(a), [b.1] + Values(c));
    JoinCons(b.1, Values(c));
    JoinCons(preamble, Values(a));
  }

  lemma AssembleWithout(preamble: string, a: Dict, c: Dict)
    ensures Assemble(preamble, a + c) == Join([preamble] + Values(a)) + Join(Values(c))
  {
    assert Values(a + c) == Values(a) + Values(c);
    JoinConcat(Values(a), Values(c));
    JoinCons(preamble, Values(a));
  }

  /** A block whose text occurs once occurs in no other piece. */
  lemma OtherPiecesLackBlock(preamble: string, e: Dict, h: nat, q: nat)
    requires q < h < |e| && e[h].1 != "" && OccursOnce(preamble + Join(Values(e)), e[h].1)
    ensures !Occurs(e[q].1, e[h].1)
  {
    var all := [preamble] + Values(e);
    JoinCons(preamble, Values(e));
    NotInOtherPiece(all, h + 1, q + 1);
  }

  lemma PreambleLacksBlock(preamble: string, e: Dict, h: nat)
    requires h < |e| && e[h].1 != "" && OccursOnce(preamble + Join(Values(e)), e[h].1)
    ensures !Occurs(preamble, e[h].1)
  {
    var all := [preamble] + Values(e);
    JoinCons(preamble, Values(e));
    NotInOtherPiece(all, h + 1, 0);
  }

  /** The pieces before a block, some of them removed already. */
  lemma {:induction false} PiecesBefore(text: string, preamble: string, e: Dict, h: nat, removed: seq<string>)
    requires Cut(text, preamble, e) && h < |e| && OccursOnce(text, e[h].1)
    ensures GoodPieces([preamble] + Values(Keep(e[..h], removed)), e[h].1)
  {
    var kept := Keep(e[..h], removed);
    PreambleLacksBlock(preamble, e, h);
    KeepMembers(e[..h], removed);
    forall i | 0 <= i < |kept|
      ensures Terminated(kept[i].1) && BeginsHeader(kept[i].1) && !Occurs(kept[i].1, e[h].1)
    {
      assert kept[i] in e[..h];
      var q :| 0 <= q < h && e[..h][q] == kept[i];
      OtherPiecesLackBlock(preamble, e, h, q);
      assert GoodBlock(e[q].1);
    }
  }

  /** The text of each removed block occurs only once. */
  ghost predicate EachOnce(text: string, e: Dict, jobs: seq<string>) {
    forall h :: 0 <= h < |e| && e[h].0 in jobs ==> OccursOnce(text, e[h].1)
  }

  lemma RemovesAround(preamble: string, a: Dict, x: (string, string), c: Dict)
    requires GoodPieces([preamble] + Values(a), x.1) && GoodBlock(x.1)
    ensures RemoveFirst(Assemble(preamble, a + [x] + c), x.1) == Assemble(preamble, a + c)
  {
    AssembleWith(preamble, a, x, c);
    AssembleWithout(preamble, a, c);
    RemovesTheBlock([preamble] + Values(a), x.1, Join(Values(c)));
  }

  lemma {:induction false} KeepAt(e: Dict, h: nat, removed: seq<string>)
    requires h < |e| && DistinctKeys(e) && e[h].0 !in removed
    ensures var a, c := Keep(e[..h], removed), Keep(e[h + 1..], removed);
            Keep(e, removed) == a + [e[h]] + c && Keep(e, removed + [e[h].0]) == a + c
  {
    assert e == e[..h] + [e[h]] + e[h + 1..];
    KeepCut(e, e[..h], e[h], e[h + 1..], removed);
    KeepAround(e, e[..h], e[h], e[h + 1..], removed);
  }

  /** Removing one more job, unless its block ends the file without a line break. */
  lemma {:induction false} RemovalStep(text: string, preamble: string, e: Dict, removed: seq<string>, job: string)
    requires Cut(text, preamble, e) && DistinctKeys(e) && EachOnce(text, e, removed + [job]) && job !in removed
    requires e != [] && e[|e| - 1].0 == job ==> Terminated(text)
    ensures RemoveJob(Assemble(preamble, Keep(e, removed)), e, job) == Assemble(preamble, Keep(e, removed + [job]))
  {
    var h := IndexOf(e, job);
    if h == |e| {
      KeepSame(e, removed, job);
    } else {
      KeepAt(e, h, removed);
      assert job in removed + [job];
      PiecesBefore(text, preamble, e, h, removed);
      RemovesAround(preamble, Keep(e[..h], removed), e[h], Keep(e[h + 1..], removed));
    }
  }

  // ----- a last block without a line break -----

  /** The text does not end in a line break. */
  predicate EndsOpen(s: string) { s != "" && !IsLineBreak(s[|s| - 1]) }

  /** In `x + b` nothing like `b` begins before `b` itself. */
  ghost predicate NotBefore(x: string, b: string) {
    forall j: nat :: j < |x| ==> !OccursAt(x + b, b, j)
  }

  /** What is left before the last block when the `n`th job is removed. */
  function LeftBefore(preamble: string, e: Dict, jobs: seq<string>, n: nat): string
    requires e != [] && n <= |jobs|
  {
    Assemble(preamble, Keep(e[..|e| - 1], jobs[..n]))
  }

  /** The last block is kept, or the text ends in a line break, or nothing like the block is left before it at its turn. */
  ghost predicate LastFound(text: string, preamble: string, e: Dict, jobs: seq<string>) {
    e == [] || Terminated(text) ||
    forall n :: 0 <= n < |jobs| && jobs[n] == e[|e| - 1].0 ==> NotBefore(LeftBefore(preamble, e, jobs, n), e[|e| - 1].1)
  }

  /** Removing a text that ends in a line break does not touch an open end. */
  lemma OpenEndStays(t: string, b: string)
    requires EndsOpen(t) && Terminated(b)
    ensures EndsOpen(RemoveFirst(t, b))
  {
    var i := Find(t, b);
    if i != -1 {
      OccurrenceChar(t, b, i, |b| - 1);
      assert i + |b| < |t|;
      var r := t[..i] + t[i + |b|..];
      assert r[|r| - 1] == t[|t| - 1];
    }
  }

  /** Removing an open text takes itself off the end if nothing like it comes earlier, and leaves its end otherwise. */
  lemma OpenBlockRemoved(x: string, b: string)
    requires EndsOpen(b)
    ensures NotBefore(x, b) ==> RemoveFirst(x + b, b) == x
    ensures !NotBefore(x, b) ==> EndsOpen(RemoveFirst(x + b, b))
  {
    var t := x + b;
    var i := Find(t, b);
    assert t[|x|..|x| + |b|] == b;
    assert OccursAt(t, b, |x|);
    assert 0 <= i <= |x|;
    if NotBefore(x, b) {
      assert t[..|x|] == x;
    } else {
      var j: nat :| j < |x| && OccursAt(t, b, j);
      var r := t[..i] + t[i + |b|..];
      assert r[|r| - 1] == t[|t| - 1] == b[|b| - 1];
    }
  }

  lemma {:induction false} JoinLast(pieces: seq<string>)
    requires pieces != [] && pieces[|pieces| - 1] != ""
    ensures Join(pieces) != "" && Join(pieces)[|Join(pieces)| - 1] == pieces[|pieces| - 1][|pieces[|pieces| - 1]| - 1]
  {
    var n := |pieces| - 1;
    assert pieces == pieces[..n] + [pieces[n]];
    JoinConcat(pieces[..n], [pieces[n]]);
    assert Join([pieces[n]]) == pieces[n];
  }

  lemma LastBlockOpen(text: string, preamble: string, e: Dict)
    requires Cut(text, preamble, e) && e != [] && !Terminated(text)
    ensures EndsOpen(e[|e| - 1].1)
  {
    JoinLast(Values(e));
    var all := Join(Values(e));
    assert text[|text| - 1] == all[|all| - 1];
  }

  lemma AssembledEndsInBreak(preamble: string, d: Dict)
    requires Terminated(preamble) && forall i :: 0 <= i < |d| ==> Terminated(d[i].1)
    ensures Terminated(Assemble(preamble, d))
  {
    if d != [] {
      JoinLast(Values(d));
      var all, blocks := Assemble(preamble, d), Join(Values(d));
      assert all[|all| - 1] == blocks[|blocks| - 1];
    }
  }

  lemma {:induction false} EarlierBlocksTerminated(text: string, preamble: string, e: Dict, removed: seq<string>)
    requires Cut(text, preamble, e) && e != []
    ensures var kept := Keep(e[..|e| - 1], removed); forall i :: 0 <= i < |kept| ==> Terminated(kept[i].1)
  {
    var n := |e| - 1;
    var kept := Keep(e[..n], removed);
    KeepMembers(e[..n], removed);
    forall i | 0 <= i < |kept| ensures Terminated(kept[i].1) {
      assert kept[i] in e[..n];
      var q :| 0 <= q < n && e[..n][q] == kept[i];
      assert GoodBlock(e[q].1);
    }
  }

  /** Without the last block the text ends in a line break. */
  lemma {:induction false} KeptEndsInBreak(text: string, preamble: string, e: Dict, removed: seq<string>)
    requires Cut(text, preamble, e) && e != [] && e[|e| - 1].0 in removed
    ensures Terminated(Assemble(preamble, Keep(e, removed)))
  {
    var n := |e| - 1;
    assert e == e[..n] + [e[n]] + [];
    KeepCut(e, e[..n], e[n], [], removed);
    assert Keep(e, removed) == Keep(e[..n], removed);
    EarlierBlocksTerminated(text, preamble, e, removed);
    AssembledEndsInBreak(preamble, Keep(e[..n], removed));
  }

  /** The turn of a last block that ends the file without a line break. */
  lemma {:induction false} LastTurn(text: string, preamble: string, e: Dict, removed: seq<string>)
    requires Cut(text, preamble, e) && DistinctKeys(e) && e != [] && e[|e| - 1].0 !in removed && !Terminated(text)
    ensures var x, b := Assemble(preamble, Keep(e[..|e| - 1], removed)), e[|e| - 1].1;
            && Assemble(preamble, Keep(e, removed)) == x + b
            && Assemble(preamble, Keep(e, removed + [e[|e| - 1].0])) == x && EndsOpen(b)
  {
    var n := |e| - 1;
    var a := Keep(e[..n], removed);
    KeepAt(e, n, removed);
    assert e[n + 1..] == [] && a + [] == a && a + [e[n]] + [] == a + [e[n]];
    LastBlockOpen(text, preamble, e);
    assert Values(a + [e[n]]) == Values(a) + [e[n].1];
    JoinConcat(Values(a), [e[n].1]);
    assert Join([e[n].1]) == e[n].1;
  }

  /** Each removal either keeps to the plan or leaves the open end of the last block behind for good. */
  lemma {:induction false} RemovalTrace(text: string, preamble: string, e: Dict, jobs: seq<string>)
    requires Cut(text, preamble, e) && DistinctKeys(e) && EachOnce(text, e, jobs)
    requires forall i, j :: 0 <= i < j < |jobs| ==> jobs[i] != jobs[j]
    ensures if LastFound(text, preamble, e, jobs) then RemoveEach(text, e, jobs) == Assemble(preamble, Keep(e, jobs))
            else EndsOpen(RemoveEach(text, e, jobs))
  {
    if jobs == [] {
      KeepNothing(e);
    } else {
      var n := |jobs| - 1;
      var init, job := jobs[..n], jobs[n];
      assert init + [job] == jobs;
      RemovalTrace(text, preamble, e, init);
      LastFoundStep(text, preamble, e, jobs);
      if e != [] && e[|e| - 1].0 == job && !Terminated(text) {
        LastTurn(text, preamble, e, init);
        OpenBlockRemoved(LeftBefore(preamble, e, jobs, n), e[|e| - 1].1);
        assert IndexOf(e, job) == |e| - 1;
      } else if LastFound(text, preamble, e, init) {
        RemovalStep(text, preamble, e, init, job);
      } else {
        OpenEndKept(text, preamble, e, RemoveEach(text, e, init), job);
      }
    }
  }

  lemma LastFoundStep(text: string, preamble: string, e: Dict, jobs: seq<string>)
    requires jobs != [] && forall i, j :: 0 <= i < j < |jobs| ==> jobs[i] != jobs[j]
    ensures var n := |jobs| - 1;
            if e != [] && jobs[n] == e[|e| - 1].0 && !Terminated(text)
            then LastFound(text, preamble, e, jobs[..n]) &&
                 (LastFound(text, preamble, e, jobs) <==> NotBefore(LeftBefore(preamble, e, jobs, n), e[|e| - 1].1))
            else LastFound(text, preamble, e, jobs) <==> LastFound(text, preamble, e, jobs[..n])
  {
    var n := |jobs| - 1;
    forall k | 0 <= k < n ensures jobs[..n][k] == jobs[k] && jobs[..n][..k] == jobs[..k] {}
  }

  lemma OpenEndKept(text: string, preamble: string, e: Dict, t: string, job: string)
    requires Cut(text, preamble, e) && EndsOpen(t) && (e != [] && e[|e| - 1].0 == job ==> Terminated(text))
    ensures EndsOpen(RemoveJob(t, e, job))
  {
    var h := IndexOf(e, job);
    if h < |e| {
      assert GoodBlock(e[h].1);
      OpenEndStays(t, e[h].1);
    }
  }

  /**
   If the text of each removed block occurs once, removing the jobs one after the other leaves exactly the preamble and
   the other blocks, in order, if and only if the last block is kept, or it is terminated, or nothing like it is left
   before it when its turn comes.
   */
  lemma {:induction false} RemovalExactly(text: string, preamble: string, e: Dict, jobs: seq<string>)
    requires Cut(text, preamble, e) && DistinctKeys(e) && EachOnce(text, e, jobs)
    requires forall i, j :: 0 <= i < j < |jobs| ==> jobs[i] != jobs[j]
    ensures RemoveEach(text, e, jobs) == Assemble(preamble, Keep(e, jobs)) <==> LastFound(text, preamble, e, jobs)
  {
    RemovalTrace(text, preamble, e, jobs);
    if !LastFound(text, preamble, e, jobs) { KeptEndsInBreak(text, preamble, e, jobs); }
  }

  lemma {:induction false} KeepNothing(d: Dict)
    ensures Keep(d, []) == d
  {
    if d != [] { KeepNothing(d[1..]); }
  }

  lemma ConnectJobsDistinct()
    ensures forall i, j :: 0 <= i < j < |CONNECT_JOBS| ==> CONNECT_JOBS[i] != CONNECT_JOBS[j]
  {
    assert CONNECT_JOBS[0][14] == 'l' && CONNECT_JOBS[1][14] == 'l' && CONNECT_JOBS[2][14] == 'm' && CONNECT_JOBS[3][14] == 'w';
    assert CONNECT_JOBS[0][20] == 'x' && CONNECT_JOBS[1][20] == 'a';
  }

  /** The same for the helper jobs of a release workflow with distinct job names. */
  lemma {:induction false} HelpersRemovedExactly(text: string)
    requires HasJobs(SplitLines(text)) && DistinctKeys(Entries(text)) && EachOnce(text, Entries(text), CONNECT_JOBS)
    ensures RemoveEach(text, PutAll(Entries(text)), CONNECT_JOBS) ==
            Preamble(text) + Join(Values(Keep(Entries(text), CONNECT_JOBS)))
            <==> LastFound(text, Preamble(text), Entries(text), CONNECT_JOBS)
  {
    WorkflowCut(text);
    PutAllDistinct(Entries(text));
    ConnectJobsDistinct();
    RemovalExactly(text, Preamble(text), Entries(text), CONNECT_JOBS);
  }
}
