/** Job splitting of scripts/validate_release_workflow.py. */
module Workflow {
  import opened Text

  // ----- lines -----

  /** The characters at which `str.splitlines` breaks. */
  predicate IsLineBreak(c: char) {
    || '\n' <= c <= '\r'
    || '\U{1C}' <= c <= '\U{1E}'
    || c == '\U{85}' || c == '\U{2028}' || c == '\U{2029}'
  }

  lemma LineBreaksAreSpaces(c: char)
    ensures IsLineBreak(c) ==> IsSpace(c)
  {}

  /** A line ends before position `k`: after a break character, but not between carriage return and line feed. */
  predicate BreakAt(s: string, k: nat) {
    0 < k < |s| && IsLineBreak(s[k - 1]) && !(s[k - 1] == '\r' && s[k] == '\n')
  }

  /** Where the line that starts at `i` ends. */
  function LineEnd(s: string, i: nat): (e: nat)
    requires i < |s|
    ensures i < e <= |s| && (e == |s| || BreakAt(s, e)) && forall k :: i < k < e ==> !BreakAt(s, k)
    decreases |s| - i
  {
    if i + 1 == |s| || BreakAt(s, i + 1) then i + 1 else LineEnd(s, i + 1)
  }

  /** The lines from `i` on, with their line breaks. */
  function LinesFrom(s: string, i: nat): seq<string>
    requires i <= |s|
    decreases |s| - i
  {
    if i == |s| then [] else [s[i..LineEnd(s, i)]] + LinesFrom(s, LineEnd(s, i))
  }

  /** `text.splitlines(keepends=True)`. */
  function SplitLines(s: string): seq<string> {
    LinesFrom(s, 0)
  }

  /** `"".join(pieces)`. */
  function Join(pieces: seq<string>): string {
    if pieces == [] then "" else pieces[0] + Join(pieces[1..])
  }

  lemma {:induction false} JoinCons(x: string, pieces: seq<string>)
    ensures Join([x] + pieces) == x + Join(pieces)
  {
    assert ([x] + pieces)[1..] == pieces;
  }

  lemma {:induction false} JoinConcat(a: seq<string>, b: seq<string>)
    ensures Join(a + b) == Join(a) + Join(b)
  {
    if a == [] {
      assert a + b == b;
    } else {
      assert (a + b)[1..] == a[1..] + b;
      JoinConcat(a[1..], b);
    }
  }

  lemma {:induction false} JoinOfLines(s: string, i: nat)
    requires i <= |s|
    ensures Join(LinesFrom(s, i)) == s[i..]
    decreases |s| - i
  {
    if i < |s| {
      var e := LineEnd(s, i);
      JoinOfLines(s, e);
      JoinCons(s[i..e], LinesFrom(s, e));
    }
  }

  /** Splitting loses nothing. */
  lemma JoinOfSplit(s: string)
    ensures Join(SplitLines(s)) == s
  {
    JoinOfLines(s, 0);
  }

  lemma {:induction false} LinesNonEmpty(s: string, i: nat)
    requires i <= |s|
    ensures forall l :: l in LinesFrom(s, i) ==> l != ""
    decreases |s| - i
  {
    if i < |s| { LinesNonEmpty(s, LineEnd(s, i)); }
  }

  /** `x` ends in a line break that does not continue in `y`. */
  predicate BreakBetween(x: string, y: string) {
    x != "" && y != "" && IsLineBreak(x[|x| - 1]) && !(x[|x| - 1] == '\r' && y[0] == '\n')
  }

  lemma {:induction false} LineEndAfter(s: string, d: nat, y: string, i: nat)
    requires d <= |s| && y == s[d..] && i < |y|
    ensures LineEnd(s, d + i) == d + LineEnd(y, i)
    decreases |y| - i
  {
    assert i + 1 < |y| ==> BreakAt(s, d + i + 1) == BreakAt(y, i + 1);
    if i + 1 < |y| { LineEndAfter(s, d, y, i + 1); }
  }

  lemma SliceAfter(s: string, d: nat, y: string, i: nat, e: nat)
    requires d <= |s| && y == s[d..] && i <= e <= |y|
    ensures s[d + i..d + e] == y[i..e]
  {}

  /** What stands before a position does not matter for the lines from there on. */
  lemma {:induction false} LinesAfter(s: string, d: nat, y: string, i: nat)
    requires d <= |s| && y == s[d..] && i <= |y|
    ensures LinesFrom(s, d + i) == LinesFrom(y, i)
    decreases |y| - i
  {
    if i < |y| {
      var e := LineEnd(y, i);
      LineEndAfter(s, d, y, i);
      SliceAfter(s, d, y, i, e);
      LinesAfter(s, d, y, e);
    }
  }

  lemma {:induction false} LineEndBefore(x: string, y: string, i: nat)
    requires BreakBetween(x, y) && i < |x|
    ensures LineEnd(x + y, i) == LineEnd(x, i)
    decreases |x| - i
  {
    assert BreakAt(x + y, i + 1) == (i + 1 == |x| || BreakAt(x, i + 1));
    if i + 1 < |x| { LineEndBefore(x, y, i + 1); }
  }

  lemma {:induction false} LinesBefore(x: string, y: string, i: nat)
    requires BreakBetween(x, y) && i <= |x|
    ensures LinesFrom(x + y, i) == LinesFrom(x, i) + LinesFrom(y, 0)
    decreases |x| - i
  {
    if i == |x| {
      assert (x + y)[|x|..] == y;
      LinesAfter(x + y, |x|, y, 0);
    } else {
      var e := LineEnd(x, i);
      LineEndBefore(x, y, i);
      LinesBefore(x, y, e);
      assert (x + y)[i..e] == x[i..e];
    }
  }

  /** Splitting at a line break splits the lines there. */
  lemma SplitAtBreak(s: string, k: nat)
    requires BreakAt(s, k)
    ensures SplitLines(s) == SplitLines(s[..k]) + SplitLines(s[k..])
  {
    assert s == s[..k] + s[k..];
    LinesBefore(s[..k], s[k..], 0);
  }

  /** The lines from a position on are the lines of the rest of the text. */
  lemma {:induction false} LinesOfRest(s: string, i: nat)
    requires i <= |s|
    ensures LinesFrom(s, i) == SplitLines(s[i..])
  {
    LinesAfter(s, i, s[i..], 0);
  }

  // ----- headers -----

  predicate IsNameChar(c: char) { IsLower(c) || IsDigit(c) || c == '-' }

  function NameLength(s: string): (n: nat)
    ensures n <= |s| && (forall i :: 0 <= i < n ==> IsNameChar(s[i])) && (n < |s| ==> !IsNameChar(s[n]))
  {
    if s == "" || !IsNameChar(s[0]) then 0 else 1 + NameLength(s[1..])
  }

  /** `  ([a-z][a-z0-9-]*):\s*\n?` over a whole line. */
  function HeaderName(line: string): Option<string> {
    if |line| < 3 || line[0] != ' ' || line[1] != ' ' || !IsLower(line[2]) then None
    else
      var n := NameLength(line[2..]);
      if 2 + n < |line| && line[2 + n] == ':' && AllSpaces(line[3 + n..]) then Some(line[2..2 + n]) else None
  }

  /** `jobs:\s*\n?` over a whole line. */
  predicate IsJobsLine(line: string) {
    StartsWith(line, "jobs:") && AllSpaces(line[5..])
  }

  // ----- job_blocks -----

  datatype Error = NoJobsMapping | NoJobs

  /** A Python dictionary: keys in order of first insertion. */
  type Dict = seq<(string, string)>

  function IndexOf(d: Dict, key: string): (i: nat)
    ensures i <= |d| && (i < |d| ==> d[i].0 == key) && forall j :: 0 <= j < i ==> d[j].0 != key
  {
    if d == [] || d[0].0 == key then 0 else 1 + IndexOf(d[1..], key)
  }

  function Put(d: Dict, key: string, value: string): Dict {
    if IndexOf(d, key) < |d| then d[IndexOf(d, key) := (key, value)] else d + [(key, value)]
  }

  function PutAll(entries: Dict): Dict {
    if entries == [] then []
    else Put(PutAll(entries[..|entries| - 1]), entries[|entries| - 1].0, entries[|entries| - 1].1)
  }

  function Lookup(d: Dict, key: string): Option<string> {
    if IndexOf(d, key) < |d| then Some(d[IndexOf(d, key)].1) else None
  }

  /** Index of the first `jobs:` line, or the number of lines. */
  function JobsIndex(lines: seq<string>): (i: nat)
    ensures i <= |lines| && (i < |lines| ==> IsJobsLine(lines[i]))
  {
    if lines == [] || IsJobsLine(lines[0]) then 0 else 1 + JobsIndex(lines[1..])
  }

  /** The job headers at or after line `i`. */
  function Starts(lines: seq<string>, i: nat): (r: seq<nat>)
    requires i <= |lines|
    ensures forall p :: 0 <= p < |r| ==> i <= r[p] < |lines| && HeaderName(lines[r[p]]).Some?
    ensures forall p, q :: 0 <= p < q < |r| ==> r[p] < r[q]
    ensures forall k :: i <= k < |lines| && HeaderName(lines[k]).Some? ==> k in r
    decreases |lines| - i
  {
    if i == |lines| then [] else (if HeaderName(lines[i]).Some? then [i] else []) + Starts(lines, i + 1)
  }

  /** The workflow has a `jobs:` line with a header somewhere after it. */
  predicate HasJobs(lines: seq<string>) {
    JobsIndex(lines) < |lines| && Starts(lines, JobsIndex(lines) + 1) != []
  }

  function JobStarts(lines: seq<string>): (r: seq<nat>)
    requires HasJobs(lines)
    ensures r != []
  {
    Starts(lines, JobsIndex(lines) + 1)
  }

  function EndOf(lines: seq<string>, starts: seq<nat>, p: nat): nat
    requires p < |starts|
  {
    if p + 1 < |starts| then starts[p + 1] else |lines|
  }

  ghost predicate ValidStarts(lines: seq<string>, starts: seq<nat>) {
    && (forall p :: 0 <= p < |starts| ==> starts[p] < |lines| && HeaderName(lines[starts[p]]).Some?)
    && (forall p, q :: 0 <= p < q < |starts| ==> starts[p] < starts[q])
  }

  function Entry(lines: seq<string>, starts: seq<nat>, p: nat): (string, string)
    requires p < |starts| && ValidStarts(lines, starts)
  {
    (HeaderName(lines[starts[p]]).value, Join(lines[starts[p]..EndOf(lines, starts, p)]))
  }

  /** One entry per header, in order. */
  function EntryList(lines: seq<string>, starts: seq<nat>): (r: Dict)
    requires ValidStarts(lines, starts)
    ensures |r| == |starts| && forall p :: 0 <= p < |r| ==> r[p] == Entry(lines, starts, p)
  {
    seq(|starts|, p requires 0 <= p < |starts| => Entry(lines, starts, p))
  }

  function Entries(text: string): Dict
    requires HasJobs(SplitLines(text))
  {
    EntryList(SplitLines(text), JobStarts(SplitLines(text)))
  }

  function Preamble(text: string): string
    requires HasJobs(SplitLines(text))
  {
    Join(SplitLines(text)[..JobStarts(SplitLines(text))[0]])
  }

  lemma PutAllStep(entries: Dict, p: nat)
    requires p < |entries|
    ensures PutAll(entries[..p + 1]) == Put(PutAll(entries[..p]), entries[p].0, entries[p].1)
  {
    assert entries[..p + 1][..p] == entries[..p];
  }

  /** The dictionary after the first `p` entries. */
  ghost predicate Collected(entries: Dict, p: nat, blocks: Dict) {
    p <= |entries| && blocks == PutAll(entries[..p])
  }

  lemma CollectStep(lines: seq<string>, starts: seq<nat>, p: nat, blocks: Dict)
    requires ValidStarts(lines, starts) && p < |starts| && Collected(EntryList(lines, starts), p, blocks)
    ensures Collected(EntryList(lines, starts), p + 1, Put(blocks, Entry(lines, starts, p).0, Entry(lines, starts, p).1))
  {
    PutAllStep(EntryList(lines, starts), p);
  }

  lemma {:induction false} AllCollected(entries: Dict, blocks: Dict)
    requires Collected(entries, |entries|, blocks)
    ensures blocks == PutAll(entries)
  {
    assert entries[..|entries|] == entries;
  }

  /** `job_blocks`. */
  method JobBlocks(text: string) returns (r: Result<Dict, Error>)
    ensures r.Ok? <==> HasJobs(SplitLines(text))
    ensures r.Ok? ==> r.value == PutAll(Entries(text))
  {
    var lines := SplitLines(text);
    var jobs := JobsIndex(lines);
    if jobs == |lines| { return Err(NoJobsMapping); }
    var starts := Starts(lines, jobs + 1);
    if starts == [] { return Err(NoJobs); }
    assert HasJobs(lines) && starts == JobStarts(lines);
    assert EntryList(lines, starts) == Entries(text);
    var blocks := CollectBlocks(lines, starts);
    r := Ok(blocks);
  }

  /** The loop of `job_blocks` over the headers. */
  method CollectBlocks(lines: seq<string>, starts: seq<nat>) returns (blocks: Dict)
    requires ValidStarts(lines, starts)
    ensures blocks == PutAll(EntryList(lines, starts))
  {
    blocks := [];
    ghost var entries := EntryList(lines, starts);
    var p := 0;
    while p < |starts|
      invariant p <= |starts| && Collected(entries, p, blocks)
    {
      var end := if p + 1 < |starts| then starts[p + 1] else |lines|;
      CollectStep(lines, starts, p, blocks);
      blocks := Put(blocks, HeaderName(lines[starts[p]]).value, Join(lines[starts[p]..end]));
      p := p + 1;
    }
    AllCollected(entries, blocks);
  }

  // ----- the partition -----

  ghost predicate DistinctKeys(d: Dict) {
    forall i, j :: 0 <= i < j < |d| ==> d[i].0 != d[j].0
  }

  function Values(d: Dict): (r: seq<string>)
    ensures |r| == |d| && forall i :: 0 <= i < |d| ==> r[i] == d[i].1
  {
    seq(|d|, i requires 0 <= i < |d| => d[i].1)
  }

  lemma EntryListTail(lines: seq<string>, starts: seq<nat>)
    requires ValidStarts(lines, starts) && starts != []
    ensures Values(EntryList(lines, starts)) ==
            [Join(lines[starts[0]..EndOf(lines, starts, 0)])] + Values(EntryList(lines, starts[1..]))
  {
    var tail := starts[1..];
    forall p | 0 <= p < |tail| ensures EntryList(lines, tail)[p] == EntryList(lines, starts)[p + 1] {
      assert Entry(lines, tail, p) == Entry(lines, starts, p + 1);
    }
  }

  lemma JoinSlices(lines: seq<string>, i: nat, j: nat)
    requires i <= j <= |lines|
    ensures Join(lines[..i]) + Join(lines[i..j]) == Join(lines[..j])
  {
    assert lines[..i] + lines[i..j] == lines[..j];
    JoinConcat(lines[..i], lines[i..j]);
  }

  lemma {:induction false} BlocksJoin(lines: seq<string>, starts: seq<nat>)
    requires ValidStarts(lines, starts) && starts != []
    ensures Join(lines[..starts[0]]) + Join(Values(EntryList(lines, starts))) == Join(lines)
    decreases |starts|
  {
    var tail, end := starts[1..], EndOf(lines, starts, 0);
    EntryListTail(lines, starts);
    JoinCons(Join(lines[starts[0]..end]), Values(EntryList(lines, tail)));
    JoinSlices(lines, starts[0], end);
    if tail == [] {
      assert lines[..end] == lines && Values(EntryList(lines, tail)) == [];
    } else {
      BlocksJoin(lines, tail);
    }
  }

  /** The preamble and the blocks, one per header, are exactly the workflow. */
  lemma PiecesAreText(text: string)
    requires HasJobs(SplitLines(text))
    ensures Preamble(text) + Join(Values(Entries(text))) == text
  {
    BlocksJoin(SplitLines(text), JobStarts(SplitLines(text)));
    JoinOfSplit(text);
  }

  lemma {:induction false} PutAllDistinct(entries: Dict)
    requires DistinctKeys(entries)
    ensures PutAll(entries) == entries
  {
    if entries != [] {
      var n := |entries| - 1;
      PutAllDistinct(entries[..n]);
      assert entries == entries[..n] + [entries[n]];
      assert IndexOf(entries[..n], entries[n].0) == n;
    }
  }

  lemma {:induction false} JoinUpdate(pieces: seq<string>, i: nat, piece: string)
    requires i < |pieces|
    ensures |Join(pieces[i := piece])| == |Join(pieces)| - |pieces[i]| + |piece|
  {
    if i == 0 {
      assert pieces[0 := piece][1..] == pieces[1..];
    } else {
      assert pieces[i := piece][1..] == pieces[1..][i - 1 := piece];
      JoinUpdate(pieces[1..], i - 1, piece);
    }
  }

  ghost predicate NonEmptyValues(d: Dict) {
    forall i :: 0 <= i < |d| ==> d[i].1 != ""
  }

  lemma {:induction false} PutLength(d: Dict, key: string, value: string)
    requires NonEmptyValues(d) && value != ""
    ensures NonEmptyValues(Put(d, key, value))
    ensures if IndexOf(d, key) < |d| then |Join(Values(Put(d, key, value)))| < |Join(Values(d))| + |value|
            else |Join(Values(Put(d, key, value)))| == |Join(Values(d))| + |value|
  {
    var i := IndexOf(d, key);
    if i < |d| {
      assert Values(Put(d, key, value)) == Values(d)[i := value];
      JoinUpdate(Values(d), i, value);
    } else {
      assert Values(Put(d, key, value)) == Values(d) + [value];
      JoinConcat(Values(d), [value]);
    }
  }

  /** A repeated key overwrites a block, so the dictionary holds less than the entries. */
  lemma {:induction false} PutAllLength(entries: Dict)
    requires NonEmptyValues(entries)
    ensures NonEmptyValues(PutAll(entries))
    ensures |Join(Values(PutAll(entries)))| <= |Join(Values(entries))|
    ensures |Join(Values(PutAll(entries)))| == |Join(Values(entries))| ==> DistinctKeys(entries)
  {
    if entries != [] {
      var n := |entries| - 1;
      var init, last := entries[..n], entries[n];
      PutAllLength(init);
      PutLength(PutAll(init), last.0, last.1);
      assert Values(entries) == Values(init) + [last.1];
      JoinConcat(Values(init), [last.1]);
      assert Join([last.1]) == last.1;
      if |Join(Values(PutAll(entries)))| == |Join(Values(entries))| {
        PutAllDistinct(init);
        assert IndexOf(init, last.0) == n;
      }
    }
  }

  lemma {:induction false} JoinNonEmpty(pieces: seq<string>)
    requires pieces != [] && pieces[0] != ""
    ensures Join(pieces) != ""
  {}

  lemma BlocksNonEmpty(lines: seq<string>, starts: seq<nat>)
    requires ValidStarts(lines, starts)
    ensures NonEmptyValues(EntryList(lines, starts))
  {
    forall p | 0 <= p < |starts| ensures Entry(lines, starts, p).1 != "" {
      var block := lines[starts[p]..EndOf(lines, starts, p)];
      assert block[0] == lines[starts[p]];
      JoinNonEmpty(block);
    }
  }

  /** The blocks of the dictionary, after the preamble, are the workflow exactly when no job name is repeated. */
  lemma PartitionExactly(text: string)
    requires HasJobs(SplitLines(text))
    ensures Preamble(text) + Join(Values(PutAll(Entries(text)))) == text <==> DistinctKeys(Entries(text))
  {
    PiecesAreText(text);
    BlocksNonEmpty(SplitLines(text), JobStarts(SplitLines(text)));
    if DistinctKeys(Entries(text)) {
      PutAllDistinct(Entries(text));
    } else {
      PutAllLength(Entries(text));
      assert |Preamble(text) + Join(Values(Entries(text)))| == |text|;
    }
  }
}
