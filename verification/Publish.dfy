/**
 Atomic publication of a catalog snapshot (scripts/refresh_opencode_go_catalog_snapshot.py): any number of
 concurrent refreshes, each writing its own temporary file and renaming it over the target, with readers
 that may hold the file open and with power failures at any step.
 */
module Publish {
  import opened Text

  /** File contents and whether they are known to be on stable storage. */
  datatype Inode = Inode(content: string, synced: bool)

  datatype Phase =
    | Waiting                            // not yet created its temporary file
    | Writing(inode: nat, written: nat)  // temporary file holds the first `written` characters
    | Flushed(inode: nat)                // written in full and fsynced, not yet renamed
    | Finished                           // renamed over the target
    | Abandoned                          // raised; before fsync the temporary file stays behind

  datatype Writer = Writer(payload: string, phase: Phase)

  /** An open file description: which inode, and how much of it has been read. */
  datatype Reader = Reader(inode: nat, got: string)

  datatype State = State(
    inodes: map<nat, Inode>,
    target: Option<nat>,            // what the published name denotes now
    entries: set<Option<nat>>,      // what it may denote after a power failure: the directory is not fsynced
    writers: map<nat, Writer>,
    readers: map<nat, Reader>,
    started: set<string>)           // every payload a refresh has tried to publish

  datatype Event =
    | Start(writer: nat, payload: string)
    | Create(writer: nat, inode: nat)
    | Write(writer: nat, upTo: nat)
    | Fsync(writer: nat)
    | Replace(writer: nat)
    | Raise(writer: nat)
    | Open(reader: nat)
    | Read(reader: nat, upTo: nat)
    | PowerFailure(denotes: Option<nat>, garbage: map<nat, string>)

  function Initially(content: Option<string>): State {
    var inodes := if content.Some? then map[0 := Inode(content.value, true)] else map[];
    var target := if content.Some? then Some(0) else None;
    State(inodes, target, {target}, map[], map[], {})
  }

  /** Contents after a power failure: synced files keep theirs, the others hold anything. */
  function AfterFailure(inodes: map<nat, Inode>, garbage: map<nat, string>): (r: map<nat, Inode>)
    ensures r.Keys == inodes.Keys
  {
    map i | i in inodes ::
      if inodes[i].synced then inodes[i] else Inode(if i in garbage then garbage[i] else "", true)
  }

  /** One step; a step that is not enabled changes nothing. */
  function Step(s: State, e: Event): State {
    match e
    case Start(w, payload) =>
      if w in s.writers then s
      else s.(writers := s.writers[w := Writer(payload, Waiting)], started := s.started + {payload})
    case Create(w, i) =>
      if w in s.writers && s.writers[w].phase.Waiting? && i !in s.inodes then
        s.(inodes := s.inodes[i := Inode("", false)], writers := s.writers[w := s.writers[w].(phase := Writing(i, 0))])
      else s
    case Write(w, upTo) =>
      if w in s.writers && s.writers[w].phase.Writing? && s.writers[w].phase.written <= upTo <= |s.writers[w].payload| then
        var i := s.writers[w].phase.inode;
        s.(inodes := s.inodes[i := Inode(s.writers[w].payload[..upTo], false)],
           writers := s.writers[w := s.writers[w].(phase := Writing(i, upTo))])
      else s
    case Fsync(w) =>
      if w in s.writers && s.writers[w].phase.Writing? && s.writers[w].phase.written == |s.writers[w].payload|
         && s.writers[w].phase.inode in s.inodes then
        var i := s.writers[w].phase.inode;
        s.(inodes := s.inodes[i := s.inodes[i].(synced := true)], writers := s.writers[w := s.writers[w].(phase := Flushed(i))])
      else s
    case Replace(w) =>
      if w in s.writers && s.writers[w].phase.Flushed? then
        var i := s.writers[w].phase.inode;
        s.(target := Some(i), entries := s.entries + {Some(i)}, writers := s.writers[w := s.writers[w].(phase := Finished)])
      else s
    case Raise(w) =>
      if w in s.writers && !s.writers[w].phase.Finished? && !s.writers[w].phase.Abandoned? then
        s.(inodes := if s.writers[w].phase.Flushed? then s.inodes - {s.writers[w].phase.inode} else s.inodes,
           writers := s.writers[w := s.writers[w].(phase := Abandoned)])
      else s
    case Open(r) =>
      if s.target.Some? then s.(readers := s.readers[r := Reader(s.target.value, "")]) else s
    case Read(r, upTo) =>
      if r in s.readers && s.readers[r].inode in s.inodes && |s.readers[r].got| <= upTo <= |s.inodes[s.readers[r].inode].content| then
        var seen, content := s.readers[r].got, s.inodes[s.readers[r].inode].content;
        s.(readers := s.readers[r := Reader(s.readers[r].inode, seen + content[|seen|..upTo])])
      else s
    case PowerFailure(denotes, garbage) =>
      if denotes in s.entries then
        State(AfterFailure(s.inodes, garbage), denotes, {denotes}, map[], map[], s.started)
      else s
  }

  function Run(s: State, events: seq<Event>): State {
    if events == [] then s else Step(Run(s, events[..|events| - 1]), events[|events| - 1])
  }

  // ----- safety -----

  /** A complete document: the one there at the start, or the whole payload of one refresh. */
  predicate IsDocument(s: State, initial: Option<string>, content: string) {
    initial == Some(content) || content in s.started
  }

  ghost predicate Published(s: State, initial: Option<string>, entry: Option<nat>) {
    match entry
    case None => initial.None?
    case Some(i) => i in s.inodes && s.inodes[i].synced && IsDocument(s, initial, s.inodes[i].content)
  }

  ghost predicate EntriesSound(s: State, initial: Option<string>) {
    s.target in s.entries && forall d :: d in s.entries ==> Published(s, initial, d)
  }

  /** The inode a writer is filling, if any. */
  function Holds(w: Writer): Option<nat> {
    match w.phase
    case Writing(i, _) => Some(i)
    case Flushed(i) => Some(i)
    case _ => None
  }

  ghost predicate WriterSound(s: State, w: nat)
    requires w in s.writers
  {
    var writer := s.writers[w];
    && writer.payload in s.started
    && (Holds(writer).Some? ==> Holds(writer).value in s.inodes && Holds(writer) !in s.entries)
    && (writer.phase.Writing? ==>
          && writer.phase.written <= |writer.payload|
          && s.inodes[writer.phase.inode] == Inode(writer.payload[..writer.phase.written], false))
    && (writer.phase.Flushed? ==> s.inodes[writer.phase.inode] == Inode(writer.payload, true))
  }

  ghost predicate WritersSound(s: State) {
    && (forall w :: w in s.writers ==> WriterSound(s, w))
    && (forall v, w :: v in s.writers && w in s.writers && v != w && Holds(s.writers[v]).Some? ==>
          Holds(s.writers[v]) != Holds(s.writers[w]))
  }

  ghost predicate ReadersSound(s: State) {
    forall r :: r in s.readers ==>
      && Some(s.readers[r].inode) in s.entries && s.readers[r].inode in s.inodes
      && s.readers[r].got <= s.inodes[s.readers[r].inode].content
  }

  ghost predicate Inv(s: State, initial: Option<string>) {
    EntriesSound(s, initial) && WritersSound(s) && ReadersSound(s)
  }

  lemma InitiallyInv(initial: Option<string>)
    ensures Inv(Initially(initial), initial)
  {}

  lemma StepKeepsEntries(s: State, e: Event, initial: Option<string>)
    requires Inv(s, initial)
    ensures EntriesSound(Step(s, e), initial)
  {
    var t := Step(s, e);
    assert forall d :: d in s.entries ==> Published(s, initial, d);
    if (e.Create? || e.Write? || e.Fsync? || e.Raise? || e.Replace?) && e.writer in s.writers {
      assert WriterSound(s, e.writer);
    }
    if e.Write? && t != s { assert s.writers[e.writer].phase.inode in s.inodes; }
    forall d | d in t.entries ensures Published(t, initial, d) {
      assert d in s.entries || (e.Replace? && d == Holds(s.writers[e.writer]));
    }
  }

  lemma StepKeepsReaders(s: State, e: Event, initial: Option<string>)
    requires Inv(s, initial)
    ensures ReadersSound(Step(s, e))
  {
    if (e.Create? || e.Write? || e.Fsync? || e.Raise?) && e.writer in s.writers { assert WriterSound(s, e.writer); }
  }

  /** A step of one writer leaves the temporary files of the others alone. */
  lemma StepKeepsWriter(s: State, e: Event, initial: Option<string>, w: nat)
    requires Inv(s, initial) && w in Step(s, e).writers
    ensures WriterSound(Step(s, e), w)
  {
    if w in s.writers {
      assert WriterSound(s, w);
      if (e.Create? || e.Write? || e.Fsync? || e.Raise? || e.Replace?) && e.writer in s.writers && e.writer != w {
        assert WriterSound(s, e.writer);
        assert Holds(s.writers[w]).Some? ==> Holds(s.writers[w]) != Holds(s.writers[e.writer]);
      }
    }
  }

  lemma StepKeepsDistinct(s: State, e: Event, initial: Option<string>, v: nat, w: nat)
    requires Inv(s, initial)
    requires v in Step(s, e).writers && w in Step(s, e).writers && v != w && Holds(Step(s, e).writers[v]).Some?
    ensures Holds(Step(s, e).writers[v]) != Holds(Step(s, e).writers[w])
  {
    if v in s.writers { assert WriterSound(s, v); }
    if w in s.writers { assert WriterSound(s, w); }
  }

  lemma StepKeepsWriters(s: State, e: Event, initial: Option<string>)
    requires Inv(s, initial)
    ensures WritersSound(Step(s, e))
  {
    var t := Step(s, e);
    forall w | w in t.writers ensures WriterSound(t, w) { StepKeepsWriter(s, e, initial, w); }
    forall v, w | v in t.writers && w in t.writers && v != w && Holds(t.writers[v]).Some?
      ensures Holds(t.writers[v]) != Holds(t.writers[w])
    {
      StepKeepsDistinct(s, e, initial, v, w);
    }
  }

  lemma {:induction false} RunKeepsInv(s: State, events: seq<Event>, initial: Option<string>)
    requires Inv(s, initial)
    ensures Inv(Run(s, events), initial)
  {
    if events != [] {
      var before, e := Run(s, events[..|events| - 1]), events[|events| - 1];
      RunKeepsInv(s, events[..|events| - 1], initial);
      StepKeepsEntries(before, e, initial);
      StepKeepsReaders(before, e, initial);
      StepKeepsWriters(before, e, initial);
    }
  }

  /**
   After any interleaving of any number of refreshes, readers and power failures, the published file is
   absent only if it was absent at first, and otherwise holds one complete document on stable storage.
   */
  lemma {:induction false} AlwaysOneDocument(initial: Option<string>, events: seq<Event>)
    ensures var s := Run(Initially(initial), events); Published(s, initial, s.target)
  {
    InitiallyInv(initial);
    RunKeepsInv(Initially(initial), events, initial);
  }

  /** Once published, a file never changes, whatever is published after it. */
  lemma {:induction false} PublishedNeverChanges(initial: Option<string>, events: seq<Event>, e: Event, i: nat)
    requires Some(i) in Run(Initially(initial), events).entries
    ensures var s := Run(Initially(initial), events);
            i in s.inodes && i in Step(s, e).inodes && Step(s, e).inodes[i] == s.inodes[i]
  {
    InitiallyInv(initial);
    RunKeepsInv(Initially(initial), events, initial);
    var s := Run(Initially(initial), events);
    assert Published(s, initial, Some(i));
    if (e.Create? || e.Write? || e.Fsync? || e.Raise?) && e.writer in s.writers { assert WriterSound(s, e.writer); }
  }

  /** A reader that opened the published file reads that file: a prefix of one complete document. */
  lemma {:induction false} ReadersSeeOneDocument(initial: Option<string>, events: seq<Event>, r: nat)
    ensures var s := Run(Initially(initial), events);
            r in s.readers ==>
              && s.readers[r].inode in s.inodes
              && IsDocument(s, initial, s.inodes[s.readers[r].inode].content)
              && s.readers[r].got <= s.inodes[s.readers[r].inode].content
  {
    InitiallyInv(initial);
    RunKeepsInv(Initially(initial), events, initial);
    var s := Run(Initially(initial), events);
    if r in s.readers {
      assert Published(s, initial, Some(s.readers[r].inode));
    }
  }
}
