/**
 The diagnostic redactor of scripts/qualification_portability.py: white-space normalisation,
 one cut per secret marker in turn, and a final length bound.
 */
module Redaction {
  import opened Text

  const REDACTED := "<redacted>"
  const MARKERS: seq<string> := ["Bearer ", "bearer ", "sk-", "api_key=", "token="]
  const MAX_DIAGNOSTIC_BYTES := 768

  // ----- normalisation: " ".join(value.replace("\0", " ").split()) -----

  function WordLength(s: string): (n: nat)
    ensures n <= |s|
    ensures forall i :: 0 <= i < n ==> !IsSpace(s[i])
    ensures n < |s| ==> IsSpace(s[n])
  {
    if s == "" || IsSpace(s[0]) then 0 else 1 + WordLength(s[1..])
  }

  function Words(s: string): seq<string>
    decreases |s|
  {
    var t := StripLeft(s);
    if t == "" then [] else
    var n := WordLength(t);
    [t[..n]] + Words(t[n..])
  }

  function JoinWords(words: seq<string>): string {
    if |words| == 0 then ""
    else if |words| == 1 then words[0]
    else words[0] + " " + JoinWords(words[1..])
  }

  function BlankNul(s: string): string {
    seq(|s|, i requires 0 <= i < |s| => if s[i] == '\0' then ' ' else s[i])
  }

  function Normalize(value: string): string {
    JoinWords(Words(BlankNul(value)))
  }

  predicate IsWord(w: string) {
    w != "" && forall i :: 0 <= i < |w| ==> !IsSpace(w[i])
  }

  function NonSpace(s: string): string {
    if s == "" then "" else (if IsSpace(s[0]) then "" else [s[0]]) + NonSpace(s[1..])
  }

  function Flatten(words: seq<string>): string {
    if words == [] then "" else words[0] + Flatten(words[1..])
  }

  lemma {:induction false} NonSpaceStripLeft(s: string)
    ensures NonSpace(StripLeft(s)) == NonSpace(s)
  {
    if s != "" && IsSpace(s[0]) { NonSpaceStripLeft(s[1..]); }
  }

  lemma {:induction false} NonSpaceWord(w: string, rest: string)
    requires forall i :: 0 <= i < |w| ==> !IsSpace(w[i])
    ensures NonSpace(w + rest) == w + NonSpace(rest)
  {
    if w == "" {
      assert w + rest == rest;
    } else {
      assert (w + rest)[1..] == w[1..] + rest;
      NonSpaceWord(w[1..], rest);
    }
  }

  lemma {:induction false} WordsUnfold(s: string, t: string, n: nat)
    requires t == StripLeft(s) && t != "" && n == WordLength(t)
    ensures Words(s) == [t[..n]] + Words(t[n..])
  {}

  lemma {:induction false} FirstWord(t: string, n: nat)
    requires t != "" && !IsSpace(t[0]) && n == WordLength(t)
    ensures n > 0 && IsWord(t[..n]) && t == t[..n] + t[n..]
  {}

  /** One step of `split`, with the white space before the word taken off. */
  lemma WordsStep(s: string) returns (w: string, rest: string)
    requires StripLeft(s) != ""
    ensures IsWord(w) && |rest| < |s| && StripLeft(s) == w + rest
    ensures Words(s) == [w] + Words(rest)
  {
    var t := StripLeft(s);
    var n := WordLength(t);
    FirstWord(t, n);
    WordsUnfold(s, t, n);
    w, rest := t[..n], t[n..];
  }

  lemma {:induction false} WordsAreWords(s: string)
    ensures forall w :: w in Words(s) ==> IsWord(w)
    decreases |s|
  {
    if StripLeft(s) != "" {
      var w, rest := WordsStep(s);
      WordsAreWords(rest);
    }
  }

  /** `split` keeps every visible character, in order. */
  lemma {:induction false} WordsKeepText(s: string)
    ensures Flatten(Words(s)) == NonSpace(s)
    decreases |s|
  {
    NonSpaceStripLeft(s);
    if StripLeft(s) != "" {
      var w, rest := WordsStep(s);
      WordsKeepText(rest);
      NonSpaceWord(w, rest);
      assert ([w] + Words(rest))[1..] == Words(rest);
    }
  }

  lemma {:induction false} WordLengthOf(w: string, rest: string)
    requires forall i :: 0 <= i < |w| ==> !IsSpace(w[i])
    requires rest == "" || IsSpace(rest[0])
    ensures WordLength(w + rest) == |w|
  {
    if w == "" {
      assert w + rest == rest;
    } else {
      assert (w + rest)[1..] == w[1..] + rest;
      WordLengthOf(w[1..], rest);
    }
  }

  /** A word followed by a space or by nothing is the first word of the text. */
  lemma {:induction false} WordsFirst(w: string, rest: string)
    requires IsWord(w) && (rest == "" || IsSpace(rest[0]))
    ensures Words(w + rest) == [w] + Words(rest)
  {
    var s := w + rest;
    WordLengthOf(w, rest);
    assert s[0] == w[0];
    assert s[..|w|] == w && s[|w|..] == rest;
  }

  lemma {:induction false} WordsAfterSpace(rest: string)
    ensures Words(" " + rest) == Words(rest)
  {
    assert (" " + rest)[1..] == rest;
  }

  lemma {:induction false} JoinStep(w: string, others: seq<string>)
    requires others != []
    ensures JoinWords([w] + others) == w + (" " + JoinWords(others))
  {
    assert ([w] + others)[1..] == others;
  }

  lemma {:induction false} WordsThen(w: string, rest: string)
    requires IsWord(w)
    ensures Words(w + (" " + rest)) == [w] + Words(rest)
  {
    WordsFirst(w, " " + rest);
    WordsAfterSpace(rest);
  }

  lemma {:induction false} WordsOfWord(w: string)
    requires IsWord(w)
    ensures Words(w) == [w]
  {
    WordsFirst(w, "");
    assert w + "" == w;
  }

  lemma {:induction false} JoinOneMore(w: string, others: seq<string>)
    requires IsWord(w) && Words(JoinWords(others)) == others
    ensures Words(JoinWords([w] + others)) == [w] + others
  {
    if others == [] {
      assert [w] + others == [w];
      WordsOfWord(w);
    } else {
      JoinStep(w, others);
      WordsThen(w, JoinWords(others));
    }
  }

  /** Joining and splitting again gives the words back. */
  lemma {:induction false} SplitOfJoin(words: seq<string>)
    requires forall i :: 0 <= i < |words| ==> IsWord(words[i])
    ensures Words(JoinWords(words)) == words
  {
    if words != [] {
      var w, others := words[0], words[1..];
      assert words == [w] + others;
      SplitOfJoin(others);
      JoinOneMore(w, others);
    }
  }

  /** Normalisation changes only white space: the words, and the visible characters, are those of the input. */
  lemma NormalizeKeepsWords(value: string)
    ensures Words(Normalize(value)) == Words(BlankNul(value))
    ensures NonSpace(Normalize(value)) == NonSpace(BlankNul(value))
  {
    var blanked := BlankNul(value);
    WordsAreWords(blanked);
    SplitOfJoin(Words(blanked));
    WordsKeepText(blanked);
    WordsKeepText(Normalize(value));
  }

  // ----- the specification: one cut at the earliest marker -----

  /** Position of the earliest occurrence of any of the markers, or -1. */
  function Earliest(text: string, markers: seq<string>): (e: int)
    ensures -1 <= e <= |text|
    ensures e >= 0 ==> exists m :: m in markers && OccursAt(text, m, e)
    ensures forall m, j :: m in markers && 0 <= j && (e == -1 || j < e) ==> !OccursAt(text, m, j)
  {
    if markers == [] then -1
    else
      var last := markers[|markers| - 1];
      var before, here := Earliest(text, markers[..|markers| - 1]), Find(text, last);
      assert forall m :: m in markers ==> m == last || m in markers[..|markers| - 1];
      if before == -1 then here else if here == -1 then before
      else if here < before then here else before
  }

  function CutAtEarliest(text: string, markers: seq<string>): string {
    var e := Earliest(text, markers);
    if e == -1 then text else text[..e] + REDACTED
  }

  function Truncate(text: string): string {
    if |text| <= MAX_DIAGNOSTIC_BYTES then text else text[..MAX_DIAGNOSTIC_BYTES]
  }

  // ----- the loop body -----

  function CutOne(text: string, marker: string): string {
    var i := Find(text, marker);
    if i == -1 then text else text[..i] + REDACTED
  }

  function CutEach(text: string, markers: seq<string>): string {
    if markers == [] then text
    else CutOne(CutEach(text, markers[..|markers| - 1]), markers[|markers| - 1])
  }

  // ----- when repeated cutting is one cut -----

  /** `b` can begin `k` characters into an occurrence of `a`. */
  predicate Overlaps(a: string, b: string, k: nat) {
    0 < k < |a| && (a[k..] <= b || b <= a[k..])
  }

  /** No two marker occurrences can overlap, and the replacement text can take part in none. */
  ghost predicate Independent(markers: seq<string>) {
    && (forall m :: m in markers ==> m != "" && '<' !in m && !Occurs(REDACTED, m))
    && (forall a, b, k :: a in markers && b in markers ==> !Overlaps(a, b, k))
  }

  lemma OccurrencesDoNotOverlap(text: string, a: string, i: int, b: string, j: int)
    requires OccursAt(text, a, i) && OccursAt(text, b, j) && i < j < i + |a|
    ensures Overlaps(a, b, j - i)
  {
    var k := j - i;
    assert a[k..] == text[j..i + |a|];
    if i + |a| <= j + |b| {
      assert b[..|a| - k] == text[j..i + |a|];
    } else {
      assert a[k..][..|b|] == text[j..j + |b|];
    }
  }

  /** After a cut at `e`, a marker occurs exactly where it occurred before and ended by `e`. */
  lemma OccurrencesAfterCut(text: string, e: nat, m: string, i: int)
    requires e <= |text| && '<' !in m && m != "" && !Occurs(REDACTED, m)
    ensures OccursAt(text[..e] + REDACTED, m, i) <==> OccursAt(text, m, i) && i + |m| <= e
  {
    var cut := text[..e] + REDACTED;
    OccursInHalf(text[..e], REDACTED, m, i);
    OccursInHalf(text[..e], text[e..], m, i);
    assert text[..e] + text[e..] == text;
    if i < e < i + |m| { OccurrenceChar(cut, m, i, e - i); }
  }

  /** One more pass of the loop after an exact cut is again an exact cut. */
  lemma CutOneStep(text: string, markers: seq<string>, m: string)
    requires Independent(markers + [m])
    ensures CutOne(CutAtEarliest(text, markers), m) == CutAtEarliest(text, markers + [m])
  {
    var all := markers + [m];
    assert all[..|all| - 1] == markers && m in all && forall x :: x in markers ==> x in all;
    var e, i := Earliest(text, markers), Find(text, m);
    if e != -1 {
      var cut := text[..e] + REDACTED;
      var p :| p in markers && OccursAt(text, p, e);
      if i != -1 && i < e {
        if e < i + |m| { OccurrencesDoNotOverlap(text, m, i, p, e); assert false; }
        OccurrencesAfterCut(text, e, m, i);
        forall j | 0 <= j < i ensures !OccursAt(cut, m, j) { OccurrencesAfterCut(text, e, m, j); }
        assert Find(cut, m) == i;
        assert cut[..i] == text[..i];
      } else {
        forall j ensures !OccursAt(cut, m, j) { OccurrencesAfterCut(text, e, m, j); }
        assert Find(cut, m) == -1;
      }
    }
  }

  /** Cutting at each marker in turn is one cut at the earliest marker. */
  lemma {:induction false} CutEachIsOneCut(text: string, markers: seq<string>)
    requires Independent(markers)
    ensures CutEach(text, markers) == CutAtEarliest(text, markers)
  {
    if markers != [] {
      var init := markers[..|markers| - 1];
      assert init + [markers[|markers| - 1]] == markers;
      assert forall x :: x in init ==> x in markers;
      CutEachIsOneCut(text, init);
      CutOneStep(text, init, markers[|markers| - 1]);
    }
  }

  /** The cut does not depend on the order (or repetition) of the markers. */
  lemma {:induction false} OrderIrrelevant(text: string, markers: seq<string>, others: seq<string>)
    requires Independent(markers) && forall m :: m in markers <==> m in others
    ensures CutEach(text, markers) == CutEach(text, others)
  {
    CutEachIsOneCut(text, markers);
    CutEachIsOneCut(text, others);
    var e, f := Earliest(text, markers), Earliest(text, others);
    assert e == f;
  }

  /** Nothing secret-shaped survives: no marker occurs in the bounded output. */
  lemma NoMarkerSurvives(text: string, markers: seq<string>, m: string)
    requires Independent(markers) && m in markers
    ensures !Occurs(Truncate(CutAtEarliest(text, markers)), m)
  {
    var e := Earliest(text, markers);
    var cut := CutAtEarliest(text, markers);
    forall i ensures !OccursAt(Truncate(cut), m, i) {
      if OccursAt(Truncate(cut), m, i) {
        assert cut[i..i + |m|] == Truncate(cut)[i..i + |m|];
        assert OccursAt(cut, m, i);
        if e != -1 { OccurrencesAfterCut(text, e, m, i); }
        assert false;
      }
    }
  }

  lemma NotInRedacted(m: string)
    requires m in MARKERS
    ensures !Occurs(REDACTED, m)
  {
    forall i ensures !OccursAt(REDACTED, m, i) {
      OccurrenceChar(REDACTED, m, i, 0);
      OccurrenceChar(REDACTED, m, i, 1);
    }
  }

  lemma OverlapChars(a: string, b: string, k: nat)
    ensures Overlaps(a, b, k) && |b| > 1 ==> a[k] == b[0] && (k + 1 < |a| ==> a[k + 1] == b[1])
  {
    if Overlaps(a, b, k) && |b| > 1 {
      assert a[k] == a[k..][0];
      assert k + 1 < |a| ==> a[k + 1] == a[k..][1];
    }
  }

  lemma MarkersDoNotOverlap(a: string, b: string, k: nat)
    requires a in MARKERS && b in MARKERS
    ensures !Overlaps(a, b, k)
  {
    OverlapChars(a, b, k);
  }

  lemma MarkersIndependent()
    ensures Independent(MARKERS)
  {
    forall m | m in MARKERS ensures m != "" && '<' !in m && !Occurs(REDACTED, m) { NotInRedacted(m); }
    forall a, b, k: nat | a in MARKERS && b in MARKERS ensures !Overlaps(a, b, k) { MarkersDoNotOverlap(a, b, k); }
  }

  /** `_bounded_text`. */
  method BoundedText(value: string) returns (text: string)
    ensures text == Truncate(CutAtEarliest(Normalize(value), MARKERS))
    ensures forall m :: m in MARKERS ==> !Occurs(text, m)
    ensures |text| <= MAX_DIAGNOSTIC_BYTES
  {
    MarkersIndependent();
    text := Normalize(value);
    ghost var normalized := text;
    for k := 0 to |MARKERS|
      invariant text == CutEach(normalized, MARKERS[..k])
    {
      assert MARKERS[..k + 1][..k] == MARKERS[..k];
      var i := Find(text, MARKERS[k]);
      if i != -1 {
        text := text[..i] + REDACTED;
      }
    }
    assert MARKERS[..|MARKERS|] == MARKERS;
    CutEachIsOneCut(normalized, MARKERS);
    forall m | m in MARKERS ensures !Occurs(Truncate(text), m) { NoMarkerSurvives(normalized, MARKERS, m); }
    text := Truncate(text);
  }
}
