/** The incremental reader of the engine's drawn progress: text ends at a line break, a carriage return or a
    control sequence, and a write may stop anywhere. Control sequences are those of section 5.4 of ECMA-48. */
module Terminal {
  import opened Wrappers
  import Characters = Text

  newtype byte = x: int | 0 <= x < 256

  type Text = seq<byte>

  const ESC: byte := 0x1b

  /** The longest text kept between writes, and the length from which an unfinished escape is given up. */
  const MAX_PENDING := 4096
  const MAX_ESCAPE := 32

  predicate IsMark(b: byte) { b == 10 || b == 13 || b == ESC }

  /** Where the first mark is; the length when there is none. */
  function FirstMark(s: Text): (i: nat)
    ensures i <= |s|
  {
    if s == [] || IsMark(s[0]) then 0 else 1 + FirstMark(s[1..])
  }

  lemma {:induction false} MarkIsFirst(s: Text)
    ensures forall j :: 0 <= j < FirstMark(s) ==> !IsMark(s[j])
    ensures FirstMark(s) < |s| ==> IsMark(s[FirstMark(s)])
  {
    if s != [] && !IsMark(s[0]) {
      MarkIsFirst(s[1..]);
      assert forall j :: 1 <= j < |s| ==> s[j] == s[1..][j - 1];
    }
  }

  lemma {:induction false} NoMarkAtAll(s: Text)
    requires forall j :: 0 <= j < |s| ==> !IsMark(s[j])
    ensures FirstMark(s) == |s|
  {
    if s != [] {
      NoMarkAtAll(s[1..]);
    }
  }

  predicate IsParameter(b: byte) { 0x30 <= b <= 0x3f }
  predicate IsIntermediate(b: byte) { 0x20 <= b <= 0x2f }
  predicate IsFinal(b: byte) { 0x40 <= b <= 0x7e }

  /** How many bytes from `i` on are parameters. */
  function Parameters(s: Text, i: nat): (n: nat)
    requires i <= |s|
    ensures i + n <= |s|
    ensures forall j :: i <= j < i + n ==> IsParameter(s[j])
    ensures i + n < |s| ==> !IsParameter(s[i + n])
    decreases |s| - i
  {
    if i < |s| && IsParameter(s[i]) then 1 + Parameters(s, i + 1) else 0
  }

  function Intermediates(s: Text, i: nat): (n: nat)
    requires i <= |s|
    ensures i + n <= |s|
    ensures forall j :: i <= j < i + n ==> IsIntermediate(s[j])
    ensures i + n < |s| ==> !IsIntermediate(s[i + n])
    decreases |s| - i
  {
    if i < |s| && IsIntermediate(s[i]) then 1 + Intermediates(s, i + 1) else 0
  }

  /** A whole control sequence: ESC [ parameters intermediates final. */
  predicate IsEscape(s: Text, p: nat, q: nat) {
    && 2 <= p <= q && |s| == q + 1
    && s[0] == ESC && s[1] == 0x5b
    && (forall j :: 2 <= j < p ==> IsParameter(s[j]))
    && (forall j :: p <= j < q ==> IsIntermediate(s[j]))
    && IsFinal(s[q])
  }

  /** The length of the control sequence the text starts with, as the greedy pattern finds it. */
  function EscapeLength(s: Text): (n: Option<nat>)
    ensures n.Some? ==> 3 <= n.value <= |s|
  {
    if |s| < 2 || s[0] != ESC || s[1] != 0x5b then None
    else
      var p := 2 + Parameters(s, 2);
      var q := p + Intermediates(s, p);
      if q < |s| && IsFinal(s[q]) then Some(q + 1) else None
  }

  lemma {:induction false} FoundIsEscape(s: Text)
    requires EscapeLength(s).Some?
    ensures exists p: nat, q: nat :: IsEscape(s[..EscapeLength(s).value], p, q)
  {
    var p := 2 + Parameters(s, 2);
    assert IsEscape(s[..EscapeLength(s).value], p, p + Intermediates(s, p));
  }

  lemma {:induction false} EscapeIsFound(s: Text, n: nat, p: nat, q: nat)
    requires n <= |s| && IsEscape(s[..n], p, q)
    ensures EscapeLength(s) == Some(n)
  {
    RunsAreExact(s, s[..n], p, q);
    hide Parameters, Intermediates;
  }

  /** The pattern finds a control sequence at the start exactly when there is one, and all of it. */
  lemma {:induction false} EscapeLengthIsExact(s: Text, n: nat)
    ensures EscapeLength(s) == Some(n) <==> n <= |s| && exists p: nat, q: nat :: IsEscape(s[..n], p, q)
  {
    hide EscapeLength, IsEscape;
    if EscapeLength(s) == Some(n) {
      FoundIsEscape(s);
    }
    if n <= |s| && exists p: nat, q: nat :: IsEscape(s[..n], p, q) {
      var p: nat, q: nat :| IsEscape(s[..n], p, q);
      EscapeIsFound(s, n, p, q);
    }
  }

  lemma {:induction false} RunsAreExact(s: Text, t: Text, p: nat, q: nat)
    requires t <= s && IsEscape(t, p, q)
    ensures 2 + Parameters(s, 2) == p && p + Intermediates(s, p) == q
  {
    var a := 2 + Parameters(s, 2);
    assert forall j :: 0 <= j < |t| ==> t[j] == s[j];
    assert !IsParameter(s[p]);
    assert a <= p;
    assert a < |s|;
    var b := p + Intermediates(s, p);
    assert !IsIntermediate(s[q]);
    assert b <= q;
  }

  /** What a longer text adds to a shorter one never changes a sequence already whole. */
  lemma {:induction false} EscapeExtends(s: Text, more: Text)
    ensures EscapeLength(s).Some? ==> EscapeLength(s + more) == EscapeLength(s)
    ensures EscapeLength(s).None? && EscapeLength(s + more).Some? ==> EscapeLength(s + more).value > |s|
  {
    if EscapeLength(s).Some? {
      var n := EscapeLength(s).value;
      EscapeLengthIsExact(s, n);
      assert (s + more)[..n] == s[..n];
      EscapeLengthIsExact(s + more, n);
    } else if EscapeLength(s + more).Some? && EscapeLength(s + more).value <= |s| {
      var n := EscapeLength(s + more).value;
      EscapeLengthIsExact(s + more, n);
      assert (s + more)[..n] == s[..n];
      EscapeLengthIsExact(s, n);
    }
  }

  /** How many bytes the mark at the start takes; 0 while an escape may still be completed. */
  function Taken(s: Text): (n: nat)
    requires s != []
    ensures n <= |s|
  {
    if s[0] != ESC then 1
    else
      match EscapeLength(s)
      case Some(n) => n
      case None => if |s| < MAX_ESCAPE then 0 else 1
  }

  /** The texts a buffer ends, in order, and what it leaves waiting. */
  datatype Scanned = Scanned(texts: seq<Text>, rest: Text)

  function Scan(s: Text): Scanned
    decreases |s|, 1
  {
    var end := FirstMark(s);
    if end == |s| then Scanned([], s)
    else
      var after := ScanMark(s[end..]);
      Scanned([s[..end]] + after.texts, after.rest)
  }

  /** The same from a mark on. */
  function ScanMark(t: Text): Scanned
    requires t != []
    decreases |t|, 0
  {
    var n := Taken(t);
    if n == 0 then Scanned([], t) else Scan(t[n..])
  }

  lemma {:induction false} ScanNone(s: Text)
    requires FirstMark(s) == |s|
    ensures Scan(s) == Scanned([], s)
  {
  }

  function Kept(s: Text): Text {
    if |s| > MAX_PENDING then s[|s| - MAX_PENDING..] else s
  }

  /** Trimming white space, and what is relied on about it. */
  type Trim = Text -> Text

  ghost predicate Trims(trim: Trim) {
    && trim([]) == []
    && forall escape: Text, text: Text :: Graphic(escape) ==> |trim(escape + text)| >= |escape| + |trim(text)|
  }

  /** Begins and ends with visible ASCII characters. */
  predicate Graphic(s: Text) {
    s != [] && 0x21 <= s[0] <= 0x7e && 0x21 <= s[|s| - 1] <= 0x7e
  }

  /** The non-empty lines of some texts. */
  function Lines(trim: Trim, texts: seq<Text>): seq<Text> {
    if texts == [] then []
    else Line(trim, texts[0]) + Lines(trim, texts[1..])
  }

  function Line(trim: Trim, text: Text): seq<Text> {
    if trim(text) == [] then [] else [trim(text)]
  }

  lemma {:induction false} LinesOfOneMore(trim: Trim, text: Text, texts: seq<Text>)
    ensures Lines(trim, [text] + texts) == Line(trim, text) + Lines(trim, texts)
  {
    hide Line;
    assert ([text] + texts)[1..] == texts;
  }

  /** An empty text is no line, and there is nothing of it to lose. */
  lemma EmptyText(trim: Trim)
    requires Trims(trim)
    ensures Line(trim, []) == [] && Settled(trim, []) && Lines(trim, []) == []
  {
  }

  /** The lines read from a stream in one write. */
  function LinesOfWhole(trim: Trim, s: Text): seq<Text> {
    Lines(trim, Scan(s).texts)
  }

  function LinesFromMark(trim: Trim, t: Text): seq<Text>
    requires t != []
  {
    Lines(trim, ScanMark(t).texts)
  }

  lemma {:induction false} WholeOne(trim: Trim, s: Text)
    requires FirstMark(s) < |s|
    ensures
      var end := FirstMark(s);
      && LinesOfWhole(trim, s) == Line(trim, s[..end]) + LinesFromMark(trim, s[end..])
      && Scan(s).rest == ScanMark(s[end..]).rest
  {
    hide ScanMark, Line, FirstMark;
    LinesOfOneMore(trim, s[..FirstMark(s)], ScanMark(s[FirstMark(s)..]).texts);
  }

  lemma {:induction false} FromMark(trim: Trim, t: Text)
    requires t != []
    ensures Taken(t) == 0 ==> LinesFromMark(trim, t) == [] && ScanMark(t).rest == t
    ensures Taken(t) > 0 ==>
      LinesFromMark(trim, t) == LinesOfWhole(trim, t[Taken(t)..]) && ScanMark(t).rest == Scan(t[Taken(t)..]).rest
  {
    hide Taken, Scan;
  }

  lemma {:induction false} WholeNone(trim: Trim, s: Text)
    requires FirstMark(s) == |s|
    ensures LinesOfWhole(trim, s) == [] && Scan(s).rest == s
  {
    ScanNone(s);
    hide Scan;
  }

  // ---- what ends a line, byte by byte ------------------------------------------------------------------

  /** No line break, carriage return or escape. */
  ghost predicate Unbroken(s: Text) { forall i :: 0 <= i < |s| ==> s[i] != 10 && s[i] != 13 && s[i] != 27 }

  /** Escape, an opening bracket, parameters, intermediates and a final byte. */
  ghost predicate IsSequence(s: Text) {
    exists p: nat, q: nat :: SequenceOf(s, p, q)
  }

  ghost predicate SequenceOf(s: Text, p: nat, q: nat) {
    && 2 <= p <= q && |s| == q + 1 && s[0] == 27 && s[1] == '[' as byte
    && (forall j :: 2 <= j < p ==> 48 <= s[j] <= 63)
    && (forall j :: p <= j < q ==> 32 <= s[j] <= 47)
    && 64 <= s[q] <= 126
  }

  /** A whole sequence stands at the start. */
  ghost predicate StartsSequence(s: Text) { exists n :: 0 <= n <= |s| && IsSequence(s[..n]) }

  lemma SequenceIsEscape(s: Text)
    ensures IsSequence(s) <==> exists p: nat, q: nat :: IsEscape(s, p, q)
  {
    forall p: nat, q: nat
      ensures SequenceOf(s, p, q) <==> IsEscape(s, p, q)
    {
    }
    if IsSequence(s) {
      var p: nat, q: nat :| SequenceOf(s, p, q);
      assert IsEscape(s, p, q);
    }
    if p: nat, q: nat :| IsEscape(s, p, q) {
      assert SequenceOf(s, p, q);
    }
  }

  lemma UnbrokenThenMark(line: Text, t: Text)
    requires Unbroken(line) && t != [] && (t[0] == 10 || t[0] == 13 || t[0] == 27)
    ensures FirstMark(line + t) == |line|
  {
    MarkIsFirst(line + t);
    assert (line + t)[|line|] == t[0] && forall i :: 0 <= i < |line| ==> (line + t)[i] == line[i];
  }

  lemma {:induction false} LineThenMark(trim: Trim, line: Text, t: Text)
    requires Unbroken(line) && t != [] && (t[0] == 10 || t[0] == 13 || t[0] == 27)
    ensures LinesOfWhole(trim, line + t) == Line(trim, line) + LinesFromMark(trim, t)
    ensures Scan(line + t).rest == ScanMark(t).rest
  {
    UnbrokenThenMark(line, t);
    hide *;
    WholeOne(trim, line + t);
    assert (line + t)[..|line|] == line && (line + t)[|line|..] == t;
  }

  /** A line break or a carriage return ends a line. */
  lemma {:induction false} BreakEndsLine(trim: Trim, line: Text, c: byte, rest: Text)
    requires Unbroken(line) && (c == 10 || c == 13)
    ensures LinesOfWhole(trim, line + ([c] + rest)) == Line(trim, line) + LinesOfWhole(trim, rest)
    ensures Scan(line + ([c] + rest)).rest == Scan(rest).rest
  {
    var t := [c] + rest;
    assert Taken(t) == 1 && t[1..] == rest;
    hide Scan, ScanMark, Line, LinesOfWhole, LinesFromMark, Taken;
    LineThenMark(trim, line, t);
    FromMark(trim, t);
  }

  /** So does a whole control sequence. */
  lemma {:induction false} SequenceEndsLine(trim: Trim, line: Text, sequence: Text, rest: Text)
    requires Unbroken(line) && IsSequence(sequence)
    ensures LinesOfWhole(trim, line + (sequence + rest)) == Line(trim, line) + LinesOfWhole(trim, rest)
    ensures Scan(line + (sequence + rest)).rest == Scan(rest).rest
  {
    var t := sequence + rest;
    SequenceIsEscape(sequence);
    assert t[..|sequence|] == sequence && t[|sequence|..] == rest;
    EscapeLengthIsExact(t, |sequence|);
    assert t[0] == 27 && Taken(t) == |sequence|;
    hide Scan, ScanMark, Line, LinesOfWhole, LinesFromMark, Taken, EscapeLength;
    LineThenMark(trim, line, t);
    FromMark(trim, t);
  }

  /** A text nothing has ended is no line yet, and waits. */
  lemma UnbrokenWaits(trim: Trim, text: Text)
    requires Unbroken(text)
    ensures LinesOfWhole(trim, text) == [] && Scan(text).rest == text
  {
    NoMarkAtAll(text);
    WholeNone(trim, text);
  }

  lemma {:induction false} NoSequence(t: Text)
    requires t != [] && t[0] == 27 && !StartsSequence(t)
    ensures Taken(t) == if |t| < 32 then 0 else 1
  {
    if EscapeLength(t).Some? {
      var n := EscapeLength(t).value;
      EscapeLengthIsExact(t, n);
      SequenceIsEscape(t[..n]);
    }
    hide EscapeLength;
  }

  /** An escape that starts no whole sequence waits while fewer than thirty-two bytes are there; then it is dropped, and
      what follows it is text. */
  lemma {:induction false} UnfinishedSequence(trim: Trim, line: Text, t: Text)
    requires Unbroken(line) && t != [] && t[0] == 27 && !StartsSequence(t)
    ensures |t| < 32 ==> LinesOfWhole(trim, line + t) == Line(trim, line) && Scan(line + t).rest == t
    ensures |t| >= 32 ==>
              && LinesOfWhole(trim, line + t) == Line(trim, line) + LinesOfWhole(trim, t[1..])
              && Scan(line + t).rest == Scan(t[1..]).rest
  {
    NoSequence(t);
    hide Scan, ScanMark, Line, LinesOfWhole, LinesFromMark, Taken, StartsSequence;
    LineThenMark(trim, line, t);
    FromMark(trim, t);
  }

  /** Of what waits the last 4096 bytes are held. */
  lemma HeldIsLast(s: Text)
    ensures |s| <= 4096 ==> Kept(s) == s
    ensures |s| > 4096 ==> |Kept(s)| == 4096 && s == s[..|s| - 4096] + Kept(s)
  {
  }

  /** The reader: what it holds between writes, and the non-empty lines it has read. */
  class PullReader {
    const trim: Trim
    var pending: Text
    ghost var read: seq<Text>

    constructor (trim: Trim)
      ensures this.trim == trim && pending == [] && read == []
    {
      this.trim := trim;
      pending := [];
      read := [];
    }

    /** An empty line is read as nothing. */
    ghost method ReadLine(text: Text)
      modifies `read
      ensures read == old(read) + Line(trim, text)
    {
      read := read + Line(trim, text);
    }

    method Write(p: Text) returns (n: nat)
      modifies this
      ensures n == |p|
      ensures pending == Kept(Scan(old(pending) + p).rest)
      ensures read == old(read) + LinesOfWhole(trim, old(pending) + p)
    {
      hide Scan, ScanMark, Line, LinesOfWhole, LinesFromMark, FirstMark, Taken;
      pending := pending + p;
      ghost var all := pending;
      ghost var lines := read + LinesOfWhole(trim, all);
      while true
        invariant read + LinesOfWhole(trim, pending) == lines
        invariant Scan(pending).rest == Scan(all).rest
        decreases |pending|
      {
        var end := FirstMark(pending);
        if end == |pending| {
          WholeNone(trim, pending);
          break;
        }
        WholeOne(trim, pending);
        ReadLine(pending[..end]);
        var rest := pending[end..];
        var n := Taken(rest);
        FromMark(trim, rest);
        if n == 0 {
          pending := rest;
          break;
        }
        pending := rest[n..];
      }
      assert read == lines && pending == Scan(all).rest;
      if |pending| > MAX_PENDING {
        pending := pending[|pending| - MAX_PENDING..];
      }
      return |p|;
    }
  }

  // ---- however the stream is cut ------------------------------------------------------------------------

  function Concat(pieces: seq<Text>): Text {
    if pieces == [] then [] else pieces[0] + Concat(pieces[1..])
  }

  /** The lines read from a stream that arrives in pieces, when `pending` was held before. */
  function LinesOfPieces(trim: Trim, pending: Text, pieces: seq<Text>): seq<Text>
    decreases |pieces|
  {
    if pieces == [] then []
    else
      LinesOfWhole(trim, pending + pieces[0])
      + LinesOfPieces(trim, Kept(Scan(pending + pieces[0]).rest), pieces[1..])
  }

  /** Losing its start, as a long wait would make it, changes nothing about the line. */
  ghost predicate Settled(trim: Trim, text: Text) {
    forall k :: 0 <= k <= |text| - MAX_PENDING ==> trim(text[k..]) == trim(text)
  }

  /** Every text that gets ended is settled, and every control sequence before such a text is short. */
  ghost predicate SplitSafe(trim: Trim, s: Text)
    decreases |s|, 1
  {
    var end := FirstMark(s);
    end < |s| ==> Settled(trim, s[..end]) && SafeMark(trim, s[end..])
  }

  ghost predicate SafeMark(trim: Trim, t: Text)
    requires t != []
    decreases |t|, 0
  {
    var n := Taken(t);
    n > 0 ==> (n <= MAX_ESCAPE || FirstMark(t[n..]) == |t[n..]|) && SplitSafe(trim, t[n..])
  }

  lemma {:induction false} MarkExtends(s: Text, more: Text)
    ensures FirstMark(s) < |s| ==> FirstMark(s + more) == FirstMark(s)
    ensures FirstMark(s) == |s| ==> FirstMark(s + more) == |s| + FirstMark(more)
  {
    if s == [] {
      assert s + more == more;
    } else if !IsMark(s[0]) {
      MarkExtends(s[1..], more);
      assert (s + more)[1..] == s[1..] + more;
    }
  }

  /** Waiting at a mark never skips what a longer buffer would find there, except a long sequence. */
  lemma {:induction false} TakenExtends(s: Text, more: Text)
    requires s != [] && IsMark(s[0]) && Taken(s) > 0
    ensures Taken(s + more) == Taken(s) || (Taken(s) == 1 && Taken(s + more) > MAX_ESCAPE && s[0] == ESC)
  {
    hide EscapeLength;
    EscapeExtends(s, more);
  }

  lemma {:induction false} EscapeHasNoMarks(s: Text)
    ensures EscapeLength(s).Some? ==> forall j :: 1 <= j < EscapeLength(s).value ==> !IsMark(s[j])
  {
  }

  lemma {:induction false} SafeOne(trim: Trim, s: Text)
    ensures FirstMark(s) < |s| ==>
      (SplitSafe(trim, s) <==> Settled(trim, s[..FirstMark(s)]) && SafeMark(trim, s[FirstMark(s)..]))
    ensures FirstMark(s) == |s| ==> SplitSafe(trim, s)
  {
    hide Settled, SafeMark, FirstMark;
  }

  lemma {:induction false} SafeFromMark(trim: Trim, t: Text)
    requires t != []
    ensures Taken(t) == 0 ==> SafeMark(trim, t)
    ensures Taken(t) > 0 ==> (SafeMark(trim, t) <==>
      (Taken(t) <= MAX_ESCAPE || FirstMark(t[Taken(t)..]) == |t[Taken(t)..]|) && SplitSafe(trim, t[Taken(t)..]))
  {
    hide Taken, SplitSafe, FirstMark;
  }

  /** A mark found in `a` is the first mark of `a + b` too. */
  lemma {:induction false} SameMark(a: Text, b: Text)
    requires FirstMark(a) < |a|
    ensures var end := FirstMark(a);
      && FirstMark(a + b) == end && (a + b)[..end] == a[..end] && (a + b)[end..] == a[end..] + b
      && IsMark(a[end])
  {
    hide FirstMark;
    MarkExtends(a, b);
    MarkIsFirst(a);
  }

  /** Seen again, a mark has an empty text before it. */
  lemma {:induction false} MarkAgain(trim: Trim, t: Text)
    requires Trims(trim) && t != [] && IsMark(t[0])
    ensures LinesOfWhole(trim, t) == LinesFromMark(trim, t) && Scan(t).rest == ScanMark(t).rest
    ensures SplitSafe(trim, t) <==> SafeMark(trim, t)
  {
    EmptyText(trim);
    assert FirstMark(t) == 0 && t[0..] == t && t[..0] == [];
    hide Scan, ScanMark, Lines, Line, Settled, SplitSafe, SafeMark, LinesOfWhole, LinesFromMark;
    WholeOne(trim, t);
    SafeOne(trim, t);
  }

  /** Stopping after `a` and going on from what was left reads what one scan of `a + b` reads. */
  lemma {:induction false} Resume(trim: Trim, a: Text, b: Text)
    requires Trims(trim) && SplitSafe(trim, a + b)
    ensures LinesOfWhole(trim, a + b) == LinesOfWhole(trim, a) + LinesOfWhole(trim, Scan(a).rest + b)
    ensures SplitSafe(trim, Scan(a).rest + b)
    decreases |a|, 1
  {
    hide Scan, ScanMark, Lines, Line, Settled, SplitSafe, SafeMark, LinesOfWhole, LinesFromMark, FirstMark, Trims;
    if FirstMark(a) == |a| {
      WholeNone(trim, a);
    } else {
      SameMark(a, b);
      WholeOne(trim, a);
      WholeOne(trim, a + b);
      SafeOne(trim, a + b);
      ResumeMark(trim, a[FirstMark(a)..], b);
    }
  }

  lemma {:induction false} ResumeMark(trim: Trim, t: Text, b: Text)
    requires Trims(trim) && t != [] && IsMark(t[0]) && SafeMark(trim, t + b)
    ensures LinesFromMark(trim, t + b) == LinesFromMark(trim, t) + LinesOfWhole(trim, ScanMark(t).rest + b)
    ensures SplitSafe(trim, ScanMark(t).rest + b)
    decreases |t|, 0
  {
    hide Scan, ScanMark, Lines, Line, Settled, SplitSafe, SafeMark, LinesOfWhole, LinesFromMark, FirstMark, Trims, Taken;
    FromMark(trim, t);
    FromMark(trim, t + b);
    SafeFromMark(trim, t + b);
    var n := Taken(t);
    if n == 0 {
      MarkAgain(trim, t + b);
    } else {
      TakenExtends(t, b);
      if Taken(t + b) == n {
        assert (t + b)[n..] == t[n..] + b;
        Resume(trim, t[n..], b);
      } else {
        NoMarksLeft(t + b);
        assert (t + b)[1..] == t[1..] + b;
        MarkExtends(t[1..], b);
        WholeNone(trim, t[1..]);
        WholeNone(trim, t[1..] + b);
        WholeNone(trim, (t + b)[Taken(t + b)..]);
        SafeOne(trim, t[1..] + b);
      }
    }
  }

  lemma {:induction false} NoMarksLeft(s: Text)
    requires s != [] && s[0] == ESC && Taken(s) > 1 && FirstMark(s[Taken(s)..]) == |s[Taken(s)..]|
    ensures FirstMark(s[1..]) == |s[1..]|
  {
    hide EscapeLength;
    var m := Taken(s);
    EscapeHasNoMarks(s);
    MarkIsFirst(s[m..]);
    assert forall j :: 0 <= j < |s[1..]| ==> s[1..][j] == s[j + 1];
    assert forall j :: m <= j < |s| ==> s[j] == s[m..][j - m];
    NoMarkAtAll(s[1..]);
  }

  lemma {:induction false} NoMarks(s: Text)
    ensures FirstMark(s) == |s| <==> forall j :: 0 <= j < |s| ==> !IsMark(s[j])
  {
    MarkIsFirst(s);
    if forall j :: 0 <= j < |s| ==> !IsMark(s[j]) {
      NoMarkAtAll(s);
    }
  }

  /** What is left of a text that lost its start ends up as the same line, if the text is settled. */
  lemma {:induction false} SameFromLater(trim: Trim, u: Text, k: nat, b: Text)
    requires FirstMark(u) == |u| && k + MAX_PENDING <= |u|
    requires FirstMark(b) < |b| ==> Settled(trim, u + b[..FirstMark(b)])
    ensures LinesOfWhole(trim, u[k..] + b) == LinesOfWhole(trim, u + b)
    ensures FirstMark(b) < |b| ==> Scan(u[k..] + b).rest == Scan(u + b).rest
    ensures FirstMark(b) == |b| ==> Scan(u + b).rest == u + b && Scan(u[k..] + b).rest == u[k..] + b
  {
    hide Scan, ScanMark, Lines, SplitSafe, LinesOfWhole, LinesFromMark, FirstMark;
    NoMarks(u);
    NoMarks(u[k..]);
    MarkExtends(u, b);
    MarkExtends(u[k..], b);
    var w, v, e := u + b, u[k..] + b, FirstMark(b);
    assert v == w[k..];
    if e == |b| {
      WholeNone(trim, w);
      WholeNone(trim, v);
    } else {
      var end := |u| + e;
      assert w[end..] == v[end - k..] && v[..end - k] == w[..end][k..] && w[..end] == u + b[..e];
      WholeOne(trim, w);
      WholeOne(trim, v);
    }
  }

  /** What a buffer can leave waiting: the start of an escape, or text that no mark has ended. */
  lemma {:induction false} RestWaits(trim: Trim, s: Text)
    requires Trims(trim)
    ensures var rest := Scan(s).rest;
      LinesOfWhole(trim, rest) == [] && Scan(rest).rest == rest && (|rest| > MAX_ESCAPE ==> FirstMark(rest) == |rest|)
    decreases |s|
  {
    hide Scan, ScanMark, Lines, Line, LinesOfWhole, LinesFromMark, FirstMark, EscapeLength, Trims;
    var end := FirstMark(s);
    if end == |s| {
      WholeNone(trim, s);
    } else {
      SameMark(s, []);
      WholeOne(trim, s);
      var t := s[end..];
      FromMark(trim, t);
      if Taken(t) == 0 {
        MarkAgain(trim, t);
      } else {
        RestWaits(trim, t[Taken(t)..]);
      }
    }
  }

  /** `u` is what would be waiting had no text been cut, and `u[k..]` what is. */
  ghost predicate Waiting(trim: Trim, u: Text, k: nat) {
    && LinesOfWhole(trim, u) == []
    && (k > 0 ==> k + MAX_PENDING <= |u| && FirstMark(u) == |u|)
    && k <= |u|
  }

  lemma {:induction false} SettledNext(trim: Trim, u: Text, b: Text, later: Text)
    requires FirstMark(u) == |u| && FirstMark(b) < |b| && SplitSafe(trim, u + b + later)
    ensures Settled(trim, u + b[..FirstMark(b)])
  {
    hide SplitSafe, SafeMark, FirstMark, Settled;
    MarkExtends(u, b);
    MarkExtends(u + b, later);
    SafeOne(trim, u + b + later);
    assert (u + b + later)[..|u| + FirstMark(b)] == u + b[..FirstMark(b)];
  }

  lemma {:induction false} OnePiece(trim: Trim, u: Text, k: nat, b: Text, later: Text) returns (u': Text, k': nat)
    requires Trims(trim) && Waiting(trim, u, k) && SplitSafe(trim, u + b + later)
    ensures Waiting(trim, u', k') && SplitSafe(trim, u' + later)
    ensures Kept(Scan(u[k..] + b).rest) == u'[k'..]
    ensures LinesOfWhole(trim, u + b + later) == LinesOfWhole(trim, u[k..] + b) + LinesOfWhole(trim, u' + later)
  {
    hide Scan, ScanMark, Lines, SplitSafe, LinesOfWhole, FirstMark, Trims;
    Resume(trim, u + b, later);
    RestWaits(trim, u + b);
    u' := Scan(u + b).rest;
    if k > 0 {
      if FirstMark(b) < |b| {
        SettledNext(trim, u, b, later);
      }
      SameFromLater(trim, u, k, b);
    } else {
      assert u[0..] == u;
    }
    var left := Scan(u[k..] + b).rest;
    if left == u' {
      k' := if |u'| > MAX_PENDING then |u'| - MAX_PENDING else 0;
      assert u'[0..] == u';
    } else {
      assert left == u[k..] + b;
      k' := |u'| - MAX_PENDING;
      NoMarks(u);
      NoMarks(b);
      NoMarks(u');
      assert Kept(left) == u'[k'..];
    }
  }

  /** However a safe stream is cut into writes, the lines are those of one write. */
  lemma {:induction false} PiecesFromWaiting(trim: Trim, u: Text, k: nat, pieces: seq<Text>)
    requires Trims(trim) && Waiting(trim, u, k) && SplitSafe(trim, u + Concat(pieces))
    ensures LinesOfPieces(trim, u[k..], pieces) == LinesOfWhole(trim, u + Concat(pieces))
    decreases |pieces|
  {
    hide Scan, ScanMark, Lines, SplitSafe, LinesOfWhole, FirstMark, Trims, Kept;
    if pieces == [] {
      assert u + Concat(pieces) == u;
    } else {
      var b, later := pieces[0], Concat(pieces[1..]);
      assert u + Concat(pieces) == u + b + later;
      var u', k' := OnePiece(trim, u, k, b, later);
      PiecesFromWaiting(trim, u', k', pieces[1..]);
    }
  }

  // ---- and only such a stream ---------------------------------------------------------------------------

  /** The lines read when the stream is cut once. */
  function LinesOfCut(trim: Trim, s: Text, c: nat): seq<Text>
    requires c <= |s|
  {
    LinesOfWhole(trim, s[..c]) + LinesOfWhole(trim, Kept(Scan(s[..c]).rest) + s[c..])
  }

  lemma {:induction false} CutIsTwoPieces(trim: Trim, s: Text, c: nat)
    requires c <= |s|
    ensures Concat([s[..c], s[c..]]) == s
    ensures LinesOfPieces(trim, [], [s[..c], s[c..]]) == LinesOfCut(trim, s, c)
  {
    hide Scan, Lines, LinesOfWhole, Kept;
    var a, b := s[..c], s[c..];
    assert [a, b][1..] == [b] && [b][1..] == [];
    assert b + [] == b && a + b == s && [] + a == a;
    var p := Kept(Scan(a).rest);
    assert LinesOfPieces(trim, p, [b]) == LinesOfWhole(trim, p + b) + [];
    assert Concat([b]) == b + Concat([]);
  }

  /** A text as it is read when its first `k` bytes are lost. */
  lemma {:induction false} LinesWithout(trim: Trim, s: Text, k: nat)
    requires k <= FirstMark(s) < |s|
    ensures LinesOfWhole(trim, s[k..]) == Line(trim, s[..FirstMark(s)][k..]) + LinesFromMark(trim, s[FirstMark(s)..])
  {
    hide Scan, ScanMark, Lines, Line, LinesOfWhole, LinesFromMark, FirstMark;
    var end, v := FirstMark(s), s[k..];
    MarkIsFirst(s);
    NoMarks(s[..k]);
    MarkExtends(s[..k], v);
    assert s[..k] + v == s;
    WholeOne(trim, v);
    assert v[end - k..] == s[end..] && v[..end - k] == s[..end][k..];
  }

  /** Cutting 4096 bytes further than `k` loses the first `k` bytes of the text. */
  lemma {:induction false} UnsettledCut(trim: Trim, s: Text, k: nat)
    requires FirstMark(s) < |s| && k + MAX_PENDING <= FirstMark(s)
    requires trim(s[..FirstMark(s)][k..]) != trim(s[..FirstMark(s)])
    ensures LinesOfCut(trim, s, k + MAX_PENDING) != LinesOfWhole(trim, s)
  {
    hide Scan, ScanMark, Lines, Line, LinesOfWhole, LinesFromMark, FirstMark;
    var end, c := FirstMark(s), k + MAX_PENDING;
    MarkIsFirst(s);
    NoMarks(s[..c]);
    WholeNone(trim, s[..c]);
    assert Kept(s[..c]) + s[c..] == s[k..];
    WholeOne(trim, s);
    LinesWithout(trim, s, k);
    LinesDiffer(trim, s[..end][k..], s[..end], LinesFromMark(trim, s[end..]));
  }

  lemma {:induction false} LinesDiffer(trim: Trim, a: Text, b: Text, later: seq<Text>)
    ensures Line(trim, a) + later == Line(trim, b) + later <==> trim(a) == trim(b)
  {
    var x, y := Line(trim, a) + later, Line(trim, b) + later;
    if trim(a) != [] && trim(b) != [] {
      assert x[0] == trim(a) && y[0] == trim(b);
    }
  }

  lemma {:induction false} SameStart<T>(a: seq<T>, x: seq<T>, y: seq<T>)
    ensures a + x == a + y <==> x == y
  {
    assert (a + x)[|a|..] == x && (a + y)[|a|..] == y;
  }

  /** With 32 bytes to see, a mark takes from the start of a buffer what it takes from all of it. */
  lemma {:induction false} TakenOfPrefix(t: Text, m: nat)
    requires t != [] && Taken(t) > 0 && MAX_ESCAPE <= m <= |t|
    ensures Taken(t) <= m ==> Taken(t[..m]) == Taken(t)
    ensures Taken(t) > m ==> Taken(t[..m]) == 1
  {
    hide EscapeLength;
    EscapeExtends(t[..m], t[m..]);
    assert t[..m] + t[m..] == t;
  }

  /** The bytes of a control sequence after its first, given up as one, start the text that follows. */
  lemma {:induction false} BodyIsGraphic(t: Text)
    requires t != [] && Taken(t) > 1
    ensures Graphic(t[1..Taken(t)]) && FirstMark(t[1..Taken(t)]) == Taken(t) - 1
  {
    EscapeHasNoMarks(t);
    NoMarkAtAll(t[1..Taken(t)]);
  }

  lemma {:induction false} LinesAfterBody(trim: Trim, body: Text, y: Text)
    requires FirstMark(body) == |body| && FirstMark(y) < |y|
    ensures LinesOfWhole(trim, body + y) == Line(trim, body + y[..FirstMark(y)]) + LinesFromMark(trim, y[FirstMark(y)..])
  {
    hide Scan, ScanMark, Lines, Line, LinesOfWhole, LinesFromMark, FirstMark;
    MarkExtends(body, y);
    WholeOne(trim, body + y);
    assert (body + y)[..|body| + FirstMark(y)] == body + y[..FirstMark(y)];
    assert (body + y)[|body| + FirstMark(y)..] == y[FirstMark(y)..];
  }

  lemma GraphicStays(trim: Trim, escape: Text, text: Text)
    requires Trims(trim) && Graphic(escape)
    ensures trim(escape + text) != trim(text)
  {
    assert |trim(escape + text)| >= |escape| + |trim(text)|;
  }

  /** Cutting 32 bytes into a longer escape gives it up: its bytes become part of the next text. */
  lemma {:induction false} LongEscapeLines(trim: Trim, t: Text)
    requires Trims(trim) && t != [] && Taken(t) > 1
    requires FirstMark(t[Taken(t)..]) < |t[Taken(t)..]|
    ensures LinesOfWhole(trim, t[1..]) != LinesOfWhole(trim, t[Taken(t)..])
  {
    var body, y := t[1..Taken(t)], t[Taken(t)..];
    assert t[1..] == body + y;
    BodyIsGraphic(t);
    hide Scan, ScanMark, Lines, Line, LinesOfWhole, LinesFromMark, FirstMark, Taken, Graphic, Trims;
    LinesAfterBody(trim, body, y);
    WholeOne(trim, y);
    GraphicStays(trim, body, y[..FirstMark(y)]);
    LinesDiffer(trim, body + y[..FirstMark(y)], y[..FirstMark(y)], LinesFromMark(trim, y[FirstMark(y)..]));
  }

  /** A cut after the first mark: the text before it is read the same. */
  lemma {:induction false} CutLater(trim: Trim, s: Text, m: nat)
    requires FirstMark(s) < |s| && 0 < m <= |s[FirstMark(s)..]|
    ensures var end := FirstMark(s);
      var t := s[end..];
      LinesOfCut(trim, s, end + m)
        == Line(trim, s[..end]) + (LinesFromMark(trim, t[..m]) + LinesOfWhole(trim, Kept(ScanMark(t[..m]).rest) + t[m..]))
  {
    hide Scan, ScanMark, Lines, Line, LinesOfWhole, LinesFromMark, FirstMark, Kept;
    var end := FirstMark(s);
    var t := s[end..];
    var a := s[..end + m];
    MarkExtends(a, s[end + m..]);
    assert a + s[end + m..] == s;
    WholeOne(trim, a);
    assert a[..end] == s[..end] && a[end..] == t[..m] && s[end + m..] == t[m..];
  }

  lemma {:induction false} LongEscapeCut(trim: Trim, t: Text)
    requires Trims(trim) && t != [] && Taken(t) > MAX_ESCAPE
    ensures LinesFromMark(trim, t[..MAX_ESCAPE]) == []
    ensures Kept(ScanMark(t[..MAX_ESCAPE]).rest) + t[MAX_ESCAPE..] == t[1..]
  {
    var m := MAX_ESCAPE;
    EscapeHasNoMarks(t);
    NoMarkAtAll(t[1..m]);
    hide Scan, ScanMark, Lines, Line, LinesOfWhole, LinesFromMark, FirstMark, Taken, EscapeLength;
    TakenOfPrefix(t, m);
    FromMark(trim, t[..m]);
    assert t[..m][1..] == t[1..m];
    WholeNone(trim, t[1..m]);
  }

  /** A stream that is not safe is read differently by some two writes. */
  lemma {:induction false} UnsafeCut(trim: Trim, s: Text) returns (c: nat)
    requires Trims(trim) && !SplitSafe(trim, s)
    ensures MAX_ESCAPE <= c <= |s| && LinesOfCut(trim, s, c) != LinesOfWhole(trim, s)
    decreases |s|
  {
    hide Scan, ScanMark, Lines, Line, SplitSafe, SafeMark, LinesOfWhole, LinesFromMark, LinesOfCut, FirstMark, Kept, Trims, Taken;
    SafeOne(trim, s);
    var end := FirstMark(s);
    var t := s[end..];
    if !Settled(trim, s[..end]) {
      var k: nat :| k <= end - MAX_PENDING && trim(s[..end][k..]) != trim(s[..end]);
      UnsettledCut(trim, s, k);
      c := k + MAX_PENDING;
    } else {
      SafeFromMark(trim, t);
      FromMark(trim, t);
      WholeOne(trim, s);
      var n := Taken(t);
      var y := t[n..];
      SafeOne(trim, y);
      if n > MAX_ESCAPE {
        LongEscapeCut(trim, t);
        LongEscapeLines(trim, t);
        CutLater(trim, s, MAX_ESCAPE);
        SameStart(Line(trim, s[..end]), LinesOfWhole(trim, t[1..]), LinesOfWhole(trim, y));
        assert [] + LinesOfWhole(trim, t[1..]) == LinesOfWhole(trim, t[1..]);
        c := end + MAX_ESCAPE;
      } else {
        var d := UnsafeCut(trim, y);
        UnsafeLater(trim, t, d);
        CutLater(trim, s, n + d);
        SameStart(Line(trim, s[..end]), LinesOfCut(trim, y, d), LinesOfWhole(trim, y));
        c := end + n + d;
      }
    }
  }

  lemma {:induction false} UnsafeLater(trim: Trim, t: Text, d: nat)
    requires t != [] && 0 < Taken(t) <= MAX_ESCAPE <= d && Taken(t) + d <= |t|
    ensures var n := Taken(t);
      LinesFromMark(trim, t[..n + d]) + LinesOfWhole(trim, Kept(ScanMark(t[..n + d]).rest) + t[n + d..])
      == LinesOfCut(trim, t[n..], d)
  {
    hide Scan, ScanMark, Lines, LinesOfWhole, LinesFromMark, Kept, Taken;
    var n := Taken(t);
    TakenOfPrefix(t, n + d);
    FromMark(trim, t[..n + d]);
    assert t[..n + d][n..] == t[n..][..d] && t[n + d..] == t[n..][d..];
  }

  /** Reading does not depend on how a stream is cut into writes exactly when every text that is ended stays the
      same line without what a wait would drop, and no long control sequence comes before such a text. */
  lemma {:induction false} SplitInvariance(trim: Trim, s: Text)
    requires Trims(trim)
    ensures SplitSafe(trim, s)
      <==> forall pieces | Concat(pieces) == s :: LinesOfPieces(trim, [], pieces) == LinesOfWhole(trim, s)
  {
    if SplitSafe(trim, s) {
      forall pieces | Concat(pieces) == s
        ensures LinesOfPieces(trim, [], pieces) == LinesOfWhole(trim, s)
      {
        var none: Text := [];
        assert none + s == s && none[0..] == none;
        WholeNone(trim, none);
        PiecesFromWaiting(trim, none, 0, pieces);
      }
    } else {
      var c := UnsafeCut(trim, s);
      CutIsTwoPieces(trim, s, c);
      assert Concat([s[..c], s[c..]]) == s;
    }
  }

  /** Texts that end within 4096 bytes, and control sequences of at most 32. */
  predicate Ordinary(s: Text)
    decreases |s|
  {
    var end := FirstMark(s);
    end < |s| ==>
      && end <= MAX_PENDING
      && var n := Taken(s[end..]);
         n > 0 ==> n <= MAX_ESCAPE && Ordinary(s[end + n..])
  }

  lemma {:induction false} OrdinaryIsSafe(trim: Trim, s: Text)
    requires Ordinary(s)
    ensures SplitSafe(trim, s)
    decreases |s|
  {
    hide SafeMark, FirstMark, Taken;
    SafeOne(trim, s);
    var end := FirstMark(s);
    if end < |s| {
      var t := s[end..];
      assert forall k :: 0 <= k <= end - MAX_PENDING ==> s[..end][k..] == s[..end];
      SafeFromMark(trim, t);
      if Taken(t) > 0 {
        assert t[Taken(t)..] == s[end + Taken(t)..];
        OrdinaryIsSafe(trim, t[Taken(t)..]);
      }
    }
  }

  lemma {:induction false} OrdinaryStreamsMayBeCutAnywhere(trim: Trim, pieces: seq<Text>)
    requires Trims(trim) && Ordinary(Concat(pieces))
    ensures LinesOfPieces(trim, [], pieces) == LinesOfWhole(trim, Concat(pieces))
  {
    OrdinaryIsSafe(trim, Concat(pieces));
    SplitInvariance(trim, Concat(pieces));
  }

  /** The engine's output, as it arrives: one write for each piece. */
  method Stream(reader: PullReader, pieces: seq<Text>)
    modifies reader
    ensures reader.read == old(reader.read) + LinesOfPieces(reader.trim, old(reader.pending), pieces)
  {
    hide LinesOfWhole, Scan, Kept;
    ghost var lines := reader.read + LinesOfPieces(reader.trim, reader.pending, pieces);
    for i := 0 to |pieces|
      invariant reader.read + LinesOfPieces(reader.trim, reader.pending, pieces[i..]) == lines
    {
      assert pieces[i..][1..] == pieces[i + 1..];
      var n := reader.Write(pieces[i]);
    }
  }

  // ---- a trimming the laws hold of ----------------------------------------------------------------------

  predicate IsBlank(b: byte) { 9 <= b <= 13 || b == 32 }

  predicate IsPair(a: byte, b: byte) { a == 0xC2 && (b == 0x85 || b == 0xA0) }

  predicate IsTriple(a: byte, b: byte, c: byte) {
    || (a == 0xE1 && b == 0x9A && c == 0x80)
    || (a == 0xE2 && b == 0x80 && (0x80 <= c <= 0x8A || c == 0xA8 || c == 0xA9 || c == 0xAF))
    || (a == 0xE2 && b == 0x81 && c == 0x9F)
    || (a == 0xE3 && b == 0x80 && c == 0x80)
  }

  /** How many bytes the white-space character at the start of a text has; none, when there is no such character. */
  function SpaceAtStart(s: Text): (n: nat)
    ensures n <= |s|
  {
    if |s| >= 1 && IsBlank(s[0]) then 1
    else if |s| >= 2 && IsPair(s[0], s[1]) then 2
    else if |s| >= 3 && IsTriple(s[0], s[1], s[2]) then 3
    else 0
  }

  function SpaceAtEnd(s: Text): (n: nat)
    ensures n <= |s|
  {
    var k := |s|;
    if k >= 1 && IsBlank(s[k - 1]) then 1
    else if k >= 2 && IsPair(s[k - 2], s[k - 1]) then 2
    else if k >= 3 && IsTriple(s[k - 3], s[k - 2], s[k - 1]) then 3
    else 0
  }

  /** A character in UTF-8, section 3 of RFC 3629. */
  function Encoded(c: char): (bytes: Text) {
    var n := c as int;
    if n < 0x80 then [n as byte]
    else if n < 0x800 then [(0xC0 + n / 64) as byte, (0x80 + n % 64) as byte]
    else if n < 0x1_0000 then [(0xE0 + n / 4096) as byte, (0x80 + n / 64 % 64) as byte, (0x80 + n % 64) as byte]
    else
      [(0xF0 + n / 262144) as byte, (0x80 + n / 4096 % 64) as byte, (0x80 + n / 64 % 64) as byte, (0x80 + n % 64) as byte]
  }

  /** A first byte that starts a character, followed by bytes that continue it. */
  lemma EncodedShape(c: char)
    ensures
      var e := Encoded(c);
      && 1 <= |e| <= 4 && (|e| == 1 ==> e[0] < 0x80) && (|e| == 2 ==> 0xC0 <= e[0] < 0xE0)
      && (|e| == 3 ==> 0xE0 <= e[0] < 0xF0) && (|e| == 4 ==> e[0] >= 0xF0)
      && (forall i :: 1 <= i < |e| ==> 0x80 <= e[i] < 0xC0)
  {
  }

  lemma EncodedSpace(c: char)
    ensures
      var e := Encoded(c);
      Characters.IsSpace(c) <==>
        || (|e| == 1 && IsBlank(e[0]))
        || (|e| == 2 && IsPair(e[0], e[1]))
        || (|e| == 3 && IsTriple(e[0], e[1], e[2]))
  {
  }

  /** What is taken as white space is the bytes of a white-space character. */
  lemma SpaceIsEncoded(c: char, rest: Text)
    ensures SpaceAtStart(Encoded(c) + rest) == if Characters.IsSpace(c) then |Encoded(c)| else 0
  {
    EncodedShape(c);
    EncodedSpace(c);
    hide Encoded, Characters.IsSpace;
  }

  lemma SpaceIsEncodedLast(c: char, before: Text)
    ensures SpaceAtEnd(before + Encoded(c)) == if Characters.IsSpace(c) then |Encoded(c)| else 0
  {
    EncodedShape(c);
    EncodedSpace(c);
    hide Encoded, Characters.IsSpace;
    var e, s := Encoded(c), before + Encoded(c);
    assert s[|s| - 1] == e[|e| - 1];
    assert |e| > 1 ==> s[|s| - 2] == e[|e| - 2];
    assert |e| > 2 ==> s[|s| - 3] == e[|e| - 3];
  }

  function TrimStart(s: Text): (r: Text) {
    if SpaceAtStart(s) > 0 then TrimStart(s[SpaceAtStart(s)..]) else s
  }

  function TrimEnd(s: Text): (r: Text) {
    if SpaceAtEnd(s) > 0 then TrimEnd(s[..|s| - SpaceAtEnd(s)]) else s
  }

  lemma {:induction false} TrimEndAfter(escape: Text, text: Text)
    requires Graphic(escape)
    ensures TrimEnd(escape + text) == escape + TrimEnd(text)
    decreases |text|
  {
    var n := SpaceAtEnd(text);
    assert SpaceAtEnd(escape + text) == n;
    if n > 0 {
      assert (escape + text)[..|escape + text| - n] == escape + text[..|text| - n];
      TrimEndAfter(escape, text[..|text| - n]);
    }
  }

  /** A white-space character before a text changes nothing at its end. */
  lemma SpaceEndsAlone(s: Text)
    requires 0 < SpaceAtStart(s) < |s|
    ensures SpaceAtEnd(s) == SpaceAtEnd(s[SpaceAtStart(s)..])
  {
  }

  lemma StartStays(s: Text, k: nat)
    requires 0 < SpaceAtStart(s) <= k <= |s|
    ensures SpaceAtStart(s[..k]) == SpaceAtStart(s)
  {
  }

  lemma {:induction false} TrimEndOfTail(s: Text)
    requires SpaceAtStart(s) > 0
    ensures |TrimEnd(s[SpaceAtStart(s)..])| <= |TrimEnd(s)|
    decreases |s|
  {
    hide SpaceAtStart, SpaceAtEnd;
    var n := SpaceAtStart(s);
    if n < |s| {
      SpaceEndsAlone(s);
      var m := SpaceAtEnd(s);
      if m > 0 {
        var front := s[..|s| - m];
        StartStays(s, |s| - m);
        TrimEndOfTail(front);
        assert s[n..][..|s| - n - m] == front[n..];
      }
    }
  }

  lemma {:induction false} TrimEndOfTrimStart(s: Text)
    ensures |TrimEnd(TrimStart(s))| <= |TrimEnd(s)|
  {
    if SpaceAtStart(s) > 0 {
      TrimEndOfTrimStart(s[SpaceAtStart(s)..]);
      TrimEndOfTail(s);
    }
  }

  /** Trimming the white-space characters at both ends of a text satisfies what is relied on. */
  lemma {:induction false} TrimSpaceTrims()
    ensures Trims((s: Text) => TrimEnd(TrimStart(s)))
  {
    forall escape: Text, text: Text | Graphic(escape)
      ensures |TrimEnd(TrimStart(escape + text))| >= |escape| + |TrimEnd(TrimStart(text))|
    {
      assert SpaceAtStart(escape + text) == 0;
      TrimEndAfter(escape, text);
      TrimEndOfTrimStart(text);
    }
  }
}
