/** Splitting a document into pieces small enough to embed and to quote, each under the headings it stands under. */
module Chunker {
  import opened Wrappers
  import opened Spelling

  const MAX_CHARS := 1200
  const OVERLAP_CHARS := 150

  // ---- splitting what is too long ----------------------------------------------------------------------

  /** Pieces that are full, and the one being filled. */
  datatype Filled = Filled(pieces: seq<string>, current: string)

  function FillOne(space: Space, f: Filled, part: string, max: int): Filled {
    if f.current != "" && |f.current| + 1 + |part| > max then Filled(f.pieces + [f.current], part)
    else f.(current := Strip(space, f.current + " " + part))
  }

  function FillAll(space: Space, f: Filled, parts: seq<string>, max: int): Filled {
    if parts == [] then f
    else FillOne(space, FillAll(space, f, parts[..|parts| - 1], max), parts[|parts| - 1], max)
  }

  function Finish(f: Filled): seq<string> {
    if f.current != "" then f.pieces + [f.current] else f.pieces
  }

  function HardSplit(space: Space, text: string, max: int): seq<string> {
    if |text| <= max then [text] else Finish(FillAll(space, Filled([], ""), Words(space, text), max))
  }

  predicate EndsSentence(c: char) { c == '.' || c == '!' || c == '?' }

  /** Where the white space from `i` on ends. */
  function SpaceEnd(space: Space, text: string, i: nat): (j: nat)
    requires i <= |text|
    ensures i <= j <= |text| && forall k :: i <= k < j ==> space(text[k])
    ensures j < |text| ==> !space(text[j])
    decreases |text| - i
  {
    if i < |text| && space(text[i]) then SpaceEnd(space, text, i + 1) else i
  }

  /** The sentences of the text from `from` on, with no sentence ending in `text[from..i]`. */
  function Sentences(space: Space, text: string, from: nat, i: nat): seq<string>
    requires from <= i <= |text|
    decreases |text| - i
  {
    if i == |text| then [text[from..]]
    else if i > 0 && EndsSentence(text[i - 1]) && space(text[i]) then
      var j := SpaceEnd(space, text, i + 1);
      [text[from..i]] + Sentences(space, text, j, j)
    else Sentences(space, text, from, i + 1)
  }

  function Parts(space: Space, sentences: seq<string>, max: int): seq<string> {
    if sentences == [] then []
    else Parts(space, sentences[..|sentences| - 1], max) + HardSplit(space, sentences[|sentences| - 1], max)
  }

  function Fit(space: Space, paragraph: string, max: int): seq<string> {
    if |paragraph| <= max then [paragraph]
    else Finish(FillAll(space, Filled([], ""), Parts(space, Sentences(space, paragraph, 0, 0), max), max))
  }

  lemma {:induction false} FillOneWords(space: Space, f: Filled, part: string, max: int)
    requires Usual(space)
    ensures var g := FillOne(space, f, part, max);
      AllOf(space, g.pieces) + Words(space, g.current) == AllOf(space, f.pieces) + Words(space, f.current) + Words(space, part)
  {
    hide Words, Strip;
    if f.current != "" && |f.current| + 1 + |part| > max {
      AllOfConcat(space, f.pieces, [f.current]);
      AllOfOne(space, f.current);
    } else {
      StripWords(space, f.current + " " + part);
      WordsAroundSpace(space, f.current, part);
    }
  }

  /** Filling keeps every word, in its order. */
  lemma {:induction false} FillWords(space: Space, f: Filled, parts: seq<string>, max: int)
    requires Usual(space)
    ensures var g := FillAll(space, f, parts, max);
      AllOf(space, g.pieces) + Words(space, g.current) == AllOf(space, f.pieces) + Words(space, f.current) + AllOf(space, parts)
  {
    hide Words, FillOne;
    if parts != [] {
      var n := |parts| - 1;
      FillWords(space, f, parts[..n], max);
      FillOneWords(space, FillAll(space, f, parts[..n], max), parts[n], max);
    }
  }

  lemma {:induction false} FinishWords(space: Space, parts: seq<string>, max: int)
    requires Usual(space)
    ensures AllOf(space, Finish(FillAll(space, Filled([], ""), parts, max))) == AllOf(space, parts)
  {
    FillWords(space, Filled([], ""), parts, max);
    var g := FillAll(space, Filled([], ""), parts, max);
    NoWords(space);
    assert AllOf(space, []) == [];
    hide Words, FillAll, AllOf;
    assert AllOf(space, []) + Words(space, "") + AllOf(space, parts) == AllOf(space, parts);
    assert AllOf(space, g.pieces) + Words(space, "") == AllOf(space, g.pieces);
    if g.current != "" {
      AllOfConcat(space, g.pieces, [g.current]);
      AllOfOne(space, g.current);
    }
  }

  predicate AllWithin(texts: seq<string>, max: int) {
    forall i :: 0 <= i < |texts| ==> |texts[i]| <= max
  }

  lemma {:induction false} FillWithin(space: Space, parts: seq<string>, max: int)
    requires Usual(space) && AllWithin(parts, max)
    ensures var g := FillAll(space, Filled([], ""), parts, max);
      AllWithin(g.pieces, max) && (g.current == "" || |g.current| <= max)
  {
    hide Strip;
    if parts != [] {
      var n := |parts| - 1;
      FillWithin(space, parts[..n], max);
      var f := FillAll(space, Filled([], ""), parts[..n], max);
      StripWords(space, f.current + " " + parts[n]);
      StripSpace(space, parts[n]);
    }
  }

  /** A space before a text does not make its stripped form longer than the text. */
  lemma {:induction false} StripSpace(space: Space, text: string)
    ensures space(' ') ==> |Strip(space, "" + " " + text)| <= |text|
  {
    if space(' ') {
      assert ("" + " " + text)[1..] == text;
      assert StripLeft(space, "" + " " + text) == StripLeft(space, text);
      StripWords(space, text);
    }
  }

  lemma {:induction false} AllOfWords(space: Space, words: seq<string>)
    requires AllWords(space, words)
    ensures AllOf(space, words) == words
  {
    hide Words;
    if words != [] {
      var n := |words| - 1;
      assert IsWord(space, words[n]);
      AllOfWords(space, words[..n]);
      WordIsWord(space, words[n]);
      assert words == words[..n] + [words[n]];
    }
  }

  lemma {:induction false} HardSplitWords(space: Space, text: string, max: int)
    requires Usual(space)
    ensures AllOf(space, HardSplit(space, text, max)) == Words(space, text)
    ensures AllWithin(Words(space, text), max) ==> AllWithin(HardSplit(space, text, max), max)
  {
    WordsAreWords(space, text);
    hide Words, FillAll;
    if |text| <= max {
      AllOfOne(space, text);
    } else {
      FinishWords(space, Words(space, text), max);
      AllOfWords(space, Words(space, text));
      if AllWithin(Words(space, text), max) {
        FillWithin(space, Words(space, text), max);
      }
    }
  }

  lemma {:induction false} SentenceWords(space: Space, text: string, from: nat, i: nat)
    requires from <= i <= |text|
    ensures AllOf(space, Sentences(space, text, from, i)) == Words(space, text[from..])
    decreases |text| - i
  {
    hide Words;
    if i == |text| {
      AllOfOne(space, text[from..]);
    } else if i > 0 && EndsSentence(text[i - 1]) && space(text[i]) {
      var j := SpaceEnd(space, text, i + 1);
      SentenceWords(space, text, j, j);
      AllOfConcat(space, [text[from..i]], Sentences(space, text, j, j));
      AllOfOne(space, text[from..i]);
      ThreeParts(text, from, i, j);
      WordsAround(space, text[from..i], text[i..j], text[j..]);
    } else {
      SentenceWords(space, text, from, i + 1);
    }
  }

  lemma ThreeParts(text: string, from: nat, i: nat, j: nat)
    requires from <= i <= j <= |text|
    ensures text[from..] == text[from..i] + text[i..j] + text[j..]
  {
    assert text[from..j] == text[from..i] + text[i..j];
    assert text[from..] == text[from..j] + text[j..];
  }

  lemma {:induction false} PartsWords(space: Space, sentences: seq<string>, max: int)
    requires Usual(space)
    ensures AllOf(space, Parts(space, sentences, max)) == AllOf(space, sentences)
    ensures AllWithin(AllOf(space, sentences), max) ==> AllWithin(Parts(space, sentences, max), max)
  {
    hide Words, HardSplit;
    if sentences != [] {
      var n := |sentences| - 1;
      PartsWords(space, sentences[..n], max);
      HardSplitWords(space, sentences[n], max);
      AllOfConcat(space, Parts(space, sentences[..n], max), HardSplit(space, sentences[n], max));
      WithinParts(AllOf(space, sentences[..n]), Words(space, sentences[n]), max);
    }
  }

  lemma WithinParts(a: seq<string>, b: seq<string>, max: int)
    ensures AllWithin(a + b, max) <==> AllWithin(a, max) && AllWithin(b, max)
  {
    var c := a + b;
    assert forall i :: 0 <= i < |a| ==> c[i] == a[i];
    assert forall i :: 0 <= i < |b| ==> c[|a| + i] == b[i];
  }

  /** Splitting a paragraph keeps its words in order, and when every word fits so does every piece. */
  lemma {:induction false} FitWords(space: Space, paragraph: string, max: int)
    requires Usual(space)
    ensures AllOf(space, Fit(space, paragraph, max)) == Words(space, paragraph)
    ensures AllWithin(Words(space, paragraph), max) ==> AllWithin(Fit(space, paragraph, max), max)
  {
    hide Words, FillAll, Parts, Sentences;
    if |paragraph| <= max {
      AllOfOne(space, paragraph);
    } else {
      var sentences := Sentences(space, paragraph, 0, 0);
      SentenceWords(space, paragraph, 0, 0);
      assert paragraph[0..] == paragraph;
      PartsWords(space, sentences, max);
      FinishWords(space, Parts(space, sentences, max), max);
      if AllWithin(Words(space, paragraph), max) {
        FillWithin(space, Parts(space, sentences, max), max);
      }
    }
  }

  method SplitWords(space: Space, text: string, max: int) returns (parts: seq<string>)
    ensures parts == HardSplit(space, text, max)
  {
    if |text| <= max {
      return [text];
    }
    hide Words, Strip;
    parts := [];
    var current := "";
    var words := Words(space, text);
    for i := 0 to |words|
      invariant Filled(parts, current) == FillAll(space, Filled([], ""), words[..i], max)
    {
      assert words[..i + 1][..i] == words[..i];
      if current != "" && |current| + 1 + |words[i]| > max {
        parts := parts + [current];
        current := words[i];
      } else {
        current := Strip(space, current + " " + words[i]);
      }
    }
    assert words[..|words|] == words;
    if current != "" {
      parts := parts + [current];
    }
  }

  method SplitParagraph(space: Space, paragraph: string, max: int) returns (pieces: seq<string>)
    ensures pieces == Fit(space, paragraph, max)
  {
    hide Words, HardSplit, Sentences, FillOne;
    if |paragraph| <= max {
      return [paragraph];
    }
    pieces := [];
    var current := "";
    var sentences := Sentences(space, paragraph, 0, 0);
    for i := 0 to |sentences|
      invariant Filled(pieces, current) == FillAll(space, Filled([], ""), Parts(space, sentences[..i], max), max)
    {
      assert sentences[..i + 1][..i] == sentences[..i];
      var parts := SplitWords(space, sentences[i], max);
      FillInTwo(space, Filled([], ""), Parts(space, sentences[..i], max), parts, max);
      pieces, current := AddParts(space, pieces, current, parts, max);
    }
    assert sentences[..|sentences|] == sentences;
    if current != "" {
      pieces := pieces + [current];
    }
  }

  method AddParts(space: Space, full: seq<string>, filling: string, parts: seq<string>, max: int)
    returns (pieces: seq<string>, current: string)
    ensures Filled(pieces, current) == FillAll(space, Filled(full, filling), parts, max)
  {
    hide Strip;
    pieces, current := full, filling;
    for i := 0 to |parts|
      invariant Filled(pieces, current) == FillAll(space, Filled(full, filling), parts[..i], max)
    {
      assert parts[..i + 1][..i] == parts[..i];
      if current != "" && |current| + 1 + |parts[i]| > max {
        pieces := pieces + [current];
        current := parts[i];
      } else {
        current := Strip(space, current + " " + parts[i]);
      }
    }
    assert parts[..|parts|] == parts;
  }

  lemma {:induction false} FillInTwo(space: Space, f: Filled, a: seq<string>, b: seq<string>, max: int)
    ensures FillAll(space, f, a + b, max) == FillAll(space, FillAll(space, f, a, max), b, max)
    decreases |b|
  {
    hide FillOne;
    if b == [] {
      assert a + b == a;
    } else {
      FillInTwo(space, f, a, b[..|b| - 1], max);
      assert (a + b)[..|a + b| - 1] == a + b[..|b| - 1];
    }
  }

  // ---- headings and paragraphs -------------------------------------------------------------------------

  datatype Heading = Heading(level: nat, name: string)

  datatype Paragraph = Paragraph(heading: string, text: string)

  function Hashes(line: string): (n: nat)
    ensures n <= |line|
  {
    if line != "" && line[0] == '#' then 1 + Hashes(line[1..]) else 0
  }

  /** One to six hashes, white space, and a name. */
  function HeadingOf(space: Space, line: string): Option<Heading> {
    var n := Hashes(line);
    if 1 <= n <= 6 && n < |line| && space(line[n]) && Strip(space, line[n..]) != "" then
      Some(Heading(n, Strip(space, line[n..])))
    else None
  }

  /** A heading closes those of its own and of lower rank. */
  function Popped(path: seq<Heading>, level: nat): seq<Heading> {
    if path != [] && path[|path| - 1].level >= level then Popped(path[..|path| - 1], level) else path
  }

  function PathText(path: seq<Heading>): string { Join(NamesOf(path), " > ") }

  function NamesOf(path: seq<Heading>): seq<string> {
    seq(|path|, i requires 0 <= i < |path| => path[i].name)
  }

  function Stripped(space: Space, lines: seq<string>): (r: seq<string>)
    ensures |r| == |lines|
  {
    if lines == [] then []
    else Stripped(space, lines[..|lines| - 1]) + [Strip(space, lines[|lines| - 1])]
  }

  datatype Reading = Reading(path: seq<Heading>, buffer: seq<string>, out: seq<Paragraph>)

  function Emit(space: Space, r: Reading): Reading {
    var text := Strip(space, Join(Stripped(space, r.buffer), " "));
    Reading(r.path, [], if text != "" then r.out + [Paragraph(PathText(r.path), text)] else r.out)
  }

  function ReadLine(space: Space, r: Reading, line: string): Reading {
    match HeadingOf(space, line)
    case Some(h) =>
      var e := Emit(space, r);
      e.(path := Popped(e.path, h.level) + [h])
    case None =>
      if Strip(space, line) == "" then Emit(space, r) else r.(buffer := r.buffer + [line])
  }

  function ReadAll(space: Space, lines: seq<string>): Reading {
    if lines == [] then Reading([], [], [])
    else ReadLine(space, ReadAll(space, lines[..|lines| - 1]), lines[|lines| - 1])
  }

  function Paragraphs(space: Space, lines: seq<string>): seq<Paragraph> {
    Emit(space, ReadAll(space, lines)).out
  }

  method EmitBuffer(space: Space, path: seq<Heading>, buffer: seq<string>, out: seq<Paragraph>) returns (more: seq<Paragraph>)
    ensures more == Emit(space, Reading(path, buffer, out)).out
  {
    var stripped: seq<string> := [];
    for i := 0 to |buffer|
      invariant stripped == Stripped(space, buffer[..i])
    {
      assert buffer[..i + 1][..i] == buffer[..i];
      stripped := stripped + [Strip(space, buffer[i])];
    }
    assert buffer[..|buffer|] == buffer;
    var text := Strip(space, Join(stripped, " "));
    more := out;
    if text != "" {
      more := more + [Paragraph(PathText(path), text)];
    }
  }

  method ReadParagraphs(space: Space, lines: seq<string>) returns (out: seq<Paragraph>)
    ensures out == Paragraphs(space, lines)
  {
    hide HeadingOf, Strip, Emit;
    var path: seq<Heading>, buffer: seq<string> := [], [];
    out := [];
    for i := 0 to |lines|
      invariant Reading(path, buffer, out) == ReadAll(space, lines[..i])
    {
      assert lines[..i + 1][..i] == lines[..i];
      var line := lines[i];
      var found := HeadingOf(space, line);
      EmitKeepsPath(space, Reading(path, buffer, out));
      if found.Some? {
        out := EmitBuffer(space, path, buffer, out);
        buffer := [];
        var h := found.value;
        ghost var before := path;
        while |path| > 0 && path[|path| - 1].level >= h.level
          invariant Popped(path, h.level) == Popped(before, h.level)
        {
          path := path[..|path| - 1];
        }
        path := path + [h];
      } else if Strip(space, line) == "" {
        out := EmitBuffer(space, path, buffer, out);
        buffer := [];
      } else {
        buffer := buffer + [line];
      }
    }
    assert lines[..|lines|] == lines;
    out := EmitBuffer(space, path, buffer, out);
  }

  lemma EmitKeepsPath(space: Space, r: Reading)
    ensures Emit(space, r).path == r.path && Emit(space, r).buffer == []
  {
    hide Strip, Join, Stripped;
  }

  // The stack of headings

  function Headings(space: Space, lines: seq<string>): seq<Heading> {
    if lines == [] then []
    else
      var before := Headings(space, lines[..|lines| - 1]);
      match HeadingOf(space, lines[|lines| - 1])
      case Some(h) => before + [h]
      case None => before
  }

  /** Not closed by a later heading of the same or a higher rank. */
  predicate Open(headings: seq<Heading>, i: nat)
    requires i < |headings|
  {
    forall k :: i < k < |headings| ==> headings[k].level > headings[i].level
  }

  /** The headings still open, from the first `n` of them. */
  function Chain(headings: seq<Heading>, n: nat): seq<Heading>
    requires n <= |headings|
  {
    if n == 0 then []
    else if Open(headings, n - 1) then Chain(headings, n - 1) + [headings[n - 1]]
    else Chain(headings, n - 1)
  }

  /** Closing by rank keeps what a test of rank keeps. */
  function Higher(path: seq<Heading>, level: nat): seq<Heading> {
    if path == [] then []
    else
      var n := |path| - 1;
      if path[n].level < level then Higher(path[..n], level) + [path[n]] else Higher(path[..n], level)
  }

  predicate Descending(path: seq<Heading>) {
    forall i, j :: 0 <= i < j < |path| ==> path[i].level < path[j].level
  }

  lemma {:induction false} HigherOfAll(path: seq<Heading>, level: nat)
    requires forall i :: 0 <= i < |path| ==> path[i].level < level
    ensures Higher(path, level) == path
  {
    if path != [] {
      HigherOfAll(path[..|path| - 1], level);
      assert path == path[..|path| - 1] + [path[|path| - 1]];
    }
  }

  lemma {:induction false} PoppedIsHigher(path: seq<Heading>, level: nat)
    requires Descending(path)
    ensures Popped(path, level) == Higher(path, level)
  {
    if path != [] {
      var n := |path| - 1;
      if path[n].level >= level {
        PoppedIsHigher(path[..n], level);
      } else {
        assert forall i :: 0 <= i < n ==> path[i].level < path[n].level;
        HigherOfAll(path, level);
      }
    }
  }

  lemma {:induction false} ChainGrows(headings: seq<Heading>, h: Heading, n: nat)
    requires n <= |headings|
    ensures Chain(headings + [h], n) == Higher(Chain(headings, n), h.level)
  {
    if n > 0 {
      ChainGrows(headings, h, n - 1);
      var more := headings + [h];
      assert more[|headings|] == h;
      assert Open(more, n - 1) <==> Open(headings, n - 1) && h.level > headings[n - 1].level by {
        assert forall k :: n - 1 < k < |headings| ==> more[k] == headings[k];
      }
      var before := Chain(headings, n - 1);
      assert (before + [headings[n - 1]])[..|before|] == before;
    }
  }

  lemma {:induction false} ChainDescends(headings: seq<Heading>, n: nat)
    requires n <= |headings|
    ensures Descending(Chain(headings, n))
    ensures forall i, k :: 0 <= i < |Chain(headings, n)| && n <= k < |headings| ==> Chain(headings, n)[i].level < headings[k].level
  {
    if n > 0 {
      ChainDescends(headings, n - 1);
    }
  }

  /** The stack kept line by line is the chain of headings that no later one closes. */
  lemma {:induction false} StackIsChain(space: Space, lines: seq<string>)
    ensures ReadAll(space, lines).path == Chain(Headings(space, lines), |Headings(space, lines)|)
  {
    hide HeadingOf, Emit, Strip, Open;
    if lines != [] {
      var n := |lines| - 1;
      StackIsChain(space, lines[..n]);
      var before := Headings(space, lines[..n]);
      EmitKeepsPath(space, ReadAll(space, lines[..n]));
      if HeadingOf(space, lines[n]).Some? {
        var h := HeadingOf(space, lines[n]).value;
        ChainDescends(before, |before|);
        PoppedIsHigher(Chain(before, |before|), h.level);
        ChainGrows(before, h, |before|);
        LastIsOpen(before + [h]);
      }
    }
  }

  lemma LastIsOpen(headings: seq<Heading>)
    requires headings != []
    ensures Open(headings, |headings| - 1)
  {
  }

  // The words under each heading

  /** A word, and the headings it stands under. */
  datatype Spoken = Spoken(heading: string, word: string)

  function Under(heading: string, words: seq<string>): seq<Spoken> {
    if words == [] then []
    else Under(heading, words[..|words| - 1]) + [Spoken(heading, words[|words| - 1])]
  }

  function ParagraphWords(space: Space, paragraphs: seq<Paragraph>): seq<Spoken> {
    if paragraphs == [] then []
    else
      var n := |paragraphs| - 1;
      ParagraphWords(space, paragraphs[..n]) + Under(paragraphs[n].heading, Words(space, paragraphs[n].text))
  }

  /** The words of every line that is no heading, each under the headings open there. */
  function LineWords(space: Space, lines: seq<string>): seq<Spoken> {
    if lines == [] then []
    else
      var n := |lines| - 1;
      var before := LineWords(space, lines[..n]);
      if HeadingOf(space, lines[n]).Some? then before
      else
        var headings := Headings(space, lines[..n]);
        before + Under(PathText(Chain(headings, |headings|)), Words(space, lines[n]))
  }

  lemma {:induction false} UnderConcat(heading: string, a: seq<string>, b: seq<string>)
    ensures Under(heading, a + b) == Under(heading, a) + Under(heading, b)
  {
    if b == [] {
      assert a + b == a;
    } else {
      UnderConcat(heading, a, b[..|b| - 1]);
      assert (a + b)[..|a + b| - 1] == a + b[..|b| - 1];
    }
  }

  lemma {:induction false} StrippedWords(space: Space, lines: seq<string>)
    ensures AllOf(space, Stripped(space, lines)) == AllOf(space, lines)
  {
    hide Words, Strip;
    if lines != [] {
      var n := |lines| - 1;
      StrippedWords(space, lines[..n]);
      StripWords(space, lines[n]);
      assert Stripped(space, lines)[..n] == Stripped(space, lines[..n]);
    }
  }

  /** What has been read: the paragraphs, and the lines still waiting to be one. */
  function ReadWords(space: Space, r: Reading): seq<Spoken> {
    ParagraphWords(space, r.out) + Under(PathText(r.path), AllOf(space, r.buffer))
  }

  lemma {:induction false} EmitWords(space: Space, r: Reading)
    requires Usual(space)
    ensures ParagraphWords(space, Emit(space, r).out) == ReadWords(space, r)
    ensures ReadWords(space, Emit(space, r)) == ReadWords(space, r)
  {
    var joined := Join(Stripped(space, r.buffer), " ");
    JoinWords(space, Stripped(space, r.buffer), " ");
    StrippedWords(space, r.buffer);
    StripWords(space, joined);
    StripIsEmpty(space, joined);
    assert AllOf(space, []) == [] && Under(PathText(r.path), []) == [];
    hide Words, Strip, Join, Stripped, AllOf;
    var e := Emit(space, r);
    assert (r.out + [Paragraph(PathText(r.path), Strip(space, joined))])[..|r.out|] == r.out;
    hide Under, PathText;
    assert ParagraphWords(space, e.out) == ReadWords(space, r);
    assert ParagraphWords(space, e.out) + [] == ParagraphWords(space, e.out);
  }

  /** A line of text waits with those before it. */
  lemma {:induction false} BufferWords(space: Space, r: Reading, line: string)
    ensures ReadWords(space, r.(buffer := r.buffer + [line]))
            == ReadWords(space, r) + Under(PathText(r.path), Words(space, line))
  {
    hide Words, PathText, ParagraphWords, Under;
    AllOfConcat(space, r.buffer, [line]);
    AllOfOne(space, line);
    hide AllOf;
    UnderConcat(PathText(r.path), AllOf(space, r.buffer), Words(space, line));
  }

  lemma {:induction false} ReadLineWords(space: Space, r: Reading, line: string)
    requires Usual(space)
    ensures
      ReadWords(space, ReadLine(space, r, line))
      == ReadWords(space, r) + if HeadingOf(space, line).Some? then [] else Under(PathText(r.path), Words(space, line))
  {
    EmitWords(space, r);
    EmitKeepsPath(space, r);
    StripIsEmpty(space, line);
    assert Under(PathText(r.path), []) == [];
    hide Words, Strip, HeadingOf, Emit, PathText, ParagraphWords, ReadWords, Under;
    if HeadingOf(space, line).None? && Strip(space, line) != "" {
      BufferWords(space, r, line);
    }
  }

  lemma {:induction false} ReadAllWords(space: Space, lines: seq<string>)
    requires Usual(space)
    ensures ReadWords(space, ReadAll(space, lines)) == LineWords(space, lines)
  {
    if lines == [] {
      assert AllOf(space, []) == [];
    } else {
      hide Words, Strip, HeadingOf, Emit, PathText, ParagraphWords, ReadLine, ReadWords, Under;
      var n := |lines| - 1;
      ReadAllWords(space, lines[..n]);
      ReadLineWords(space, ReadAll(space, lines[..n]), lines[n]);
      StackIsChain(space, lines[..n]);
    }
  }

  /** The paragraphs spell the words of all lines that are no headings, in order, under the headings open there. */
  lemma {:induction false} ParagraphsSpellTheLines(space: Space, lines: seq<string>)
    requires Usual(space)
    ensures ParagraphWords(space, Paragraphs(space, lines)) == LineWords(space, lines)
  {
    hide *;
    EmitWords(space, ReadAll(space, lines));
    ReadAllWords(space, lines);
    ParagraphsIs(space, lines);
  }

  lemma ParagraphsIs(space: Space, lines: seq<string>)
    ensures Paragraphs(space, lines) == Emit(space, ReadAll(space, lines)).out
  {
  }

  // ---- bundling -----------------------------------------------------------------------------------------

  datatype Chunk = Chunk(position: nat, heading: string, text: string)

  /** One chunk in the making: what it repeats from the one before, and its own pieces. */
  datatype Bundle = Bundle(heading: string, tail: string, pieces: seq<string>)

  datatype Bundling = Bundling(done: seq<Bundle>, last: Bundle)

  function Current(p: Bundle): seq<string> { (if p.tail != "" then [p.tail] else []) + p.pieces }

  function TotalLength(texts: seq<string>): nat {
    if texts == [] then 0 else TotalLength(texts[..|texts| - 1]) + |texts[|texts| - 1]|
  }

  /** The first space in the text. */
  function FirstSpace(text: string): Option<nat> {
    if text == "" then None
    else if text[0] == ' ' then Some(0)
    else
      match FirstSpace(text[1..])
      case Some(i) => Some(i + 1)
      case None => None
  }

  /** The end of a text that fits the overlap, from a whole word on. */
  function Tail(space: Space, text: string, overlap: int): string {
    if overlap <= 0 then ""
    else if |text| <= overlap then text
    else
      var cut := text[|text| - overlap..];
      match FirstSpace(cut)
      case Some(i) => if i + 1 <= |cut| then Strip(space, cut[i + 1..]) else ""
      case None => ""
  }

  function BundleOne(space: Space, k: Bundling, p: Paragraph, max: int, overlap: int): Bundling {
    var current := Current(k.last);
    if current != [] && (p.heading != k.last.heading || TotalLength(current) + 2 * |current| + |p.text| > max) then
      var tail := if p.heading == k.last.heading then Tail(space, current[|current| - 1], overlap) else "";
      Bundling(k.done + [k.last], Bundle(p.heading, tail, [p.text]))
    else Bundling(k.done, Bundle(p.heading, k.last.tail, k.last.pieces + [p.text]))
  }

  const EMPTY := Bundling([], Bundle("", "", []))

  function BundleAll(space: Space, pieces: seq<Paragraph>, max: int, overlap: int): Bundling {
    if pieces == [] then EMPTY
    else BundleOne(space, BundleAll(space, pieces[..|pieces| - 1], max, overlap), pieces[|pieces| - 1], max, overlap)
  }

  function TextOf(space: Space, p: Bundle): string { Strip(space, Join(Current(p), "\n\n")) }

  function Flushed(space: Space, chunks: seq<Chunk>, p: Bundle): seq<Chunk> {
    if TextOf(space, p) != "" then chunks + [Chunk(|chunks|, p.heading, TextOf(space, p))] else chunks
  }

  function FlushedAll(space: Space, bundles: seq<Bundle>): seq<Chunk> {
    if bundles == [] then [] else Flushed(space, FlushedAll(space, bundles[..|bundles| - 1]), bundles[|bundles| - 1])
  }

  function Headed(heading: string, pieces: seq<string>): (r: seq<Paragraph>)
    ensures |r| == |pieces| && forall i :: 0 <= i < |r| ==> r[i] == Paragraph(heading, pieces[i])
  {
    seq(|pieces|, i requires 0 <= i < |pieces| => Paragraph(heading, pieces[i]))
  }

  /** Every paragraph cut to fit, in order. */
  function Pieces(space: Space, paragraphs: seq<Paragraph>, max: int): seq<Paragraph> {
    if paragraphs == [] then []
    else
      var n := |paragraphs| - 1;
      Pieces(space, paragraphs[..n], max) + Headed(paragraphs[n].heading, Fit(space, paragraphs[n].text, max))
  }

  function Bundles(space: Space, lines: seq<string>, max: int, overlap: int): seq<Bundle> {
    var k := BundleAll(space, Pieces(space, Paragraphs(space, lines), max), max, overlap);
    k.done + [k.last]
  }

  method Flush(space: Space, chunks: seq<Chunk>, heading: string, current: seq<string>, ghost p: Bundle)
    returns (more: seq<Chunk>)
    requires current == Current(p) && (current != [] ==> heading == p.heading)
    ensures more == Flushed(space, chunks, p)
  {
    more := chunks;
    var text := Strip(space, Join(current, "\n\n"));
    NoWords(space);
    StripIsEmpty(space, "");
    if text != "" {
      more := more + [Chunk(|chunks|, heading, text)];
    }
  }

  lemma FlushedMore(space: Space, bundles: seq<Bundle>, p: Bundle)
    ensures FlushedAll(space, bundles + [p]) == Flushed(space, FlushedAll(space, bundles), p)
  {
    hide Flushed;
    assert (bundles + [p])[..|bundles|] == bundles;
  }

  method Size(current: seq<string>) returns (size: nat)
    ensures size == TotalLength(current) + 2 * |current|
  {
    size := 0;
    for i := 0 to |current|
      invariant size == TotalLength(current[..i])
    {
      assert current[..i + 1][..i] == current[..i];
      size := size + |current[i]|;
    }
    assert current[..|current|] == current;
    size := size + 2 * |current|;
  }

  /** One more piece, as the loop over the pieces takes it. */
  method Take(space: Space, chunks: seq<Chunk>, currentHeading: string, current: seq<string>, p: Paragraph, max: int,
              overlap: int, ghost k: Bundling)
    returns (moreChunks: seq<Chunk>, moreCurrent: seq<string>)
    requires chunks == FlushedAll(space, k.done) && current == Current(k.last)
    requires currentHeading == k.last.heading
    ensures
      var next := BundleOne(space, k, p, max, overlap);
      moreChunks == FlushedAll(space, next.done) && moreCurrent == Current(next.last) && p.heading == next.last.heading
  {
    hide TextOf, Tail, TotalLength, Flushed, FlushedAll;
    var size := Size(current);
    moreChunks, moreCurrent := chunks, current;
    if |current| > 0 && (p.heading != currentHeading || size + |p.text| > max) {
      var sameSection := p.heading == currentHeading;
      var tail := if sameSection then Tail(space, current[|current| - 1], overlap) else "";
      moreChunks := Flush(space, chunks, currentHeading, current, k.last);
      FlushedMore(space, k.done, k.last);
      moreCurrent := if tail != "" then [tail] else [];
    }
    moreCurrent := moreCurrent + [p.text];
  }

  method ChunkText(space: Space, lines: seq<string>, max: int, overlap: int) returns (chunks: seq<Chunk>)
    ensures chunks == FlushedAll(space, Bundles(space, lines, max, overlap))
  {
    hide BundleOne, Flushed, Fit, Tail, TextOf, Paragraphs;
    var paragraphs := ReadParagraphs(space, lines);
    chunks := [];
    var current: seq<string>, currentHeading := [], "";
    ghost var k := EMPTY;
    for i := 0 to |paragraphs|
      invariant k == BundleAll(space, Pieces(space, paragraphs[..i], max), max, overlap)
      invariant chunks == FlushedAll(space, k.done) && current == Current(k.last) && currentHeading == k.last.heading
    {
      var pieces := SplitParagraph(space, paragraphs[i].text, max);
      ghost var before, added := Pieces(space, paragraphs[..i], max), Headed(paragraphs[i].heading, pieces);
      assert before + added[..0] == before;
      for j := 0 to |pieces|
        invariant k == BundleAll(space, before + added[..j], max, overlap)
        invariant chunks == FlushedAll(space, k.done) && current == Current(k.last) && currentHeading == k.last.heading
      {
        var p := Paragraph(paragraphs[i].heading, pieces[j]);
        OneBundled(space, before, added, j, max, overlap);
        chunks, current := Take(space, chunks, currentHeading, current, p, max, overlap, k);
        k := BundleOne(space, k, p, max, overlap);
        currentHeading := p.heading;
      }
      OneParagraph(space, paragraphs, i, max);
      assert added[..|pieces|] == added;
    }
    assert paragraphs[..|paragraphs|] == paragraphs;
    chunks := Flush(space, chunks, currentHeading, current, k.last);
    assert (k.done + [k.last])[..|k.done|] == k.done;
  }

  lemma OneBundled(space: Space, before: seq<Paragraph>, added: seq<Paragraph>, j: nat, max: int, overlap: int)
    requires j < |added|
    ensures BundleAll(space, before + added[..j + 1], max, overlap)
            == BundleOne(space, BundleAll(space, before + added[..j], max, overlap), added[j], max, overlap)
  {
    hide BundleOne;
    assert (before + added[..j + 1])[..|before| + j] == before + added[..j];
  }

  lemma OneParagraph(space: Space, paragraphs: seq<Paragraph>, i: nat, max: int)
    requires i < |paragraphs|
    ensures Pieces(space, paragraphs[..i + 1], max)
            == Pieces(space, paragraphs[..i], max) + Headed(paragraphs[i].heading, Fit(space, paragraphs[i].text, max))
  {
    hide Fit;
    assert paragraphs[..i + 1][..i] == paragraphs[..i];
  }

  // ---- what the chunks hold ----------------------------------------------------------------------------

  function BundlePieces(bundles: seq<Bundle>): seq<Paragraph> {
    if bundles == [] then []
    else
      var n := |bundles| - 1;
      BundlePieces(bundles[..n]) + Headed(bundles[n].heading, bundles[n].pieces)
  }

  lemma BundlePiecesMore(bundles: seq<Bundle>, p: Bundle)
    ensures BundlePieces(bundles + [p]) == BundlePieces(bundles) + Headed(p.heading, p.pieces)
  {
    assert (bundles + [p])[..|bundles|] == bundles;
  }

  /** No piece is lost, moved, or put under another heading. */
  lemma {:induction false} BundlingKeepsPieces(space: Space, pieces: seq<Paragraph>, max: int, overlap: int)
    ensures var k := BundleAll(space, pieces, max, overlap);
      BundlePieces(k.done + [k.last]) == pieces
  {
    hide Tail, TotalLength;
    if pieces == [] {
      BundlePiecesMore([], EMPTY.last);
    } else {
      var n := |pieces| - 1;
      BundlingKeepsPieces(space, pieces[..n], max, overlap);
      BundleOneKeepsPieces(space, BundleAll(space, pieces[..n], max, overlap), pieces[n], max, overlap);
      assert pieces == pieces[..n] + [pieces[n]];
    }
  }

  lemma {:induction false} BundleOneKeepsPieces(space: Space, k: Bundling, p: Paragraph, max: int, overlap: int)
    ensures var next := BundleOne(space, k, p, max, overlap);
      BundlePieces(next.done + [next.last]) == BundlePieces(k.done + [k.last]) + [p]
  {
    hide Tail, TotalLength, BundlePieces;
    var next := BundleOne(space, k, p, max, overlap);
    BundlePiecesMore(k.done, k.last);
    BundlePiecesMore(next.done, next.last);
    if next.done == k.done {
      assert Headed(p.heading, k.last.pieces + [p.text]) == Headed(k.last.heading, k.last.pieces) + [p];
    } else {
      assert Headed(p.heading, [p.text]) == [p];
    }
  }

  function BundleWords(space: Space, bundles: seq<Bundle>): seq<Spoken> {
    if bundles == [] then []
    else
      var n := |bundles| - 1;
      BundleWords(space, bundles[..n]) + Under(bundles[n].heading, AllOf(space, bundles[n].pieces))
  }

  lemma {:induction false} HeadedWords(space: Space, heading: string, pieces: seq<string>)
    ensures ParagraphWords(space, Headed(heading, pieces)) == Under(heading, AllOf(space, pieces))
  {
    hide Words;
    if pieces != [] {
      var n := |pieces| - 1;
      HeadedWords(space, heading, pieces[..n]);
      assert Headed(heading, pieces)[..n] == Headed(heading, pieces[..n]);
      UnderConcat(heading, AllOf(space, pieces[..n]), Words(space, pieces[n]));
    }
  }

  lemma ParagraphWordsMore(space: Space, a: seq<Paragraph>, p: Paragraph)
    ensures ParagraphWords(space, a + [p]) == ParagraphWords(space, a) + Under(p.heading, Words(space, p.text))
  {
    hide Words, Under;
    assert (a + [p])[..|a|] == a;
  }

  lemma {:induction false} ParagraphWordsConcat(space: Space, a: seq<Paragraph>, b: seq<Paragraph>)
    ensures ParagraphWords(space, a + b) == ParagraphWords(space, a) + ParagraphWords(space, b)
  {
    NoParagraphs(space);
    hide Words, Under, ParagraphWords;
    if b == [] {
      assert a + b == a;
    } else {
      var front, last := b[..|b| - 1], b[|b| - 1];
      ParagraphWordsConcat(space, a, front);
      ParagraphWordsMore(space, a + front, last);
      ParagraphWordsMore(space, front, last);
      assert a + b == (a + front) + [last] && b == front + [last];
    }
  }

  lemma {:induction false} BundlePiecesWords(space: Space, bundles: seq<Bundle>)
    ensures ParagraphWords(space, BundlePieces(bundles)) == BundleWords(space, bundles)
  {
    hide Words, Under, AllOf, ParagraphWords;
    if bundles == [] {
      NoParagraphs(space);
    } else {
      var n := |bundles| - 1;
      BundlePiecesWords(space, bundles[..n]);
      ParagraphWordsConcat(space, BundlePieces(bundles[..n]), Headed(bundles[n].heading, bundles[n].pieces));
      HeadedWords(space, bundles[n].heading, bundles[n].pieces);
    }
  }

  lemma NoParagraphs(space: Space)
    ensures ParagraphWords(space, []) == []
  {
  }

  lemma {:induction false} PiecesWords(space: Space, paragraphs: seq<Paragraph>, max: int)
    requires Usual(space)
    ensures ParagraphWords(space, Pieces(space, paragraphs, max)) == ParagraphWords(space, paragraphs)
  {
    hide Words, Under, AllOf, Fit;
    if paragraphs != [] {
      var n := |paragraphs| - 1;
      PiecesWords(space, paragraphs[..n], max);
      var fitted := Fit(space, paragraphs[n].text, max);
      ParagraphWordsConcat(space, Pieces(space, paragraphs[..n], max), Headed(paragraphs[n].heading, fitted));
      HeadedWords(space, paragraphs[n].heading, fitted);
      FitWords(space, paragraphs[n].text, max);
    }
  }

  lemma {:induction false} BundlesSpellTheLines(space: Space, lines: seq<string>, max: int, overlap: int)
    requires Usual(space)
    ensures BundleWords(space, Bundles(space, lines, max, overlap)) == LineWords(space, lines)
  {
    hide Paragraphs, BundleAll, Pieces, BundleWords, LineWords, ParagraphWords, BundlePieces;
    ParagraphsSpellTheLines(space, lines);
    PiecesWords(space, Paragraphs(space, lines), max);
    BundlingKeepsPieces(space, Pieces(space, Paragraphs(space, lines), max), max, overlap);
    BundlePiecesWords(space, Bundles(space, lines, max, overlap));
  }

  /** A chunk's text spells what it repeats and then its own pieces. */
  lemma {:induction false} TextSpells(space: Space, p: Bundle)
    requires Usual(space)
    ensures Words(space, TextOf(space, p)) == Words(space, p.tail) + AllOf(space, p.pieces)
  {
    StripWords(space, Join(Current(p), "\n\n"));
    JoinWords(space, Current(p), "\n\n");
    NoWords(space);
    hide Words;
    if p.tail == "" {
      assert Current(p) == p.pieces;
      assert [] + AllOf(space, p.pieces) == AllOf(space, p.pieces);
    } else {
      AllOfConcat(space, [p.tail], p.pieces);
      AllOfOne(space, p.tail);
    }
  }

  /** The bundles that show anything. */
  function Shown(space: Space, bundles: seq<Bundle>): seq<Bundle> {
    if bundles == [] then []
    else
      var n := |bundles| - 1;
      if TextOf(space, bundles[n]) != "" then Shown(space, bundles[..n]) + [bundles[n]] else Shown(space, bundles[..n])
  }

  lemma {:induction false} ShownSpellsAll(space: Space, bundles: seq<Bundle>)
    requires Usual(space)
    ensures BundleWords(space, Shown(space, bundles)) == BundleWords(space, bundles)
  {
    hide TextOf, Words, AllOf;
    if bundles != [] {
      var n := |bundles| - 1;
      ShownSpellsAll(space, bundles[..n]);
      var before := Shown(space, bundles[..n]);
      assert (before + [bundles[n]])[..|before|] == before;
      if TextOf(space, bundles[n]) == "" {
        TextSpells(space, bundles[n]);
        NoWords(space);
        assert AllOf(space, bundles[n].pieces) == [];
      }
    }
  }

  lemma {:induction false} ChunksAreShown(space: Space, bundles: seq<Bundle>)
    ensures
      var chunks, shown := FlushedAll(space, bundles), Shown(space, bundles);
      |chunks| == |shown|
      && forall i :: 0 <= i < |chunks| ==> chunks[i] == Chunk(i, shown[i].heading, TextOf(space, shown[i]))
  {
    hide TextOf;
    if bundles != [] {
      ChunksAreShown(space, bundles[..|bundles| - 1]);
    }
  }

  /** Chunk by chunk: the headings of its bundle, and a text that spells the bundle's tail and then its pieces. */
  ghost predicate MadeOf(space: Space, chunks: seq<Chunk>, bundles: seq<Bundle>) {
    |chunks| == |bundles|
    && forall i :: 0 <= i < |chunks| ==>
      && chunks[i].position == i && chunks[i].heading == bundles[i].heading
      && Words(space, chunks[i].text) == Words(space, bundles[i].tail) + AllOf(space, bundles[i].pieces)
  }

  /** Leaving out what each chunk repeats, the chunks spell in order exactly the words of the lines that are no
      headings, every word under the headings open at its line. */
  lemma {:induction false} ChunksSpellTheLines(space: Space, lines: seq<string>, max: int, overlap: int)
    requires Usual(space)
    ensures
      var bundles := Shown(space, Bundles(space, lines, max, overlap));
      && MadeOf(space, FlushedAll(space, Bundles(space, lines, max, overlap)), bundles)
      && BundleWords(space, bundles) == LineWords(space, lines)
  {
    hide Bundles, Shown, FlushedAll, TextOf, BundleWords, LineWords, Words, AllOf;
    var all := Bundles(space, lines, max, overlap);
    BundlesSpellTheLines(space, lines, max, overlap);
    ShownSpellsAll(space, all);
    ChunksAreShown(space, all);
    var shown := Shown(space, all);
    forall i | 0 <= i < |shown|
      ensures Words(space, TextOf(space, shown[i])) == Words(space, shown[i].tail) + AllOf(space, shown[i].pieces)
    {
      TextSpells(space, shown[i]);
    }
  }

  // ---- how long a chunk is, and what it repeats --------------------------------------------------------

  /** A piece that is full, and before it a tail and a break. */
  function Bound(max: int, overlap: int): int {
    if overlap <= 0 then max else max + (if overlap < max then overlap else max) + 2
  }

  lemma {:induction false} TailIsShort(space: Space, text: string, overlap: int)
    ensures |Tail(space, text, overlap)| <= |text|
    ensures |Tail(space, text, overlap)| <= if overlap > 0 then overlap else 0
  {
    hide Strip;
    if overlap > 0 && |text| > overlap {
      var cut := text[|text| - overlap..];
      if FirstSpace(cut).Some? && FirstSpace(cut).value + 1 <= |cut| {
        StripWords(space, cut[FirstSpace(cut).value + 1..]);
      }
    }
  }

  lemma {:induction false} JoinLength(texts: seq<string>, sep: string)
    ensures texts == [] ==> |Join(texts, sep)| == 0
    ensures texts != [] ==> |Join(texts, sep)| == TotalLength(texts) + |sep| * (|texts| - 1)
  {
    if |texts| == 1 {
      assert TotalLength(texts[..0]) == 0;
    } else if |texts| > 1 {
      JoinLength(texts[..|texts| - 1], sep);
      assert |sep| * (|texts| - 1) == |sep| * (|texts| - 2) + |sep|;
    }
  }

  /** What a chunk comes to before it is stripped. */
  predicate Short(p: Bundle, bound: int) {
    Current(p) == [] || TotalLength(Current(p)) + 2 * (|Current(p)| - 1) <= bound
  }

  /** What the loop keeps of every chunk in the making: its pieces fit, its tail fits the overlap, and only a tail
      before a single piece can take it past the limit. */
  predicate Packed(p: Bundle, max: int, overlap: int) {
    && AllWithin(p.pieces, max)
    && (p.pieces == [] ==> p.tail == "")
    && (p.tail != "" ==> |p.tail| <= overlap && |p.tail| <= max)
    && (p.tail == "" || |p.pieces| > 1 ==> Short(p, max))
  }

  predicate AllPacked(bundles: seq<Bundle>, max: int, overlap: int) {
    forall i :: 0 <= i < |bundles| ==> Packed(bundles[i], max, overlap)
  }

  lemma TotalLengthMore(texts: seq<string>, text: string)
    ensures TotalLength(texts + [text]) == TotalLength(texts) + |text|
  {
    assert (texts + [text])[..|texts|] == texts;
  }

  lemma {:induction false} BundleOneIsPacked(space: Space, k: Bundling, p: Paragraph, max: int, overlap: int)
    requires |p.text| <= max && AllPacked(k.done + [k.last], max, overlap)
    ensures var next := BundleOne(space, k, p, max, overlap);
      AllPacked(next.done + [next.last], max, overlap)
  {
    var was := k.done + [k.last];
    assert was[|k.done|] == k.last && forall i :: 0 <= i < |k.done| ==> was[i] == k.done[i];
    var current := Current(k.last);
    var next := BundleOne(space, k, p, max, overlap);
    if current != [] && (p.heading != k.last.heading || TotalLength(current) + 2 * |current| + |p.text| > max) {
      TailIsShort(space, current[|current| - 1], overlap);
      hide Tail, TotalLength, Short;
      FirstIsPacked(next.last, p.text, max, overlap);
    } else {
      hide Tail;
      NextIsPacked(k.last, next.last, p.text, max, overlap);
    }
  }

  lemma FirstIsPacked(p: Bundle, text: string, max: int, overlap: int)
    requires p.pieces == [text] && |text| <= max
    requires p.tail != "" ==> |p.tail| <= overlap && |p.tail| <= max
    ensures Packed(p, max, overlap)
  {
    if p.tail == "" {
      TotalLengthMore([], text);
      assert [] + [text] == [text];
    }
  }

  lemma NextIsPacked(p: Bundle, next: Bundle, text: string, max: int, overlap: int)
    requires Packed(p, max, overlap) && |text| <= max
    requires next.tail == p.tail && next.pieces == p.pieces + [text]
    requires Current(p) == [] || TotalLength(Current(p)) + 2 * |Current(p)| + |text| <= max
    ensures Packed(next, max, overlap)
  {
    TotalLengthMore(Current(p), text);
    assert TotalLength([]) == 0;
    hide TotalLength;
    assert Current(next) == Current(p) + [text];
  }

  lemma {:induction false} BundlingIsPacked(space: Space, pieces: seq<Paragraph>, max: int, overlap: int)
    requires forall i :: 0 <= i < |pieces| ==> |pieces[i].text| <= max
    ensures var k := BundleAll(space, pieces, max, overlap); AllPacked(k.done + [k.last], max, overlap)
  {
    hide BundleOne;
    if pieces != [] {
      var n := |pieces| - 1;
      BundlingIsPacked(space, pieces[..n], max, overlap);
      BundleOneIsPacked(space, BundleAll(space, pieces[..n], max, overlap), pieces[n], max, overlap);
    }
  }

  predicate SpokenWithin(words: seq<Spoken>, max: int) {
    forall i :: 0 <= i < |words| ==> |words[i].word| <= max
  }

  lemma {:induction false} UnderWithin(heading: string, words: seq<string>, max: int)
    ensures SpokenWithin(Under(heading, words), max) <==> AllWithin(words, max)
  {
    UnderEach(heading, words);
  }

  lemma {:induction false} UnderEach(heading: string, words: seq<string>)
    ensures |Under(heading, words)| == |words|
    ensures forall i :: 0 <= i < |words| ==> Under(heading, words)[i] == Spoken(heading, words[i])
  {
    if words != [] {
      UnderEach(heading, words[..|words| - 1]);
    }
  }

  lemma SpokenWithinParts(a: seq<Spoken>, b: seq<Spoken>, max: int)
    ensures SpokenWithin(a + b, max) <==> SpokenWithin(a, max) && SpokenWithin(b, max)
  {
    var c := a + b;
    assert forall i :: 0 <= i < |a| ==> c[i] == a[i];
    assert forall i :: 0 <= i < |b| ==> c[|a| + i] == b[i];
  }

  lemma {:induction false} PiecesWithin(space: Space, paragraphs: seq<Paragraph>, max: int)
    requires Usual(space) && SpokenWithin(ParagraphWords(space, paragraphs), max)
    ensures forall i :: 0 <= i < |Pieces(space, paragraphs, max)| ==> |Pieces(space, paragraphs, max)[i].text| <= max
  {
    hide Words, Under, Fit;
    if paragraphs != [] {
      var n := |paragraphs| - 1;
      var p := paragraphs[n];
      SpokenWithinParts(ParagraphWords(space, paragraphs[..n]), Under(p.heading, Words(space, p.text)), max);
      PiecesWithin(space, paragraphs[..n], max);
      UnderWithin(p.heading, Words(space, p.text), max);
      FitWords(space, p.text, max);
    }
  }

  lemma {:induction false} BundlesArePacked(space: Space, lines: seq<string>, max: int, overlap: int)
    requires Usual(space) && SpokenWithin(LineWords(space, lines), max)
    ensures AllPacked(Bundles(space, lines, max, overlap), max, overlap)
  {
    hide Paragraphs, BundleAll, Pieces, LineWords, ParagraphWords, Packed, SpokenWithin;
    ParagraphsSpellTheLines(space, lines);
    PiecesWithin(space, Paragraphs(space, lines), max);
    BundlingIsPacked(space, Pieces(space, Paragraphs(space, lines), max), max, overlap);
  }

  /** What is shown is among what was gathered, and not empty. */
  lemma {:induction false} ShownAreBundles(space: Space, bundles: seq<Bundle>)
    ensures forall p <- Shown(space, bundles) :: p in bundles && TextOf(space, p) != ""
  {
    hide TextOf;
    if bundles != [] {
      ShownAreBundles(space, bundles[..|bundles| - 1]);
    }
  }

  /** How long a chunk is before it is stripped. */
  function Length(p: Bundle): nat { |Join(Current(p), "\n\n")| }

  /** A chunk passes the limit only by a tail before a single piece, and then by no more than the bound. */
  lemma {:induction false} PackedLength(p: Bundle, max: int, overlap: int)
    requires Packed(p, max, overlap) && p.pieces != []
    ensures Length(p) > max <==> p.tail != "" && |p.pieces| == 1 && |p.tail| + 2 + |p.pieces[0]| > max
    ensures Length(p) <= Bound(max, overlap)
  {
    JoinLength(Current(p), "\n\n");
    if p.tail != "" && |p.pieces| == 1 {
      assert Current(p) == [p.tail, p.pieces[0]];
    } else {
      assert |p.pieces[0]| <= max;
      hide TotalLength;
    }
  }

  /** When every word fits, no chunk is longer than the limit, the overlap and the break between them, and none is
      longer than the limit when nothing is repeated. */
  lemma {:induction false} ChunksAreShort(space: Space, lines: seq<string>, max: int, overlap: int, i: nat)
    requires Usual(space) && SpokenWithin(LineWords(space, lines), max)
    requires i < |FlushedAll(space, Bundles(space, lines, max, overlap))|
    ensures |FlushedAll(space, Bundles(space, lines, max, overlap))[i].text| <= Bound(max, overlap)
  {
    hide Bundles, Shown, FlushedAll, LineWords, Packed, SpokenWithin, Bound, Strip, Join;
    var bundles := Bundles(space, lines, max, overlap);
    BundlesArePacked(space, lines, max, overlap);
    ChunksAreShown(space, bundles);
    ShownAreBundles(space, bundles);
    var p := Shown(space, bundles)[i];
    StripWords(space, Join(Current(p), "\n\n"));
    ShownHasPieces(space, p, max, overlap);
    PackedLength(p, max, overlap);
  }

  lemma ShownHasPieces(space: Space, p: Bundle, max: int, overlap: int)
    requires Packed(p, max, overlap) && TextOf(space, p) != ""
    ensures p.pieces != []
  {
  }

  // Where a chunk is longer than the limit

  lemma {:induction false} FillIsTight(space: Space, parts: seq<string>, max: int)
    requires AllTight(space, parts)
    ensures var f := FillAll(space, Filled([], ""), parts, max);
      AllTight(space, f.pieces) && (f.current == "" || Tight(space, f.current))
  {
    hide Strip;
    if parts != [] {
      var n := |parts| - 1;
      FillIsTight(space, parts[..n], max);
      StripIsTight(space, FillAll(space, Filled([], ""), parts[..n], max).current + " " + parts[n]);
    }
  }

  lemma {:induction false} HardSplitIsTight(space: Space, text: string, max: int)
    requires Tight(space, text)
    ensures AllTight(space, HardSplit(space, text, max))
  {
    hide Words, FillAll;
    WordsAreWords(space, text);
    var words := Words(space, text);
    assert AllTight(space, words) by {
      forall i | 0 <= i < |words|
        ensures Tight(space, words[i])
      {
        assert IsWord(space, words[i]);
      }
    }
    FillIsTight(space, words, max);
  }

  lemma {:induction false} SentencesAreTight(space: Space, text: string, from: nat, i: nat)
    requires Ordinary(space) && Tight(space, text)
    requires from <= i <= |text| && from < |text| && !space(text[from])
    requires i == from > 0 ==> !EndsSentence(text[i - 1])
    ensures AllTight(space, Sentences(space, text, from, i))
    decreases |text| - i
  {
    if i == |text| {
    } else if i > 0 && EndsSentence(text[i - 1]) && space(text[i]) {
      var j := SpaceEnd(space, text, i + 1);
      assert Tight(space, text[from..i]);
      SentencesAreTight(space, text, j, j);
      hide Tight, SpaceEnd;
      assert Sentences(space, text, from, i) == [text[from..i]] + Sentences(space, text, j, j);
    } else {
      SentencesAreTight(space, text, from, i + 1);
    }
  }

  lemma {:induction false} PartsAreTight(space: Space, sentences: seq<string>, max: int)
    requires AllTight(space, sentences)
    ensures AllTight(space, Parts(space, sentences, max))
  {
    hide HardSplit, Tight;
    if sentences != [] {
      var n := |sentences| - 1;
      PartsAreTight(space, sentences[..n], max);
      HardSplitIsTight(space, sentences[n], max);
    }
  }

  /** The pieces of a stripped paragraph are stripped. */
  lemma {:induction false} FitIsTight(space: Space, paragraph: string, max: int)
    requires Ordinary(space) && Tight(space, paragraph)
    ensures AllTight(space, Fit(space, paragraph, max))
  {
    if |paragraph| > max {
      SentencesAreTight(space, paragraph, 0, 0);
      hide FillAll, Parts, Sentences, Tight;
      PartsAreTight(space, Sentences(space, paragraph, 0, 0), max);
      FillIsTight(space, Parts(space, Sentences(space, paragraph, 0, 0), max), max);
    }
  }

  predicate TextsAreTight(space: Space, paragraphs: seq<Paragraph>) {
    forall i :: 0 <= i < |paragraphs| ==> Tight(space, paragraphs[i].text)
  }

  lemma EmitIsTight(space: Space, r: Reading)
    requires TextsAreTight(space, r.out)
    ensures TextsAreTight(space, Emit(space, r).out)
  {
    StripIsTight(space, Join(Stripped(space, r.buffer), " "));
    hide Strip, Join, Stripped, Tight;
  }

  lemma {:induction false} ReadAllIsTight(space: Space, lines: seq<string>)
    ensures TextsAreTight(space, ReadAll(space, lines).out)
  {
    hide Strip, HeadingOf, Emit, Tight;
    if lines != [] {
      var before := ReadAll(space, lines[..|lines| - 1]);
      ReadAllIsTight(space, lines[..|lines| - 1]);
      EmitIsTight(space, before);
    }
  }

  lemma {:induction false} PiecesAreTight(space: Space, paragraphs: seq<Paragraph>, max: int)
    requires Ordinary(space) && TextsAreTight(space, paragraphs)
    ensures TextsAreTight(space, Pieces(space, paragraphs, max))
  {
    hide Fit, Tight;
    if paragraphs != [] {
      var n := |paragraphs| - 1;
      PiecesAreTight(space, paragraphs[..n], max);
      FitIsTight(space, paragraphs[n].text, max);
    }
  }

  lemma {:induction false} TailIsTight(space: Space, text: string, overlap: int)
    requires Tight(space, text)
    ensures var tail := Tail(space, text, overlap); tail == "" || Tight(space, tail)
  {
    hide Strip;
    if overlap > 0 && |text| > overlap {
      var cut := text[|text| - overlap..];
      if FirstSpace(cut).Some? && FirstSpace(cut).value + 1 <= |cut| {
        StripIsTight(space, cut[FirstSpace(cut).value + 1..]);
      }
    }
  }

  predicate AllMadeTight(space: Space, bundles: seq<Bundle>) {
    forall i :: 0 <= i < |bundles| ==> AllTight(space, Current(bundles[i]))
  }

  lemma {:induction false} BundlingIsTight(space: Space, pieces: seq<Paragraph>, max: int, overlap: int)
    requires TextsAreTight(space, pieces)
    ensures var k := BundleAll(space, pieces, max, overlap); AllMadeTight(space, k.done + [k.last])
  {
    hide BundleOne, Tight;
    if pieces != [] {
      var n := |pieces| - 1;
      BundlingIsTight(space, pieces[..n], max, overlap);
      BundleOneIsTight(space, BundleAll(space, pieces[..n], max, overlap), pieces[n], max, overlap);
    }
  }

  lemma {:induction false} BundleOneIsTight(space: Space, k: Bundling, p: Paragraph, max: int, overlap: int)
    requires AllMadeTight(space, k.done + [k.last]) && Tight(space, p.text)
    ensures var next := BundleOne(space, k, p, max, overlap); AllMadeTight(space, next.done + [next.last])
  {
    var was := k.done + [k.last];
    assert was[|k.done|] == k.last && forall i :: 0 <= i < |k.done| ==> was[i] == k.done[i];
    var current := Current(k.last);
    var next := BundleOne(space, k, p, max, overlap);
    if current != [] {
      assert Tight(space, current[|current| - 1]);
      TailIsTight(space, current[|current| - 1], overlap);
    }
    hide Tail, TotalLength, Tight;
    if |next.done| == |k.done| {
      assert Current(next.last) == current + [p.text];
    }
  }

  lemma {:induction false} BundlesAreTight(space: Space, lines: seq<string>, max: int, overlap: int)
    requires Ordinary(space)
    ensures AllMadeTight(space, Bundles(space, lines, max, overlap))
  {
    hide ReadAll, Emit, BundleAll, Pieces, Tight;
    ReadAllIsTight(space, lines);
    EmitIsTight(space, ReadAll(space, lines));
    PiecesAreTight(space, Paragraphs(space, lines), max);
    BundlingIsTight(space, Pieces(space, Paragraphs(space, lines), max), max, overlap);
  }

  /** When every word fits, a chunk is longer than the limit exactly when it is a tail and one piece that do not fit
      together: the tail is added without a new check. */
  lemma {:induction false} TooLongExactlyWhen(space: Space, lines: seq<string>, max: int, overlap: int, i: nat)
    requires Ordinary(space) && SpokenWithin(LineWords(space, lines), max)
    requires i < |FlushedAll(space, Bundles(space, lines, max, overlap))|
    ensures |FlushedAll(space, Bundles(space, lines, max, overlap))| == |Shown(space, Bundles(space, lines, max, overlap))|
    ensures
      var p := Shown(space, Bundles(space, lines, max, overlap))[i];
      |FlushedAll(space, Bundles(space, lines, max, overlap))[i].text| > max
      <==> p.tail != "" && |p.pieces| == 1 && |p.tail| + 2 + |p.pieces[0]| > max
  {
    hide Bundles, Shown, FlushedAll, LineWords, Packed, SpokenWithin, Join, Tight;
    var bundles := Bundles(space, lines, max, overlap);
    BundlesArePacked(space, lines, max, overlap);
    BundlesAreTight(space, lines, max, overlap);
    ChunksAreShown(space, bundles);
    ShownAreBundles(space, bundles);
    var p := Shown(space, bundles)[i];
    ShownHasPieces(space, p, max, overlap);
    PackedLength(p, max, overlap);
    JoinIsTight(space, Current(p), "\n\n");
    TightStays(space, Join(Current(p), "\n\n"));
  }

  lemma TightStays(space: Space, text: string)
    requires Tight(space, text)
    ensures Strip(space, text) == text
  {
  }

  /** No chunk is longer than the limit. */
  predicate Limited(space: Space, lines: seq<string>, max: int, overlap: int) {
    var chunks := FlushedAll(space, Bundles(space, lines, max, overlap));
    forall i :: 0 <= i < |chunks| ==> |chunks[i].text| <= max
  }

  /** A word alone on a line waits to be a paragraph, and becomes one as it is. */
  lemma OneWordLine(space: Space, r: Reading, word: string)
    requires IsWord(space, word) && word[0] != '#'
    ensures ReadLine(space, r, word) == r.(buffer := r.buffer + [word])
    ensures r.path == [] && r.buffer == [word] ==> Emit(space, r) == Reading([], [], r.out + [Paragraph("", word)])
  {
    TightStays(space, word);
    assert Stripped(space, [word]) == [word] by {
      assert Stripped(space, [word][..0]) == [];
    }
    hide Strip;
    assert Join([word], " ") == word;
  }

  lemma BlankLine(space: Space, r: Reading)
    ensures ReadLine(space, r, "") == Emit(space, r)
  {
    assert Strip(space, "") == "" && HeadingOf(space, "").None?;
    hide Emit;
  }

  lemma ReadMore(space: Space, lines: seq<string>, line: string)
    ensures ReadAll(space, lines + [line]) == ReadLine(space, ReadAll(space, lines), line)
  {
    hide ReadLine;
    assert (lines + [line])[..|lines|] == lines;
  }

  /** A word alone on a line, with nothing waiting and no heading open, is a paragraph once its line is closed. */
  lemma {:induction false} OneWordParagraph(space: Space, lines: seq<string>, word: string, out: seq<Paragraph>)
    requires IsWord(space, word) && word[0] != '#'
    requires ReadAll(space, lines) == Reading([], [], out)
    ensures Emit(space, ReadAll(space, lines + [word])) == Reading([], [], out + [Paragraph("", word)])
    ensures ReadAll(space, lines + [word] + [""]) == Reading([], [], out + [Paragraph("", word)])
  {
    OneWordLine(space, Reading([], [], out), word);
    OneWordLine(space, Reading([], [word], out), word);
    hide *;
    ReadMore(space, lines, word);
    ReadMore(space, lines + [word], "");
    BlankLine(space, Reading([], [word], out));
    assert [] + [word] == [word];
  }

  lemma {:induction false} TwoWordParagraphs(space: Space, a: string, b: string)
    requires IsWord(space, a) && IsWord(space, b) && a[0] != '#' && b[0] != '#'
    ensures Paragraphs(space, [a, "", b]) == [Paragraph("", a), Paragraph("", b)]
  {
    assert ReadAll(space, []) == Reading([], [], []);
    hide *;
    OneWordParagraph(space, [], a, []);
    OneWordParagraph(space, [] + [a] + [""], b, [] + [Paragraph("", a)]);
    assert [] + [a] + [""] + [b] == [a, "", b];
    ParagraphsIs(space, [a, "", b]);
  }

  lemma {:induction false} TwoWordPieces(space: Space, a: string, b: string, max: int)
    requires |a| <= max && |b| <= max
    ensures Pieces(space, [Paragraph("", a), Paragraph("", b)], max) == [Paragraph("", a), Paragraph("", b)]
  {
    var one, two := Paragraph("", a), Paragraph("", b);
    assert [one][..0] == [] && [one, two][..1] == [one];
    assert Headed("", [a]) == [one] && Headed("", [b]) == [two];
    assert Pieces(space, [one], max) == [one];
  }

  lemma FirstTaken(space: Space, p: Paragraph, max: int, overlap: int)
    ensures BundleOne(space, EMPTY, p, max, overlap) == Bundling([], Bundle(p.heading, "", [p.text]))
  {
    hide Tail, TotalLength;
    assert Current(EMPTY.last) == [];
  }

  lemma WholeTail(space: Space, text: string, overlap: int)
    requires text != "" && |text| <= overlap
    ensures Tail(space, text, overlap) == text
  {
  }

  lemma OneLength(text: string)
    ensures TotalLength([text]) == |text|
  {
    TotalLengthMore([], text);
    assert [] + [text] == [text];
  }

  lemma SecondTaken(space: Space, k: Bundling, p: Paragraph, a: string, max: int, overlap: int)
    requires a != "" && |a| <= overlap && max < |a| + 2 + |p.text|
    requires Current(k.last) == [a] && p.heading == k.last.heading
    ensures BundleOne(space, k, p, max, overlap) == Bundling(k.done + [k.last], Bundle(p.heading, a, [p.text]))
  {
    WholeTail(space, a, overlap);
    OneLength(a);
    hide Tail, TotalLength, Current;
  }

  lemma BundleMore(space: Space, pieces: seq<Paragraph>, p: Paragraph, max: int, overlap: int)
    ensures BundleAll(space, pieces + [p], max, overlap) == BundleOne(space, BundleAll(space, pieces, max, overlap), p, max, overlap)
  {
    hide BundleOne;
    assert (pieces + [p])[..|pieces|] == pieces;
  }

  lemma TwoBundled(space: Space, one: Paragraph, two: Paragraph, max: int, overlap: int)
    ensures BundleAll(space, [one, two], max, overlap)
            == BundleOne(space, BundleOne(space, EMPTY, one, max, overlap), two, max, overlap)
  {
    assert BundleAll(space, [], max, overlap) == EMPTY;
    hide *;
    BundleMore(space, [], one, max, overlap);
    BundleMore(space, [one], two, max, overlap);
    assert [] + [one] == [one] && [one] + [two] == [one, two];
  }

  lemma {:induction false} TwoWordBundles(space: Space, a: string, b: string, max: int, overlap: int)
    requires a != "" && |a| <= overlap && max < |a| + 2 + |b|
    ensures BundleAll(space, [Paragraph("", a), Paragraph("", b)], max, overlap)
            == Bundling([Bundle("", "", [a])], Bundle("", a, [b]))
  {
    var one, two := Paragraph("", a), Paragraph("", b);
    var first := Bundle("", "", [a]);
    assert Current(first) == [a];
    hide *;
    TwoBundled(space, one, two, max, overlap);
    FirstTaken(space, one, max, overlap);
    SecondTaken(space, Bundling([], first), two, a, max, overlap);
    assert [] + [first] == [first];
  }

  /** Two paragraphs of one word each that do not fit together: the first is repeated before the second. */
  lemma {:induction false} TailPassesTheLimit(space: Space, a: string, b: string, max: int, overlap: int)
    requires Usual(space) && IsWord(space, a) && IsWord(space, b) && a[0] != '#' && b[0] != '#'
    requires |a| <= overlap && |a| <= max && |b| <= max < |a| + 2 + |b|
    ensures SpokenWithin(LineWords(space, [a, "", b]), max)
    ensures FlushedAll(space, Bundles(space, [a, "", b], max, overlap)) == [Chunk(0, "", a), Chunk(1, "", a + "\n\n" + b)]
    ensures !Limited(space, [a, "", b], max, overlap)
  {
    hide LineWords, Paragraphs, Pieces, BundleAll, FlushedAll;
    TwoWordParagraphs(space, a, b);
    TwoWordPieces(space, a, b, max);
    TwoWordBundles(space, a, b, max, overlap);
    ParagraphsSpellTheLines(space, [a, "", b]);
    TwoParagraphWords(space, a, b);
    TwoChunks(space, a, b);
    assert Bundles(space, [a, "", b], max, overlap) == [Bundle("", "", [a]), Bundle("", a, [b])];
    hide Bundles;
    var chunks := FlushedAll(space, Bundles(space, [a, "", b], max, overlap));
    assert chunks[1].text == a + "\n\n" + b;
  }

  lemma {:induction false} TwoParagraphWords(space: Space, a: string, b: string)
    requires IsWord(space, a) && IsWord(space, b)
    ensures ParagraphWords(space, [Paragraph("", a), Paragraph("", b)]) == [Spoken("", a), Spoken("", b)]
  {
    WordIsWord(space, a);
    WordIsWord(space, b);
    hide Words;
    var one, two := Paragraph("", a), Paragraph("", b);
    assert [one][..0] == [] && [one, two][..1] == [one];
    assert [a][..0] == [] && [b][..0] == [];
    assert Under("", [a]) == [Spoken("", a)] && Under("", [b]) == [Spoken("", b)];
    assert ParagraphWords(space, [one]) == [Spoken("", a)];
  }

  lemma {:induction false} TwoChunks(space: Space, a: string, b: string)
    requires IsWord(space, a) && IsWord(space, b)
    ensures FlushedAll(space, [Bundle("", "", [a]), Bundle("", a, [b])]) == [Chunk(0, "", a), Chunk(1, "", a + "\n\n" + b)]
  {
    var first, second := Bundle("", "", [a]), Bundle("", a, [b]);
    assert Current(first) == [a] && Current(second) == [a, b];
    assert [a, b][..1] == [a] && Join([a], "\n\n") == a;
    assert Join([a, b], "\n\n") == a + "\n\n" + b;
    TightStays(space, a);
    TightStays(space, a + "\n\n" + b);
    hide Strip, Join;
    assert [first][..0] == [] && [first, second][..1] == [first];
    assert FlushedAll(space, [first]) == [Chunk(0, "", a)];
  }

  function Repeated(n: nat): (text: string)
    ensures |text| == n && forall i :: 0 <= i < n ==> text[i] == 'x'
  {
    seq(n, i => 'x')
  }

  /** The bound is met, whatever the limit and the overlap: at the shipped 1200 and 150 by a chunk of 1352. */
  lemma {:induction false} BoundIsMet(space: Space, max: int, overlap: int) returns (lines: seq<string>)
    requires Ordinary(space) && max > 0 && overlap > 0
    ensures SpokenWithin(LineWords(space, lines), max) && !Limited(space, lines, max, overlap)
    ensures
      var chunks := FlushedAll(space, Bundles(space, lines, max, overlap));
      |chunks| == 2 && |chunks[1].text| == Bound(max, overlap)
    ensures max == MAX_CHARS && overlap == OVERLAP_CHARS ==> Bound(max, overlap) == 1352
  {
    var a, b := Repeated(if overlap < max then overlap else max), Repeated(max);
    lines := [a, "", b];
    TailPassesTheLimit(space, a, b, max, overlap);
  }

  lemma {:induction false} NothingIsRepeated(space: Space, lines: seq<string>, max: int, overlap: int)
    requires Ordinary(space) && SpokenWithin(LineWords(space, lines), max) && (overlap <= 0 || max <= 0)
    ensures Limited(space, lines, max, overlap)
  {
    var bundles := Bundles(space, lines, max, overlap);
    hide Bundles, Shown, FlushedAll, LineWords, SpokenWithin, TextOf;
    BundlesArePacked(space, lines, max, overlap);
    BundlesAreTight(space, lines, max, overlap);
    ChunksAreShown(space, bundles);
    ShownAreBundles(space, bundles);
    forall i | 0 <= i < |FlushedAll(space, bundles)|
      ensures |FlushedAll(space, bundles)[i].text| <= max
    {
      ChunksAreShort(space, lines, max, overlap, i);
      if overlap > 0 {
        var p := Shown(space, bundles)[i];
        ShownHasPieces(space, p, max, overlap);
        NoSmallPiece(space, p, max, overlap);
      }
    }
  }

  lemma NoSmallPiece(space: Space, p: Bundle, max: int, overlap: int)
    requires Packed(p, max, overlap) && AllTight(space, Current(p)) && p.pieces != []
    ensures max > 0
  {
    assert Current(p)[|Current(p)| - 1] == p.pieces[|p.pieces| - 1];
  }

  /** The docstring's limit holds of every document whose words fit exactly when nothing is ever repeated. */
  lemma {:induction false} LimitHoldsExactlyWhen(space: Space, max: int, overlap: int)
    requires Ordinary(space)
    ensures (forall lines :: SpokenWithin(LineWords(space, lines), max) ==> Limited(space, lines, max, overlap))
            <==> overlap <= 0 || max <= 0
  {
    hide LineWords, SpokenWithin, Limited;
    if overlap <= 0 || max <= 0 {
      forall lines | SpokenWithin(LineWords(space, lines), max)
        ensures Limited(space, lines, max, overlap)
      {
        NothingIsRepeated(space, lines, max, overlap);
      }
    } else {
      var lines := BoundIsMet(space, max, overlap);
    }
  }

  /** Under the same headings a chunk starts with the end of the last piece before it, and otherwise with nothing. */
  predicate Repeats(space: Space, before: Bundle, p: Bundle, overlap: int) {
    p.tail == if before.pieces != [] && before.heading == p.heading
              then Tail(space, before.pieces[|before.pieces| - 1], overlap) else ""
  }

  predicate AllRepeat(space: Space, bundles: seq<Bundle>, overlap: int) {
    && (bundles != [] ==> bundles[0].tail == "")
    && forall i :: 0 < i < |bundles| ==> Repeats(space, bundles[i - 1], bundles[i], overlap)
  }

  lemma {:induction false} BundleOneRepeats(space: Space, k: Bundling, p: Paragraph, max: int, overlap: int)
    requires AllRepeat(space, k.done + [k.last], overlap) && (k.last.tail != "" ==> k.last.pieces != [])
    requires k.last.pieces == [] ==> k.done == []
    ensures var next := BundleOne(space, k, p, max, overlap);
      && AllRepeat(space, next.done + [next.last], overlap)
      && next.last.pieces != []
  {
    hide Tail, TotalLength;
    var was := k.done + [k.last];
    var next := BundleOne(space, k, p, max, overlap);
    var all := next.done + [next.last];
    assert was[|k.done|] == k.last;
    if next.done == k.done {
      var m := |k.done|;
      assert all[m].tail == was[m].tail;
      assert forall i :: 0 <= i < m ==> all[i] == was[i];
    } else {
      assert all == was + [next.last];
    }
  }

  lemma {:induction false} BundlingRepeats(space: Space, pieces: seq<Paragraph>, max: int, overlap: int)
    ensures var k := BundleAll(space, pieces, max, overlap);
      && AllRepeat(space, k.done + [k.last], overlap)
      && (k.last.tail != "" ==> k.last.pieces != []) && (k.last.pieces == [] ==> k.done == [])
  {
    hide BundleOne, Repeats;
    if pieces != [] {
      var n := |pieces| - 1;
      BundlingRepeats(space, pieces[..n], max, overlap);
      BundleOneRepeats(space, BundleAll(space, pieces[..n], max, overlap), pieces[n], max, overlap);
    }
  }

  lemma {:induction false} FirstSpaceIsSpace(text: string)
    ensures FirstSpace(text).Some? ==> FirstSpace(text).value < |text| && text[FirstSpace(text).value] == ' '
  {
    if text != "" && text[0] != ' ' {
      FirstSpaceIsSpace(text[1..]);
    }
  }

  /** A tail spells the last words of the piece it is taken from, none of them cut. */
  lemma {:induction false} TailSpellsTheEnd(space: Space, text: string, overlap: int) returns (k: nat)
    requires Usual(space)
    ensures k <= |Words(space, text)| && Words(space, Tail(space, text, overlap)) == Words(space, text)[k..]
  {
    NoWords(space);
    hide Words, Strip;
    var all := Words(space, text);
    if overlap > 0 && |text| <= overlap {
      k := 0;
    } else if overlap > 0 && FirstSpace(text[|text| - overlap..]).Some? {
      var cut := text[|text| - overlap..];
      FirstSpaceIsSpace(cut);
      var at := |text| - overlap + FirstSpace(cut).value + 1;
      assert cut[FirstSpace(cut).value + 1..] == text[at..];
      StripWords(space, text[at..]);
      WordsConcat(space, text[..at], text[at..]);
      assert text[..at] + text[at..] == text;
      k := |Words(space, text[..at])|;
    } else {
      k := |all|;
    }
  }
}
