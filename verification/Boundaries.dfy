/** Where headings, sentences, pieces, paragraphs and chunks begin and end. */
module Boundaries {
  import opened Wrappers
  import opened Spelling
  import opened Chunker

  ghost predicate Spaces(space: Space, text: string) { forall i :: 0 <= i < |text| ==> space(text[i]) }

  // ---- headings ----------------------------------------------------------------------------------------

  ghost predicate AllHashes(text: string) { forall i :: 0 <= i < |text| ==> text[i] == '#' }

  /** Hashes, white space, a name, and perhaps white space after it. */
  ghost predicate Heads(space: Space, line: string, marks: string, gap: string, name: string, end: string) {
    && line == marks + gap + name + end
    && AllHashes(marks) && 1 <= |marks| <= 6 && gap != "" && Spaces(space, gap) && Tight(space, name) && Spaces(space, end)
  }

  lemma {:induction false} HashesAre(line: string)
    ensures AllHashes(line[..Hashes(line)])
    ensures Hashes(line) < |line| ==> line[Hashes(line)] != '#'
  {
    if line != "" && line[0] == '#' {
      HashesAre(line[1..]);
      assert line == [line[0]] + line[1..];
      assert line[..Hashes(line)] == [line[0]] + line[1..][..Hashes(line[1..])];
    }
  }

  lemma HashesOnly(line: string, marks: string)
    requires marks <= line && AllHashes(marks) && |marks| < |line| && line[|marks|] != '#'
    ensures Hashes(line) == |marks|
  {
    HashesAre(line);
    var n := Hashes(line);
    hide Hashes;
    assert forall i :: 0 <= i < |marks| ==> line[i] == marks[i];
    assert forall i :: 0 <= i < n ==> line[..n][i] == line[i];
  }

  lemma SpelledIsHeading(space: Space, line: string, marks: string, gap: string, name: string, end: string)
    requires !space('#') && Heads(space, line, marks, gap, name, end)
    ensures HeadingOf(space, line) == Some(Heading(|marks|, name))
  {
    assert line[|marks|] == gap[0];
    HashesOnly(line, marks);
    StripAround(space, gap, name, end);
    assert line[|marks|..] == gap + name + end;
    hide Strip, Hashes;
  }

  lemma HeadingIsSpelled(space: Space, line: string, level: nat, name: string)
    returns (marks: string, gap: string, end: string)
    requires HeadingOf(space, line) == Some(Heading(level, name))
    ensures |marks| == level && Heads(space, line, marks, gap, name, end)
  {
    HashesAre(line);
    hide Strip, Hashes;
    marks := line[..level];
    var rest := line[level..];
    gap, end := StripParts(space, rest);
    StripIsTight(space, rest);
    assert line == marks + rest;
    GapIsThere(space, rest, gap, name, end);
  }

  lemma GapIsThere(space: Space, rest: string, gap: string, name: string, end: string)
    requires rest == gap + name + end && rest != "" && space(rest[0]) && Tight(space, name)
    ensures gap != ""
  {
    FirstOfThree(gap, name, end);
  }

  lemma FirstOfThree(gap: string, name: string, end: string)
    requires name != ""
    ensures (gap + name + end)[0] == if gap == "" then name[0] else gap[0]
  {
  }

  /** A line is a heading exactly when it is spelled as one: one to six hashes, white space, and a name. */
  lemma HeadingExactlyWhen(space: Space, line: string, level: nat, name: string)
    requires !space('#')
    ensures HeadingOf(space, line) == Some(Heading(level, name)) <==>
              exists marks, gap, end :: |marks| == level && Heads(space, line, marks, gap, name, end)
  {
    hide *;
    if HeadingOf(space, line) == Some(Heading(level, name)) {
      var marks, gap, end := HeadingIsSpelled(space, line, level, name);
    }
    if marks, gap, end :| |marks| == level && Heads(space, line, marks, gap, name, end) {
      SpelledIsHeading(space, line, marks, gap, name, end);
    }
  }

  // ---- sentences ---------------------------------------------------------------------------------------

  ghost predicate Ends(c: char) { c == '.' || c == '!' || c == '?' }

  /** Sentence `k` lies from `starts[k]` to `ends[k]`; between two there is white space, and before it a mark. */
  ghost predicate Divide(
    space: Space, text: string, sentences: seq<string>, starts: seq<nat>, ends: seq<nat>) {
    && |sentences| == |starts| == |ends| >= 1 && ends[|ends| - 1] == |text|
    && (forall k :: 0 <= k < |starts| ==> Spans(text, sentences[k], starts[k], ends[k]))
    && (forall k :: 0 <= k < |starts| - 1 ==> Break(space, text, ends[k], starts[k + 1]))
  }

  ghost predicate Spans(text: string, sentence: string, start: nat, end: nat) {
    start <= end <= |text| && sentence == text[start..end]
  }

  /** A mark, the longest white space after it. */
  ghost predicate Break(space: Space, text: string, end: nat, next: nat) {
    && 0 < end < next <= |text| && Ends(text[end - 1])
    && (forall p :: end <= p < next ==> space(text[p])) && (next < |text| ==> !space(text[next]))
  }

  /** No mark is followed by white space inside a sentence. */
  ghost predicate Whole(space: Space, text: string, start: nat, end: nat) {
    end <= |text| && forall p :: start < p < end && Ends(text[p - 1]) ==> !space(text[p])
  }

  lemma OneBreakMore(
    space: Space, text: string, sentences: seq<string>, starts: seq<nat>, ends: seq<nat>, from: nat, end: nat)
    requires Divide(space, text, sentences, starts, ends) && from <= end <= |text| && Break(space, text, end, starts[0])
    ensures Divide(space, text, [text[from..end]] + sentences, [from] + starts, [end] + ends)
  {
    assert Spans(text, text[from..end], from, end);
    hide Break, Spans;
    var all, s, e := [text[from..end]] + sentences, [from] + starts, [end] + ends;
    forall k | 0 <= k < |s|
      ensures Spans(text, all[k], s[k], e[k])
    {
      if k > 0 {
        assert Spans(text, sentences[k - 1], starts[k - 1], ends[k - 1]);
      }
    }
    forall k | 0 <= k < |s| - 1
      ensures Break(space, text, e[k], s[k + 1])
    {
      if k > 0 {
        assert Break(space, text, ends[k - 1], starts[k]);
      }
    }
  }

  lemma {:induction false} SentencesAre(space: Space, text: string, from: nat, i: nat)
    returns (starts: seq<nat>, ends: seq<nat>)
    requires Ordinary(space) && from <= i <= |text| && Whole(space, text, from, i)
    requires from == i ==> i == |text| || i == 0 || !space(text[i]) || !Ends(text[i - 1])
    ensures Divide(space, text, Sentences(space, text, from, i), starts, ends) && starts[0] == from
    ensures forall k :: 0 <= k < |starts| ==> Whole(space, text, starts[k], ends[k])
    decreases |text| - i
  {
    hide SpaceEnd, Divide;
    if i == |text| {
      starts, ends := [from], [i];
      assert Divide(space, text, [text[from..]], starts, ends) by { LastSentence(space, text, from); }
    } else if i > 0 && EndsSentence(text[i - 1]) && space(text[i]) {
      var j := SpaceEnd(space, text, i + 1);
      var laterStarts, laterEnds := SentencesAre(space, text, j, j);
      starts, ends := [from] + laterStarts, [i] + laterEnds;
      assert Break(space, text, i, j);
      OneBreakMore(space, text, Sentences(space, text, j, j), laterStarts, laterEnds, from, i);
    } else {
      starts, ends := SentencesAre(space, text, from, i + 1);
    }
  }

  lemma LastSentence(space: Space, text: string, from: nat)
    requires from <= |text|
    ensures Divide(space, text, [text[from..]], [from], [|text|])
  {
  }

  /** A paragraph is cut into sentences exactly behind marks that white space follows. */
  lemma CutBehindMarks(space: Space, text: string) returns (starts: seq<nat>, ends: seq<nat>)
    requires Ordinary(space)
    ensures Divide(space, text, Sentences(space, text, 0, 0), starts, ends) && starts[0] == 0
    ensures forall k :: 0 <= k < |starts| ==> Whole(space, text, starts[k], ends[k])
  {
    starts, ends := SentencesAre(space, text, 0, 0);
  }

  // ---- pieces ------------------------------------------------------------------------------------------

  function Flat(groups: seq<seq<string>>): seq<string> {
    if groups == [] then [] else Flat(groups[..|groups| - 1]) + groups[|groups| - 1]
  }

  /** Each piece joins a run of parts, as many as the limit lets in: the first part of the next does not fit. */
  ghost predicate Packs(pieces: seq<string>, parts: seq<string>, groups: seq<seq<string>>, max: int) {
    && |pieces| == |groups| && Flat(groups) == parts
    && (forall k :: 0 <= k < |groups| ==> groups[k] != [] && pieces[k] == Join(groups[k], " "))
    && (forall k :: 0 <= k < |groups| ==> |pieces[k]| <= max || |groups[k]| == 1)
    && (forall k :: 0 <= k < |groups| - 1 ==> |pieces[k]| + 1 + |groups[k + 1][0]| > max)
  }

  lemma FlatMore(groups: seq<seq<string>>, group: seq<string>)
    ensures Flat(groups + [group]) == Flat(groups) + group
  {
    assert (groups + [group])[..|groups|] == groups;
  }

  lemma JoinMore(texts: seq<string>, text: string)
    requires texts != []
    ensures Join(texts + [text], " ") == Join(texts, " ") + " " + text
  {
    assert (texts + [text])[..|texts|] == texts;
  }

  lemma NewPiece(pieces: seq<string>, parts: seq<string>, groups: seq<seq<string>>, part: string, max: int)
    requires Packs(pieces, parts, groups, max)
    requires pieces != [] ==> |pieces[|pieces| - 1]| + 1 + |part| > max
    ensures Packs(pieces + [part], parts + [part], groups + [[part]], max)
  {
    FlatMore(groups, [part]);
    hide Flat;
    var g := groups + [[part]];
    assert Join([part], " ") == part;
    assert forall k :: 0 <= k < |groups| ==> g[k] == groups[k];
  }

  lemma FullerPiece(pieces: seq<string>, parts: seq<string>, groups: seq<seq<string>>, part: string, max: int)
    requires Packs(pieces, parts, groups, max) && pieces != []
    requires |pieces[|pieces| - 1]| + 1 + |part| <= max
    ensures
      var n := |pieces| - 1;
      Packs(pieces[n := pieces[n] + " " + part], parts + [part], groups[n := groups[n] + [part]], max)
  {
    var n := |pieces| - 1;
    var g, p := groups[n := groups[n] + [part]], pieces[n := pieces[n] + " " + part];
    FlatLonger(groups, part);
    JoinMore(groups[n], part);
    hide Flat, Join;
    assert g[n][0] == groups[n][0];
    assert forall k :: 0 <= k < n ==> g[k] == groups[k] && p[k] == pieces[k];
    assert forall k :: 0 <= k < |groups| ==> groups[k] != [] && g[k] != [] && g[k][0] == groups[k][0];
  }

  lemma FlatLonger(groups: seq<seq<string>>, part: string)
    requires groups != [] && groups[|groups| - 1] != []
    ensures var n := |groups| - 1;
      Flat(groups[n := groups[n] + [part]]) == Flat(groups) + [part]
  {
    var n := |groups| - 1;
    var before, last := groups[..n], groups[n];
    assert groups == before + [last] && groups[n := last + [part]] == before + [last + [part]];
    FlatMore(before, last);
    FlatMore(before, last + [part]);
    hide Flat;
    assert Flat(before) + (last + [part]) == Flat(before) + last + [part];
  }

  lemma NothingPacked(max: int)
    ensures Packs([], [], [], max)
  {
  }

  lemma TightJoined(space: Space, current: string, part: string)
    requires space(' ') && Tight(space, part) && (current == "" || Tight(space, current))
    ensures Strip(space, current + " " + part) == if current == "" then part else current + " " + part
  {
    if current == "" {
      StripAround(space, " ", part, "");
      assert " " + part + "" == current + " " + part;
    } else {
      var text := current + " " + part;
      assert text[0] == current[0] && text[|text| - 1] == part[|part| - 1];
      TightStays(space, text);
    }
  }

  lemma {:induction false} FillPacks(space: Space, parts: seq<string>, max: int) returns (groups: seq<seq<string>>)
    requires space(' ') && AllTight(space, parts)
    ensures Packs(Finish(FillAll(space, Filled([], ""), parts, max)), parts, groups, max)
    ensures parts != [] ==> FillAll(space, Filled([], ""), parts, max).current != ""
  {
    hide Packs, Strip, Tight;
    if parts == [] {
      groups := [];
      NothingPacked(max);
    } else {
      var n := |parts| - 1;
      var f, part := FillAll(space, Filled([], ""), parts[..n], max), parts[n];
      var before := FillPacks(space, parts[..n], max);
      FillIsTight(space, parts[..n], max);
      TightJoined(space, f.current, part);
      assert part != "" by { TightIsSomething(space, part); }
      assert parts == parts[..n] + [part];
      if n == 0 {
        assert parts[..n] == [];
        groups := before + [[part]];
        NewPiece([], [], before, part, max);
      } else if |f.current| + 1 + |part| > max {
        groups := before + [[part]];
        NewPiece(Finish(f), parts[..n], before, part, max);
      } else {
        SameCount(Finish(f), parts[..n], before, max);
        groups := before[|before| - 1 := before[|before| - 1] + [part]];
        FullerPiece(Finish(f), parts[..n], before, part, max);
        assert Finish(f)[|f.pieces| := f.current + " " + part] == f.pieces + [f.current + " " + part];
      }
    }
  }

  lemma SameCount(pieces: seq<string>, parts: seq<string>, groups: seq<seq<string>>, max: int)
    requires Packs(pieces, parts, groups, max)
    ensures |pieces| == |groups|
  {
  }

  lemma TightIsSomething(space: Space, text: string)
    requires Tight(space, text)
    ensures text != ""
  {
  }

  lemma WordsAreTight(space: Space, text: string)
    ensures AllTight(space, Words(space, text))
  {
    WordsAreWords(space, text);
    hide Words;
    var words := Words(space, text);
    forall i | 0 <= i < |words|
      ensures Tight(space, words[i])
    {
      assert IsWord(space, words[i]);
    }
  }

  /** A sentence that is too long is packed word by word, each piece as full as the limit allows. */
  lemma HardSplitPacks(space: Space, text: string, max: int) returns (groups: seq<seq<string>>)
    requires space(' ')
    ensures if |text| <= max then HardSplit(space, text, max) == [text]
            else Packs(HardSplit(space, text, max), Words(space, text), groups, max)
  {
    hide Packs, Words, FillAll;
    WordsAreTight(space, text);
    groups := FillPacks(space, Words(space, text), max);
  }

  /** A paragraph that is too long is packed the same way of its sentences, those too long in pieces themselves. */
  lemma FitPacks(space: Space, paragraph: string, max: int) returns (groups: seq<seq<string>>)
    requires Ordinary(space) && Tight(space, paragraph)
    ensures if |paragraph| <= max then Fit(space, paragraph, max) == [paragraph]
            else Packs(Fit(space, paragraph, max), Parts(space, Sentences(space, paragraph, 0, 0), max), groups, max)
  {
    SentencesAreTight(space, paragraph, 0, 0);
    hide Packs, Parts, Sentences, FillAll, Tight;
    PartsAreTight(space, Sentences(space, paragraph, 0, 0), max);
    groups := FillPacks(space, Parts(space, Sentences(space, paragraph, 0, 0), max), max);
  }

  // ---- paragraphs --------------------------------------------------------------------------------------

  /** A line of text: it says something and is no heading. */
  ghost predicate Plain(space: Space, line: string) { HeadingOf(space, line).None? && Words(space, line) != [] }

  ghost predicate AllPlain(space: Space, lines: seq<string>) {
    forall i :: 0 <= i < |lines| ==> Plain(space, lines[i])
  }

  /** The headings open after these lines, joined. */
  ghost function OpenAt(space: Space, lines: seq<string>): string {
    var headings := Headings(space, lines);
    Join(NamesOf(Chain(headings, |headings|)), " > ")
  }

  lemma ReadOne(space: Space, lines: seq<string>, line: string)
    ensures ReadAll(space, lines + [line]) == ReadLine(space, ReadAll(space, lines), line)
  {
    hide ReadLine;
    assert (lines + [line])[..|lines|] == lines;
  }

  lemma OpenIs(space: Space, lines: seq<string>)
    ensures PathText(ReadAll(space, lines).path) == OpenAt(space, lines)
  {
    hide ReadAll, Join, NamesOf, Chain, Headings;
    StackIsChain(space, lines);
  }

  /** Lines of text wait, one after the other. */
  lemma {:induction false} PlainLinesWait(space: Space, before: seq<string>, run: seq<string>)
    requires AllPlain(space, run)
    ensures
      var r := ReadAll(space, before);
      ReadAll(space, before + run) == r.(buffer := r.buffer + run)
    decreases |run|
  {
    hide Strip, HeadingOf, Words, Emit, ReadAll;
    if run == [] {
      assert before + run == before;
      assert ReadAll(space, before).buffer + [] == ReadAll(space, before).buffer;
    } else {
      var n := |run| - 1;
      assert before + run == (before + run[..n]) + [run[n]];
      PlainLinesWait(space, before, run[..n]);
      ReadOne(space, before + run[..n], run[n]);
      assert Plain(space, run[n]);
      StripIsEmpty(space, run[n]);
      assert ReadAll(space, before).buffer + run == ReadAll(space, before).buffer + run[..n] + [run[n]];
    }
  }

  /** What has been read ends where a run of text ends. */
  ghost predicate Ended(space: Space, lines: seq<string>) {
    lines == [] || !Plain(space, lines[|lines| - 1])
  }

  lemma EndedIsEmpty(space: Space, lines: seq<string>)
    requires Ended(space, lines)
    ensures ReadAll(space, lines).buffer == [] && Paragraphs(space, lines) == ReadAll(space, lines).out
  {
    if lines != [] {
      var n := |lines| - 1;
      StripIsEmpty(space, lines[n]);
      EmitKeepsPath(space, ReadAll(space, lines[..n]));
    }
    hide HeadingOf, Words, ReadAll;
    EmitNothing(space, ReadAll(space, lines));
  }

  lemma EmitNothing(space: Space, r: Reading)
    ensures r.buffer == [] ==> Emit(space, r) == r
  {
    assert Join(Stripped(space, []), " ") == "";
    NoWords(space);
    StripIsEmpty(space, "");
    hide Strip, Join, Stripped;
  }

  /** The lines of a run, each stripped, joined and stripped. */
  ghost function RunText(space: Space, run: seq<string>): string { Strip(space, Join(Stripped(space, run), " ")) }

  lemma {:induction false} RunSaysSomething(space: Space, run: seq<string>)
    requires Usual(space) && run != [] && AllPlain(space, run)
    ensures RunText(space, run) != ""
  {
    hide Strip, Words, Join, Stripped, AllOf, HeadingOf;
    var n := |run| - 1;
    JoinWords(space, Stripped(space, run), " ");
    StrippedWords(space, run);
    StripIsEmpty(space, Join(Stripped(space, run), " "));
    assert Plain(space, run[n]);
    assert run == run[..n] + [run[n]];
    AllOfMore(space, run[..n], run[n]);
  }

  /** A longest run of lines of text is one paragraph, under the headings open before it; the line that ends it, blank
      or a heading, adds none. */
  lemma RunIsOneParagraph(space: Space, before: seq<string>, run: seq<string>, end: seq<string>)
    requires Usual(space) && Ended(space, before) && run != [] && AllPlain(space, run)
    requires |end| <= 1 && (end != [] ==> !Plain(space, end[0]))
    ensures Paragraphs(space, before + run + end)
         == Paragraphs(space, before) + [Paragraph(OpenAt(space, before), RunText(space, run))]
  {
    hide *;
    EndedIsEmpty(space, before);
    PlainLinesWait(space, before, run);
    OpenIs(space, before);
    RunSaysSomething(space, run);
    var r, waiting := ReadAll(space, before), ReadAll(space, before + run);
    assert waiting == r.(buffer := run) by {
      assert [] + run == run;
    }
    RunEmitted(space, waiting);
    ParagraphsIs(space, before + run + end);
    if end == [] {
      assert before + run + end == before + run;
    } else {
      ReadOne(space, before + run, end[0]);
      assert before + run + end == (before + run) + [end[0]];
      NoTextEnds(space, waiting, end[0]);
      EmitNothing(space, ReadLine(space, waiting, end[0]));
    }
  }

  lemma RunEmitted(space: Space, r: Reading)
    requires RunText(space, r.buffer) != ""
    ensures Emit(space, r).out == r.out + [Paragraph(PathText(r.path), RunText(space, r.buffer))]
  {
    hide Strip, Join, Stripped, PathText;
  }

  lemma NoTextEnds(space: Space, r: Reading, line: string)
    requires !Plain(space, line)
    ensures ReadLine(space, r, line).out == Emit(space, r).out && ReadLine(space, r, line).buffer == []
  {
    StripIsEmpty(space, line);
    EmitKeepsPath(space, r);
    hide Emit, Strip, Words, HeadingOf;
  }

  /** A blank line or a heading after no text adds no paragraph. */
  lemma NoTextAddsNothing(space: Space, before: seq<string>, line: string)
    requires Ended(space, before) && !Plain(space, line)
    ensures Paragraphs(space, before + [line]) == Paragraphs(space, before)
  {
    EndedIsEmpty(space, before);
    ReadOne(space, before, line);
    NoTextEnds(space, ReadAll(space, before), line);
    EmitNothing(space, ReadAll(space, before));
    EmitNothing(space, ReadLine(space, ReadAll(space, before), line));
    hide ReadAll, ReadLine, HeadingOf, Words;
  }

  // ---- chunks ------------------------------------------------------------------------------------------

  /** Two chunks in a row: the headings differ, or the next piece does not fit behind the first. */
  ghost predicate StartsAnew(a: Bundle, b: Bundle, max: int) {
    b.pieces != [] && (a.heading == b.heading ==> |Join(Current(a), "\n\n")| + 2 + |b.pieces[0]| > max)
  }

  ghost predicate AllStartAnew(bundles: seq<Bundle>, max: int) {
    forall i :: 0 < i < |bundles| ==> StartsAnew(bundles[i - 1], bundles[i], max)
  }

  lemma SizeIsLength(texts: seq<string>)
    requires texts != []
    ensures TotalLength(texts) + 2 * |texts| == |Join(texts, "\n\n")| + 2
  {
    JoinLength(texts, "\n\n");
  }

  lemma OneBundleMore(space: Space, k: Bundling, p: Paragraph, max: int, overlap: int)
    requires AllStartAnew(k.done + [k.last], max) && (k.last.pieces == [] ==> k.done == [] && k.last.tail == "")
    requires k.done != [] ==> k.done[0].pieces != []
    ensures var next := BundleOne(space, k, p, max, overlap);
      AllStartAnew(next.done + [next.last], max) && next.last.pieces != []
      && (next.done != [] ==> next.done[0].pieces != [])
  {
    hide Tail, Join;
    var was, next := k.done + [k.last], BundleOne(space, k, p, max, overlap);
    var all, current := next.done + [next.last], Current(k.last);
    if current != [] {
      SizeIsLength(current);
    }
    hide TotalLength;
    if next.done == k.done {
      var m := |k.done|;
      assert all[m].pieces == was[m].pieces + [p.text];
      assert forall i :: 0 <= i < m ==> all[i] == was[i];
      if m > 0 {
        assert StartsAnew(was[m - 1], was[m], max);
      }
    } else {
      assert all == was + [next.last];
    }
  }

  lemma {:induction false} BundlesStartAnew(space: Space, pieces: seq<Paragraph>, max: int, overlap: int)
    ensures var k := BundleAll(space, pieces, max, overlap);
      && AllStartAnew(k.done + [k.last], max)
      && (k.last.pieces == [] ==> k.done == [] && k.last.tail == "")
      && (k.done != [] ==> k.done[0].pieces != [])
  {
    hide BundleOne, StartsAnew;
    if pieces != [] {
      var n := |pieces| - 1;
      BundlesStartAnew(space, pieces[..n], max, overlap);
      OneBundleMore(space, BundleAll(space, pieces[..n], max, overlap), pieces[n], max, overlap);
    }
  }

  /** The chunks of a document: each is what it repeats and its own pieces, a blank line between each two, under its
      headings; a new one starts exactly where the headings change or the next piece does not fit. */
  lemma ChunksStartAnew(space: Space, lines: seq<string>, max: int, overlap: int, i: nat)
    requires Ordinary(space) && i < |FlushedAll(space, Bundles(space, lines, max, overlap))|
    ensures
      var chunks, bundles := FlushedAll(space, Bundles(space, lines, max, overlap)), Bundles(space, lines, max, overlap);
      && |bundles| == |chunks|
      && chunks[i]
         == Chunk(i, bundles[i].heading,
                  Join((if bundles[i].tail == "" then [] else [bundles[i].tail]) + bundles[i].pieces, "\n\n"))
      && AllStartAnew(bundles, max) && AllRepeat(space, bundles, overlap)
  {
    hide *;
    var bundles, pieces := Bundles(space, lines, max, overlap), Pieces(space, Paragraphs(space, lines), max);
    BundlesAre(space, lines, max, overlap);
    BundlesAreTight(space, lines, max, overlap);
    BundlesStartAnew(space, pieces, max, overlap);
    BundlingRepeats(space, pieces, max, overlap);
    ChunksAreShown(space, bundles);
    SomethingShown(space, bundles, max);
    EachTight(space, bundles, i);
    CurrentText(space, bundles[i]);
  }

  lemma EachTight(space: Space, bundles: seq<Bundle>, i: nat)
    requires AllMadeTight(space, bundles) && i < |bundles|
    ensures AllTight(space, Current(bundles[i]))
  {
  }

  lemma NothingShown(space: Space, bundles: seq<Bundle>)
    requires |bundles| == 1 && bundles[0].pieces == [] && bundles[0].tail == ""
    ensures Shown(space, bundles) == []
  {
    assert Join(Current(bundles[0]), "\n\n") == "";
    NoWords(space);
    StripIsEmpty(space, "");
    assert bundles[..0] == [];
  }

  lemma BundlesAre(space: Space, lines: seq<string>, max: int, overlap: int)
    ensures
      var k := BundleAll(space, Pieces(space, Paragraphs(space, lines), max), max, overlap);
      && Bundles(space, lines, max, overlap) == k.done + [k.last]
      && Bundles(space, lines, max, overlap)[0] == if k.done == [] then k.last else k.done[0]
  {
    hide Pieces, Paragraphs, BundleAll;
  }

  /** Where anything is shown at all, every bundle is. */
  lemma SomethingShown(space: Space, bundles: seq<Bundle>, max: int)
    requires AllStartAnew(bundles, max) && AllMadeTight(space, bundles) && bundles != [] && Shown(space, bundles) != []
    requires bundles[0].pieces == [] ==> |bundles| == 1 && bundles[0].tail == ""
    ensures Shown(space, bundles) == bundles && forall i :: 0 <= i < |bundles| ==> Current(bundles[i]) != []
  {
    hide *;
    if bundles[0].pieces == [] {
      NothingShown(space, bundles);
    } else {
      forall i | 0 <= i < |bundles|
        ensures Current(bundles[i]) != []
      {
        HasCurrent(bundles, max, i);
      }
      AllShown(space, bundles);
    }
  }

  lemma HasCurrent(bundles: seq<Bundle>, max: int, i: nat)
    requires AllStartAnew(bundles, max) && i < |bundles| && bundles[0].pieces != []
    ensures Current(bundles[i]) != []
  {
    if i > 0 {
      assert StartsAnew(bundles[i - 1], bundles[i], max);
    }
    hide Join;
  }

  lemma {:induction false} AllShown(space: Space, bundles: seq<Bundle>)
    requires AllMadeTight(space, bundles) && forall i :: 0 <= i < |bundles| ==> Current(bundles[i]) != []
    ensures Shown(space, bundles) == bundles
  {
    hide TextOf, Current, Tight;
    if bundles != [] {
      var n := |bundles| - 1;
      AllShown(space, bundles[..n]);
      assert AllTight(space, Current(bundles[n]));
      SomeText(space, bundles[n]);
      assert bundles == bundles[..n] + [bundles[n]];
    }
  }

  lemma SomeText(space: Space, p: Bundle)
    requires AllTight(space, Current(p)) && Current(p) != []
    ensures TextOf(space, p) != ""
  {
    hide Strip, Join;
    JoinIsTight(space, Current(p), "\n\n");
    TightStays(space, Join(Current(p), "\n\n"));
  }

  lemma CurrentText(space: Space, p: Bundle)
    requires AllTight(space, Current(p)) && Current(p) != []
    ensures TextOf(space, p) == Join((if p.tail == "" then [] else [p.tail]) + p.pieces, "\n\n")
  {
    hide Strip, Join, Tight;
    JoinIsTight(space, Current(p), "\n\n");
    TightStays(space, Join(Current(p), "\n\n"));
  }

  // ---- tails -------------------------------------------------------------------------------------------

  lemma {:induction false} FirstSpaceAt(before: string, after: string)
    requires ' ' !in before
    ensures FirstSpace(before + " " + after) == Some(|before|)
  {
    var text := before + " " + after;
    if before == "" {
      assert text[0] == ' ';
    } else {
      assert text[0] == before[0] && before[0] in before;
      assert text[1..] == before[1..] + " " + after;
      assert forall c <- before[1..] :: c in before;
      FirstSpaceAt(before[1..], after);
    }
  }

  lemma {:induction false} NoFirstSpace(text: string)
    requires ' ' !in text
    ensures FirstSpace(text).None?
  {
    if text != "" {
      assert text[0] in text && forall c <- text[1..] :: c in text;
      NoFirstSpace(text[1..]);
    }
  }

  /** The tail of a short piece is the piece; of a longer one what follows the first space in its last characters, as
      many as may overlap, and nothing when there is none. */
  lemma TailIsAfterTheFirstSpace(space: Space, text: string, overlap: int, start: string, word: string, rest: string)
    requires overlap > 0 && ' ' !in word
    ensures |text| <= overlap ==> Tail(space, text, overlap) == text
    ensures text == start + word + " " + rest && start != "" && |word| + 1 + |rest| == overlap ==>
              Tail(space, text, overlap) == Strip(space, rest)
    ensures text == start + word && start != "" && |word| == overlap ==> Tail(space, text, overlap) == ""
  {
    hide Strip, FirstSpace;
    if text == start + word + " " + rest && start != "" && |word| + 1 + |rest| == overlap {
      FirstSpaceAt(word, rest);
      assert text[|text| - overlap..] == word + " " + rest;
      assert (word + " " + rest)[|word| + 1..] == rest;
    }
    if text == start + word && start != "" && |word| == overlap {
      NoFirstSpace(word);
      assert text[|text| - overlap..] == word;
    }
  }
}
