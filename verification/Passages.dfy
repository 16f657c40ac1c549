/** Exact spans of an original's extracted pages or chapters: overlapping windows, locators that find their text
    again, and the archive's check of them. Offsets count characters. */
module Passages {
  import opened Wrappers

  const MAX_CHARS := 1200
  const OVERLAP := 150

  /** A page or a chapter, with what its format says about it. */
  datatype Unit = Unit(text: string, caption: string, page: Option<int>, href: Option<string>)

  datatype Original = Original(version: string, format: string, units: seq<Unit>)

  datatype Locator = Locator(
    version: string, format: string, unit: int, start: int, end: int, caption: string, page: Option<int>,
    href: Option<string>, passage: string)

  datatype Chunk = Chunk(position: nat, heading: string, text: string, locator: Locator)

  /** What this model does not look into: white space, and the digests that name an original and a passage. */
  datatype Rules = Rules(space: char -> bool, version: seq<Unit> -> string, passage: Locator -> string)

  /** A digest is written as sixty-four hexadecimal digits. */
  ghost predicate Digests(rules: Rules) {
    && (forall units: seq<Unit> :: |rules.version(units)| == 64)
    && (forall l: Locator :: |rules.passage(l)| == 64)
  }

  // ---- taking an original in ---------------------------------------------------------------------------

  /** A page or a chapter as it is offered; nothing where the type is wrong. */
  datatype Offered = Offered(text: Option<string>, caption: string, page: Option<int>, href: Option<string>)

  function Parts(path: string): (parts: seq<string>)
    ensures |parts| >= 1
  {
    if path == [] then [""]
    else
      var rest := Parts(path[1..]);
      if path[0] == '/' then [""] + rest else [[path[0]] + rest[0]] + rest[1..]
  }

  predicate SafeHref(href: string) {
    && href != "" && |href| <= 2000 && href[0] != '/' && ".." !in Parts(href)
    && forall i :: 0 <= i < |href| ==> href[i] != ':' && href[i] != '\\'
  }

  function Shortened(caption: string): string { if |caption| > 300 then caption[..300] else caption }

  predicate GoodUnit(format: string, i: nat, o: Offered) {
    && o.text.Some? && (forall k :: 0 <= k < |o.text.value| ==> o.text.value[k] != '\0')
    && if format == "pdf" then o.page == Some(i + 1) else o.href.Some? && SafeHref(o.href.value)
  }

  function Taken(format: string, i: nat, o: Offered): Unit
    requires o.text.Some?
  {
    if format == "pdf" then Unit(o.text.value, Shortened(o.caption), Some(i + 1), None)
    else Unit(o.text.value, Shortened(o.caption), None, o.href)
  }

  predicate GoodUnits(format: string, units: seq<Offered>) {
    0 < |units| <= 5000 && forall i :: 0 <= i < |units| ==> GoodUnit(format, i, units[i])
  }

  function TakenAll(format: string, units: seq<Offered>): seq<Unit>
    requires forall i :: 0 <= i < |units| ==> units[i].text.Some?
  {
    seq(|units|, i requires 0 <= i < |units| => Taken(format, i, units[i]))
  }

  /** A unit keeps its text, the first three hundred characters of its caption, and its page or its chapter. */
  ghost predicate TakenAs(format: string, i: nat, o: Offered, u: Unit) {
    && o.text == Some(u.text) && u.caption <= o.caption && (u.caption == o.caption || |u.caption| == 300)
    && |u.caption| <= 300
    && if format == "pdf" then u.page == Some(i + 1) && u.href == None else u.page == None && u.href == o.href
  }

  /** A relative path of at most 2000 characters without a scheme, a backslash or a step up. */
  ghost predicate StaysInside(href: string) {
    && 1 <= |href| <= 2000 && href[0] != '/' && ':' !in href && '\\' !in href
    && !exists a, b :: StepsUp(href, a, b)
  }

  /** Two dots stand alone between these two parts of a path. */
  ghost predicate StepsUp(href: string, a: string, b: string) {
    href == a + ".." + b && (a == "" || a[|a| - 1] == '/') && (b == "" || b[0] == '/')
  }

  lemma PartsStep(c: char, t: string)
    ensures Parts([c] + t) == if c == '/' then [""] + Parts(t) else [[c] + Parts(t)[0]] + Parts(t)[1..]
  {
    assert ([c] + t)[1..] == t;
  }

  lemma {:induction false} PartsConcat(a: string, s: string)
    ensures Parts(a + (['/'] + s)) == Parts(a) + Parts(s)
  {
    hide *;
    if a == "" {
      PartsStep('/', s);
      NoParts();
      assert a + (['/'] + s) == ['/'] + s;
    } else {
      var c, b := a[0], a[1..];
      var t, u, v := b + (['/'] + s), Parts(b), Parts(s);
      assert a == [c] + b;
      assert a + (['/'] + s) == [c] + t;
      PartsConcat(b, s);
      PartsStep(c, b);
      PartsStep(c, t);
      FirstOfTwo(c, u, v);
    }
  }

  lemma NoParts()
    ensures Parts("") == [""]
  {
  }

  lemma FirstOfTwo(c: char, u: seq<string>, v: seq<string>)
    requires u != []
    ensures [""] + (u + v) == ([""] + u) + v
    ensures [[c] + (u + v)[0]] + (u + v)[1..] == ([[c] + u[0]] + u[1..]) + v
  {
  }

  lemma {:induction false} PartsWhole(p: string)
    requires '/' !in p
    ensures Parts(p) == [p]
  {
    if p != "" {
      assert p[0] in p && forall c <- p[1..] :: c in p;
      PartsWhole(p[1..]);
      assert [p[0]] + p[1..] == p;
    }
  }

  /** Where a part of a path stands. */
  lemma {:induction false} PartStands(path: string, k: nat) returns (a: string, b: string)
    requires k < |Parts(path)|
    ensures path == a + Parts(path)[k] + b && (b == "" || b[0] == '/')
    ensures if k == 0 then a == "" else a != "" && a[|a| - 1] == '/'
  {
    if path == "" {
      a, b := "", "";
    } else if path[0] == '/' && k == 0 {
      a, b := "", path;
    } else if path[0] == '/' {
      a, b := PartStands(path[1..], k - 1);
      a := "/" + a;
      assert path == "/" + path[1..];
    } else {
      a, b := PartStands(path[1..], k);
      assert path == [path[0]] + path[1..];
      if k > 0 {
        a := [path[0]] + a;
      }
    }
  }

  lemma StepIsPart(href: string, a: string, b: string)
    requires StepsUp(href, a, b)
    ensures ".." in Parts(href)
  {
    PartsWhole("..");
    var rest := ".." + b;
    assert Parts(rest)[0] == ".." by {
      if b != "" {
        assert rest == ".." + (['/'] + b[1..]);
        PartsConcat("..", b[1..]);
      } else {
        assert rest == "..";
      }
    }
    if a != "" {
      var before := a[..|a| - 1];
      assert href == before + (['/'] + rest);
      PartsConcat(before, rest);
      assert Parts(href)[|Parts(before)|] == "..";
    } else {
      assert href == rest;
    }
  }

  lemma SafeExactlyWhenInside(href: string)
    ensures SafeHref(href) <==> StaysInside(href)
  {
    hide Parts, StepsUp;
    if ".." in Parts(href) {
      var k :| 0 <= k < |Parts(href)| && Parts(href)[k] == "..";
      var a, b := PartStands(href, k);
      assert StepsUp(href, a, b) by { StepIs(href, a, b); }
    } else if a, b :| StepsUp(href, a, b) {
      StepIsPart(href, a, b);
    }
    assert forall i :: 0 <= i < |href| ==> href[i] in href;
  }

  lemma StepIs(href: string, a: string, b: string)
    requires href == a + ".." + b && (a == "" || a[|a| - 1] == '/') && (b == "" || b[0] == '/')
    ensures StepsUp(href, a, b)
  {
  }

  method OriginalSource(rules: Rules, format: string, units: seq<Offered>) returns (r: Option<Original>)
    ensures r.Some? <==> (format == "pdf" || format == "epub") && GoodUnits(format, units)
    ensures r.Some? <==>
              && (format == "pdf" || format == "epub") && 1 <= |units| <= 5000
              && forall i :: 0 <= i < |units| ==>
                   && units[i].text.Some? && '\0' !in units[i].text.value
                   && (format == "pdf" ==> units[i].page == Some(i + 1))
                   && (format == "epub" ==> units[i].href.Some? && StaysInside(units[i].href.value))
    ensures r.Some? ==>
              && |r.value.units| == |units|
              && forall i :: 0 <= i < |units| ==> TakenAs(format, i, units[i], r.value.units[i])
    ensures r.Some? ==> r.value.format == format && r.value.units == TakenAll(format, units)
                        && r.value.version == rules.version(r.value.units)
  {
    hide StaysInside;
    forall href ensures SafeHref(href) <==> StaysInside(href) {
      SafeExactlyWhenInside(href);
    }
    hide SafeHref;
    if format != "pdf" && format != "epub" {
      return None;
    }
    if |units| == 0 || |units| > 5000 {
      return None;
    }
    var checked: seq<Unit> := [];
    for i := 0 to |units|
      invariant forall j :: 0 <= j < i ==> GoodUnit(format, j, units[j])
      invariant |checked| == i && forall j :: 0 <= j < i ==> checked[j] == Taken(format, j, units[j])
    {
      var good := CheckUnit(format, i, units[i]);
      if !good {
        return None;
      }
      checked := checked + [Taken(format, i, units[i])];
    }
    assert checked == TakenAll(format, units);
    return Some(Original(rules.version(checked), format, checked));
  }

  method CheckUnit(format: string, i: nat, o: Offered) returns (good: bool)
    ensures good == GoodUnit(format, i, o)
  {
    if o.text.None? || '\0' in o.text.value {
      return false;
    }
    if format == "pdf" {
      return o.page == Some(i + 1);
    }
    if o.href.None? {
      return false;
    }
    return SafeHref(o.href.value);
  }

  // ---- windows -----------------------------------------------------------------------------------------

  datatype Window = Window(start: nat, end: nat)

  /** The last space in `text[lo..hi]`. */
  function LastSpace(text: string, lo: nat, hi: nat): (r: Option<nat>)
    requires lo <= hi <= |text|
    ensures r.Some? ==> lo <= r.value < hi && text[r.value] == ' '
    ensures forall k :: (if r.Some? then r.value + 1 else lo) <= k < hi ==> text[k] != ' '
  {
    if lo == hi then None
    else if text[hi - 1] == ' ' then Some(hi - 1)
    else LastSpace(text, lo, hi - 1)
  }

  function WindowEnd(text: string, start: nat): (end: nat)
    requires start < |text|
    ensures start < end <= |text| && end <= start + MAX_CHARS
    ensures end < |text| ==> end >= start + MAX_CHARS / 2
  {
    if start + MAX_CHARS >= |text| then |text|
    else
      match LastSpace(text, start + MAX_CHARS / 2, start + MAX_CHARS)
      case Some(boundary) => boundary
      case None => start + MAX_CHARS
  }

  function NextStart(start: nat, end: nat): (next: nat)
    ensures next > start
  {
    if end - OVERLAP > start + 1 then end - OVERLAP else start + 1
  }

  predicate FitsIn(text: string, w: Window) {
    w.start < w.end <= |text| && w.end - w.start <= 1200
  }

  function Windows(text: string, start: nat): (ws: seq<Window>)
    ensures forall i :: 0 <= i < |ws| ==> FitsIn(text, ws[i])
    decreases |text| - start, 1
  {
    if start >= |text| then []
    else
      var end := WindowEnd(text, start);
      [Window(start, end)] + WindowsAfter(text, start, end)
  }

  function WindowsAfter(text: string, start: nat, end: nat): (ws: seq<Window>)
    requires start < end <= |text|
    ensures forall i :: 0 <= i < |ws| ==> FitsIn(text, ws[i])
    decreases |text| - start, 0
  {
    if end == |text| then [] else Windows(text, NextStart(start, end))
  }

  /** How a window leads to the next: it ends at the last space of its second half, or is of full length where
      there is none, and the next one starts 150 characters before that end. */
  predicate Leads(text: string, a: Window, b: Window) {
    && a.end < |text| && b.start + 150 == a.end && a.start + 600 <= a.end <= a.start + 1200
    && (text[a.end] == ' ' || a.end == a.start + 1200)
    && (forall k :: a.end < k < a.start + 1200 && k < |text| ==> text[k] != ' ')
    && (text[a.end] != ' ' ==> forall k :: a.start + 600 <= k < a.end ==> text[k] != ' ')
  }

  /** The windows cover the text without gaps, each at most 1200 characters long, and move on by at least 450. */
  lemma {:induction false} WindowsCover(text: string, start: nat)
    requires start < |text|
    ensures
      var ws := Windows(text, start);
      && |ws| >= 1 && ws[0].start == start && ws[|ws| - 1].end == |text|
      && (forall i :: 0 <= i < |ws| ==> FitsIn(text, ws[i]))
      && (forall i :: 0 <= i < |ws| - 1 ==> Leads(text, ws[i], ws[i + 1]) && ws[i].start + 450 <= ws[i + 1].start)
    decreases |text| - start
  {
    var end := WindowEnd(text, start);
    if end < |text| {
      WindowsCover(text, NextStart(start, end));
    }
  }

  lemma {:induction false} CoveredFrom(text: string, start: nat, k: nat) returns (i: nat)
    requires start <= k < |text|
    ensures i < |Windows(text, start)| && Windows(text, start)[i].start <= k < Windows(text, start)[i].end
    decreases |text| - start
  {
    var end := WindowEnd(text, start);
    if k < end {
      i := 0;
    } else {
      var later := CoveredFrom(text, NextStart(start, end), k);
      i := later + 1;
    }
  }

  // ---- chunks ------------------------------------------------------------------------------------------

  predicate Blank(rules: Rules, text: string) {
    forall i :: 0 <= i < |text| ==> rules.space(text[i])
  }

  function LocatorOf(rules: Rules, o: Original, index: nat, w: Window): Locator
    requires index < |o.units|
  {
    var u := o.units[index];
    var l := Locator(o.version, o.format, index, w.start, w.end, u.caption, u.page, u.href, "");
    l.(passage := rules.passage(l))
  }

  function PassageOf(rules: Rules, o: Original, index: nat, w: Window, position: nat): Chunk
    requires index < |o.units| && FitsIn(o.units[index].text, w)
  {
    Chunk(position, o.units[index].caption, o.units[index].text[w.start..w.end], LocatorOf(rules, o, index, w))
  }

  /** The chunks so far, and one more for every window that shows something. */
  function AddWindows(rules: Rules, o: Original, index: nat, ws: seq<Window>, chunks: seq<Chunk>): seq<Chunk>
    requires index < |o.units| && forall i :: 0 <= i < |ws| ==> FitsIn(o.units[index].text, ws[i])
  {
    if ws == [] then chunks
    else
      assert FitsIn(o.units[index].text, ws[0]);
      AddWindows(rules, o, index, ws[1..],
                 if Blank(rules, o.units[index].text[ws[0].start..ws[0].end]) then chunks
                 else chunks + [PassageOf(rules, o, index, ws[0], |chunks|)])
  }

  /** The chunks of the first `n` units. */
  function ChunksOf(rules: Rules, o: Original, n: nat): seq<Chunk>
    requires n <= |o.units|
  {
    if n == 0 then [] else AddWindows(rules, o, n - 1, Windows(o.units[n - 1].text, 0), ChunksOf(rules, o, n - 1))
  }

  /** The window at `start` first, then those after it. */
  lemma AddFirst(rules: Rules, o: Original, index: nat, start: nat, chunks: seq<Chunk>)
    requires index < |o.units| && start < |o.units[index].text|
    ensures
      var text := o.units[index].text;
      var end := WindowEnd(text, start);
      AddWindows(rules, o, index, Windows(text, start), chunks)
      == AddWindows(rules, o, index, WindowsAfter(text, start, end),
                    if Blank(rules, text[start..end]) then chunks
                    else chunks + [PassageOf(rules, o, index, Window(start, end), |chunks|)])
  {
    hide Blank, PassageOf, WindowEnd, WindowsAfter;
    var text := o.units[index].text;
    assert Windows(text, start)[0] == Window(start, WindowEnd(text, start));
    assert Windows(text, start)[1..] == WindowsAfter(text, start, WindowEnd(text, start));
  }

  lemma AddNone(rules: Rules, o: Original, index: nat, start: nat, chunks: seq<Chunk>)
    requires index < |o.units|
    ensures AddWindows(rules, o, index, [], chunks) == chunks
    ensures start >= |o.units[index].text| ==> Windows(o.units[index].text, start) == []
  {
  }

  method SourceChunks(rules: Rules, o: Original) returns (chunks: seq<Chunk>)
    ensures chunks == ChunksOf(rules, o, |o.units|)
  {
    hide Blank, AddWindows, Windows, LocatorOf;
    chunks := [];
    for index := 0 to |o.units|
      invariant chunks == ChunksOf(rules, o, index)
    {
      ghost var before := chunks;
      var text := o.units[index].text;
      var start := 0;
      while start < |text|
        invariant 0 <= start
        invariant AddWindows(rules, o, index, Windows(text, start), chunks)
                  == AddWindows(rules, o, index, Windows(text, 0), before)
        decreases |text| - start
      {
        var end := if start + MAX_CHARS < |text| then start + MAX_CHARS else |text|;
        if end < |text| {
          var boundary := LastSpace(text, start + MAX_CHARS / 2, end);
          if boundary.Some? && boundary.value > start {
            end := boundary.value;
          }
        }
        assert end == WindowEnd(text, start);
        AddFirst(rules, o, index, start, chunks);
        hide WindowEnd;
        if !Blank(rules, text[start..end]) {
          chunks := chunks + [Chunk(|chunks|, o.units[index].caption, text[start..end], LocatorOf(rules, o, index, Window(start, end)))];
        }
        if end == |text| {
          AddNone(rules, o, index, start, chunks);
          break;
        }
        start := if start + 1 > end - OVERLAP then start + 1 else end - OVERLAP;
      }
      AddNone(rules, o, index, start, chunks);
    }
  }

  // ---- locators ----------------------------------------------------------------------------------------

  datatype Resolution = Unavailable | Unresolved | Resolved(unit: int, start: int, end: int)

  /** The locator is of this original, of a unit it has, of text that unit has, and of that page or chapter. */
  ghost predicate PointsInto(o: Original, l: Locator) {
    && (l.version, l.format) == (o.version, o.format)
    && exists u :: 0 <= l.unit < |o.units| && u == o.units[l.unit]
         && l.end <= |u.text| && 0 <= l.start && l.start < l.end
         && u.page in {None, l.page} && u.href in {None, l.href}
  }

  /** A locator that is not a record of the right types is `None`. */
  method Resolve(original: Option<Original>, locator: Option<Locator>) returns (r: Resolution)
    ensures r == ResolutionOf(original, locator)
    ensures r.Unavailable? <==> original.None?
    ensures r.Resolved? <==> original.Some? && locator.Some? && PointsInto(original.value, locator.value)
    ensures r.Resolved? ==> r == Resolved(locator.value.unit, locator.value.start, locator.value.end)
  {
    if original.None? {
      return Unavailable;
    }
    if locator.None? {
      return Unresolved;
    }
    var o, l := original.value, locator.value;
    if l.version != o.version || l.format != o.format || l.unit < 0 {
      return Unresolved;
    }
    if l.unit >= |o.units| {
      return Unresolved;
    }
    var u := o.units[l.unit];
    if !(0 <= l.start < l.end <= |u.text|) {
      return Unresolved;
    }
    if (u.page.Some? && l.page != u.page) || (u.href.Some? && l.href != u.href) {
      return Unresolved;
    }
    return Resolved(l.unit, l.start, l.end);
  }

  predicate Names(o: Original, l: Locator) {
    && l.version == o.version && l.format == o.format && 0 <= l.unit < |o.units|
    && 0 <= l.start < l.end <= |o.units[l.unit].text|
    && (o.units[l.unit].page.Some? ==> l.page == o.units[l.unit].page)
    && (o.units[l.unit].href.Some? ==> l.href == o.units[l.unit].href)
  }

  function ResolutionOf(original: Option<Original>, locator: Option<Locator>): Resolution {
    match (original, locator)
    case (None, _) => Unavailable
    case (Some(o), Some(l)) => if Names(o, l) then Resolved(l.unit, l.start, l.end) else Unresolved
    case _ => Unresolved
  }

  /** The text a resolved locator stands for. */
  function TextAt(o: Original, r: Resolution): string
    requires r.Resolved? && 0 <= r.unit < |o.units| && 0 <= r.start <= r.end <= |o.units[r.unit].text|
  {
    o.units[r.unit].text[r.start..r.end]
  }

  /** A chunk made of this window of this unit. */
  predicate MadeOf(rules: Rules, o: Original, c: Chunk, index: nat, w: Window) {
    && index < |o.units| && FitsIn(o.units[index].text, w) && c.locator == LocatorOf(rules, o, index, w)
    && c.text == o.units[index].text[w.start..w.end] && c.heading == o.units[index].caption && !Blank(rules, c.text)
  }

  ghost predicate Made(rules: Rules, o: Original, c: Chunk) {
    exists index: nat, w: Window :: MadeOf(rules, o, c, index, w)
  }

  /** Numbered from 0 on, each made of some window. */
  ghost predicate AllMade(rules: Rules, o: Original, chunks: seq<Chunk>) {
    forall i :: 0 <= i < |chunks| ==> Made(rules, o, chunks[i]) && chunks[i].position == i
  }

  lemma {:induction false} AddedAreMade(rules: Rules, o: Original, index: nat, ws: seq<Window>, chunks: seq<Chunk>)
    requires index < |o.units| && forall i :: 0 <= i < |ws| ==> FitsIn(o.units[index].text, ws[i])
    requires AllMade(rules, o, chunks)
    ensures AllMade(rules, o, AddWindows(rules, o, index, ws, chunks))
    decreases |ws|
  {
    hide Made, LocatorOf, Blank;
    if ws != [] {
      assert FitsIn(o.units[index].text, ws[0]);
      var text := o.units[index].text[ws[0].start..ws[0].end];
      if !Blank(rules, text) {
        var c := PassageOf(rules, o, index, ws[0], |chunks|);
        MadeWitness(rules, o, c, index, ws[0]);
        AddedAreMade(rules, o, index, ws[1..], chunks + [c]);
      } else {
        AddedAreMade(rules, o, index, ws[1..], chunks);
      }
    }
  }

  lemma MadeWitness(rules: Rules, o: Original, c: Chunk, index: nat, w: Window)
    requires MadeOf(rules, o, c, index, w)
    ensures Made(rules, o, c)
  {
  }

  lemma {:induction false} AllAreMade(rules: Rules, o: Original, n: nat)
    requires n <= |o.units|
    ensures AllMade(rules, o, ChunksOf(rules, o, n))
  {
    hide AddWindows, Made;
    if n > 0 {
      AllAreMade(rules, o, n - 1);
      var before, ws := ChunksOf(rules, o, n - 1), Windows(o.units[n - 1].text, 0);
      assert forall i :: 0 <= i < |ws| ==> FitsIn(o.units[n - 1].text, ws[i]);
      AddedAreMade(rules, o, n - 1, ws, before);
    }
  }

  /** Every locator finds its own chunk's text again in the same original. */
  lemma {:induction false} LocatorsResolve(rules: Rules, o: Original, i: nat)
    requires i < |ChunksOf(rules, o, |o.units|)|
    ensures
      var c := ChunksOf(rules, o, |o.units|)[i];
      var r := ResolutionOf(Some(o), Some(c.locator));
      && r == Resolved(c.locator.unit, c.locator.start, c.locator.end)
      && 0 <= r.unit < |o.units| && 0 <= r.start <= r.end <= |o.units[r.unit].text|
      && TextAt(o, r) == c.text && c.position == i && c.heading == o.units[r.unit].caption
  {
    hide ChunksOf, AddWindows;
    AllAreMade(rules, o, |o.units|);
    var c := ChunksOf(rules, o, |o.units|)[i];
    var index: nat, w: Window :| MadeOf(rules, o, c, index, w);
  }

  ghost predicate Precedes(a: Locator, unit: int, start: int) {
    a.unit < unit || (a.unit == unit && a.start < start)
  }

  ghost predicate Rising(chunks: seq<Chunk>) {
    forall i, j :: 0 <= i < j < |chunks| ==>
      Precedes(chunks[i].locator, chunks[j].locator.unit, chunks[j].locator.start)
  }

  ghost predicate AllPrecede(chunks: seq<Chunk>, unit: int, start: int) {
    forall i :: 0 <= i < |chunks| ==> Precedes(chunks[i].locator, unit, start)
  }

  ghost predicate StartsRise(ws: seq<Window>) {
    forall i :: 0 <= i < |ws| - 1 ==> ws[i].start < ws[i + 1].start
  }

  lemma {:induction false} AddedRise(rules: Rules, o: Original, index: nat, ws: seq<Window>, chunks: seq<Chunk>)
    requires index < |o.units| && (forall i :: 0 <= i < |ws| ==> FitsIn(o.units[index].text, ws[i]))
    requires StartsRise(ws) && Rising(chunks) && (ws != [] ==> AllPrecede(chunks, index, ws[0].start))
    requires AllPrecede(chunks, index + 1, 0)
    ensures
      var all := AddWindows(rules, o, index, ws, chunks);
      Rising(all) && AllPrecede(all, index + 1, 0)
    decreases |ws|
  {
    hide Blank;
    if ws != [] {
      assert FitsIn(o.units[index].text, ws[0]);
      var text := o.units[index].text[ws[0].start..ws[0].end];
      var next := if Blank(rules, text) then chunks else chunks + [PassageOf(rules, o, index, ws[0], |chunks|)];
      assert |ws| > 1 ==> ws[1..][0].start > ws[0].start;
      AddedRise(rules, o, index, ws[1..], next);
    }
  }

  lemma WindowsRise(text: string)
    ensures StartsRise(Windows(text, 0))
  {
    hide Windows;
    if text != "" {
      WindowsCover(text, 0);
    } else {
      NoWindows(text);
    }
  }

  lemma NoWindows(text: string)
    requires text == ""
    ensures Windows(text, 0) == []
  {
  }

  /** The chunks come unit after unit, and within a unit from its start to its end, none twice. */
  lemma {:induction false} ChunksAreInOrder(rules: Rules, o: Original, n: nat)
    requires n <= |o.units|
    ensures Rising(ChunksOf(rules, o, n)) && AllPrecede(ChunksOf(rules, o, n), n, 0)
  {
    hide AddWindows;
    if n > 0 {
      ChunksAreInOrder(rules, o, n - 1);
      WindowsRise(o.units[n - 1].text);
      AddedRise(rules, o, n - 1, Windows(o.units[n - 1].text, 0), ChunksOf(rules, o, n - 1));
    }
  }

  /** In another original, such as a later version, a chunk's locator resolves exactly when that is the same version
      and format, and the unit is there, long enough, and the same page or chapter. */
  lemma ResolvesElsewhereExactlyWhen(rules: Rules, o: Original, i: nat, p: Original)
    requires i < |ChunksOf(rules, o, |o.units|)|
    ensures
      var l := ChunksOf(rules, o, |o.units|)[i].locator;
      && 0 <= l.unit < |o.units|
      && (ResolutionOf(Some(p), Some(l)).Resolved? <==>
            && p.version == o.version && p.format == o.format && l.unit < |p.units| && l.end <= |p.units[l.unit].text|
            && (p.units[l.unit].page.Some? ==> o.units[l.unit].page == p.units[l.unit].page)
            && (p.units[l.unit].href.Some? ==> o.units[l.unit].href == p.units[l.unit].href))
  {
    hide ChunksOf, AddWindows;
    AllAreMade(rules, o, |o.units|);
    var c := ChunksOf(rules, o, |o.units|)[i];
    var index: nat, w: Window :| MadeOf(rules, o, c, index, w);
  }

  lemma {:induction false} WindowGetsChunk(
    rules: Rules, o: Original, index: nat, ws: seq<Window>, chunks: seq<Chunk>, i: nat) returns (j: nat)
    requires index < |o.units| && (forall i :: 0 <= i < |ws| ==> FitsIn(o.units[index].text, ws[i])) && i < |ws|
    requires FitsIn(o.units[index].text, ws[i]) && !Blank(rules, o.units[index].text[ws[i].start..ws[i].end])
    ensures
      var all := AddWindows(rules, o, index, ws, chunks);
      j < |all| && all[j].locator == LocatorOf(rules, o, index, ws[i])
    decreases |ws|
  {
    hide Blank, LocatorOf;
    assert FitsIn(o.units[index].text, ws[0]);
    var text := o.units[index].text[ws[0].start..ws[0].end];
    var next := if Blank(rules, text) then chunks else chunks + [PassageOf(rules, o, index, ws[0], |chunks|)];
    if i == 0 {
      j := |chunks|;
      AddedKeeps(rules, o, index, ws[1..], next);
    } else {
      j := WindowGetsChunk(rules, o, index, ws[1..], next, i - 1);
    }
  }

  lemma {:induction false} AddedKeeps(rules: Rules, o: Original, index: nat, ws: seq<Window>, chunks: seq<Chunk>)
    requires index < |o.units| && forall i :: 0 <= i < |ws| ==> FitsIn(o.units[index].text, ws[i])
    ensures chunks <= AddWindows(rules, o, index, ws, chunks)
    decreases |ws|
  {
    hide Blank, LocatorOf;
    if ws != [] {
      assert FitsIn(o.units[index].text, ws[0]);
      var text := o.units[index].text[ws[0].start..ws[0].end];
      AddedKeeps(rules, o, index, ws[1..],
                 if Blank(rules, text) then chunks else chunks + [PassageOf(rules, o, index, ws[0], |chunks|)]);
    }
  }

  /** Every visible character of every unit is in the span of some chunk. */
  lemma {:induction false} NothingVisibleIsLost(rules: Rules, o: Original, n: nat, index: nat, k: nat) returns (j: nat)
    requires index < n <= |o.units| && k < |o.units[index].text| && !rules.space(o.units[index].text[k])
    ensures
      var all := ChunksOf(rules, o, n);
      j < |all| && all[j].locator.unit == index && all[j].locator.start <= k < all[j].locator.end
  {
    hide AddWindows, Blank;
    var text := o.units[n - 1].text;
    if index == n - 1 {
      var i := CoveredFrom(text, 0, k);
      var w := Windows(text, 0)[i];
      assert FitsIn(text, w);
      VisibleIn(rules, text, w, k);
      j := WindowGetsChunk(rules, o, index, Windows(text, 0), ChunksOf(rules, o, n - 1), i);
    } else {
      j := NothingVisibleIsLost(rules, o, n - 1, index, k);
      AddedKeeps(rules, o, n - 1, Windows(text, 0), ChunksOf(rules, o, n - 1));
    }
  }

  lemma VisibleIn(rules: Rules, text: string, w: Window, k: nat)
    requires w.start <= k < w.end <= |text| && !rules.space(text[k])
    ensures !Blank(rules, text[w.start..w.end])
  {
    assert text[w.start..w.end][k - w.start] == text[k];
  }

  // ---- the archive's check -----------------------------------------------------------------------------

  const MAX_TURN_SOURCES := 8
  const MAX_TITLE := 300
  const MAX_REFERENCE := 2048
  const MAX_EXCERPT := 6000

  datatype TurnSource = TurnSource(id: string, title: string, reference: string, excerpt: string, locator: Option<Locator>)

  /** How the archive trims and shortens text. */
  datatype Wording = Wording(trim: string -> string, truncate: (string, nat) -> string)

  ghost predicate KeepsShort(wording: Wording) {
    forall text: string, n: nat :: |text| <= n ==> wording.truncate(text, n) == text
  }

  predicate Locatable(l: Locator, excerpt: string) {
    && |l.version| == 64 && (l.format == "pdf" || l.format == "epub") && l.unit >= 0 && l.start >= 0 && l.end > l.start
    && l.end - l.start == |excerpt| && (l.href.Some? ==> |l.href.value| <= 2000) && |l.caption| <= 300
    && |l.passage| <= 64 && |excerpt| <= MAX_EXCERPT
  }

  function Archived(wording: Wording, s: TurnSource): TurnSource {
    TurnSource(
      s.id, wording.truncate(wording.trim(s.title), MAX_TITLE), wording.truncate(wording.trim(s.reference), MAX_REFERENCE),
      wording.truncate(s.excerpt, MAX_EXCERPT),
      match s.locator case Some(l) => if Locatable(l, s.excerpt) then Some(l) else None case None => None)
  }

  /** The first eight that name a document. */
  function Kept(wording: Wording, sources: seq<TurnSource>): seq<TurnSource> {
    if sources == [] then []
    else
      var n := |sources| - 1;
      var kept := Kept(wording, sources[..n]);
      if wording.trim(sources[n].id) == "" || |kept| == MAX_TURN_SOURCES then kept
      else kept + [Archived(wording, sources[n])]
  }

  method BoundedSources(wording: Wording, sources: seq<TurnSource>) returns (kept: seq<TurnSource>)
    ensures kept == Kept(wording, sources)
  {
    hide Locatable;
    kept := [];
    for i := 0 to |sources|
      invariant kept == Kept(wording, sources[..i])
    {
      assert sources[..i + 1][..i] == sources[..i];
      var s := sources[i];
      if wording.trim(s.id) != "" && |kept| != MAX_TURN_SOURCES {
        s := s.(title := wording.truncate(wording.trim(s.title), MAX_TITLE));
        s := s.(reference := wording.truncate(wording.trim(s.reference), MAX_REFERENCE));
        if s.locator.Some? && !Locatable(s.locator.value, s.excerpt) {
          s := s.(locator := None);
        }
        s := s.(excerpt := wording.truncate(s.excerpt, MAX_EXCERPT));
        kept := kept + [s];
      }
    }
    assert sources[..|sources|] == sources;
  }

  lemma {:induction false} KeptIsBounded(wording: Wording, sources: seq<TurnSource>)
    ensures |Kept(wording, sources)| <= 8
  {
    if sources != [] {
      KeptIsBounded(wording, sources[..|sources| - 1]);
    }
  }

  /** The sources the archive counts. */
  function Named(wording: Wording, sources: seq<TurnSource>): seq<TurnSource> {
    if sources == [] then []
    else
      var n := |sources| - 1;
      if wording.trim(sources[n].id) == "" then Named(wording, sources[..n]) else Named(wording, sources[..n]) + [sources[n]]
  }

  /** The title, the reference and the excerpt at their longest, and the locator only if it has the form of one and
      its span is as long as the excerpt. */
  ghost predicate ArchivedAs(wording: Wording, s: TurnSource, a: TurnSource) {
    && a.id == s.id
    && a.title == wording.truncate(wording.trim(s.title), 300)
    && a.reference == wording.truncate(wording.trim(s.reference), 2048)
    && a.excerpt == wording.truncate(s.excerpt, 6000)
    && (a.locator.Some? ==> a.locator == s.locator)
    && (a.locator.Some? <==>
          s.locator.Some? && |s.excerpt| <= 6000
          && var l := s.locator.value;
            && l.start >= 0 && l.end > l.start && l.end == l.start + |s.excerpt| && l.unit >= 0
            && |l.version| == 64 && l.format in {"pdf", "epub"}
            && |l.caption| <= 300 && |l.passage| <= 64 && (l.href.None? || |l.href.value| <= 2000))
  }

  /** What is kept is exactly the first eight sources that name a document, each as archived, in their order. */
  lemma {:induction false} KeptAreTheFirst(wording: Wording, sources: seq<TurnSource>)
    ensures
      var named, kept := Named(wording, sources), Kept(wording, sources);
      && |kept| == (if |named| < 8 then |named| else 8)
      && (forall k :: 0 <= k < |kept| ==> kept[k] == Archived(wording, named[k]))
      && (forall k :: 0 <= k < |kept| ==> ArchivedAs(wording, named[k], kept[k]))
  {
    forall s: TurnSource ensures ArchivedAs(wording, s, Archived(wording, s)) {
    }
    hide Archived, ArchivedAs;
    if sources != [] {
      KeptAreTheFirst(wording, sources[..|sources| - 1]);
    }
  }

  /** A source that names a document stands among those counted after the earlier ones. */
  lemma {:induction false} NamedAt(wording: Wording, sources: seq<TurnSource>, j: nat)
    requires j < |sources| && wording.trim(sources[j].id) != ""
    ensures
      var k := |Named(wording, sources[..j])|;
      k < |Named(wording, sources)| && Named(wording, sources)[k] == sources[j]
  {
    var n := |sources| - 1;
    if j < n {
      NamedAt(wording, sources[..n], j);
      assert sources[..n][..j] == sources[..j];
    }
  }

  /** A chunk of an original that was taken in keeps its locator and its text in the archive. */
  lemma {:induction false} PassageIsArchived(
    rules: Rules, wording: Wording, format: string, units: seq<Offered>, o: Original, i: nat, s: TurnSource)
    requires Digests(rules) && KeepsShort(wording)
    requires (format == "pdf" || format == "epub") && GoodUnits(format, units)
    requires o == Original(rules.version(TakenAll(format, units)), format, TakenAll(format, units))
    requires i < |ChunksOf(rules, o, |o.units|)|
    requires var c := ChunksOf(rules, o, |o.units|)[i]; s.excerpt == c.text && s.locator == Some(c.locator)
    ensures Archived(wording, s).excerpt == s.excerpt && Archived(wording, s).locator == s.locator
  {
    hide ChunksOf, AddWindows, Windows, Parts;
    AllAreMade(rules, o, |o.units|);
    var c := ChunksOf(rules, o, |o.units|)[i];
    var index: nat, w: Window :| MadeOf(rules, o, c, index, w);
    assert o.units[index] == Taken(format, index, units[index]);
    assert GoodUnit(format, index, units[index]);
    assert |c.text| == w.end - w.start;
  }

  /** A source that quotes a chunk of an original and names a document, with fewer than eight such before it, is in the
      archive with that chunk's locator and text. */
  lemma {:induction false} PassagesSurviveTheArchive(
    rules: Rules, wording: Wording, format: string, units: seq<Offered>, o: Original, i: nat,
    sources: seq<TurnSource>, j: nat)
    requires Digests(rules) && KeepsShort(wording)
    requires (format == "pdf" || format == "epub") && GoodUnits(format, units)
    requires o == Original(rules.version(TakenAll(format, units)), format, TakenAll(format, units))
    requires i < |ChunksOf(rules, o, |o.units|)| && j < |sources|
    requires
      var c := ChunksOf(rules, o, |o.units|)[i];
      sources[j].excerpt == c.text && sources[j].locator == Some(c.locator)
    requires wording.trim(sources[j].id) != "" && |Named(wording, sources[..j])| < MAX_TURN_SOURCES
    ensures
      var kept, k := Kept(wording, sources), |Named(wording, sources[..j])|;
      && k < |kept| && kept[k].id == sources[j].id
      && kept[k].excerpt == sources[j].excerpt && kept[k].locator == sources[j].locator
  {
    KeptAreTheFirst(wording, sources);
    NamedAt(wording, sources, j);
    PassageIsArchived(rules, wording, format, units, o, i, sources[j]);
    hide ChunksOf, Kept, Named, GoodUnits, TakenAll;
  }
}
