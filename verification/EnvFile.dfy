/** The stack's `.env` file: reading the settings' variables out of its lines, and writing some of them back without
    touching the others. */
module EnvFile {
  import opened Wrappers
  import opened Text

  // ---- lines -------------------------------------------------------------------------------------------

  /** A line with its line break; the last one may have none. */
  function Lines(raw: string): (ls: seq<string>)
    decreases |raw|
  {
    if raw == "" then []
    else
      var n := LineEnd(raw);
      [raw[..n]] + Lines(raw[n..])
  }

  /** Where the first line ends, with its break. */
  function LineEnd(raw: string): (n: nat)
    requires raw != ""
    ensures 1 <= n <= |raw|
  {
    if raw[0] == '\n' || |raw| == 1 then 1 else 1 + LineEnd(raw[1..])
  }

  predicate Broken(line: string) { line != "" && line[|line| - 1] == '\n' }

  /** One line: no break before its end. */
  predicate IsLine(line: string) { line != "" && forall i :: 0 <= i < |line| - 1 ==> line[i] != '\n' }

  /** A text's lines: all but the last end with a break. */
  predicate AreLines(ls: seq<string>) {
    forall i :: 0 <= i < |ls| ==> IsLine(ls[i]) && (i < |ls| - 1 ==> Broken(ls[i]))
  }

  function Concat(ls: seq<string>): string {
    if ls == [] then "" else ls[0] + Concat(ls[1..])
  }

  lemma {:induction false} FirstLine(raw: string)
    requires raw != ""
    ensures var n := LineEnd(raw); IsLine(raw[..n]) && (n < |raw| ==> Broken(raw[..n]))
  {
    if raw[0] != '\n' && |raw| > 1 {
      FirstLine(raw[1..]);
      var n := LineEnd(raw[1..]);
      assert raw[..n + 1] == [raw[0]] + raw[1..][..n];
    }
  }

  lemma {:induction false} FirstLineOf(line: string, rest: string)
    requires IsLine(line) && (rest != "" ==> Broken(line))
    ensures LineEnd(line + rest) == |line|
  {
    if |line| > 1 {
      assert line[0] != '\n';
      assert (line + rest)[1..] == line[1..] + rest;
      FirstLineOf(line[1..], rest);
    } else if rest == "" {
      assert line + rest == line;
    }
  }

  lemma {:induction false} LinesAreLines(raw: string)
    ensures AreLines(Lines(raw)) && Concat(Lines(raw)) == raw
    decreases |raw|
  {
    hide LineEnd, Broken, IsLine;
    if raw != "" {
      var n := LineEnd(raw);
      FirstLine(raw);
      LinesAreLines(raw[n..]);
      var ls := Lines(raw);
      assert ls[1..] == Lines(raw[n..]);
      if n < |raw| {
        assert raw[n..] != "";
      }
    }
  }

  /** Written one after the other, lines are read as the same lines. */
  lemma {:induction false} LinesOfConcat(ls: seq<string>)
    requires AreLines(ls)
    ensures Lines(Concat(ls)) == ls
  {
    hide LineEnd, Broken;
    if ls != [] {
      LinesOfConcat(ls[1..]);
      var rest := Concat(ls[1..]);
      if |ls| == 1 {
        assert rest == "";
      }
      FirstLineOf(ls[0], rest);
      assert (ls[0] + rest)[..|ls[0]|] == ls[0] && (ls[0] + rest)[|ls[0]|..] == rest;
    }
  }

  // ---- what a line says --------------------------------------------------------------------------------

  predicate IsBlank(c: char) { c == ' ' || c == '\t' || c == '\n' || c == '\r' || c == '\U{000C}' }
  predicate IsUpper(c: char) { 'A' <= c <= 'Z' }
  predicate IsNameChar(c: char) { IsUpper(c) || '0' <= c <= '9' || c == '_' }

  predicate IsName(s: string) {
    s != "" && IsUpper(s[0]) && forall i :: 0 <= i < |s| ==> IsNameChar(s[i])
  }

  /** Where the blanks from `i` on end. */
  function BlankEnd(t: string, i: nat): (j: nat)
    requires i <= |t|
    ensures i <= j <= |t|
    decreases |t| - i
  {
    if i < |t| && IsBlank(t[i]) then BlankEnd(t, i + 1) else i
  }

  function NameEnd(t: string, i: nat): (j: nat)
    requires i <= |t|
    ensures i <= j <= |t|
    decreases |t| - i
  {
    if i < |t| && IsNameChar(t[i]) then NameEnd(t, i + 1) else i
  }

  lemma {:induction false} BlankEndIs(t: string, i: nat, j: nat)
    requires i <= j <= |t|
    ensures BlankEnd(t, i) == j <==> (forall k :: i <= k < j ==> IsBlank(t[k])) && (j < |t| ==> !IsBlank(t[j]))
    decreases |t| - i
  {
    if i < |t| && IsBlank(t[i]) && i < j {
      BlankEndIs(t, i + 1, j);
    }
  }

  lemma {:induction false} NameEndIs(t: string, i: nat, j: nat)
    requires i <= j <= |t|
    ensures NameEnd(t, i) == j <==> (forall k :: i <= k < j ==> IsNameChar(t[k])) && (j < |t| ==> !IsNameChar(t[j]))
    decreases |t| - i
  {
    if i < |t| && IsNameChar(t[i]) && i < j {
      NameEndIs(t, i + 1, j);
    }
  }

  const EXPORT := "export"

  /** After the blanks, and after `export` and the blanks it needs. */
  function PrefixEnd(t: string): (j: nat)
    ensures j <= |t|
  {
    var i := BlankEnd(t, 0);
    if i + 6 < |t| && t[i..i + 6] == EXPORT && IsBlank(t[i + 6]) then BlankEnd(t, i + 6) else i
  }

  datatype Assignment = Assignment(prefix: string, name: string, value: string)

  /** An assignment to a variable, as the pattern for a line finds it. */
  function Match(t: string): Option<Assignment> {
    var j := PrefixEnd(t);
    var n := NameEnd(t, j);
    var k := BlankEnd(t, n);
    if j < |t| && IsUpper(t[j]) && k < |t| && t[k] == '=' then Some(Assignment(t[..j], t[j..n], t[k + 1..])) else None
  }

  /** Blanks, or blanks with `export` among them. */
  ghost predicate IsPrefix(p: string) {
    || (forall i :: 0 <= i < |p| ==> IsBlank(p[i]))
    || exists i :: 0 <= i && i + 6 < |p| && ExportAt(p, i)
  }

  predicate ExportAt(p: string, i: int) {
    && 0 <= i && i + 6 < |p| && p[i..i + 6] == EXPORT
    && (forall k :: 0 <= k < i ==> IsBlank(p[k])) && forall k :: i + 6 <= k < |p| ==> IsBlank(p[k])
  }

  /** The parts of an assignment. */
  ghost predicate Shape(t: string, j: nat, n: nat, k: nat) {
    && j < n <= k < |t| && t[k] == '=' && IsPrefix(t[..j]) && IsName(t[j..n])
    && forall i :: n <= i < k ==> IsBlank(t[i])
  }

  lemma {:induction false} PrefixEndIs(t: string, j: nat)
    requires j < |t| && IsUpper(t[j]) && IsPrefix(t[..j])
    ensures PrefixEnd(t) == j
  {
    var p := t[..j];
    if forall i :: 0 <= i < |p| ==> IsBlank(p[i]) {
      assert forall i :: 0 <= i < j ==> t[i] == p[i];
      BlankEndIs(t, 0, j);
      assert BlankEnd(t, 0) == j;
      if j + 6 < |t| {
        assert t[j..j + 6][0] == t[j];
        assert EXPORT[0] == 'e';
      }
    } else {
      var i :| 0 <= i && i + 6 < |p| && ExportAt(p, i);
      assert forall k :: 0 <= k < j ==> t[k] == p[k];
      assert t[i..i + 6] == p[i..i + 6];
      assert t[i] == t[i..i + 6][0] == 'e';
      BlankEndIs(t, 0, i);
      assert IsBlank(t[i + 6]);
      BlankEndIs(t, i + 6, j);
    }
  }

  lemma {:induction false} PrefixIsPrefix(t: string)
    ensures IsPrefix(t[..PrefixEnd(t)])
  {
    var i := BlankEnd(t, 0);
    BlankEndIs(t, 0, i);
    var p := t[..PrefixEnd(t)];
    if PrefixEnd(t) != i {
      BlankEndIs(t, i + 6, PrefixEnd(t));
      assert p[i..i + 6] == t[i..i + 6];
      assert ExportAt(p, i);
    }
  }

  lemma {:induction false} MatchIs(t: string, j: nat, n: nat, k: nat)
    requires Shape(t, j, n, k)
    ensures Match(t) == Some(Assignment(t[..j], t[j..n], t[k + 1..]))
  {
    assert t[j] == t[j..n][0];
    PrefixEndIs(t, j);
    assert forall i :: j <= i < n ==> t[i] == t[j..n][i - j];
    NameEndIs(t, j, n);
    BlankEndIs(t, n, k);
  }

  lemma {:induction false} MatchHasShape(t: string) returns (j: nat, n: nat, k: nat)
    requires Match(t).Some?
    ensures Shape(t, j, n, k) && Match(t).value == Assignment(t[..j], t[j..n], t[k + 1..])
  {
    j := PrefixEnd(t);
    n := NameEnd(t, j);
    k := BlankEnd(t, n);
    PrefixIsPrefix(t);
    NameEndIs(t, j, n);
    BlankEndIs(t, n, k);
    assert IsNameChar(t[j]);
    assert n > j;
    assert forall i :: 0 <= i < n - j ==> t[j..n][i] == t[j + i];
  }

  /** What the scanner hands over: the line without its break, and without one carriage return before it. */
  function ScannerText(line: string): string {
    var t := if Broken(line) then line[..|line| - 1] else line;
    if t != "" && t[|t| - 1] == '\r' then t[..|t| - 1] else t
  }

  predicate IsEnding(c: char) { c == '\r' || c == '\n' }

  /** The line without any carriage return or break at its end. */
  function Body(line: string): (body: string)
    ensures body <= line
    ensures body == "" || !IsEnding(body[|body| - 1])
    ensures forall i :: |body| <= i < |line| ==> IsEnding(line[i])
  {
    if line != "" && IsEnding(line[|line| - 1]) then Body(line[..|line| - 1]) else line
  }

  predicate Returns(x: string) { forall i :: 0 <= i < |x| ==> x[i] == '\r' }

  /** The scanner sees the body, and carriage returns after it; and so it would with another body. */
  lemma {:induction false} ScannerSeesBody(line: string, other: string) returns (x: string)
    requires IsLine(line) && (other == "" || !IsEnding(other[|other| - 1]))
    ensures Returns(x) && ScannerText(line) == Body(line) + x
    ensures ScannerText(other + line[|Body(line)|..]) == other + x
  {
    var body, end := Body(line), line[|Body(line)|..];
    var cut := if Broken(end) then end[..|end| - 1] else end;
    assert line == body + end;
    assert Returns(cut) by {
      forall i | 0 <= i < |cut| ensures cut[i] == '\r' {
        assert cut[i] == line[|body| + i];
      }
    }
    x := if cut != "" then cut[..|cut| - 1] else cut;
    ScannerTextOf(body, end, x);
    ScannerTextOf(other, end, x);
  }

  lemma LastOff(a: string, b: string)
    requires b != ""
    ensures (a + b)[|a + b| - 1] == b[|b| - 1] && (a + b)[..|a + b| - 1] == a + b[..|b| - 1]
  {
  }

  lemma {:induction false} ScannerTextOf(body: string, end: string, x: string)
    requires body == "" || !IsEnding(body[|body| - 1])
    requires var cut := if Broken(end) then end[..|end| - 1] else end;
      Returns(cut) && x == if cut != "" then cut[..|cut| - 1] else cut
    ensures ScannerText(body + end) == body + x
  {
    var cut := if Broken(end) then end[..|end| - 1] else end;
    if end == "" {
      assert body + end == body;
    } else {
      LastOff(body, end);
      if cut == "" {
        assert body + cut == body;
      } else {
        LastOff(body, cut);
        assert cut[|cut| - 1] == '\r';
      }
    }
  }

  lemma SameParts(t: string, x: string, j: nat, n: nat, k: nat)
    requires j <= n <= k <= |t|
    ensures var w := t + x;
      && (forall i :: 0 <= i < |t| ==> w[i] == t[i])
      && w[..j] == t[..j] && w[j..n] == t[j..n] && w[k..] == t[k..] + x
  {
  }

  /** Carriage returns after the text change nothing but the end of the value. */
  lemma {:induction false} MatchWithReturns(t: string, x: string)
    requires Returns(x)
    ensures Match(t + x).Some? <==> Match(t).Some?
    ensures Match(t).Some? ==>
      Match(t + x).value == Assignment(Match(t).value.prefix, Match(t).value.name, Match(t).value.value + x)
  {
    var w := t + x;
    if Match(t).Some? {
      var j, n, k := MatchHasShape(t);
      SameParts(t, x, j, n, k + 1);
      MatchIs(w, j, n, k);
    } else if Match(w).Some? {
      var j, n, k := MatchHasShape(w);
      assert forall i :: |t| <= i < |w| ==> w[i] == '\r';
      SameParts(t, x, j, n, k + 1);
      MatchIs(t, j, n, k);
    }
  }

  /** A line written for a variable is read as that variable's. */
  lemma {:induction false} WrittenMatches(t: string, value: string)
    requires Match(t).Some?
    ensures var a := Match(t).value;
      Match(a.prefix + a.name + "=" + value) == Some(Assignment(a.prefix, a.name, value))
  {
    var a := Match(t).value;
    var j, n, k := MatchHasShape(t);
    var w := a.prefix + a.name + "=" + value;
    assert t[..n] == t[..j] + t[j..n];
    assert w == t[..n] + (['='] + value) && w[..n] == t[..n];
    assert w[..j] == w[..n][..j] && w[j..n] == w[..n][j..];
    assert w[n + 1..] == value && w[n] == '=';
    MatchIs(w, j, n, n);
  }

  lemma {:induction false} PlainMatches(name: string, value: string)
    requires IsName(name)
    ensures Match(name + "=" + value) == Some(Assignment("", name, value))
  {
    var w := name + "=" + value;
    var n := |name|;
    assert w[..0] == "" && w[0..n] == name && w[n + 1..] == value && w[n] == '=';
    MatchIs(w, 0, n, n);
  }

  // ---- values ------------------------------------------------------------------------------------------

  function Unquote(value: string): string { Bare(TrimSpace(value)) }

  function Bare(v: string): string {
    if |v| >= 2 && (v[0] == '"' || v[0] == '\'') && v[|v| - 1] == v[0] then v[1..|v| - 1] else v
  }

  /** What may be written: no ASCII white space, and nothing a shell would read. */
  predicate Safe(value: string) {
    forall i :: 0 <= i < |value| ==>
      !IsBlank(value[i]) && value[i] != '$' && value[i] != '#' && value[i] != '\'' && value[i] != '"'
      && value[i] != '`' && value[i] != '\\'
  }

  lemma {:induction false} TrimRightOf(a: string, x: string)
    requires Returns(x)
    ensures TrimRight(a + x) == TrimRight(a)
  {
    if x == "" {
      assert a + x == a;
    } else {
      var n := |x| - 1;
      assert (a + x)[|a + x| - 1] == '\r';
      assert (a + x)[..|a + x| - 1] == a + x[..n];
      TrimRightOf(a, x[..n]);
    }
  }

  lemma TrimLeftStep(s: string)
    requires s != ""
    ensures TrimLeft(s) == if IsSpace(s[0]) then TrimLeft(s[1..]) else s
  {
  }

  lemma {:induction false} TrimLeftOf(a: string, x: string)
    requires Returns(x) && TrimLeft(a) != ""
    ensures TrimLeft(a + x) == TrimLeft(a) + x
  {
    hide TrimLeft, TrimRight, IsSpace, Returns;
    assert a != "" by { assert TrimLeft(a) == "" || |TrimLeft(a)| <= |a|; }
    assert (a + x)[0] == a[0];
    TrimLeftStep(a);
    TrimLeftStep(a + x);
    if IsSpace(a[0]) {
      TrimLeftOf(a[1..], x);
      assert (a + x)[1..] == a[1..] + x;
    }
  }

  lemma {:induction false} TrimLeftNothing(a: string)
    requires forall i :: 0 <= i < |a| ==> IsSpace(a[i])
    ensures TrimLeft(a) == ""
  {
    if a != "" {
      TrimLeftNothing(a[1..]);
    }
  }

  lemma {:induction false} TrimSpaceOf(a: string, x: string)
    requires Returns(x)
    ensures TrimSpace(a + x) == TrimSpace(a)
  {
    if TrimLeft(a) != "" {
      TrimLeftOf(a, x);
      TrimRightOf(TrimLeft(a), x);
    }
    hide TrimLeft, TrimRight, IsSpace, Returns;
  }

  lemma {:induction false} SafeIsBare(value: string, v: string)
    requires Safe(value) && forall c <- v :: c in value
    ensures Bare(v) == v
  {
    if v != "" {
      assert v[0] in v;
      var i :| 0 <= i < |value| && value[i] == v[0];
    }
  }

  /** A safe value is read back without the white space at its ends, whatever carriage returns follow it. */
  lemma {:induction false} SafeReadsBack(value: string, x: string)
    requires Safe(value) && Returns(x)
    ensures Unquote(value + x) == TrimSpace(value)
  {
    TrimSpaceOf(value, x);
    TrimSpaceTrims(value);
    hide TrimSpace, Safe, Bare;
    SafeIsBare(value, TrimSpace(value));
  }

  // ---- reading -----------------------------------------------------------------------------------------

  type Values = map<string, string>

  datatype Reading = Reading(values: Values, webhooks: seq<string>)

  /** Which variables are settings, in their order, and the one that pairs channels with webhook addresses. */
  datatype Catalogue = Catalogue(order: seq<string>, webhooks: string)

  predicate IsChannel(id: string) { 1 <= |id| <= 20 && AllDigits(id) }

  function ChannelsOf(pairs: seq<string>): seq<string> {
    if pairs == [] then []
    else
      var n := |pairs| - 1;
      var id := Cut(TrimSpace(pairs[n]), '=').0;
      if IsChannel(id) then ChannelsOf(pairs[..n]) + [id] else ChannelsOf(pairs[..n])
  }

  function Channels(value: string): seq<string> { ChannelsOf(Split(Unquote(value), ',')) }

  function ReadLine(c: Catalogue, r: Reading, line: string): Reading {
    match Match(ScannerText(line))
    case None => r
    case Some(a) =>
      if a.name !in c.order then r
      else if a.name == c.webhooks then r.(webhooks := Channels(a.value))
      else r.(values := r.values[a.name := Unquote(a.value)])
  }

  function ReadLines(c: Catalogue, lines: seq<string>): Reading {
    if lines == [] then Reading(map[], [])
    else ReadLine(c, ReadLines(c, lines[..|lines| - 1]), lines[|lines| - 1])
  }

  function ReadText(c: Catalogue, raw: string): Reading { ReadLines(c, Lines(raw)) }

  // ---- writing -----------------------------------------------------------------------------------------

  predicate Writable(c: Catalogue, values: Values) {
    forall name :: name in values ==> name in c.order && name != c.webhooks && Safe(values[name])
  }

  /** The variable that a line would be rewritten for. */
  function NameOf(values: Values, line: string): Option<string> {
    match Match(Body(line))
    case Some(a) => if a.name in values then Some(a.name) else None
    case None => None
  }

  function Replaced(values: Values, line: string): string {
    match Match(Body(line))
    case Some(a) => if a.name in values then a.prefix + a.name + "=" + values[a.name] + line[|Body(line)|..] else line
    case None => line
  }

  function ReplacedAll(values: Values, lines: seq<string>): (r: seq<string>)
    ensures |r| == |lines| && forall i :: 0 <= i < |lines| ==> r[i] == Replaced(values, lines[i])
  {
    seq(|lines|, i requires 0 <= i < |lines| => Replaced(values, lines[i]))
  }

  function Assigned(values: Values, lines: seq<string>): set<string> {
    set i | 0 <= i < |lines| && NameOf(values, lines[i]).Some? :: NameOf(values, lines[i]).value
  }

  /** The last line gets a break when others follow or the file has none. */
  function Ended(lines: seq<string>): seq<string> {
    if lines == [] || Broken(lines[|lines| - 1]) then lines
    else lines[..|lines| - 1] + [lines[|lines| - 1] + "\n"]
  }

  function Added(order: seq<string>, values: Values, written: set<string>): seq<string> {
    if order == [] then []
    else
      var name := order[|order| - 1];
      var before := Added(order[..|order| - 1], values, written);
      if name in values && name !in written then before + [name + "=" + values[name] + "\n"] else before
  }

  function WrittenLines(c: Catalogue, values: Values, lines: seq<string>): seq<string> {
    Ended(ReplacedAll(values, lines)) + Added(c.order, values, Assigned(values, lines))
  }

  function WriteText(c: Catalogue, values: Values, raw: string): string {
    Concat(WrittenLines(c, values, Lines(raw)))
  }

  // ---- what is written is a file of lines --------------------------------------------------------------

  lemma {:induction false} BodyHasNoBreak(line: string)
    requires IsLine(line)
    ensures forall i :: 0 <= i < |Body(line)| ==> Body(line)[i] != '\n'
  {
    var body := Body(line);
    if body != "" {
      assert body[|body| - 1] == line[|body| - 1];
      assert forall i :: 0 <= i < |body| ==> body[i] == line[i];
    }
  }

  /** A rewritten line is one line, with the ending it had. */
  lemma {:induction false} ReplacedIsLine(values: Values, line: string)
    requires IsLine(line) && forall name :: name in values ==> Safe(values[name])
    ensures IsLine(Replaced(values, line)) && (Broken(Replaced(values, line)) <==> Broken(line))
  {
    if NameOf(values, line).Some? {
      var body, end := Body(line), line[|Body(line)|..];
      BodyHasNoBreak(line);
      var a := Match(body).value;
      var head := a.prefix + a.name + "=" + values[a.name];
      assert Replaced(values, line) == head + end;
      assert forall i :: 0 <= i < |head| ==> head[i] != '\n';
      HeadAndEnd(line, body, head, end);
    }
  }

  lemma HeadAndEnd(line: string, body: string, head: string, end: string)
    requires IsLine(line) && line == body + end && head != ""
    requires forall i :: 0 <= i < |head| ==> head[i] != '\n'
    requires forall i :: 0 <= i < |body| ==> body[i] != '\n'
    ensures IsLine(head + end) && (Broken(head + end) <==> Broken(line))
  {
    var w := head + end;
    forall i | 0 <= i < |w| - 1 ensures w[i] != '\n' {
      if i >= |head| {
        assert w[i] == end[i - |head|] == line[|body| + i - |head|];
      }
    }
    if end != "" {
      assert w[|w| - 1] == end[|end| - 1] == line[|line| - 1];
    } else {
      assert w == head && line == body;
    }
  }

  lemma {:induction false} AddedAreLines(order: seq<string>, values: Values, written: set<string>)
    requires forall i :: 0 <= i < |order| ==> IsName(order[i])
    requires forall name :: name in values ==> Safe(values[name])
    ensures forall i :: 0 <= i < |Added(order, values, written)| ==>
      IsLine(Added(order, values, written)[i]) && Broken(Added(order, values, written)[i])
  {
    if order != [] {
      AddedAreLines(order[..|order| - 1], values, written);
    }
  }

  lemma {:induction false} ReplacedAreLines(values: Values, lines: seq<string>)
    requires AreLines(lines) && forall name :: name in values ==> Safe(values[name])
    ensures AreLines(ReplacedAll(values, lines))
  {
    hide Safe, Replaced, Match, IsLine;
    var replaced := ReplacedAll(values, lines);
    forall i | 0 <= i < |lines| ensures IsLine(replaced[i]) && (Broken(replaced[i]) <==> Broken(lines[i])) {
      ReplacedIsLine(values, lines[i]);
    }
  }

  lemma {:induction false} EndedAreLines(lines: seq<string>)
    requires AreLines(lines)
    ensures forall i :: 0 <= i < |Ended(lines)| ==> IsLine(Ended(lines)[i]) && Broken(Ended(lines)[i])
  {
    hide IsLine;
    if lines != [] && !Broken(lines[|lines| - 1]) {
      EndedIsLine(lines[|lines| - 1]);
    }
  }

  lemma {:induction false} WrittenAreLines(c: Catalogue, values: Values, lines: seq<string>)
    requires AreLines(lines) && Writable(c, values) && forall i :: 0 <= i < |c.order| ==> IsName(c.order[i])
    ensures AreLines(WrittenLines(c, values, lines))
  {
    hide IsName, Safe, ReplacedAll, Ended, Added, Assigned, IsLine, Broken;
    ReplacedAreLines(values, lines);
    EndedAreLines(ReplacedAll(values, lines));
    AddedAreLines(c.order, values, Assigned(values, lines));
  }

  lemma EndedIsLine(line: string)
    requires IsLine(line) && !Broken(line)
    ensures IsLine(line + "\n") && Broken(line + "\n")
  {
  }

  // ---- reading what was written ------------------------------------------------------------------------

  /** The values as they are read back. */
  function ReadBack(values: Values, names: set<string>): (r: Values)
    ensures r.Keys <= values.Keys
  {
    map name | name in values && name in names :: TrimSpace(values[name])
  }

  /** The scanner finds the same variable in a line as the writer does. */
  lemma {:induction false} ScannedName(line: string)
    requires IsLine(line)
    ensures Match(ScannerText(line)).Some? <==> Match(Body(line)).Some?
    ensures Match(ScannerText(line)).Some? ==> Match(ScannerText(line)).value.name == Match(Body(line)).value.name
  {
    hide IsLine, Body, ScannerText, Match, IsEnding;
    var x := ScannerSeesBody(line, "");
    MatchWithReturns(Body(line), x);
  }

  /** A rewritten line is read as its variable, with the value written. */
  lemma {:induction false} ScannedReplaced(values: Values, line: string)
    requires IsLine(line) && NameOf(values, line).Some? && Safe(values[NameOf(values, line).value])
    ensures
      var found := Match(ScannerText(Replaced(values, line)));
      var name := NameOf(values, line).value;
      found.Some? && found.value.name == name && Unquote(found.value.value) == TrimSpace(values[name])
  {
    var body := Body(line);
    var a := Match(body).value;
    var head := a.prefix + a.name + "=" + values[a.name];
    HeadEnds(a.prefix + a.name, values[a.name]);
    hide IsLine, Safe, Body, ScannerText, Match, Unquote, IsEnding, Returns, TrimSpace;
    var x := ScannerSeesBody(line, head);
    WrittenMatches(body, values[a.name]);
    MatchWithReturns(head, x);
    SafeReadsBack(values[a.name], x);
  }

  /** What the scanner reads in the line, when it is an assignment. */
  function ValueIn(line: string): string {
    match Match(ScannerText(line))
    case Some(a) => Unquote(a.value)
    case None => ""
  }

  lemma {:induction false} ReadReplaced(c: Catalogue, values: Values, line: string, r: Reading)
    requires IsLine(line) && Writable(c, values)
    ensures
      match NameOf(values, line)
      case Some(name) =>
        && name in values
        && ReadLine(c, r, Replaced(values, line)) == r.(values := r.values[name := TrimSpace(values[name])])
        && ReadLine(c, r, line) == r.(values := r.values[name := ValueIn(line)])
      case None => Replaced(values, line) == line
  {
    hide IsLine, Safe, Body, ScannerText, Match, Unquote, TrimSpace;
    ScannedName(line);
    if NameOf(values, line).Some? {
      ScannedReplaced(values, line);
      hide Replaced;
    }
  }

  lemma HeadEnds(before: string, value: string)
    requires Safe(value)
    ensures var head := before + "=" + value; head != "" && !IsEnding(head[|head| - 1])
  {
    var head := before + "=" + value;
    if value != "" {
      assert head[|head| - 1] == value[|value| - 1];
    }
  }

  /** A line that is not rewritten says nothing of the values written. */
  lemma {:induction false} ReadOther(c: Catalogue, values: Values, line: string, r: Reading, over: Values)
    requires IsLine(line) && Writable(c, values) && NameOf(values, line).None? && over.Keys <= values.Keys
    ensures ReadLine(c, r.(values := r.values + over), line) == ReadLine(c, r, line).(values := ReadLine(c, r, line).values + over)
  {
    ScannedName(line);
    hide ScannerText, Body, Match, IsLine, Unquote, Channels, Safe;
    var found := Match(ScannerText(line));
    if found.Some? && found.value.name in c.order && found.value.name != c.webhooks {
      OverlayOther(r.values, over, found.value.name, Unquote(found.value.value));
    }
  }

  lemma OverlayOther(before: Values, over: Values, name: string, value: string)
    requires name !in over
    ensures (before + over)[name := value] == before[name := value] + over
  {
  }

  lemma {:induction false} AssignedMore(values: Values, lines: seq<string>)
    requires lines != []
    ensures
      var n := |lines| - 1;
      Assigned(values, lines) == Assigned(values, lines[..n]) + NamesIn(values, lines[n])
  {
    hide NameOf;
    var n := |lines| - 1;
    forall name ensures name in Assigned(values, lines)
      <==> name in Assigned(values, lines[..n]) || NameOf(values, lines[n]) == Some(name)
    {
      if name in Assigned(values, lines[..n]) {
        var i :| 0 <= i < n && NameOf(values, lines[..n][i]) == Some(name);
        assert lines[i] == lines[..n][i];
      }
      if name in Assigned(values, lines) {
        var i :| 0 <= i < |lines| && NameOf(values, lines[i]) == Some(name);
        if i < n {
          assert lines[..n][i] == lines[i];
        }
      }
    }
  }

  function NamesIn(values: Values, line: string): set<string> {
    match NameOf(values, line) case Some(name) => {name} case None => {}
  }

  lemma {:induction false} ReadReplacedOne(c: Catalogue, values: Values, line: string, before: Reading, written: set<string>)
    requires IsLine(line) && Writable(c, values)
    ensures
      var next := ReadLine(c, before, line);
      ReadLine(c, before.(values := before.values + ReadBack(values, written)), Replaced(values, line))
      == next.(values := next.values + ReadBack(values, written + NamesIn(values, line)))
  {
    hide IsLine, Safe, NameOf, Replaced, ReadLine, TrimSpace, ValueIn, ReadBack;
    var r := before.(values := before.values + ReadBack(values, written));
    ReadReplaced(c, values, line, r);
    ReadReplaced(c, values, line, before);
    if NameOf(values, line).Some? {
      Overlay(values, before.values, written, NameOf(values, line).value, ValueIn(line));
    } else {
      assert written + {} == written;
      ReadOther(c, values, line, before, ReadBack(values, written));
    }
  }

  /** Reading the rewritten lines gives the old reading with the values written laid over it. */
  lemma {:induction false} ReadReplacedAll(c: Catalogue, values: Values, lines: seq<string>)
    requires (forall i :: 0 <= i < |lines| ==> IsLine(lines[i])) && Writable(c, values)
    ensures
      var before := ReadLines(c, lines);
      ReadLines(c, ReplacedAll(values, lines))
      == before.(values := before.values + ReadBack(values, Assigned(values, lines)))
  {
    assert ReadBack(values, {}) == map[];
    hide IsLine, Writable, NameOf, Replaced, ReadLine, ReadBack, Assigned, NamesIn, ReadLines;
    ReadLinesMore(c, lines);
    ReadLinesMore(c, ReplacedAll(values, lines));
    if lines != [] {
      var n := |lines| - 1;
      ReadReplacedAll(c, values, lines[..n]);
      AssignedMore(values, lines);
      assert ReplacedAll(values, lines)[..n] == ReplacedAll(values, lines[..n]);
      ReadReplacedOne(c, values, lines[n], ReadLines(c, lines[..n]), Assigned(values, lines[..n]));
    }
  }

  lemma ReadLinesMore(c: Catalogue, lines: seq<string>)
    ensures lines == [] ==> ReadLines(c, lines) == Reading(map[], [])
    ensures lines != [] ==>
      ReadLines(c, lines) == ReadLine(c, ReadLines(c, lines[..|lines| - 1]), lines[|lines| - 1])
  {
    hide ReadLine;
  }

  lemma Overlay(values: Values, before: Values, written: set<string>, name: string, was: string)
    requires name in values
    ensures
      (before + ReadBack(values, written))[name := TrimSpace(values[name])]
      == before[name := was] + ReadBack(values, written + {name})
  {
    hide TrimSpace;
  }

  // The lines added

  lemma {:induction false} ReadConcat(c: Catalogue, a: seq<string>, b: seq<string>)
    ensures ReadLines(c, a + b) == ReadMore(c, ReadLines(c, a), b)
  {
    hide ReadLine;
    if b == [] {
      assert a + b == a;
    } else {
      var n := |b| - 1;
      ReadConcat(c, a, b[..n]);
      assert (a + b)[..|a| + n] == a + b[..n];
    }
  }

  function ReadMore(c: Catalogue, r: Reading, lines: seq<string>): Reading {
    if lines == [] then r else ReadLine(c, ReadMore(c, r, lines[..|lines| - 1]), lines[|lines| - 1])
  }

  lemma PlainIsScanned(name: string, value: string)
    requires Safe(value)
    ensures ScannerText(name + "=" + value + "\n") == name + "=" + value
  {
    var head := name + "=" + value;
    HeadEnds(name, value);
    hide Safe;
    ScannerTextOf(head, "\n", "");
    assert head + "" == head;
  }

  lemma {:induction false} ReadAssignment(c: Catalogue, r: Reading, name: string, value: string)
    requires IsName(name) && Safe(value) && name in c.order && name != c.webhooks
    ensures ReadLine(c, r, name + "=" + value + "\n") == r.(values := r.values[name := TrimSpace(value)])
  {
    hide ScannerText, Match, Unquote, TrimSpace, Safe, IsName, Channels;
    PlainIsScanned(name, value);
    PlainMatches(name, value);
    SafeReadsBack(value, "");
    assert value + "" == value;
  }

  function NamesOf(order: seq<string>): set<string> {
    if order == [] then {} else NamesOf(order[..|order| - 1]) + {order[|order| - 1]}
  }

  lemma {:induction false} NamesOfAll(order: seq<string>)
    ensures forall name :: name in NamesOf(order) <==> name in order
  {
    if order != [] {
      NamesOfAll(order[..|order| - 1]);
      assert order == order[..|order| - 1] + [order[|order| - 1]];
    }
  }

  /** One name more: laid over if it has a value and was not written already. */
  lemma OverlayAdded(values: Values, before: Values, names: set<string>, written: set<string>, name: string)
    ensures
      before + ReadBack(values, names + {name} - written)
      == if name in values && name !in written then (before + ReadBack(values, names - written))[name := TrimSpace(values[name])]
         else before + ReadBack(values, names - written)
  {
    hide TrimSpace;
    if !(name in values && name !in written) {
      assert ReadBack(values, names + {name} - written) == ReadBack(values, names - written);
    }
  }

  lemma {:induction false} ReadAdded(c: Catalogue, r: Reading, order: seq<string>, values: Values, written: set<string>)
    requires Writable(c, values) && forall i :: 0 <= i < |order| ==> IsName(order[i])
    ensures
      ReadMore(c, r, Added(order, values, written)) == r.(values := r.values + ReadBack(values, NamesOf(order) - written))
  {
    assert r.values + ReadBack(values, {} - written) == r.values;
    hide ReadLine, TrimSpace, IsName, Safe, ReadBack;
    if order != [] {
      var n := |order| - 1;
      var name := order[n];
      ReadAdded(c, r, order[..n], values, written);
      OverlayAdded(values, r.values, NamesOf(order[..n]), written, name);
      if name in values && name !in written {
        var before := Added(order[..n], values, written);
        ReadAssignment(c, ReadMore(c, r, before), name, values[name]);
      }
    }
  }

  lemma ReadEndedLine(c: Catalogue, r: Reading, line: string)
    requires ScannerText(line + "\n") == ScannerText(line)
    ensures ReadLine(c, r, line + "\n") == ReadLine(c, r, line)
  {
    hide ScannerText, Match, Channels, Unquote;
  }

  lemma ReadOneMore(c: Catalogue, lines: seq<string>, line: string)
    ensures ReadLines(c, lines + [line]) == ReadLine(c, ReadLines(c, lines), line)
  {
    hide ReadLine;
    assert (lines + [line])[..|lines|] == lines;
  }

  lemma {:induction false} ReadEnded(c: Catalogue, lines: seq<string>)
    ensures ReadLines(c, Ended(lines)) == ReadLines(c, lines)
  {
    if lines != [] && !Broken(lines[|lines| - 1]) {
      var n := |lines| - 1;
      var line := lines[n];
      assert ScannerText(line + "\n") == ScannerText(line);
      hide ScannerText, ReadLine, ReadLines;
      assert lines == lines[..n] + [line];
      ReadOneMore(c, lines[..n], line);
      ReadOneMore(c, lines[..n], line + "\n");
      ReadEndedLine(c, ReadLines(c, lines[..n]), line);
    }
  }

  function TrimmedAll(values: Values): Values {
    map name | name in values :: TrimSpace(values[name])
  }

  lemma WrittenAndAdded(c: Catalogue, values: Values, before: Values, written: set<string>)
    requires Writable(c, values)
    ensures before + ReadBack(values, written) + ReadBack(values, NamesOf(c.order) - written) == before + TrimmedAll(values)
  {
    hide TrimSpace, Safe;
    NamesOfAll(c.order);
  }

  /** After writing, the file reads as before with the values laid over it, stripped of white space at their ends,
      and it names the same webhook channels. */
  lemma {:induction false} WrittenReads(c: Catalogue, values: Values, raw: string)
    requires Writable(c, values) && forall i :: 0 <= i < |c.order| ==> IsName(c.order[i])
    ensures
      ReadText(c, WriteText(c, values, raw))
      == Reading(ReadText(c, raw).values + TrimmedAll(values), ReadText(c, raw).webhooks)
  {
    var lines := Lines(raw);
    LinesAreLines(raw);
    hide IsLine, IsName, Safe, ReadLine, TrimSpace, Replaced, Ended, Added, Assigned, Lines, ReadLines, ReadMore, ReadBack, TrimmedAll;
    WrittenAreLines(c, values, lines);
    LinesOfConcat(WrittenLines(c, values, lines));
    var written := Assigned(values, lines);
    ReadConcat(c, Ended(ReplacedAll(values, lines)), Added(c.order, values, written));
    ReadEnded(c, ReplacedAll(values, lines));
    ReadReplacedAll(c, values, lines);
    var before := ReadLines(c, lines);
    ReadAdded(c, before.(values := before.values + ReadBack(values, written)), c.order, values, written);
    WrittenAndAdded(c, values, before.values, written);
  }

  lemma TrimmedIsFixed(value: string)
    ensures Trimmed(value) <==> TrimSpace(value) == value
  {
    hide TrimSpace, TrimLeft, TrimRight, IsSpace;
    TrimSpaceTrims(value);
  }

  lemma TrimmedAllIsSame(values: Values)
    ensures TrimmedAll(values) == values <==> forall name :: name in values ==> Trimmed(values[name])
  {
    hide TrimSpace, Trimmed;
    forall name | name in values ensures Trimmed(values[name]) <==> TrimSpace(values[name]) == values[name] {
      TrimmedIsFixed(values[name]);
    }
    if TrimmedAll(values) == values {
      assert forall name :: name in values ==> TrimmedAll(values)[name] == values[name];
    }
  }

  lemma SameOverlay(before: Values, a: Values, b: Values)
    requires a.Keys == b.Keys
    ensures before + a == before + b <==> a == b
  {
    if before + a == before + b {
      assert forall name :: name in a ==> (before + a)[name] == a[name] && (before + b)[name] == b[name];
    }
  }

  /** Reading returns exactly the values written when none of them starts or ends with white space. */
  lemma {:induction false} RoundTripExactlyWhenTrimmed(c: Catalogue, values: Values, raw: string)
    requires Writable(c, values) && forall i :: 0 <= i < |c.order| ==> IsName(c.order[i])
    ensures
      ReadText(c, WriteText(c, values, raw)) == Reading(ReadText(c, raw).values + values, ReadText(c, raw).webhooks)
      <==> forall name :: name in values ==> Trimmed(values[name])
  {
    hide ReadText, WriteText, TrimSpace, Trimmed, Writable, IsName;
    WrittenReads(c, values, raw);
    TrimmedAllIsSame(values);
    SameOverlay(ReadText(c, raw).values, TrimmedAll(values), values);
  }

  /** The lines of other variables, comments and blank lines stay as they are, the last one given a break. */
  lemma {:induction false} OtherLinesStay(c: Catalogue, values: Values, raw: string, i: nat)
    requires Writable(c, values) && (forall i :: 0 <= i < |c.order| ==> IsName(c.order[i]))
    requires i < |Lines(raw)| && NameOf(values, Lines(raw)[i]).None?
    ensures
      var after := Lines(WriteText(c, values, raw));
      i < |after| && (after[i] == Lines(raw)[i] || (i == |Lines(raw)| - 1 && after[i] == Lines(raw)[i] + "\n"))
  {
    var lines := Lines(raw);
    LinesAreLines(raw);
    WrittenAreLines(c, values, lines);
    LinesOfConcat(WrittenLines(c, values, lines));
    hide IsLine, IsName, Safe, Match, Body, Added, Assigned, Lines;
    assert Replaced(values, lines[i]) == lines[i];
  }

  lemma OneSpaceIsTrimmed(c: char)
    requires IsSpace(c)
    ensures TrimSpace([c]) == ""
  {
    hide IsSpace;
    TrimLeftNothing([c]);
  }

  lemma OneTrimmed(name: string, value: string)
    ensures TrimmedAll(map[name := value]) == map[name := TrimSpace(value)]
  {
    hide TrimSpace;
  }

  lemma NoBreakSpaceIsTrimmed(name: string)
    ensures TrimmedAll(map[name := "\U{00A0}"]) == map[name := ""]
  {
    var c := '\U{00A0}';
    assert IsSpace(c) && "\U{00A0}" == [c];
    hide *;
    OneSpaceIsTrimmed(c);
    OneTrimmed(name, [c]);
  }

  lemma NoBreakSpaceIsWritable(c: Catalogue, name: string)
    requires name in c.order && name != c.webhooks
    ensures Writable(c, map[name := "\U{00A0}"])
  {
    hide TrimSpace;
  }

  lemma LaidOverDiffer(read: Values, name: string, x: string, y: string)
    requires x != y
    ensures read + map[name := x] != read + map[name := y]
  {
    assert (read + map[name := x])[name] != (read + map[name := y])[name];
  }

  /** A value can be written that is not read back, into whatever file: a no-break space is no white space to the
      writer's check. */
  lemma UnreadableValue(c: Catalogue, name: string, raw: string)
    requires name in c.order && name != c.webhooks && forall i :: 0 <= i < |c.order| ==> IsName(c.order[i])
    ensures
      var values: Values := map[name := "\U{00A0}"];
      && Writable(c, values)
      && ReadText(c, WriteText(c, values, raw)).webhooks == ReadText(c, raw).webhooks
      && ReadText(c, WriteText(c, values, raw)).values == ReadText(c, raw).values + map[name := ""]
      && ReadText(c, WriteText(c, values, raw)).values != ReadText(c, raw).values + values
  {
    hide *;
    NoBreakSpaceIsWritable(c, name);
    NoBreakSpaceIsTrimmed(name);
    WrittenReads(c, map[name := "\U{00A0}"], raw);
    LaidOverDiffer(ReadText(c, raw).values, name, "\U{00A0}", "");
  }

  // ---- what a line says, character by character ---------------------------------------------------------

  ghost predicate Blanks(s: string) {
    forall i :: 0 <= i < |s| ==> s[i] == ' ' || s[i] == '\t' || s[i] == '\n' || s[i] == '\r' || s[i] == '\U{000C}'
  }

  /** A capital, then capitals, digits and underscores. */
  ghost predicate Named(s: string) {
    && s != "" && 'A' <= s[0] <= 'Z'
    && forall i :: 0 <= i < |s| ==> 'A' <= s[i] <= 'Z' || '0' <= s[i] <= '9' || s[i] == '_'
  }

  /** Blanks, and after them `export` with more blanks, if it is there. */
  ghost predicate Leads(s: string) {
    Blanks(s) || exists a, b :: s == a + "export" + b && Blanks(a) && Blanks(b) && b != ""
  }

  /** The text assigns: what leads, the name, blanks, the sign, the value. */
  ghost predicate Assigns(t: string, prefix: string, name: string, gap: string, value: string) {
    t == prefix + name + gap + "=" + value && Leads(prefix) && Named(name) && Blanks(gap)
  }

  lemma LeadsIsPrefix(s: string)
    ensures Leads(s) <==> IsPrefix(s)
  {
    hide ExportAt;
    if !Blanks(s) {
      if a, b :| s == a + "export" + b && Blanks(a) && Blanks(b) && b != "" {
        BetweenIsExport(s, a, b);
      }
      if i :| 0 <= i && i + 6 < |s| && ExportAt(s, i) {
        ExportIsBetween(s, i);
      }
    }
  }

  lemma BetweenIsExport(s: string, a: string, b: string)
    requires s == a + "export" + b && Blanks(a) && Blanks(b) && b != ""
    ensures |a| + 6 < |s| && ExportAt(s, |a|)
  {
    var i := |a|;
    assert s[i..i + 6] == EXPORT;
    assert forall k :: 0 <= k < i ==> s[k] == a[k];
    assert forall k :: i + 6 <= k < |s| ==> s[k] == b[k - i - 6];
  }

  lemma ExportIsBetween(s: string, i: int)
    requires 0 <= i && i + 6 < |s| && ExportAt(s, i)
    ensures Leads(s)
  {
    var a, b := s[..i], s[i + 6..];
    assert s == a + s[i..i + 6] + b;
    assert s == a + "export" + b && b != "";
    assert Blanks(a);
    forall k | 0 <= k < |b|
      ensures IsBlank(b[k])
    {
      assert b[k] == s[i + 6 + k];
    }
    assert Blanks(b);
  }

  /** A line is an assignment exactly when it is spelled as one, and the parts found are the ones it is made of. */
  lemma AssignmentExactlyWhen(t: string, prefix: string, name: string, value: string)
    ensures Match(t) == Some(Assignment(prefix, name, value)) <==> exists gap :: Assigns(t, prefix, name, gap, value)
  {
    hide *;
    if gap :| Assigns(t, prefix, name, gap, value) {
      SpelledMatches(t, prefix, name, gap, value);
    }
    if Match(t) == Some(Assignment(prefix, name, value)) {
      MatchIsSpelled(t, prefix, name, value);
    }
  }

  lemma NamedIsName(s: string)
    ensures Named(s) <==> IsName(s)
  {
  }

  lemma SpelledMatches(t: string, prefix: string, name: string, gap: string, value: string)
    requires Assigns(t, prefix, name, gap, value)
    ensures Match(t) == Some(Assignment(prefix, name, value))
  {
    NamedIsName(name);
    assert name != "";
    hide IsPrefix, Leads, Match, Named, IsName;
    LeadsIsPrefix(prefix);
    var j, n, k := |prefix|, |prefix + name|, |prefix + name + gap|;
    assert t[..j] == prefix && t[j..n] == name && t[k + 1..] == value && t[k] == '=';
    assert forall i :: n <= i < k ==> t[i] == gap[i - n];
    MatchIs(t, j, n, k);
  }

  lemma MatchIsSpelled(t: string, prefix: string, name: string, value: string)
    requires Match(t) == Some(Assignment(prefix, name, value))
    ensures exists gap :: Assigns(t, prefix, name, gap, value)
  {
    hide IsPrefix, Leads, Match, Named, IsName;
    var j, n, k := MatchHasShape(t);
    var gap := t[n..k];
    LeadsIsPrefix(prefix);
    NamedIsName(name);
    assert t == t[..j] + t[j..n] + gap + "=" + t[k + 1..];
    assert Blanks(gap);
    assert Assigns(t, prefix, name, gap, value);
  }

  lemma {:induction false} BodyOf(t: string, end: string)
    requires t != "" && !IsEnding(t[|t| - 1]) && forall i :: 0 <= i < |end| ==> IsEnding(end[i])
    ensures Body(t + end) == t
  {
    if end == "" {
      assert t + end == t;
    } else {
      assert (t + end)[..|t + end| - 1] == t + end[..|end| - 1];
      BodyOf(t, end[..|end| - 1]);
    }
  }

  lemma ReplacedIs(values: Values, t: string, end: string, prefix: string, name: string, gap: string, value: string)
    requires Assigns(t, prefix, name, gap, value) && name in values
    requires t != "" && !IsEnding(t[|t| - 1]) && forall i :: 0 <= i < |end| ==> IsEnding(end[i])
    ensures Replaced(values, t + end) == prefix + name + "=" + values[name] + end
  {
    BodyOf(t, end);
    hide Assigns, Match, Body;
    AssignmentExactlyWhen(t, prefix, name, value);
    assert (t + end)[|t|..] == end;
  }

  /** In the line of a variable that is written only the value changes, and blanks before the sign go: what leads
      stays, the ending stays, the last line is given a break. */
  lemma WrittenLineKeepsItsFrame(
    c: Catalogue, values: Values, raw: string, i: nat,
    t: string, end: string, prefix: string, name: string, gap: string, value: string)
    requires Writable(c, values) && (forall i :: 0 <= i < |c.order| ==> IsName(c.order[i]))
    requires i < |Lines(raw)| && Lines(raw)[i] == t + end
    requires Assigns(t, prefix, name, gap, value) && name in values
    requires t != "" && t[|t| - 1] != '\r' && t[|t| - 1] != '\n'
    requires forall i :: 0 <= i < |end| ==> end[i] == '\r' || end[i] == '\n'
    ensures
      var after, line := Lines(WriteText(c, values, raw)), prefix + name + "=" + values[name] + end;
      i < |after| && (after[i] == line || (i == |Lines(raw)| - 1 && after[i] == line + "\n"))
  {
    var lines := Lines(raw);
    ReplacedIs(values, t, end, prefix, name, gap, value);
    hide Replaced, IsLine, IsName, Safe, Match, Body, Added, Assigned, Lines, Assigns;
    LinesAreLines(raw);
    WrittenAreLines(c, values, lines);
    LinesOfConcat(WrittenLines(c, values, lines));
  }

  lemma {:induction false} TrimLeftAround(a: string, t: string)
    requires (forall i :: 0 <= i < |a| ==> IsSpace(a[i])) && t != "" && !IsSpace(t[0])
    ensures TrimLeft(a + t) == t
  {
    hide IsSpace;
    if a == "" {
      assert a + t == t;
    } else {
      assert (a + t)[1..] == a[1..] + t;
      TrimLeftAround(a[1..], t);
    }
  }

  lemma {:induction false} TrimRightAround(t: string, b: string)
    requires (forall i :: 0 <= i < |b| ==> IsSpace(b[i])) && t != "" && !IsSpace(t[|t| - 1])
    ensures TrimRight(t + b) == t
  {
    hide IsSpace;
    if b == "" {
      assert t + b == t;
    } else {
      assert (t + b)[..|t + b| - 1] == t + b[..|b| - 1];
      TrimRightAround(t, b[..|b| - 1]);
    }
  }

  lemma TrimSpaceAround(a: string, t: string, b: string)
    requires forall i :: 0 <= i < |a| ==> IsSpace(a[i])
    requires forall i :: 0 <= i < |b| ==> IsSpace(b[i])
    requires t != "" && !IsSpace(t[0]) && !IsSpace(t[|t| - 1])
    ensures TrimSpace(a + t + b) == t
  {
    hide IsSpace, TrimLeft, TrimRight;
    assert a + t + b == a + (t + b);
    TrimLeftAround(a, t + b);
    TrimRightAround(t, b);
  }

  /** One pair of quotes around a value goes, with the white space around them; what is between them stays. */
  lemma QuotesAreDropped(a: string, quote: char, v: string, b: string)
    requires forall i :: 0 <= i < |a| ==> IsSpace(a[i])
    requires forall i :: 0 <= i < |b| ==> IsSpace(b[i])
    requires quote == '"' || quote == '\''
    ensures Unquote(a + [quote] + v + [quote] + b) == v
  {
    hide *;
    var t := [quote] + v + [quote];
    QuotedIsBare(quote, v);
    TrimSpaceAround(a, t, b);
    assert a + [quote] + v + [quote] + b == a + t + b;
    assert Unquote(a + t + b) == Bare(t) by { UnquoteIs(a + t + b); }
  }

  lemma UnquoteIs(value: string)
    ensures Unquote(value) == Bare(TrimSpace(value))
  {
    hide TrimSpace;
  }

  lemma QuotedIsBare(quote: char, v: string)
    requires quote == '"' || quote == '\''
    ensures !IsSpace(quote) && Bare([quote] + v + [quote]) == v
  {
    var t := [quote] + v + [quote];
    assert t[1..|t| - 1] == v;
  }

  /** Any other value stays as it is, without the white space around it. */
  lemma OtherValuesStay(a: string, v: string, b: string)
    requires forall i :: 0 <= i < |a| ==> IsSpace(a[i])
    requires forall i :: 0 <= i < |b| ==> IsSpace(b[i])
    requires v == "" || (!IsSpace(v[0]) && !IsSpace(v[|v| - 1]))
    requires |v| < 2 || v[0] != v[|v| - 1] || (v[0] != '"' && v[0] != '\'')
    ensures Unquote(a + v + b) == v
  {
    hide IsSpace, TrimLeft, TrimRight;
    if v == "" {
      TrimLeftNothing(a + v + b);
    } else {
      TrimSpaceAround(a, v, b);
    }
  }

  lemma {:induction false} ChannelsApart(a: seq<string>, b: seq<string>)
    ensures ChannelsOf(a + b) == ChannelsOf(a) + ChannelsOf(b)
  {
    assert ChannelsOf([]) == [];
    if b == [] {
      assert a + b == a;
    } else {
      hide TrimSpace, Cut, IsChannel;
      var n := |b| - 1;
      assert (a + b)[..|a + b| - 1] == a + b[..n] && (a + b)[|a + b| - 1] == b[n];
      ChannelsApart(a, b[..n]);
    }
  }

  lemma ChannelsIs(value: string)
    ensures Channels(value) == ChannelsOf(Split(Unquote(value), ','))
  {
  }

  lemma PairNames(id: string, rest: string)
    requires '=' !in id && (id == "" || !IsSpace(id[0])) && (rest == "" || !IsSpace(rest[|rest| - 1]))
    ensures ChannelsOf([id + "=" + rest])
         == if 1 <= |id| <= 20 && (forall i :: 0 <= i < |id| ==> '0' <= id[i] <= '9') then [id] else []
  {
    var pair := id + "=" + rest;
    assert pair[|pair| - 1] == if rest == "" then '=' else rest[|rest| - 1];
    assert !IsSpace('=');
    hide IsSpace, TrimSpace, Cut, ChannelsOf;
    assert "=" == ['='];
    CutJoined(id, '=', rest);
    TrimSpaceTrims(pair);
    ChannelOfOne(pair, id);
  }

  lemma ChannelOfOne(pair: string, id: string)
    requires Cut(TrimSpace(pair), '=').0 == id
    ensures ChannelsOf([pair]) == if IsChannel(id) then [id] else []
  {
    hide Cut, TrimSpace, IsChannel;
    assert [pair][..0] == [] && ChannelsOf([]) == [];
  }

  /** Each pair between the commas names the channel before its sign, if that is one to twenty digits. */
  lemma ChannelsAreNamed(before: seq<string>, id: string, rest: string, after: seq<string>)
    requires '=' !in id && (id == "" || !IsSpace(id[0])) && (rest == "" || !IsSpace(rest[|rest| - 1]))
    requires forall p <- before + [id + "=" + rest] + after :: ',' !in p
    requires var text := Join(before + [id + "=" + rest] + after, ','); Unquote(text) == text
    ensures Channels(Join(before + [id + "=" + rest] + after, ','))
         == ChannelsOf(before)
            + (if 1 <= |id| <= 20 && (forall i :: 0 <= i < |id| ==> '0' <= id[i] <= '9') then [id] else [])
            + ChannelsOf(after)
  {
    var pair := id + "=" + rest;
    PairNames(id, rest);
    hide *;
    assert Channels(Join(before + [pair] + after, ',')) == ChannelsOf(before + [pair] + after) by {
      SplitJoin(before + [pair] + after, ',');
      ChannelsIs(Join(before + [pair] + after, ','));
    }
    ChannelsApart(before + [pair], after);
    ChannelsApart(before, [pair]);
  }

  lemma OneLineMore(raw: string, line: string)
    requires raw == "" || raw[|raw| - 1] == '\n'
    requires IsLine(line)
    ensures Lines(raw + line) == Lines(raw) + [line]
  {
    LinesAreLines(raw);
    var ls := Lines(raw);
    assert raw == "" ==> ls == [];
    hide *;
    if raw != "" {
      assert ls != [] by { NothingConcat(); }
      LastBreak(ls);
    }
    AreLinesMore(ls, line);
    ConcatMore(ls, line);
    LinesOfConcat(ls + [line]);
  }

  lemma NothingConcat()
    ensures Concat([]) == ""
  {
  }

  lemma AreLinesMore(ls: seq<string>, line: string)
    requires AreLines(ls) && IsLine(line) && (ls != [] ==> Broken(ls[|ls| - 1]))
    ensures AreLines(ls + [line])
  {
    hide IsLine, Broken;
  }

  lemma LastBreak(ls: seq<string>)
    requires ls != [] && AreLines(ls) && Concat(ls) != "" && Concat(ls)[|Concat(ls)| - 1] == '\n'
    ensures Broken(ls[|ls| - 1])
  {
    var n := |ls| - 1;
    assert ls == ls[..n] + [ls[n]];
    ConcatMore(ls[..n], ls[n]);
  }

  /** What an assignment makes of a reading. */
  ghost predicate Says(c: Catalogue, before: Reading, name: string, value: string, after: Reading) {
    after == if name !in c.order then before
             else if name == c.webhooks then Reading(before.values, Channels(value))
             else Reading(before.values[name := Unquote(value)], before.webhooks)
  }

  lemma MatchSays(c: Catalogue, before: Reading, line: string, a: Assignment)
    requires Match(ScannerText(line)) == Some(a)
    ensures Says(c, before, a.name, a.value, ReadLine(c, before, line))
  {
    hide Match, ScannerText, Channels, Unquote;
  }

  lemma NoMatchSaysNothing(c: Catalogue, before: Reading, line: string)
    requires Match(ScannerText(line)).None?
    ensures ReadLine(c, before, line) == before
  {
    hide Match, ScannerText, Channels, Unquote;
  }

  lemma NextLineIs(c: Catalogue, raw: string, t: string, end: string)
    requires raw == "" || raw[|raw| - 1] == '\n'
    requires t != "" && t[|t| - 1] != '\r' && '\n' !in t && (end == "" || end == "\n" || end == "\r\n")
    ensures ScannerText(t + end) == t
    ensures ReadText(c, raw + (t + end)) == ReadLine(c, ReadText(c, raw), t + end)
  {
    OneScanned(t, end);
    hide Lines, IsLine, ScannerText, ReadLine, ReadLines;
    OneLineMore(raw, t + end);
    ReadOneMore(c, Lines(raw), t + end);
  }

  /** The next line of a file, with either break or none: an assignment to a setting gives it its value whatever
      was read before, the webhook list is read anew, and any other line says nothing. */
  lemma NextLineReads(c: Catalogue, raw: string, t: string, end: string)
    requires raw == "" || raw[|raw| - 1] == '\n'
    requires t != "" && t[|t| - 1] != '\r' && '\n' !in t && (end == "" || end == "\n" || end == "\r\n")
    ensures forall prefix, name, gap, value :: Assigns(t, prefix, name, gap, value) ==>
              Says(c, ReadText(c, raw), name, value, ReadText(c, raw + (t + end)))
    ensures (forall prefix, name, gap, value :: !Assigns(t, prefix, name, gap, value)) ==>
              ReadText(c, raw + (t + end)) == ReadText(c, raw)
  {
    hide *;
    var before, after := ReadText(c, raw), ReadText(c, raw + (t + end));
    NextLineIs(c, raw, t, end);
    forall prefix, name, gap, value | Assigns(t, prefix, name, gap, value)
      ensures Says(c, before, name, value, after)
    {
      AssignmentExactlyWhen(t, prefix, name, value);
      MatchSays(c, before, t + end, Assignment(prefix, name, value));
    }
    if Match(t).Some? {
      var a := Match(t).value;
      AssignmentExactlyWhen(t, a.prefix, a.name, a.value);
    } else {
      NoMatchSaysNothing(c, before, t + end);
    }
  }

  lemma OneScanned(t: string, end: string)
    requires t != "" && t[|t| - 1] != '\r' && '\n' !in t && (end == "" || end == "\n" || end == "\r\n")
    ensures IsLine(t + end) && ScannerText(t + end) == t
  {
    assert forall i :: 0 <= i < |t| ==> t[i] in t;
    if end == "" {
      assert t + end == t;
    } else if end == "\r\n" {
      assert (t + end)[..|t + end| - 1] == t + "\r" && (t + "\r")[..|t|] == t;
    } else {
      assert (t + end)[..|t + end| - 1] == t;
    }
  }

  /** No blank, and none of the characters a shell reads. */
  ghost predicate Harmless(value: string) {
    forall c <- value :: c !in " \t\n\r\U{000C}$#'\"`\\"
  }

  lemma SafeIsHarmless(value: string)
    ensures Safe(value) <==> Harmless(value)
  {
    if Safe(value) {
      forall c <- value
        ensures c !in " \t\n\r\U{000C}$#'\"`\\"
      {
        var i :| 0 <= i < |value| && value[i] == c;
      }
    } else {
      assert forall i :: 0 <= i < |value| ==> value[i] in value;
    }
  }

  // ---- the file ----------------------------------------------------------------------------------------

  /** The file, when there is one; what goes wrong with the disk is not part of this model. */
  class EnvFile {
    const catalogue: Catalogue
    var content: Option<string>

    constructor (catalogue: Catalogue, content: Option<string>)
      ensures this.catalogue == catalogue && this.content == content
    {
      this.catalogue := catalogue;
      this.content := content;
    }

    function Text(): string
      reads this
    {
      if content.Some? then content.value else ""
    }

    method ReadWebhooks(value: string) returns (webhooks: seq<string>)
      ensures webhooks == Channels(value)
    {
      hide Split, Unquote, TrimSpace, Cut, IsChannel;
      var pairs := Split(Unquote(value), ',');
      webhooks := [];
      for i := 0 to |pairs|
        invariant webhooks == ChannelsOf(pairs[..i])
      {
        assert pairs[..i + 1][..i] == pairs[..i];
        var id := Cut(TrimSpace(pairs[i]), '=').0;
        if IsChannel(id) {
          webhooks := webhooks + [id];
        }
      }
      assert pairs[..|pairs|] == pairs;
    }

    method Read() returns (values: Values, webhooks: seq<string>)
      ensures Reading(values, webhooks) == ReadText(catalogue, Text())
    {
      hide Match, ScannerText, Unquote, Channels;
      values, webhooks := map[], [];
      if content.None? {
        assert Lines("") == [];
        return;
      }
      var lines := Lines(content.value);
      for i := 0 to |lines|
        invariant Reading(values, webhooks) == ReadLines(catalogue, lines[..i])
      {
        assert lines[..i + 1][..i] == lines[..i];
        var found := Match(ScannerText(lines[i]));
        if found.None? || found.value.name !in catalogue.order {
          continue;
        }
        if found.value.name == catalogue.webhooks {
          webhooks := ReadWebhooks(found.value.value);
          continue;
        }
        values := values[found.value.name := Unquote(found.value.value)];
      }
      assert lines[..|lines|] == lines;
    }

    /** Nothing is written when some value may not be. */
    method Write(values: Values) returns (ok: bool)
      modifies this
      ensures ok == Writable(catalogue, values)
      ensures ok <==> forall name <- values :: name in catalogue.order && name != catalogue.webhooks && Harmless(values[name])
      ensures content == if ok then Some(WriteText(catalogue, values, old(Text()))) else old(content)
    {
      hide Match, Body, Safe, Harmless;
      forall value ensures Safe(value) <==> Harmless(value) {
        SafeIsHarmless(value);
      }
      if !Writable(catalogue, values) {
        return false;
      }
      var lines := Lines(Text());
      LinesAreLines(Text());
      var rewritten, written := Rewrite(values, lines);
      var added := Append(values, written);
      ConcatTwo(Ended(ReplacedAll(values, lines)), Added(catalogue.order, values, written));
      content := Some(rewritten + added);
      return true;
    }

    /** The lines there are, each rewritten if it is a variable's that is written. */
    method Rewrite(values: Values, lines: seq<string>) returns (out: string, written: set<string>)
      requires AreLines(lines) && forall name :: name in values ==> Safe(values[name])
      ensures out == Concat(Ended(ReplacedAll(values, lines))) && written == Assigned(values, lines)
    {
      hide Match, Body, Safe, IsLine;
      out, written := "", {};
      for i := 0 to |lines|
        invariant out == Concat(ReplacedAll(values, lines[..i])) && written == Assigned(values, lines[..i])
      {
        var line := lines[i];
        var body := Body(line);
        var found := Match(body);
        OneMoreReplaced(values, lines, i);
        if found.Some? && found.value.name in values {
          out := out + (found.value.prefix + found.value.name + "=" + values[found.value.name] + line[|body|..]);
          written := written + {found.value.name};
        } else {
          out := out + line;
        }
      }
      assert lines[..|lines|] == lines;
      EndedConcat(values, lines);
      if |out| > 0 && out[|out| - 1] != '\n' {
        out := out + "\n";
      }
    }

    method Append(values: Values, written: set<string>) returns (out: string)
      ensures out == Concat(Added(catalogue.order, values, written))
    {
      out := "";
      var order := catalogue.order;
      for i := 0 to |order|
        invariant out == Concat(Added(order[..i], values, written))
      {
        assert order[..i + 1][..i] == order[..i];
        var name := order[i];
        if name in values && name !in written {
          ConcatMore(Added(order[..i], values, written), name + "=" + values[name] + "\n");
          out := out + (name + "=" + values[name] + "\n");
        }
      }
      assert order[..|order|] == order;
    }
  }

  lemma {:induction false} ConcatMore(lines: seq<string>, line: string)
    ensures Concat(lines + [line]) == Concat(lines) + line
  {
    if lines == [] {
      assert [] + [line] == [line] && [line][1..] == [];
    } else {
      ConcatMore(lines[1..], line);
      assert (lines + [line])[1..] == lines[1..] + [line];
    }
  }

  lemma {:induction false} ConcatTwo(a: seq<string>, b: seq<string>)
    ensures Concat(a + b) == Concat(a) + Concat(b)
  {
    assert Concat([]) == "";
    if a == [] {
      assert a + b == b;
    } else {
      ConcatTwo(a[1..], b);
      assert (a + b)[1..] == a[1..] + b;
    }
  }

  lemma OneMoreReplaced(values: Values, lines: seq<string>, i: nat)
    requires i < |lines|
    ensures Concat(ReplacedAll(values, lines[..i + 1])) == Concat(ReplacedAll(values, lines[..i])) + Replaced(values, lines[i])
    ensures Assigned(values, lines[..i + 1]) == Assigned(values, lines[..i]) + NamesIn(values, lines[i])
  {
    hide Replaced, NameOf, Assigned;
    assert ReplacedAll(values, lines[..i + 1]) == ReplacedAll(values, lines[..i]) + [Replaced(values, lines[i])];
    ConcatMore(ReplacedAll(values, lines[..i]), Replaced(values, lines[i]));
    AssignedMore(values, lines[..i + 1]);
    assert lines[..i + 1][..i] == lines[..i];
  }

  lemma {:induction false} EndedConcat(values: Values, lines: seq<string>)
    requires AreLines(lines) && forall name :: name in values ==> Safe(values[name])
    ensures
      var out := Concat(ReplacedAll(values, lines));
      Concat(Ended(ReplacedAll(values, lines))) == if |out| > 0 && out[|out| - 1] != '\n' then out + "\n" else out
  {
    hide Replaced, Safe;
    var replaced := ReplacedAll(values, lines);
    if replaced != [] {
      var n := |replaced| - 1;
      var last := replaced[n];
      ReplacedIsLine(values, lines[n]);
      assert replaced == replaced[..n] + [last];
      ConcatMore(replaced[..n], last);
      ConcatMore(replaced[..n], last + "\n");
      assert Concat(replaced)[|Concat(replaced)| - 1] == last[|last| - 1];
      assert Concat(replaced[..n]) + (last + "\n") == (Concat(replaced[..n]) + last) + "\n";
    }
  }
}
