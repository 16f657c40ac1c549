/** The string operations the parsers share, as the Go library defines them on code points. */
module Text {

  /** White space as the Unicode tables list it. */
  predicate IsSpace(c: char) {
    || '\t' <= c <= '\r' || c == ' '
    || c == '\U{0085}' || c == '\U{00A0}' || c == '\U{1680}'
    || '\U{2000}' <= c <= '\U{200A}'
    || c == '\U{2028}' || c == '\U{2029}' || c == '\U{202F}' || c == '\U{205F}' || c == '\U{3000}'
  }

  function TrimLeft(s: string): (r: string)
    ensures r == [] || !IsSpace(r[0])
    ensures |r| <= |s| && r == s[|s| - |r|..]
    ensures forall i :: 0 <= i < |s| - |r| ==> IsSpace(s[i])
  {
    if s != [] && IsSpace(s[0]) then TrimLeft(s[1..]) else s
  }

  function TrimRight(s: string): (r: string)
    ensures r == [] || !IsSpace(r[|r| - 1])
    ensures |r| <= |s| && r == s[..|r|]
    ensures forall i :: |r| <= i < |s| ==> IsSpace(s[i])
  {
    if s != [] && IsSpace(s[|s| - 1]) then TrimRight(s[..|s| - 1]) else s
  }

  function TrimSpace(s: string): string {
    TrimRight(TrimLeft(s))
  }

  /** No white space at either end. */
  predicate Trimmed(s: string) {
    s == [] || (!IsSpace(s[0]) && !IsSpace(s[|s| - 1]))
  }

  lemma TrimSpaceTrims(s: string)
    ensures Trimmed(TrimSpace(s))
    ensures Trimmed(s) ==> TrimSpace(s) == s
    ensures forall c <- TrimSpace(s) :: c in s
  {
    var left := TrimLeft(s);
    var r := TrimRight(left);
    if r != [] {
      assert r[0] == left[0];
    }
  }

  /** The pieces between separators; never empty. */
  function Split(s: string, separator: char): (pieces: seq<string>)
    ensures pieces != []
    ensures forall p <- pieces :: separator !in p
  {
    if s == [] then [[]]
    else
      var rest := Split(s[1..], separator);
      if s[0] == separator then [[]] + rest else [[s[0]] + rest[0]] + rest[1..]
  }

  function Join(pieces: seq<string>, separator: char): string {
    if pieces == [] then []
    else if |pieces| == 1 then pieces[0]
    else pieces[0] + [separator] + Join(pieces[1..], separator)
  }

  /** Joining the pieces of a text gives the text back. */
  lemma {:induction false} JoinSplit(s: string, separator: char)
    ensures Join(Split(s, separator), separator) == s
  {
    if s != [] {
      var rest := Split(s[1..], separator);
      JoinSplit(s[1..], separator);
      if s[0] == separator {
        assert ([[]] + rest)[1..] == rest;
        assert Join(Split(s, separator), separator) == [separator] + Join(rest, separator);
      } else if |rest| == 1 {
        assert Split(s, separator) == [[s[0]] + rest[0]];
      } else {
        var pieces := Split(s, separator);
        assert pieces[0] == [s[0]] + rest[0] && pieces[1..] == rest[1..];
        assert Join(pieces, separator) == [s[0]] + (rest[0] + [separator] + Join(rest[1..], separator));
      }
      assert [s[0]] + s[1..] == s;
    }
  }

  lemma SplitMore(c: char, s: string, separator: char)
    requires c != separator
    ensures Split([c] + s, separator) == [[c] + Split(s, separator)[0]] + Split(s, separator)[1..]
  {
    assert ([c] + s)[1..] == s;
  }

  lemma {:induction false} SplitPrefix(prefix: string, s: string, separator: char)
    requires separator !in prefix
    ensures Split(prefix + s, separator) == [prefix + Split(s, separator)[0]] + Split(s, separator)[1..]
  {
    hide Split;
    var pieces := Split(s, separator);
    if prefix == [] {
      assert prefix + s == s && prefix + pieces[0] == pieces[0];
      assert pieces == [pieces[0]] + pieces[1..];
    } else {
      var rest := prefix[1..];
      SplitPrefix(rest, s, separator);
      SplitMore(prefix[0], rest + s, separator);
      assert prefix + s == [prefix[0]] + (rest + s);
      assert [prefix[0]] + (rest + pieces[0]) == prefix + pieces[0];
    }
  }

  /** Splitting undoes joining when no piece holds the separator. */
  lemma {:induction false} SplitJoin(pieces: seq<string>, separator: char)
    requires pieces != [] && forall p <- pieces :: separator !in p
    ensures Split(Join(pieces, separator), separator) == pieces
  {
    if |pieces| == 1 {
      SplitPrefix(pieces[0], [], separator);
      assert pieces[0] + [] == pieces[0];
    } else {
      var rest := Join(pieces[1..], separator);
      SplitJoin(pieces[1..], separator);
      SplitPrefix(pieces[0], [separator] + rest, separator);
      assert ([separator] + rest)[1..] == rest;
      assert Join(pieces, separator) == pieces[0] + ([separator] + rest);
      assert pieces[0] + [] == pieces[0];
    }
  }

  /** The text before the first mark, the text after it, and whether the mark is there. */
  function Cut(s: string, mark: char): (r: (string, string, bool))
    ensures mark !in r.0
    ensures r.2 <==> mark in s
    ensures r.2 ==> s == r.0 + [mark] + r.1
    ensures !r.2 ==> r.0 == s && r.1 == []
  {
    if s == [] then ([], [], false)
    else if s[0] == mark then ([], s[1..], true)
    else
      var rest := Cut(s[1..], mark);
      ([s[0]] + rest.0, rest.1, rest.2)
  }

  lemma {:induction false} CutJoined(before: string, mark: char, after: string)
    requires mark !in before
    ensures Cut(before + [mark] + after, mark) == (before, after, true)
  {
    if before == [] {
      assert before + [mark] + after == [mark] + after && ([mark] + after)[1..] == after;
    } else {
      assert [before[0]] + before[1..] == before;
      CutJoined(before[1..], mark, after);
      assert (before + [mark] + after)[1..] == before[1..] + [mark] + after;
    }
  }

  predicate IsDigit(c: char) { '0' <= c <= '9' }

  predicate AllDigits(s: string) {
    forall i :: 0 <= i < |s| ==> IsDigit(s[i])
  }
}
