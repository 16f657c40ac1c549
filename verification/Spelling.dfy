/** The words of a text: its longest runs of characters that are not white space. */
module Spelling {
  type Space = char -> bool

  /** What is used of white space: a space and a line break are. */
  ghost predicate Usual(space: Space) { space(' ') && space('\n') }

  /** What is used of other characters: a letter and the marks that end a sentence are no white space. */
  ghost predicate Ordinary(space: Space) {
    Usual(space) && !space('x') && !space('.') && !space('!') && !space('?')
  }

  function Words(space: Space, text: string): (ws: seq<string>)
    ensures text != "" && !space(text[0]) ==> |ws| > 0
  {
    if text == "" then []
    else if space(text[0]) then Words(space, text[1..])
    else if |text| == 1 || space(text[1]) then [[text[0]]] + Words(space, text[1..])
    else
      var ws := Words(space, text[1..]);
      [[text[0]] + ws[0]] + ws[1..]
  }

  /** A word at the start stands alone, or goes on with what the rest starts with. */
  lemma WordsFromWord(space: Space, text: string)
    requires text != "" && !space(text[0])
    ensures
      var rest := Words(space, text[1..]);
      if |text| == 1 || space(text[1]) then Words(space, text) == [[text[0]]] + rest
      else rest != [] && Words(space, text) == [[text[0]] + rest[0]] + rest[1..]
  {
  }

  lemma OneConcat(space: Space, a: string, b: string)
    requires |a| == 1 && b != "" && (space(a[0]) || space(b[0]))
    ensures Words(space, a + b) == Words(space, a) + Words(space, b)
  {
    assert (a + b)[1..] == b;
    assert a[1..] == "";
  }

  /** Cutting at white space cuts no word. */
  lemma {:induction false} WordsConcat(space: Space, a: string, b: string)
    requires a == "" || b == "" || space(a[|a| - 1]) || space(b[0])
    ensures Words(space, a + b) == Words(space, a) + Words(space, b)
  {
    if a == "" {
      assert a + b == b;
    } else if b == "" {
      assert a + b == a;
    } else if |a| == 1 {
      OneConcat(space, a, b);
    } else {
      WordsConcat(space, a[1..], b);
      assert (a + b)[1..] == a[1..] + b;
    }
  }

  /** Blank text spells nothing. */
  lemma {:induction false} BlankWords(space: Space, text: string)
    ensures (forall i :: 0 <= i < |text| ==> space(text[i])) <==> Words(space, text) == []
  {
    if text != "" && space(text[0]) {
      BlankWords(space, text[1..]);
      assert forall i :: 1 <= i < |text| ==> text[i] == text[1..][i - 1];
    }
  }

  function StripLeft(space: Space, text: string): string {
    if text != "" && space(text[0]) then StripLeft(space, text[1..]) else text
  }

  function StripRight(space: Space, text: string): string {
    if text != "" && space(text[|text| - 1]) then StripRight(space, text[..|text| - 1]) else text
  }

  function Strip(space: Space, text: string): string { StripRight(space, StripLeft(space, text)) }

  lemma {:induction false} StripLeftWords(space: Space, text: string)
    ensures Words(space, StripLeft(space, text)) == Words(space, text)
    ensures |StripLeft(space, text)| <= |text|
  {
    if text != "" && space(text[0]) {
      StripLeftWords(space, text[1..]);
    }
  }

  lemma {:induction false} StripRightWords(space: Space, text: string)
    ensures Words(space, StripRight(space, text)) == Words(space, text)
    ensures |StripRight(space, text)| <= |text|
    ensures StripRight(space, text) <= text
  {
    if text != "" && space(text[|text| - 1]) {
      var n := |text| - 1;
      StripRightWords(space, text[..n]);
      WordsConcat(space, text[..n], [text[n]]);
      assert text == text[..n] + [text[n]];
      BlankWords(space, [text[n]]);
    }
  }

  lemma {:induction false} StripWords(space: Space, text: string)
    ensures Words(space, Strip(space, text)) == Words(space, text)
    ensures |Strip(space, text)| <= |text|
  {
    StripLeftWords(space, text);
    StripRightWords(space, StripLeft(space, text));
  }

  lemma {:induction false} StripLeftEnds(space: Space, text: string)
    ensures var t := StripLeft(space, text); t == "" || !space(t[0])
  {
    if text != "" && space(text[0]) {
      StripLeftEnds(space, text[1..]);
    }
  }

  lemma {:induction false} StripRightEnds(space: Space, text: string)
    ensures var t := StripRight(space, text); t == "" || !space(t[|t| - 1])
  {
    if text != "" && space(text[|text| - 1]) {
      StripRightEnds(space, text[..|text| - 1]);
    }
  }

  /** Not empty, and with white space at neither end. */
  predicate Tight(space: Space, text: string) { text != "" && !space(text[0]) && !space(text[|text| - 1]) }

  predicate AllTight(space: Space, texts: seq<string>) {
    forall i :: 0 <= i < |texts| ==> Tight(space, texts[i])
  }

  lemma {:induction false} StripLeftAround(space: Space, a: string, t: string)
    requires (forall i :: 0 <= i < |a| ==> space(a[i])) && t != "" && !space(t[0])
    ensures StripLeft(space, a + t) == t
  {
    if a == "" {
      assert a + t == t;
    } else {
      assert (a + t)[1..] == a[1..] + t;
      StripLeftAround(space, a[1..], t);
    }
  }

  lemma {:induction false} StripRightAround(space: Space, t: string, b: string)
    requires (forall i :: 0 <= i < |b| ==> space(b[i])) && t != "" && !space(t[|t| - 1])
    ensures StripRight(space, t + b) == t
  {
    if b == "" {
      assert t + b == t;
    } else {
      assert (t + b)[..|t + b| - 1] == t + b[..|b| - 1];
      StripRightAround(space, t, b[..|b| - 1]);
    }
  }

  /** White space at both ends goes, and nothing else. */
  lemma StripAround(space: Space, a: string, t: string, b: string)
    requires (forall i :: 0 <= i < |a| ==> space(a[i])) && (forall i :: 0 <= i < |b| ==> space(b[i]))
    requires Tight(space, t)
    ensures Strip(space, a + t + b) == t
  {
    assert a + t + b == a + (t + b);
    StripLeftAround(space, a, t + b);
    StripRightAround(space, t, b);
  }

  lemma {:induction false} StripLeftParts(space: Space, text: string) returns (a: string)
    ensures text == a + StripLeft(space, text) && forall i :: 0 <= i < |a| ==> space(a[i])
  {
    a := "";
    if text != "" && space(text[0]) {
      var rest := StripLeftParts(space, text[1..]);
      a := [text[0]] + rest;
      assert text == [text[0]] + text[1..];
    }
  }

  lemma {:induction false} StripRightParts(space: Space, text: string) returns (b: string)
    ensures text == StripRight(space, text) + b && forall i :: 0 <= i < |b| ==> space(b[i])
  {
    b := "";
    if text != "" && space(text[|text| - 1]) {
      var n := |text| - 1;
      var rest := StripRightParts(space, text[..n]);
      b := rest + [text[n]];
      assert text == text[..n] + [text[n]];
    }
  }

  /** A text is what is stripped of it, around its stripped form. */
  lemma StripParts(space: Space, text: string) returns (a: string, b: string)
    ensures text == a + Strip(space, text) + b
    ensures (forall i :: 0 <= i < |a| ==> space(a[i])) && forall i :: 0 <= i < |b| ==> space(b[i])
  {
    hide StripLeft, StripRight;
    a := StripLeftParts(space, text);
    b := StripRightParts(space, StripLeft(space, text));
  }

  /** Stripping leaves nothing, or a text it would leave as it is. */
  lemma {:induction false} StripIsTight(space: Space, text: string)
    ensures var t := Strip(space, text); t == "" || (Tight(space, t) && Strip(space, t) == t)
  {
    StripLeftEnds(space, text);
    StripRightWords(space, StripLeft(space, text));
    StripRightEnds(space, StripLeft(space, text));
  }

  /** Empty after stripping exactly when it spells nothing. */
  lemma {:induction false} StripIsEmpty(space: Space, text: string)
    ensures Strip(space, text) == "" <==> Words(space, text) == []
  {
    StripWords(space, text);
    StripLeftEnds(space, text);
    StripLeftWords(space, text);
    NoWords(space);
    var t := StripLeft(space, text);
    if t != "" {
      assert |Words(space, t)| > 0;
      FirstStays(space, t);
    }
  }

  lemma {:induction false} FirstStays(space: Space, text: string)
    requires text != "" && !space(text[0])
    ensures StripRight(space, text) != ""
  {
    if space(text[|text| - 1]) {
      FirstStays(space, text[..|text| - 1]);
    }
  }

  predicate IsWord(space: Space, word: string) {
    word != "" && forall i :: 0 <= i < |word| ==> !space(word[i])
  }

  /** A word spells itself. */
  lemma {:induction false} WordIsWord(space: Space, word: string)
    requires IsWord(space, word)
    ensures Words(space, word) == [word]
  {
    var rest := word[1..];
    assert word == [word[0]] + rest && !space(word[0]);
    if |word| == 1 {
      NoWords(space);
      assert rest == "" && [word[0]] == word;
    } else {
      assert !space(word[1]);
      assert |rest| > 0 && forall i :: 0 <= i < |rest| ==> rest[i] == word[i + 1];
      assert IsWord(space, rest);
      WordIsWord(space, rest);
    }
  }

  predicate AllWords(space: Space, ws: seq<string>) {
    forall i :: 0 <= i < |ws| ==> IsWord(space, ws[i])
  }

  lemma {:induction false} WordsAreWords(space: Space, text: string)
    ensures AllWords(space, Words(space, text))
  {
    if text != "" {
      WordsAreWords(space, text[1..]);
      var ws := Words(space, text[1..]);
      if !space(text[0]) && !(|text| == 1 || space(text[1])) {
        assert IsWord(space, ws[0]);
        assert IsWord(space, [text[0]] + ws[0]);
      }
    }
  }

  lemma {:induction false} WordsAround(space: Space, a: string, sep: string, b: string)
    requires sep != "" && forall i :: 0 <= i < |sep| ==> space(sep[i])
    ensures Words(space, a + sep + b) == Words(space, a) + Words(space, b)
  {
    BlankWords(space, sep);
    hide Words;
    WordsConcat(space, a, sep);
    assert (a + sep)[|a + sep| - 1] == sep[|sep| - 1];
    WordsConcat(space, a + sep, b);
  }

  /** A space between two texts keeps their words apart. */
  lemma {:induction false} WordsAroundSpace(space: Space, a: string, b: string)
    requires space(' ')
    ensures Words(space, a + " " + b) == Words(space, a) + Words(space, b)
  {
    WordsAround(space, a, " ", b);
  }

  lemma NoWords(space: Space)
    ensures Words(space, "") == []
  {
  }

  function Join(texts: seq<string>, sep: string): string {
    if texts == [] then ""
    else if |texts| == 1 then texts[0]
    else Join(texts[..|texts| - 1], sep) + sep + texts[|texts| - 1]
  }

  lemma {:induction false} JoinIsTight(space: Space, texts: seq<string>, sep: string)
    requires texts != [] && AllTight(space, texts)
    ensures Tight(space, Join(texts, sep))
  {
    if |texts| > 1 {
      assert Tight(space, texts[|texts| - 1]);
      JoinIsTight(space, texts[..|texts| - 1], sep);
    }
  }

  /** The words of several texts, one after the other. */
  function AllOf(space: Space, texts: seq<string>): seq<string> {
    if texts == [] then [] else AllOf(space, texts[..|texts| - 1]) + Words(space, texts[|texts| - 1])
  }

  lemma {:induction false} JoinWords(space: Space, texts: seq<string>, sep: string)
    requires sep != "" && forall i :: 0 <= i < |sep| ==> space(sep[i])
    ensures Words(space, Join(texts, sep)) == AllOf(space, texts)
  {
    hide Words;
    if texts == [] {
      NoWords(space);
    } else if |texts| == 1 {
      assert AllOf(space, texts[..0]) == [];
    } else if |texts| > 1 {
      var n := |texts| - 1;
      JoinWords(space, texts[..n], sep);
      WordsAround(space, Join(texts[..n], sep), sep, texts[n]);
    }
  }

  lemma AllOfMore(space: Space, texts: seq<string>, text: string)
    ensures AllOf(space, texts + [text]) == AllOf(space, texts) + Words(space, text)
  {
    hide Words;
    assert (texts + [text])[..|texts|] == texts;
  }

  lemma {:induction false} AllOfConcat(space: Space, a: seq<string>, b: seq<string>)
    ensures AllOf(space, a + b) == AllOf(space, a) + AllOf(space, b)
  {
    assert AllOf(space, []) == [];
    hide Words, AllOf;
    if b == [] {
      assert a + b == a;
    } else {
      var front, last := b[..|b| - 1], b[|b| - 1];
      AllOfConcat(space, a, front);
      AllOfMore(space, a + front, last);
      AllOfMore(space, front, last);
      assert a + b == (a + front) + [last] && b == front + [last];
    }
  }

  lemma AllOfOne(space: Space, text: string)
    ensures AllOf(space, [text]) == Words(space, text)
  {
    hide Words;
    assert AllOf(space, [text][..0]) == [];
  }
}
