/** Composing a digest: what is old or filtered out, the order, repeated entries, the share of each source, and its
    pages. */
module Digest {
  import opened Wrappers
  import opened Spelling

  /** `published` is missing when unknown. */
  datatype Item = Item(
    id: string, plugin: string, title: string, summary: string, body: string, url: string, source: string,
    published: Option<int>)

  datatype Policy = Policy(
    source: string, query: string, since: Option<int>, until: Option<int>, maxAge: int, perSource: int,
    offset: nat, limit: nat)

  /** What this model does not look into: letter case, letters and digits, addresses, and the search. */
  datatype Rules = Rules(
    lower: string -> string, letter: char -> bool, address: string -> string, matches: (Item, string) -> bool)

  const MIN_TITLE := 16

  // ---- keys --------------------------------------------------------------------------------------------

  function Gap(rules: Rules): Space { (c: char) => !rules.letter(c) }

  /** The title's words, one space between them; nothing when they are too short together. */
  function TitleKey(rules: Rules, title: string): string {
    var key := Join(Words(Gap(rules), rules.lower(title)), " ");
    if |key| < MIN_TITLE then "" else key
  }

  function SourceKey(rules: Rules, item: Item): string {
    if rules.lower(item.source) != "" then rules.lower(item.source) else item.plugin
  }

  /** What has been written of a key, and whether a gap came since. */
  method MakeTitleKey(rules: Rules, title: string) returns (r: string)
    ensures r == TitleKey(rules, title)
  {
    hide Words, Join;
    var key := "";
    var pendingSpace := false;
    var length := 0;
    var text := rules.lower(title);
    NoKey(rules);
    for i := 0 to |text|
      invariant key == Join(Words(Gap(rules), text[..i]), " ") && length == |key|
      invariant key != "" ==> (pendingSpace <==> i > 0 && !rules.letter(text[i - 1]))
    {
      assert text[..i + 1] == text[..i] + [text[i]];
      KeyGrows(rules, text[..i], text[i]);
      if !rules.letter(text[i]) {
        pendingSpace := true;
      } else {
        if pendingSpace && |key| > 0 {
          key := key + " ";
          length := length + 1;
        }
        pendingSpace := false;
        key := key + [text[i]];
        length := length + 1;
      }
    }
    assert text[..|text|] == text;
    if length < MIN_TITLE {
      return "";
    }
    return key;
  }

  lemma NoKey(rules: Rules)
    ensures Join(Words(Gap(rules), ""), " ") == ""
  {
    NoWords(Gap(rules));
  }

  /** One more character: it starts a word, goes on with one, or is a gap. */
  lemma {:induction false} WordsGrow(space: Space, text: string, c: char)
    ensures
      var before, after := Words(space, text), Words(space, text + [c]);
      if space(c) then after == before
      else if text == "" || space(text[|text| - 1]) then after == before + [[c]]
      else before != [] && after == before[..|before| - 1] + [before[|before| - 1] + [c]]
  {
    if text == "" {
      assert text + [c] == [c];
      assert [c][1..] == "";
    } else {
      WordsGrow(space, text[1..], c);
      assert (text + [c])[1..] == text[1..] + [c];
      if !space(text[0]) {
        FirstWordGrows(space, text, c);
      }
    }
  }

  /** What a longer end makes of the first word: its own characters stay. */
  lemma {:induction false} FirstWordGrows(space: Space, text: string, c: char)
    requires text != "" && !space(text[0])
    requires var b, a := Words(space, text[1..]), Words(space, text[1..] + [c]);
      if space(c) then a == b
      else if |text| == 1 || space(text[|text| - 1]) then a == b + [[c]]
      else b != [] && a == b[..|b| - 1] + [b[|b| - 1] + [c]]
    ensures
      var before, after := Words(space, text), Words(space, text + [c]);
      if space(c) then after == before
      else if space(text[|text| - 1]) then after == before + [[c]]
      else before != [] && after == before[..|before| - 1] + [before[|before| - 1] + [c]]
  {
    NoWords(space);
    hide Words;
    WordsFromWord(space, text);
    WordsFromWord(space, text + [c]);
    assert (text + [c])[1..] == text[1..] + [c];
    if |text| == 1 {
      assert text[1..] == "" && (text + [c])[1] == c;
    } else {
      assert (text + [c])[1] == text[1];
      if Words(space, text[1..]) != [] {
        Prefixed(text[0], Words(space, text[1..]), c);
      }
    }
  }

  /** Putting a character before the first word commutes with what happens to the last. */
  lemma Prefixed(t: char, b: seq<string>, c: char)
    requires b != []
    ensures
      var front := [[t] + b[0]] + b[1..];
      var one, grown := b + [[c]], b[..|b| - 1] + [b[|b| - 1] + [c]];
      && [[t] + one[0]] + one[1..] == front + [[c]]
      && [[t] + grown[0]] + grown[1..] == front[..|b| - 1] + [front[|b| - 1] + [c]]
  {
    var front := [[t] + b[0]] + b[1..];
    var grown := b[..|b| - 1] + [b[|b| - 1] + [c]];
    var after := [[t] + grown[0]] + grown[1..];
    if |b| == 1 {
      assert [t] + (b[0] + [c]) == [t] + b[0] + [c];
    }
    assert after[|b| - 1] == front[|b| - 1] + [c];
    assert after[..|b| - 1] == front[..|b| - 1];
  }

  lemma {:induction false} JoinIsEmpty(space: Space, words: seq<string>)
    requires AllWords(space, words)
    ensures Join(words, " ") == "" <==> words == []
  {
    if words != [] {
      assert IsWord(space, words[|words| - 1]);
    }
  }

  lemma {:induction false} KeyGrows(rules: Rules, text: string, c: char)
    ensures
      var before, after := Join(Words(Gap(rules), text), " "), Join(Words(Gap(rules), text + [c]), " ");
      if !rules.letter(c) then after == before
      else if before == "" then after == [c]
      else text != "" && after == if rules.letter(text[|text| - 1]) then before + [c] else before + " " + [c]
  {
    var gap := Gap(rules);
    var words := Words(gap, text);
    WordsGrow(gap, text, c);
    WordsAreWords(gap, text);
    NoWords(gap);
    hide Words;
    JoinIsEmpty(gap, words);
    hide Join;
    assert "" + [c] == [c];
    if rules.letter(c) && text != "" && rules.letter(text[|text| - 1]) {
      assert words != [];
    }
  }

  // ---- which titles are one ----------------------------------------------------------------------------

  function Letters(words: seq<string>): nat {
    if words == [] then 0 else Letters(words[..|words| - 1]) + |words[|words| - 1]|
  }

  lemma {:induction false} JoinedLength(words: seq<string>)
    requires words != []
    ensures |Join(words, " ")| == Letters(words) + |words| - 1
  {
    assert Letters([]) == 0;
    var n := |words| - 1;
    if n == 0 {
      assert words[..n] == [];
    } else {
      JoinedLength(words[..n]);
    }
  }

  lemma {:induction false} WordsOfWords(space: Space, words: seq<string>)
    requires AllWords(space, words)
    ensures AllOf(space, words) == words
  {
    if words != [] {
      var n := |words| - 1;
      WordsOfWords(space, words[..n]);
      WordIsWord(space, words[n]);
      assert words == words[..n] + [words[n]];
    }
  }

  /** Two titles are one exactly when their runs of letters and digits, in lower case, are the same ones, and
      take at least sixteen characters with a space between each two. */
  lemma TitlesAreOneExactlyWhen(rules: Rules, a: string, b: string)
    requires !rules.letter(' ')
    ensures
      var u, v := Words(Gap(rules), rules.lower(a)), Words(Gap(rules), rules.lower(b));
      TitleKey(rules, a) != "" && TitleKey(rules, a) == TitleKey(rules, b) <==>
        u == v && u != [] && Letters(u) + |u| - 1 >= 16
  {
    var gap := Gap(rules);
    var u, v := Words(gap, rules.lower(a)), Words(gap, rules.lower(b));
    WordsAreWords(gap, rules.lower(a));
    WordsAreWords(gap, rules.lower(b));
    assert gap(' ');
    WordsOfWords(gap, u);
    WordsOfWords(gap, v);
    JoinWords(gap, u, " ");
    JoinWords(gap, v, " ");
    hide Words, AllOf;
    if u != [] {
      JoinedLength(u);
    }
    if v != [] {
      JoinedLength(v);
    }
  }

  // ---- what is left out --------------------------------------------------------------------------------

  datatype Fate = Filtered | Older | Kept

  function FateOf(rules: Rules, p: Policy, now: int, x: Item): Fate {
    if p.source != "" && x.plugin != p.source && x.source != p.source then Filtered
    else if p.query != "" && !rules.matches(x, p.query) then Filtered
    else if p.since.Some? || p.until.Some? then
      if x.published.None? || (p.since.Some? && x.published.value < p.since.value)
         || (p.until.Some? && x.published.value >= p.until.value) then Filtered
      else Kept
    else if x.published.Some? && x.published.value < now - p.maxAge then Older
    else Kept
  }

  function WithFate(rules: Rules, p: Policy, now: int, items: seq<Item>, fate: Fate): seq<Item> {
    if items == [] then []
    else
      var n := |items| - 1;
      var before := WithFate(rules, p, now, items[..n], fate);
      if FateOf(rules, p, now, items[n]) == fate then before + [items[n]] else before
  }

  /** Every item has one fate. */
  lemma {:induction false} FatesAreAll(rules: Rules, p: Policy, now: int, items: seq<Item>)
    ensures multiset(items)
            == multiset(WithFate(rules, p, now, items, Filtered)) + multiset(WithFate(rules, p, now, items, Older))
               + multiset(WithFate(rules, p, now, items, Kept))
  {
    hide FateOf;
    if items != [] {
      var n := |items| - 1;
      FatesAreAll(rules, p, now, items[..n]);
      assert items == items[..n] + [items[n]];
    }
  }

  method Fresh(rules: Rules, p: Policy, now: int, items: seq<Item>) returns (recent: seq<Item>, tooOld: nat)
    ensures recent == WithFate(rules, p, now, items, Kept) && tooOld == |WithFate(rules, p, now, items, Older)|
  {
    recent, tooOld := [], 0;
    for i := 0 to |items|
      invariant recent == WithFate(rules, p, now, items[..i], Kept) && tooOld == |WithFate(rules, p, now, items[..i], Older)|
    {
      assert items[..i + 1][..i] == items[..i];
      var x := items[i];
      if p.source != "" && x.plugin != p.source && x.source != p.source {
        continue;
      }
      if p.query != "" && !rules.matches(x, p.query) {
        continue;
      }
      if p.since.Some? || p.until.Some? {
        if x.published.None? || (p.since.Some? && x.published.value < p.since.value)
           || (p.until.Some? && x.published.value >= p.until.value) {
          continue;
        }
      } else if x.published.Some? && x.published.value < now - p.maxAge {
        tooOld := tooOld + 1;
        continue;
      }
      recent := recent + [x];
    }
    assert items[..|items|] == items;
  }

  // ---- the order ---------------------------------------------------------------------------------------

  /** Dated items newest first, and before those with no date. */
  predicate Newer(a: Item, b: Item) {
    a.published.Some? && (b.published.None? || a.published.value > b.published.value)
  }

  predicate InOrder(items: seq<Item>) {
    forall i, j :: 0 <= i < j < |items| ==> !Newer(items[j], items[i])
  }

  /** Dated whenever the other is, and then not before it. */
  ghost predicate AtLeastAsNew(a: Item, b: Item) {
    b.published.Some? ==> a.published.Some? && a.published.value >= b.published.value
  }

  ghost predicate NewestFirst(items: seq<Item>) {
    forall i, j :: 0 <= i < j < |items| ==> AtLeastAsNew(items[i], items[j])
  }

  /** An item goes before those it is newer than, and after its equals. */
  function Inserted(items: seq<Item>, x: Item): seq<Item> {
    if items == [] || !Newer(x, items[|items| - 1]) then items + [x]
    else Inserted(items[..|items| - 1], x) + [items[|items| - 1]]
  }

  /** A stable sort, newest first. */
  function Arranged(items: seq<Item>): seq<Item> {
    if items == [] then [] else Inserted(Arranged(items[..|items| - 1]), items[|items| - 1])
  }

  lemma OrderIsNewestFirst(items: seq<Item>)
    ensures InOrder(items) <==> NewestFirst(items)
  {
    forall a: Item, b: Item
      ensures !Newer(b, a) <==> AtLeastAsNew(a, b)
    {
    }
  }

  lemma {:induction false} InsertedMembers(items: seq<Item>, x: Item)
    ensures multiset(Inserted(items, x)) == multiset(items) + multiset{x}
  {
    hide Newer;
    if items != [] && Newer(x, items[|items| - 1]) {
      var n := |items| - 1;
      InsertedMembers(items[..n], x);
      assert items == items[..n] + [items[n]];
    }
  }

  lemma {:induction false} InsertedInOrder(items: seq<Item>, x: Item)
    requires InOrder(items)
    ensures InOrder(Inserted(items, x))
  {
    if items != [] {
      var n := |items| - 1;
      if Newer(x, items[n]) {
        InsertedInOrder(items[..n], x);
        InsertedMembers(items[..n], x);
        var front := Inserted(items[..n], x);
        forall i | 0 <= i < |front| ensures !Newer(items[n], front[i]) {
          assert front[i] in multiset(front);
          assert front[i] in items[..n] || front[i] == x;
        }
      }
    }
  }

  /** The items published then, in their order. */
  function At(items: seq<Item>, published: Option<int>): seq<Item> {
    if items == [] then []
    else
      var n := |items| - 1;
      if items[n].published == published then At(items[..n], published) + [items[n]] else At(items[..n], published)
  }

  lemma {:induction false} InsertedKeepsEquals(items: seq<Item>, x: Item, published: Option<int>)
    ensures At(Inserted(items, x), published) == At(items + [x], published)
  {
    if items != [] && Newer(x, items[|items| - 1]) {
      var n := |items| - 1;
      InsertedKeepsEquals(items[..n], x, published);
    }
  }

  /** Sorting puts the newest first and undated items last, and loses none. */
  lemma {:induction false} ArrangedSorts(items: seq<Item>)
    ensures InOrder(Arranged(items)) && multiset(Arranged(items)) == multiset(items)
  {
    hide Newer, InOrder, Inserted;
    if items == [] {
      NothingInOrder();
    } else {
      var n := |items| - 1;
      ArrangedSorts(items[..n]);
      InsertedInOrder(Arranged(items[..n]), items[n]);
      InsertedMembers(Arranged(items[..n]), items[n]);
      assert items == items[..n] + [items[n]];
    }
  }

  lemma NothingInOrder()
    ensures InOrder([])
  {
  }

  /** Items published at the same time, and those with no date, stay in the order the service gave. */
  lemma {:induction false} ArrangedIsStable(items: seq<Item>, published: Option<int>)
    ensures At(Arranged(items), published) == At(items, published)
  {
    hide Newer, Inserted;
    if items != [] {
      var n := |items| - 1;
      ArrangedIsStable(items[..n], published);
      var before := Arranged(items[..n]);
      InsertedKeepsEquals(before, items[n], published);
      assert items == items[..n] + [items[n]];
    }
  }

  // ---- repeated entries --------------------------------------------------------------------------------

  /** The same entry: the same address, or the same long enough title. */
  predicate Same(rules: Rules, a: Item, b: Item) {
    || (rules.address(a.url) != "" && rules.address(a.url) == rules.address(b.url))
    || (TitleKey(rules, a.title) != "" && TitleKey(rules, a.title) == TitleKey(rules, b.title))
  }

  predicate Clashes(rules: Rules, kept: seq<Item>, x: Item) {
    exists i :: 0 <= i < |kept| && Same(rules, kept[i], x)
  }

  /** The first copy of every entry. */
  function Unique(rules: Rules, items: seq<Item>): seq<Item> {
    if items == [] then []
    else
      var n := |items| - 1;
      var kept := Unique(rules, items[..n]);
      if Clashes(rules, kept, items[n]) then kept else kept + [items[n]]
  }

  /** The keys of what has been kept. */
  ghost predicate SeenKeys(rules: Rules, kept: seq<Item>, addresses: set<string>, titles: set<string>) {
    && (forall a :: a in addresses <==> a != "" && exists i :: 0 <= i < |kept| && rules.address(kept[i].url) == a)
    && (forall t :: t in titles <==> t != "" && exists i :: 0 <= i < |kept| && TitleKey(rules, kept[i].title) == t)
  }

  lemma {:induction false} ClashIsSeen(rules: Rules, kept: seq<Item>, addresses: set<string>, titles: set<string>, x: Item)
    requires SeenKeys(rules, kept, addresses, titles)
    ensures Clashes(rules, kept, x) <==> rules.address(x.url) in addresses || TitleKey(rules, x.title) in titles
  {
    hide TitleKey;
    if Clashes(rules, kept, x) {
      var i :| 0 <= i < |kept| && Same(rules, kept[i], x);
    }
    if rules.address(x.url) in addresses {
      var i :| 0 <= i < |kept| && rules.address(kept[i].url) == rules.address(x.url);
      assert Same(rules, kept[i], x);
    }
    if TitleKey(rules, x.title) in titles {
      var i :| 0 <= i < |kept| && TitleKey(rules, kept[i].title) == TitleKey(rules, x.title);
      assert Same(rules, kept[i], x);
    }
  }

  lemma {:induction false} SeenMore(rules: Rules, kept: seq<Item>, addresses: set<string>, titles: set<string>, x: Item)
    requires SeenKeys(rules, kept, addresses, titles)
    ensures
      var a, t := rules.address(x.url), TitleKey(rules, x.title);
      SeenKeys(rules, kept + [x], if a != "" then addresses + {a} else addresses, if t != "" then titles + {t} else titles)
  {
    hide TitleKey;
    var more := kept + [x];
    assert more[|kept|] == x;
    assert forall i :: 0 <= i < |kept| ==> more[i] == kept[i];
  }

  method Deduplicate(rules: Rules, items: seq<Item>) returns (unique: seq<Item>, duplicates: nat)
    ensures unique == Unique(rules, items) && duplicates == |items| - |unique|
  {
    hide TitleKey, Clashes, SeenKeys;
    unique, duplicates := [], 0;
    var seenAddress: set<string>, seenTitle: set<string> := {}, {};
    NothingSeen(rules);
    for i := 0 to |items|
      invariant unique == Unique(rules, items[..i]) && duplicates == i - |unique|
      invariant SeenKeys(rules, unique, seenAddress, seenTitle)
      invariant "" !in seenAddress && "" !in seenTitle
    {
      assert items[..i + 1][..i] == items[..i];
      var x := items[i];
      var title := MakeTitleKey(rules, x.title);
      var address := rules.address(x.url);
      ClashIsSeen(rules, unique, seenAddress, seenTitle, x);
      if (address != "" && address in seenAddress) || (title != "" && title in seenTitle) {
        duplicates := duplicates + 1;
        continue;
      }
      SeenMore(rules, unique, seenAddress, seenTitle, x);
      if address != "" {
        seenAddress := seenAddress + {address};
      }
      if title != "" {
        seenTitle := seenTitle + {title};
      }
      unique := unique + [x];
    }
    assert items[..|items|] == items;
  }

  lemma NothingSeen(rules: Rules)
    ensures SeenKeys(rules, [], {}, {})
  {
  }

  predicate NoneSame(rules: Rules, items: seq<Item>) {
    forall i, j :: 0 <= i < j < |items| ==> !Same(rules, items[i], items[j])
  }

  lemma {:induction false} UniqueHasNoCopies(rules: Rules, items: seq<Item>)
    ensures NoneSame(rules, Unique(rules, items))
  {
    hide Same;
    if items != [] {
      UniqueHasNoCopies(rules, items[..|items| - 1]);
    }
  }

  /** Everything left out is the same entry as something kept that is at least as new. */
  lemma {:induction false} DroppedHasANewerCopy(rules: Rules, items: seq<Item>, x: Item) returns (i: nat)
    requires InOrder(items) && x in items
    ensures var kept := Unique(rules, items);
      i < |kept| && (kept[i] == x || Same(rules, kept[i], x)) && !Newer(x, kept[i])
  {
    hide Same, Newer;
    var n := |items| - 1;
    var before := Unique(rules, items[..n]);
    assert items == items[..n] + [items[n]];
    if x in items[..n] {
      i := DroppedHasANewerCopy(rules, items[..n], x);
    } else if Clashes(rules, before, x) {
      var j :| 0 <= j < |before| && Same(rules, before[j], x);
      UniqueAmong(rules, items[..n]);
      assert before[j] in items[..n];
      i := j;
    } else {
      i := |before|;
      NotNewerThanItself(x);
    }
  }

  lemma NotNewerThanItself(x: Item)
    ensures !Newer(x, x)
  {
  }

  lemma {:induction false} UniqueAmong(rules: Rules, items: seq<Item>)
    ensures forall x :: x in Unique(rules, items) ==> x in items
    ensures |Unique(rules, items)| <= |items|
  {
    hide Clashes;
    if items != [] {
      UniqueAmong(rules, items[..|items| - 1]);
      assert items == items[..|items| - 1] + [items[|items| - 1]];
    }
  }

  lemma {:induction false} UniqueInOrder(rules: Rules, items: seq<Item>)
    requires InOrder(items)
    ensures InOrder(Unique(rules, items))
  {
    hide Newer, Clashes;
    if items != [] {
      var n := |items| - 1;
      UniqueInOrder(rules, items[..n]);
      UniqueAmong(rules, items[..n]);
      var kept := Unique(rules, items[..n]);
      forall i | 0 <= i < |kept| ensures !Newer(items[n], kept[i]) {
        assert kept[i] in items[..n];
      }
    }
  }

  // ---- the share of each source ------------------------------------------------------------------------

  function Count(rules: Rules, items: seq<Item>, source: string): nat {
    if items == [] then 0
    else Count(rules, items[..|items| - 1], source) + if SourceKey(rules, items[|items| - 1]) == source then 1 else 0
  }

  /** Within the share of its source, counted from the start. */
  predicate Early(rules: Rules, perSource: int, before: seq<Item>, x: Item) {
    Count(rules, before, SourceKey(rules, x)) + 1 <= perSource
  }

  function First(rules: Rules, perSource: int, items: seq<Item>): seq<Item> {
    if items == [] then []
    else
      var n := |items| - 1;
      var before := First(rules, perSource, items[..n]);
      if Early(rules, perSource, items[..n], items[n]) then before + [items[n]] else before
  }

  function Rest(rules: Rules, perSource: int, items: seq<Item>): seq<Item> {
    if items == [] then []
    else
      var n := |items| - 1;
      var before := Rest(rules, perSource, items[..n]);
      if Early(rules, perSource, items[..n], items[n]) then before else before + [items[n]]
  }

  method Divide(rules: Rules, perSource: int, items: seq<Item>) returns (first: seq<Item>, rest: seq<Item>)
    ensures first == First(rules, perSource, items) && rest == Rest(rules, perSource, items)
  {
    hide SourceKey;
    var taken: map<string, int> := map[];
    first, rest := [], [];
    for i := 0 to |items|
      invariant first == First(rules, perSource, items[..i]) && rest == Rest(rules, perSource, items[..i])
      invariant forall s :: Count(rules, items[..i], s) == if s in taken then taken[s] else 0
    {
      assert items[..i + 1][..i] == items[..i];
      var x := items[i];
      var source := SourceKey(rules, x);
      CountMore(rules, items, i);
      taken := taken[source := (if source in taken then taken[source] else 0) + 1];
      if taken[source] <= perSource {
        first := first + [x];
      } else {
        rest := rest + [x];
      }
    }
    assert items[..|items|] == items;
  }

  lemma CountMore(rules: Rules, items: seq<Item>, i: nat)
    requires i < |items|
    ensures forall s ::
      (Count(rules, items[..i + 1], s) == Count(rules, items[..i], s) + if SourceKey(rules, items[i]) == s then 1 else 0)
  {
    hide SourceKey;
    assert items[..i + 1][..i] == items[..i];
  }

  /** In the first part a source has all its items, or its whole share. */
  lemma {:induction false} FirstCount(rules: Rules, perSource: int, items: seq<Item>, source: string)
    ensures Count(rules, First(rules, perSource, items), source)
            == if Count(rules, items, source) <= perSource then Count(rules, items, source)
               else if perSource > 0 then perSource else 0
  {
    hide SourceKey;
    if items != [] {
      var n := |items| - 1;
      FirstCount(rules, perSource, items[..n], source);
    }
  }

  /** A source with items left for the second part has its whole share in the first. */
  lemma {:induction false} RestMeansFull(rules: Rules, perSource: int, items: seq<Item>, x: Item)
    requires x in Rest(rules, perSource, items)
    ensures Count(rules, items, SourceKey(rules, x)) > perSource
  {
    hide SourceKey;
    var n := |items| - 1;
    if x in Rest(rules, perSource, items[..n]) {
      RestMeansFull(rules, perSource, items[..n], x);
    }
  }

  lemma {:induction false} DividedAmong(rules: Rules, perSource: int, items: seq<Item>)
    ensures multiset(First(rules, perSource, items)) + multiset(Rest(rules, perSource, items)) == multiset(items)
    ensures forall x :: x in First(rules, perSource, items) || x in Rest(rules, perSource, items) ==> x in items
  {
    hide Early;
    if items != [] {
      var n := |items| - 1;
      DividedAmong(rules, perSource, items[..n]);
      assert items == items[..n] + [items[n]];
    }
  }

  lemma {:induction false} DividedInOrder(rules: Rules, perSource: int, items: seq<Item>)
    requires InOrder(items)
    ensures InOrder(First(rules, perSource, items)) && InOrder(Rest(rules, perSource, items))
  {
    hide Early, Newer;
    if items != [] {
      var n := |items| - 1;
      DividedInOrder(rules, perSource, items[..n]);
      DividedAmong(rules, perSource, items[..n]);
      var first, rest := First(rules, perSource, items[..n]), Rest(rules, perSource, items[..n]);
      forall i | 0 <= i < |first| ensures !Newer(items[n], first[i]) {
        assert first[i] in items[..n];
      }
      forall i | 0 <= i < |rest| ensures !Newer(items[n], rest[i]) {
        assert rest[i] in items[..n];
      }
    }
  }

  predicate NoneAcross(rules: Rules, a: seq<Item>, b: seq<Item>) {
    forall i, j :: 0 <= i < |a| && 0 <= j < |b| ==> !Same(rules, a[i], b[j])
  }

  predicate Apart(rules: Rules, part: seq<Item>, x: Item) {
    forall i :: 0 <= i < |part| ==> !Same(rules, part[i], x) && !Same(rules, x, part[i])
  }

  lemma {:induction false} EarlierAreApart(rules: Rules, items: seq<Item>, part: seq<Item>)
    requires items != [] && NoneSame(rules, items) && forall x :: x in part ==> x in items[..|items| - 1]
    ensures Apart(rules, part, items[|items| - 1])
  {
    SameIsSymmetric(rules);
    hide Same;
    var n := |items| - 1;
    forall i | 0 <= i < |part| ensures !Same(rules, part[i], items[n]) && !Same(rules, items[n], part[i]) {
      assert part[i] in part;
      var k :| 0 <= k < n && items[..n][k] == part[i];
      assert items[k] == part[i];
    }
  }

  lemma {:induction false} DividedHasNoCopies(rules: Rules, perSource: int, items: seq<Item>)
    requires NoneSame(rules, items)
    ensures NoneSame(rules, First(rules, perSource, items)) && NoneSame(rules, Rest(rules, perSource, items))
    ensures NoneAcross(rules, First(rules, perSource, items), Rest(rules, perSource, items))
  {
    hide Early, Same;
    if items != [] {
      var n := |items| - 1;
      DividedHasNoCopies(rules, perSource, items[..n]);
      DividedAmong(rules, perSource, items[..n]);
      EarlierAreApart(rules, items, First(rules, perSource, items[..n]));
      EarlierAreApart(rules, items, Rest(rules, perSource, items[..n]));
    }
  }

  lemma SameIsSymmetric(rules: Rules)
    ensures forall a, b :: Same(rules, a, b) ==> Same(rules, b, a)
  {
    hide TitleKey;
  }

  // ---- the whole digest --------------------------------------------------------------------------------

  datatype Composed = Composed(items: seq<Item>, duplicates: nat, tooOld: nat)

  function Recent(rules: Rules, items: seq<Item>, p: Policy, now: int): seq<Item> {
    Arranged(WithFate(rules, p, now, items, Kept))
  }

  function ComposedOf(rules: Rules, items: seq<Item>, p: Policy, now: int): Composed {
    var recent := Recent(rules, items, p, now);
    var unique := Unique(rules, recent);
    UniqueAmong(rules, recent);
    Composed(First(rules, p.perSource, unique) + Rest(rules, p.perSource, unique), |recent| - |unique|,
             |WithFate(rules, p, now, items, Older)|)
  }

  method Compose(rules: Rules, items: seq<Item>, p: Policy, now: int) returns (d: Composed)
    ensures d == ComposedOf(rules, items, p, now)
  {
    hide WithFate, Unique, First, Rest, Arranged;
    var recent, tooOld := Fresh(rules, p, now, items);
    recent := Arranged(recent);
    var unique, duplicates := Deduplicate(rules, recent);
    var first, rest := Divide(rules, p.perSource, unique);
    return Composed(first + rest, duplicates, tooOld);
  }

  lemma SourcesAreNamed(rules: Rules)
    ensures forall x: Item :: SourceKey(rules, x) == rules.lower(x.source) || rules.lower(x.source) == ""
    ensures forall x: Item :: rules.lower(x.source) == "" ==> SourceKey(rules, x) == x.plugin
  {
  }

  /** The digest has a first part, in which no source passes its share, and the rest, each newest first; no two of
      its items are the same entry. */
  lemma {:induction false} DigestIsOrdered(rules: Rules, items: seq<Item>, p: Policy, now: int) returns (first: seq<Item>, rest: seq<Item>)
    ensures ComposedOf(rules, items, p, now).items == first + rest
    ensures NewestFirst(first) && NewestFirst(rest) && NoneSame(rules, first + rest)
    // A source is its name in any letter case, and without a name its plugin.
    ensures forall x: Item :: SourceKey(rules, x) == rules.lower(x.source) || rules.lower(x.source) == ""
    ensures forall x: Item :: rules.lower(x.source) == "" ==> SourceKey(rules, x) == x.plugin
    ensures forall source :: Count(rules, first, source) <= if p.perSource > 0 then p.perSource else 0
    ensures forall x :: x in rest ==> Count(rules, first, SourceKey(rules, x)) == if p.perSource > 0 then p.perSource else 0
  {
    SourcesAreNamed(rules);
    hide WithFate, Unique, First, Rest, Arranged, Newer, Same, SourceKey, Count, NewestFirst;
    var recent := Recent(rules, items, p, now);
    var unique := Unique(rules, recent);
    ArrangedSorts(WithFate(rules, p, now, items, Kept));
    UniqueInOrder(rules, recent);
    UniqueHasNoCopies(rules, recent);
    DividedInOrder(rules, p.perSource, unique);
    DividedHasNoCopies(rules, p.perSource, unique);
    first, rest := First(rules, p.perSource, unique), Rest(rules, p.perSource, unique);
    OrderIsNewestFirst(first);
    OrderIsNewestFirst(rest);
    forall source ensures Count(rules, first, source) <= if p.perSource > 0 then p.perSource else 0 {
      FirstCount(rules, p.perSource, unique, source);
    }
    forall x | x in rest ensures Count(rules, first, SourceKey(rules, x)) == if p.perSource > 0 then p.perSource else 0 {
      RestMeansFull(rules, p.perSource, unique, x);
      FirstCount(rules, p.perSource, unique, SourceKey(rules, x));
    }
  }

  /** Every item the service gave is in the digest, or a counted duplicate, or counted as old, or filtered out. */
  lemma {:induction false} DigestAccountsForAll(rules: Rules, items: seq<Item>, p: Policy, now: int)
    ensures var d := ComposedOf(rules, items, p, now);
      && |d.items| + d.duplicates + d.tooOld + |WithFate(rules, p, now, items, Filtered)| == |items|
      && multiset(d.items) == multiset(Unique(rules, Recent(rules, items, p, now)))
  {
    hide WithFate, Unique, First, Rest, Arranged;
    var kept := WithFate(rules, p, now, items, Kept);
    var unique := Unique(rules, Recent(rules, items, p, now));
    FatesAreAll(rules, p, now, items);
    ArrangedSorts(kept);
    DividedAmong(rules, p.perSource, unique);
    SameSize(Recent(rules, items, p, now), kept);
    var first, rest := First(rules, p.perSource, unique), Rest(rules, p.perSource, unique);
    assert multiset(first + rest) == multiset(first) + multiset(rest);
    SameSize(first + rest, unique);
    assert |multiset(items)| == |items| && |multiset(kept)| == |kept|;
  }

  lemma SameSize(a: seq<Item>, b: seq<Item>)
    requires multiset(a) == multiset(b)
    ensures |a| == |b|
  {
    assert |multiset(a)| == |a| && |multiset(b)| == |b|;
  }

  /** Every item that was kept back as a copy is the same entry as an item of the digest at least as new. */
  lemma {:induction false} CopiesAreInTheDigest(rules: Rules, items: seq<Item>, p: Policy, now: int, x: Item)
    requires x in items && FateOf(rules, p, now, x) == Kept
    ensures exists y :: y in ComposedOf(rules, items, p, now).items && (y == x || Same(rules, y, x)) && !Newer(x, y)
  {
    hide Unique, First, Rest, Newer, Same, FateOf, Arranged;
    var kept := WithFate(rules, p, now, items, Kept);
    FateMembers(rules, p, now, items, Kept, x);
    ArrangedSorts(kept);
    var recent := Recent(rules, items, p, now);
    assert x in multiset(recent);
    var i := DroppedHasANewerCopy(rules, recent, x);
    DigestAccountsForAll(rules, items, p, now);
    var y := Unique(rules, recent)[i];
    assert y in multiset(Unique(rules, recent));
    assert y in ComposedOf(rules, items, p, now).items;
  }

  lemma {:induction false} FateMembers(rules: Rules, p: Policy, now: int, items: seq<Item>, fate: Fate, x: Item)
    requires x in items && FateOf(rules, p, now, x) == fate
    ensures x in WithFate(rules, p, now, items, fate)
  {
    hide FateOf;
    var n := |items| - 1;
    assert items == items[..n] + [items[n]];
    if x in items[..n] {
      FateMembers(rules, p, now, items[..n], fate, x);
    }
  }

  // ---- what a digest holds, told by the items themselves -----------------------------------------------

  /** Asked for by source and by words. */
  ghost predicate Asked(rules: Rules, p: Policy, x: Item) {
    && (p.source == "" || x.plugin == p.source || x.source == p.source)
    && (p.query == "" || rules.matches(x, p.query))
  }

  ghost predicate Dated(p: Policy) { p.since.Some? || p.until.Some? }

  /** Asked for, and published between the dates if any are given, otherwise not before the window. */
  ghost predicate Wanted(rules: Rules, p: Policy, now: int, x: Item) {
    && Asked(rules, p, x)
    && if Dated(p)
       then
         && x.published.Some?
         && (p.since.Some? ==> p.since.value <= x.published.value)
         && (p.until.Some? ==> x.published.value < p.until.value)
       else x.published.Some? ==> now - p.maxAge <= x.published.value
  }

  ghost predicate TooOld(rules: Rules, p: Policy, now: int, x: Item) {
    Asked(rules, p, x) && !Dated(p) && x.published.Some? && x.published.value < now - p.maxAge
  }

  ghost function WantedPlaces(rules: Rules, p: Policy, now: int, items: seq<Item>): set<nat> {
    set i: nat | i < |items| && Wanted(rules, p, now, items[i])
  }

  ghost function OldPlaces(rules: Rules, p: Policy, now: int, items: seq<Item>): set<nat> {
    set i: nat | i < |items| && TooOld(rules, p, now, items[i])
  }

  lemma FateIs(rules: Rules, p: Policy, now: int, x: Item)
    ensures FateOf(rules, p, now, x) == Kept <==> Wanted(rules, p, now, x)
    ensures FateOf(rules, p, now, x) == Older <==> TooOld(rules, p, now, x)
  {
  }

  lemma {:induction false} FateCounts(rules: Rules, p: Policy, now: int, items: seq<Item>)
    ensures |WithFate(rules, p, now, items, Kept)| == |WantedPlaces(rules, p, now, items)|
    ensures |WithFate(rules, p, now, items, Older)| == |OldPlaces(rules, p, now, items)|
  {
    hide FateOf, Wanted, TooOld;
    if items != [] {
      var n := |items| - 1;
      FateCounts(rules, p, now, items[..n]);
      FateIs(rules, p, now, items[n]);
      var wanted, aged := WantedPlaces(rules, p, now, items[..n]), OldPlaces(rules, p, now, items[..n]);
      assert WantedPlaces(rules, p, now, items)
          == if Wanted(rules, p, now, items[n]) then wanted + {n} else wanted;
      assert OldPlaces(rules, p, now, items) == if TooOld(rules, p, now, items[n]) then aged + {n} else aged;
    }
  }

  lemma {:induction false} FatedAreOfFate(rules: Rules, p: Policy, now: int, items: seq<Item>, fate: Fate, x: Item)
    requires x in WithFate(rules, p, now, items, fate)
    ensures x in items && FateOf(rules, p, now, x) == fate
  {
    hide FateOf;
    var n := |items| - 1;
    assert items == items[..n] + [items[n]];
    if x in WithFate(rules, p, now, items[..n], fate) {
      FatedAreOfFate(rules, p, now, items[..n], fate, x);
    }
  }

  /** A digest counts what is too old and what is a copy, and the rest of what is wanted is in it. */
  lemma DigestCounts(rules: Rules, items: seq<Item>, p: Policy, now: int)
    ensures
      var d := ComposedOf(rules, items, p, now);
      && d.tooOld == |OldPlaces(rules, p, now, items)|
      && |d.items| + d.duplicates == |WantedPlaces(rules, p, now, items)|
  {
    hide WithFate, Unique, First, Rest, Arranged, OldPlaces, WantedPlaces;
    FateCounts(rules, p, now, items);
    ArrangedSorts(WithFate(rules, p, now, items, Kept));
    SameSize(Recent(rules, items, p, now), WithFate(rules, p, now, items, Kept));
    DigestAccountsForAll(rules, items, p, now);
    SameSize(ComposedOf(rules, items, p, now).items, Unique(rules, Recent(rules, items, p, now)));
  }

  /** It holds items that are wanted, and of every wanted item a copy at least as new. */
  lemma DigestHolds(rules: Rules, items: seq<Item>, p: Policy, now: int, x: Item)
    ensures
      var held := ComposedOf(rules, items, p, now).items;
      && (x in held ==> x in items && Wanted(rules, p, now, x))
      && (x in items && Wanted(rules, p, now, x) ==>
            exists y :: y in held && (y == x || Same(rules, y, x)) && AtLeastAsNew(y, x))
  {
    hide WithFate, Unique, First, Rest, Arranged, FateOf, Same, Wanted;
    var held, kept := ComposedOf(rules, items, p, now).items, WithFate(rules, p, now, items, Kept);
    FateIs(rules, p, now, x);
    if x in items && Wanted(rules, p, now, x) {
      CopiesAreInTheDigest(rules, items, p, now, x);
      var y :| y in held && (y == x || Same(rules, y, x)) && !Newer(x, y);
      assert AtLeastAsNew(y, x);
    }
    if x in held {
      DigestAccountsForAll(rules, items, p, now);
      assert x in multiset(held);
      UniqueAmong(rules, Recent(rules, items, p, now));
      assert x in Unique(rules, Recent(rules, items, p, now));
      ArrangedSorts(kept);
      assert x in multiset(Recent(rules, items, p, now));
      FatedAreOfFate(rules, p, now, items, Kept, x);
    }
  }

  // ---- pages -------------------------------------------------------------------------------------------

  datatype Page = Page(items: seq<Item>, total: nat, offset: nat, more: nat, sources: nat)

  function Least(a: nat, b: nat): nat { if a < b then a else b }

  function Shown(items: seq<Item>, offset: nat, limit: nat): seq<Item> {
    var start := Least(offset, |items|);
    items[start..Least(start + limit, |items|)]
  }

  function Sources(rules: Rules, items: seq<Item>): set<string> {
    set i | 0 <= i < |items| :: SourceKey(rules, items[i])
  }

  method Reply(rules: Rules, d: Composed, offset: nat, limit: nat) returns (page: Page)
    ensures page.items == Shown(d.items, offset, limit) && page.total == |d.items|
    ensures page.offset == Least(offset, |d.items|) && page.more == |d.items| - page.offset - |page.items|
    ensures offset <= |d.items| ==> page.offset == offset && page.items <= d.items[offset..]
    ensures offset > |d.items| ==> page.offset == |d.items| && page.items == []
    ensures |page.items| <= limit && (|page.items| < limit ==> page.more == 0)
    ensures page.sources == |Sources(rules, d.items)|
  {
    hide SourceKey;
    var total := |d.items|;
    var start := Least(offset, total);
    var end := Least(start + limit, total);
    var shown: seq<Item> := [];
    for i := start to end
      invariant shown == d.items[start..i]
    {
      shown := shown + [d.items[i]];
    }
    var sources: set<string> := {};
    for i := 0 to total
      invariant sources == Sources(rules, d.items[..i])
    {
      sources := sources + {SourceKey(rules, d.items[i])};
    }
    assert d.items[..total] == d.items;
    return Page(shown, total, start, total - end, |sources|);
  }

  /** Reading page after page, each starting where the last one ended, until nothing more is left. */
  function PagesFrom(items: seq<Item>, offset: nat, limit: nat): seq<Item>
    requires limit > 0
    decreases |items| - offset
  {
    var page := Shown(items, offset, limit);
    if offset + |page| >= |items| then page else page + PagesFrom(items, offset + |page|, limit)
  }

  /** The pages together are the whole digest: nothing is repeated or skipped. */
  lemma {:induction false} PagesAreTheDigest(items: seq<Item>, offset: nat, limit: nat)
    requires limit > 0 && offset <= |items|
    ensures PagesFrom(items, offset, limit) == items[offset..]
    decreases |items| - offset
  {
    var page := Shown(items, offset, limit);
    if offset + |page| < |items| {
      PagesAreTheDigest(items, offset + |page|, limit);
      assert items[offset..] == page + items[offset + |page|..];
    }
  }
}
