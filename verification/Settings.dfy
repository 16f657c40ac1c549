/** The catalogue of stack settings: how each value is parsed, stored and projected to variables. */
module Settings {
  import opened Text
  import opened Wrappers

  /** What one entry of a comma-separated list must be. */
  datatype Entry = Channel | FeedSource | Phone | Group | Conversation

  datatype Kind =
    | PdfLimit
    | List(entry: Entry)
    | OneOf(options: seq<string>)
    | Conversations
    | WholeNumber
    | ModelName

  datatype Setting = Setting(id: string, env: string, kind: Kind, default: string, affects: seq<string>, readOnly: bool)

  // ---- entries ---------------------------------------------------------------------------

  predicate IsLowerOrDigit(c: char) { 'a' <= c <= 'z' || IsDigit(c) }

  predicate IsSlug(c: char) { IsLowerOrDigit(c) || c == '_' || c == '-' }

  predicate IsChannel(s: string) { 1 <= |s| <= 20 && AllDigits(s) }

  predicate IsFeedSource(s: string) {
    1 <= |s| <= 40 && forall i :: 0 <= i < |s| ==> IsSlug(s[i])
  }

  predicate IsPhone(s: string) { 7 <= |s| <= 15 && AllDigits(s) }

  /** Digits in groups joined by hyphens, then the group address. */
  predicate IsGroup(s: string) {
    && |s| >= 5
    && s[|s| - 5..] == "@g.us"
    && forall digits <- Split(s[..|s| - 5], '-') :: digits != [] && AllDigits(digits)
  }

  predicate IsAlias(s: string) {
    && 1 <= |s| <= 32
    && IsLowerOrDigit(s[0])
    && forall i :: 0 <= i < |s| ==> IsSlug(s[i])
  }

  predicate IsPhoneMark(c: char) {
    || c == '\t' || c == '\n' || c == '\U{000C}' || c == '\r' || c == ' '
    || c == '(' || c == ')' || c == '.' || c == '+' || c == '-'
  }

  function StripMarks(s: string): (r: string)
    ensures forall i :: 0 <= i < |r| ==> !IsPhoneMark(r[i])
    ensures (forall i :: 0 <= i < |s| ==> !IsPhoneMark(s[i])) ==> r == s
  {
    if s == [] then []
    else if IsPhoneMark(s[0]) then StripMarks(s[1..])
    else [s[0]] + StripMarks(s[1..])
  }

  lemma {:induction false} MarksApart(a: string, b: string)
    ensures StripMarks(a + b) == StripMarks(a) + StripMarks(b)
  {
    if a == [] {
      assert a + b == b;
    } else {
      assert (a + b)[0] == a[0] && (a + b)[1..] == a[1..] + b;
      MarksApart(a[1..], b);
    }
  }

  /** A mark anywhere in a number goes, any other character stays where it is. */
  lemma OnlyMarksAreDropped(before: string, c: char, after: string)
    ensures StripMarks("") == ""
    ensures StripMarks(before + [c] + after)
         == StripMarks(before) + (if c in "\t\n\U{000C}\r ().+-" then "" else [c]) + StripMarks(after)
  {
    MarksApart(before + [c], after);
    MarksApart(before, [c]);
    assert [c][1..] == [];
  }

  function ParsePhone(value: string): Option<string> {
    var digits := StripMarks(value);
    if IsPhone(digits) then Some(digits) else None
  }

  function ParseConversation(value: string): Option<string> {
    var cut := Cut(value, '=');
    var alias, target := TrimSpace(cut.0), TrimSpace(cut.1);
    if !cut.2 || !IsAlias(alias) then None
    else if IsGroup(target) then Some(alias + "=" + target)
    else
      match ParsePhone(target)
      case None => None
      case Some(number) => Some(alias + "=" + number)
  }

  function ParseEntry(entry: Entry, value: string): Option<string> {
    match entry
    case Channel => if IsChannel(value) then Some(value) else None
    case FeedSource => if IsFeedSource(value) then Some(value) else None
    case Phone => ParsePhone(value)
    case Group => if IsGroup(value) then Some(value) else None
    case Conversation => ParseConversation(value)
  }

  /** An accepted entry as it stands in a stored list. */
  predicate Normal(entry: Entry, item: string) {
    && ParseEntry(entry, item) == Some(item)
    && item != [] && Trimmed(item) && ',' !in item
  }

  lemma DigitsAreNormal(s: string)
    requires AllDigits(s)
    ensures Trimmed(s) && ',' !in s && '=' !in s && !IsGroup(s) && StripMarks(s) == s
  {
    if |s| >= 5 {
      assert s[|s| - 5] in s;
      assert "@g.us"[0] == '@';
    }
  }

  lemma {:induction false} DigitGroupChars(s: string)
    requires forall digits <- Split(s, '-') :: AllDigits(digits)
    ensures forall i :: 0 <= i < |s| ==> IsDigit(s[i]) || s[i] == '-'
  {
    if s != [] {
      var rest := Split(s[1..], '-');
      if s[0] == '-' {
        assert Split(s, '-')[1..] == rest;
      } else {
        var first := Split(s, '-')[0];
        assert first == [s[0]] + rest[0] && first in Split(s, '-');
        assert IsDigit(first[0]);
        forall digits <- rest
          ensures AllDigits(digits)
        {
          if digits == rest[0] {
            assert rest[0] == first[1..];
          } else {
            assert digits in rest[1..];
          }
        }
      }
      DigitGroupChars(s[1..]);
    }
  }

  lemma GroupChars(body: string, s: string)
    requires s == body + "@g.us" && forall i :: 0 <= i < |body| ==> IsDigit(body[i]) || body[i] == '-'
    ensures s != [] && Trimmed(s) && ',' !in s && '=' !in s
  {
    forall i | 0 <= i < |s|
      ensures !IsSpace(s[i]) && s[i] != ',' && s[i] != '='
    {
      if i >= |body| {
        assert s[i] == "@g.us"[i - |body|];
      } else {
        assert s[i] == body[i];
      }
    }
  }

  lemma GroupIsNormal(s: string)
    requires IsGroup(s)
    ensures s != [] && Trimmed(s) && ',' !in s && '=' !in s
  {
    DigitGroupChars(s[..|s| - 5]);
    GroupChars(s[..|s| - 5], s);
  }

  lemma AliasIsNormal(s: string)
    requires IsAlias(s)
    ensures s != [] && Trimmed(s) && ',' !in s && '=' !in s
  {
  }

  lemma TargetIsNormal(target: string)
    requires IsGroup(target) || IsPhone(target)
    ensures target != [] && Trimmed(target) && ',' !in target && '=' !in target
    ensures IsGroup(target) || ParsePhone(target) == Some(target)
  {
    if IsGroup(target) {
      GroupIsNormal(target);
    } else {
      DigitsAreNormal(target);
    }
  }

  lemma JoinedIsNormal(alias: string, target: string)
    requires alias != [] && Trimmed(alias) && ',' !in alias
    requires target != [] && Trimmed(target) && ',' !in target
    ensures Trimmed(alias + "=" + target) && ',' !in alias + "=" + target
  {
    var s := alias + "=" + target;
    assert s[0] == alias[0] && s[|s| - 1] == target[|target| - 1];
  }

  lemma ConversationIsNormal(alias: string, target: string)
    requires IsAlias(alias) && (IsGroup(target) || IsPhone(target))
    ensures Normal(Conversation, alias + "=" + target)
    ensures Cut(alias + "=" + target, '=') == (alias, target, true)
  {
    AliasIsNormal(alias);
    TargetIsNormal(target);
    JoinedIsNormal(alias, target);
    CutJoined(alias, '=', target);
    TrimSpaceTrims(alias);
    TrimSpaceTrims(target);
  }

  /** Every entry parser accepts what it returns, unchanged. */
  lemma EntryIsNormal(entry: Entry, value: string)
    requires ParseEntry(entry, value).Some?
    ensures Normal(entry, ParseEntry(entry, value).value)
  {
    match entry
    case Channel => DigitsAreNormal(value);
    case FeedSource =>
    case Phone => DigitsAreNormal(StripMarks(value));
    case Group => GroupIsNormal(value);
    case Conversation =>
      var cut := Cut(value, '=');
      var alias, target := TrimSpace(cut.0), TrimSpace(cut.1);
      if IsGroup(target) {
        ConversationIsNormal(alias, target);
      } else {
        ConversationIsNormal(alias, StripMarks(target));
      }
  }

  // ---- entries, character by character -------------------------------------------------------

  lemma {:induction false} PieceChars(s: string, separator: char, p: string, i: nat)
    requires p in Split(s, separator) && i < |p|
    ensures p[i] in s && p[i] != separator
  {
    if s != [] {
      var rest := Split(s[1..], separator);
      if p in rest {
        PieceChars(s[1..], separator, p, i);
      } else if i > 0 {
        assert p == [s[0]] + rest[0];
        PieceChars(s[1..], separator, rest[0], i - 1);
      }
    }
  }

  ghost predicate LaterFilled(pieces: seq<string>) {
    forall i :: 1 <= i < |pieces| ==> pieces[i] != []
  }

  /** No separator ends the text or stands beside another. */
  ghost predicate NoneBeside(s: string, separator: char) {
    && (s != [] ==> s[|s| - 1] != separator)
    && (forall i :: 0 <= i < |s| - 1 ==> s[i] == separator ==> s[i + 1] != separator)
  }

  lemma {:induction false} LaterPiecesFilled(s: string, separator: char)
    ensures Split(s, separator)[0] == [] <==> s == [] || s[0] == separator
    ensures LaterFilled(Split(s, separator)) <==> NoneBeside(s, separator)
  {
    if s != [] {
      hide NoneBeside;
      LaterPiecesFilled(s[1..], separator);
      var pieces, rest := Split(s, separator), Split(s[1..], separator);
      SeparatorsAfter(s, separator);
      if s[0] == separator {
        assert pieces == [[]] + rest;
        assert rest[0] != [] ==> (LaterFilled(pieces) <==> LaterFilled(rest)) by {
          assert forall i :: 0 <= i < |rest| ==> pieces[i + 1] == rest[i];
        }
        assert rest[0] == [] ==> pieces[1] == [];
      } else {
        assert forall i :: 1 <= i < |pieces| ==> pieces[i] == rest[i];
      }
    }
  }

  lemma SeparatorsAfter(s: string, separator: char)
    requires s != []
    ensures NoneBeside(s, separator) <==>
              && (|s| == 1 ==> s[0] != separator)
              && (|s| > 1 ==> s[0] != separator || s[1] != separator)
              && NoneBeside(s[1..], separator)
  {
    var t := s[1..];
    if |s| > 1 {
      assert t[|t| - 1] == s[|s| - 1];
    }
    if NoneBeside(s, separator) {
      forall i | 0 <= i < |t| - 1 && t[i] == separator
        ensures t[i + 1] != separator
      {
        assert s[i + 1] == separator;
      }
    } else if NoneBeside(t, separator) && |s| > 1 && (s[0] != separator || s[1] != separator) {
      forall i | 0 <= i < |s| - 1 && s[i] == separator
        ensures s[i + 1] != separator
      {
        if i > 0 {
          assert t[i - 1] == separator;
        }
      }
    }
  }

  /** Digits with single hyphens between them. */
  ghost predicate DigitGroups(s: string) {
    && (forall i :: 0 <= i < |s| ==> '0' <= s[i] <= '9' || s[i] == '-')
    && s != "" && s[0] != '-' && NoneBeside(s, '-')
  }

  lemma GroupExactlyWhen(body: string)
    ensures IsGroup(body + "@g.us") <==> DigitGroups(body)
  {
    var s, pieces := body + "@g.us", Split(body, '-');
    assert s[|s| - 5..] == "@g.us" && s[..|s| - 5] == body;
    LaterPiecesFilled(body, '-');
    assert DigitGroups(body) <==>
             pieces[0] != [] && LaterFilled(pieces) && forall i :: 0 <= i < |body| ==> '0' <= body[i] <= '9' || body[i] == '-';
    if IsGroup(s) {
      DigitGroupChars(body);
      assert forall i :: 0 <= i < |pieces| ==> pieces[i] in pieces && pieces[i] != [];
    } else if DigitGroups(body) {
      forall digits <- pieces
        ensures digits != [] && AllDigits(digits)
      {
        forall i | 0 <= i < |digits|
          ensures IsDigit(digits[i])
        {
          PieceChars(body, '-', digits, i);
        }
      }
    }
  }

  lemma GroupAcceptedExactlyWhen(v: string)
    ensures IsGroup(v) <==> exists body :: v == body + "@g.us" && DigitGroups(body)
  {
    hide DigitGroups;
    if IsGroup(v) {
      var body := v[..|v| - 5];
      assert v == body + "@g.us";
      GroupExactlyWhen(body);
    } else if body :| v == body + "@g.us" && DigitGroups(body) {
      GroupExactlyWhen(body);
    }
  }

  /** What each kind of entry accepts, and what it makes of it. */
  lemma EntryAcceptedExactlyWhen(v: string)
    ensures ParseEntry(Channel, v)
         == if 1 <= |v| <= 20 && (forall i :: 0 <= i < |v| ==> '0' <= v[i] <= '9') then Some(v) else None
    ensures ParseEntry(FeedSource, v)
         == if 1 <= |v| <= 40
               && (forall i :: 0 <= i < |v| ==> 'a' <= v[i] <= 'z' || '0' <= v[i] <= '9' || v[i] == '_' || v[i] == '-')
            then Some(v) else None
    ensures ParseEntry(Phone, v)
         == var d := StripMarks(v);
            if 7 <= |d| <= 15 && (forall i :: 0 <= i < |d| ==> '0' <= d[i] <= '9') then Some(d) else None
    ensures ParseEntry(Group, v) == if exists body :: v == body + "@g.us" && DigitGroups(body) then Some(v) else None
  {
    GroupAcceptedExactlyWhen(v);
    hide StripMarks, IsGroup, DigitGroups;
  }

  /** A named conversation: an alias, its sign, and a group or a number, spaces beside the sign dropped. */
  lemma ConversationAcceptedExactlyWhen(before: string, after: string)
    requires '=' !in before
    ensures ParseEntry(Conversation, before) == None
    ensures
      var alias, target := TrimSpace(before), TrimSpace(after);
      ParseEntry(Conversation, before + "=" + after)
      == if !(1 <= |alias| <= 32 && alias[0] != '_' && alias[0] != '-'
              && forall i :: 0 <= i < |alias| ==>
                   'a' <= alias[i] <= 'z' || '0' <= alias[i] <= '9' || alias[i] == '_' || alias[i] == '-') then None
         else if ParseEntry(Group, target).Some? then Some(alias + "=" + target)
         else if ParseEntry(Phone, target).Some? then Some(alias + "=" + ParseEntry(Phone, target).value)
         else None
  {
    hide TrimSpace, IsGroup, ParsePhone;
    assert "=" == ['='];
    CutJoined(before, '=', after);
  }

  // ---- lists -------------------------------------------------------------------------------

  type EntryParser = string -> Option<string>

  /** The entries of the pieces after those already kept: each normalized, repeats dropped. */
  function Collect(entry: EntryParser, pieces: seq<string>, kept: seq<string>): Option<seq<string>> {
    if pieces == [] then Some(kept)
    else
      var raw := TrimSpace(pieces[0]);
      if raw == [] then Collect(entry, pieces[1..], kept)
      else
        var item := entry(raw);
        if item.None? then None
        else Collect(entry, pieces[1..], if item.value in kept then kept else kept + [item.value])
  }

  function ParseListOf(entry: EntryParser, value: string): Option<string> {
    var items := Collect(entry, Split(value, ','), []);
    if items.None? then None else Some(Join(items.value, ','))
  }

  method ListOf(entry: EntryParser, value: string) returns (result: Option<string>)
    ensures result == ParseListOf(entry, value)
  {
    hide Split, Join, TrimSpace;
    var pieces := Split(value, ',');
    var out: seq<string> := [];
    var seen: set<string> := {};
    var i := 0;
    while i < |pieces|
      invariant 0 <= i <= |pieces|
      invariant forall item :: item in seen <==> item in out
      invariant Collect(entry, pieces, []) == Collect(entry, pieces[i..], out)
    {
      var raw := TrimSpace(pieces[i]);
      assert pieces[i..][1..] == pieces[i + 1..];
      i := i + 1;
      if raw == [] {
        continue;
      }
      var item := entry(raw);
      if item.None? {
        return None;
      }
      if item.value !in seen {
        seen := seen + {item.value};
        out := out + [item.value];
      }
    }
    return Some(Join(out, ','));
  }

  /** An accepted entry as it stands in a stored list: its own parse, and safe between commas. */
  ghost predicate Stored(entry: EntryParser, item: string) {
    entry(item) == Some(item) && item != [] && Trimmed(item) && ',' !in item
  }

  ghost predicate StoredList(entry: EntryParser, items: seq<string>) {
    && (forall item <- items :: Stored(entry, item))
    && (forall i, j :: 0 <= i < j < |items| ==> items[i] != items[j])
  }

  /** The entry parser accepts what it returns, unchanged. */
  ghost predicate Settles(entry: EntryParser) {
    forall raw :: entry(raw).Some? ==> Stored(entry, entry(raw).value)
  }

  lemma {:induction false} CollectIsStored(entry: EntryParser, pieces: seq<string>, kept: seq<string>)
    requires Settles(entry) && StoredList(entry, kept)
    ensures
      var collected := Collect(entry, pieces, kept);
      collected.Some? ==> StoredList(entry, collected.value)
  {
    if pieces != [] {
      var raw := TrimSpace(pieces[0]);
      if raw == [] {
        CollectIsStored(entry, pieces[1..], kept);
      } else if entry(raw).Some? {
        var item := entry(raw).value;
        CollectIsStored(entry, pieces[1..], if item in kept then kept else kept + [item]);
      }
    }
  }

  lemma CollectOneStored(entry: EntryParser, rest: seq<string>, kept: seq<string>, item: string)
    requires Stored(entry, item) && item !in kept
    ensures Collect(entry, [item] + rest, kept) == Collect(entry, rest, kept + [item])
  {
    TrimSpaceTrims(item);
    assert ([item] + rest)[1..] == rest;
  }

  lemma CollectNothing(entry: EntryParser, kept: seq<string>)
    ensures Collect(entry, [], kept) == Some(kept)
  {
  }

  lemma {:induction false} CollectStored(entry: EntryParser, items: seq<string>, i: nat)
    requires StoredList(entry, items) && i <= |items|
    ensures Collect(entry, items[i..], items[..i]) == Some(items)
    decreases |items| - i
  {
    hide Stored, Collect;
    if i == |items| {
      assert items[..i] == items && items[i..] == [];
      CollectNothing(entry, items);
    } else {
      assert items[i..] == [items[i]] + items[i + 1..];
      CollectOneStored(entry, items[i + 1..], items[..i], items[i]);
      CollectStored(entry, items, i + 1);
      assert items[..i] + [items[i]] == items[..i + 1];
    }
  }

  lemma NothingParses(entry: EntryParser)
    ensures ParseListOf(entry, []) == Some([])
  {
    assert Split([], ',') == [[]];
    assert TrimSpace([]) == [];
    assert Collect(entry, [[]], []) == Collect(entry, [[]][1..], []);
  }

  /** A stored list splits back into its own entries and parses to itself. */
  lemma StoredListParses(entry: EntryParser, items: seq<string>)
    requires StoredList(entry, items)
    ensures ParseListOf(entry, Join(items, ',')) == Some(Join(items, ','))
    ensures items != [] ==> Split(Join(items, ','), ',') == items
  {
    if items == [] {
      NothingParses(entry);
    } else {
      forall p <- items
        ensures ',' !in p
      {
        assert Stored(entry, p);
      }
      SplitJoin(items, ',');
      CollectStored(entry, items, 0);
      assert items[0..] == items && items[..0] == [];
    }
  }

  /** A list of entries that settle is itself accepted unchanged once parsed. */
  lemma ListSettles(entry: EntryParser, value: string)
    requires Settles(entry) && ParseListOf(entry, value).Some?
    ensures ParseListOf(entry, ParseListOf(entry, value).value) == ParseListOf(entry, value)
  {
    CollectIsStored(entry, Split(value, ','), []);
    StoredListParses(entry, Collect(entry, Split(value, ','), []).value);
  }

  // ---- what a list keeps, told by its pieces -------------------------------------------------

  /** The piece, its ends trimmed, is refused by the entry parser. */
  ghost predicate Refuses(entry: EntryParser, piece: string) {
    TrimSpace(piece) != "" && entry(TrimSpace(piece)).None?
  }

  ghost predicate Gives(entry: EntryParser, piece: string, item: string) {
    TrimSpace(piece) != "" && entry(TrimSpace(piece)) == Some(item)
  }

  /** Each item comes from the piece at its place, the places rise, and a later piece gives an item anew. */
  ghost predicate FirstOnes(entry: EntryParser, pieces: seq<string>, items: seq<string>, at: seq<nat>) {
    && |at| == |items|
    && (forall i :: 0 <= i < |at| ==> at[i] < |pieces| && Gives(entry, pieces[at[i]], items[i]))
    && (forall i, j :: 0 <= i < j < |at| ==> at[i] < at[j] && items[i] != items[j])
    && (forall k :: 0 <= k < |pieces| && TrimSpace(pieces[k]) != "" ==> GivenBy(entry, pieces, items, at, k))
  }

  /** What this piece gives is an item placed no later. */
  ghost predicate GivenBy(entry: EntryParser, pieces: seq<string>, items: seq<string>, at: seq<nat>, k: nat)
    requires |at| == |items| && k < |pieces|
  {
    exists i :: 0 <= i < |at| && at[i] <= k && Gives(entry, pieces[k], items[i])
  }

  lemma StillGiven(
    entry: EntryParser, pieces: seq<string>, i: nat, kept: seq<string>, at: seq<nat>, more: seq<string>,
    later: seq<nat>, k: nat)
    requires k < i < |pieces| && |at| == |kept| && |later| == |more|
    requires GivenBy(entry, pieces[..i], kept, at, k)
    ensures GivenBy(entry, pieces[..i + 1], kept + more, at + later, k)
  {
    hide Gives;
    var before, after := pieces[..i], pieces[..i + 1];
    var j :| 0 <= j < |at| && at[j] <= k && Gives(entry, before[k], kept[j]);
    assert (at + later)[j] <= k && Gives(entry, after[k], (kept + more)[j]);
  }

  lemma NothingNew(entry: EntryParser, pieces: seq<string>, i: nat, kept: seq<string>, at: seq<nat>)
    requires i < |pieces| && FirstOnes(entry, pieces[..i], kept, at)
    requires TrimSpace(pieces[i]) == "" || exists j :: 0 <= j < |kept| && Gives(entry, pieces[i], kept[j])
    ensures FirstOnes(entry, pieces[..i + 1], kept, at)
  {
    hide TrimSpace, Gives, GivenBy;
    var before, after := pieces[..i], pieces[..i + 1];
    forall k | 0 <= k < |after| && TrimSpace(after[k]) != ""
      ensures GivenBy(entry, after, kept, at, k)
    {
      if k < i {
        assert before[k] == after[k];
        StillGiven(entry, pieces, i, kept, at, [], [], k);
        assert kept + [] == kept && at + [] == at;
      } else {
        GivenByOne(entry, after, kept, at, k);
      }
    }
  }

  lemma GivenByOne(entry: EntryParser, pieces: seq<string>, items: seq<string>, at: seq<nat>, k: nat)
    requires |at| == |items| && k < |pieces| && forall i :: 0 <= i < |at| ==> at[i] <= k
    requires exists j :: 0 <= j < |items| && Gives(entry, pieces[k], items[j])
    ensures GivenBy(entry, pieces, items, at, k)
  {
  }

  lemma NewEntry(entry: EntryParser, pieces: seq<string>, i: nat, kept: seq<string>, at: seq<nat>, item: string)
    requires i < |pieces| && FirstOnes(entry, pieces[..i], kept, at)
    requires Gives(entry, pieces[i], item) && item !in kept
    ensures FirstOnes(entry, pieces[..i + 1], kept + [item], at + [i])
  {
    hide TrimSpace, Gives, GivenBy;
    var before, after, items, next := pieces[..i], pieces[..i + 1], kept + [item], at + [i];
    forall k | 0 <= k < |after| && TrimSpace(after[k]) != ""
      ensures GivenBy(entry, after, items, next, k)
    {
      if k < i {
        assert before[k] == after[k];
        StillGiven(entry, pieces, i, kept, at, [item], [i], k);
      } else {
        assert Gives(entry, after[k], items[|kept|]);
        GivenByOne(entry, after, items, next, k);
      }
    }
    forall j | 0 <= j < |next|
      ensures next[j] < |after| && Gives(entry, after[next[j]], items[j])
    {
      if j < |at| {
        assert Gives(entry, before[at[j]], kept[j]);
      }
    }
  }

  lemma OnePieceMore(entry: EntryParser, pieces: seq<string>, i: nat, kept: seq<string>, at: seq<nat>)
    returns (next: seq<nat>)
    requires i < |pieces| && FirstOnes(entry, pieces[..i], kept, at) && !Refuses(entry, pieces[i])
    ensures
      var raw := TrimSpace(pieces[i]);
      var items := if raw == "" || entry(raw).value in kept then kept else kept + [entry(raw).value];
      FirstOnes(entry, pieces[..i + 1], items, next)
  {
    var raw := TrimSpace(pieces[i]);
    if raw != "" && entry(raw).value !in kept {
      next := at + [i];
      NewEntry(entry, pieces, i, kept, at, entry(raw).value);
    } else {
      next := at;
      NothingNew(entry, pieces, i, kept, at);
    }
  }

  /** The loop over the pieces, from the i-th on. */
  lemma {:induction false} CollectedAre(
    entry: EntryParser, pieces: seq<string>, i: nat, kept: seq<string>, at: seq<nat>) returns (all: seq<nat>)
    requires i <= |pieces| && FirstOnes(entry, pieces[..i], kept, at)
    ensures
      var items := Collect(entry, pieces[i..], kept);
      && (items.None? <==> exists k :: i <= k < |pieces| && Refuses(entry, pieces[k]))
      && (items.Some? ==> FirstOnes(entry, pieces, items.value, all))
    decreases |pieces| - i
  {
    hide TrimSpace, FirstOnes;
    all := at;
    if i == |pieces| {
      assert pieces[..i] == pieces;
    } else {
      assert pieces[i..][0] == pieces[i] && pieces[i..][1..] == pieces[i + 1..];
      var raw := TrimSpace(pieces[i]);
      if !Refuses(entry, pieces[i]) {
        var next := OnePieceMore(entry, pieces, i, kept, at);
        var items := if raw == "" || entry(raw).value in kept then kept else kept + [entry(raw).value];
        all := CollectedAre(entry, pieces, i + 1, items, next);
      }
    }
  }

  /** A list is refused exactly for a piece its entry parser refuses; otherwise it keeps, in order and
      once each, what the pieces between the commas give, empty pieces aside. */
  lemma ListHoldsEachEntryOnce(entry: EntryParser, value: string) returns (items: seq<string>, at: seq<nat>)
    ensures
      var pieces := Split(value, ',');
      && Join(pieces, ',') == value
      && (ParseListOf(entry, value).None? <==> exists k :: 0 <= k < |pieces| && Refuses(entry, pieces[k]))
      && (ParseListOf(entry, value).Some? ==>
            ParseListOf(entry, value) == Some(Join(items, ',')) && FirstOnes(entry, pieces, items, at))
  {
    hide TrimSpace, FirstOnes, Collect, Split, Join;
    var pieces := Split(value, ',');
    JoinSplit(value, ',');
    NoPieceYet(entry);
    assert pieces[..0] == [] && pieces[0..] == pieces;
    at := CollectedAre(entry, pieces, 0, [], []);
    var collected := Collect(entry, pieces, []);
    items := if collected.Some? then collected.value else [];
  }

  lemma NoPieceYet(entry: EntryParser)
    ensures FirstOnes(entry, [], [], [])
  {
  }

  function ParserOf(entry: Entry): EntryParser {
    raw => ParseEntry(entry, raw)
  }

  lemma EntriesSettle(entry: Entry)
    ensures Settles(ParserOf(entry))
  {
    forall raw | ParserOf(entry)(raw).Some?
      ensures Stored(ParserOf(entry), ParserOf(entry)(raw).value)
    {
      EntryIsNormal(entry, raw);
    }
  }

  // ---- named conversations -------------------------------------------------------------------

  predicate AllDistinct(names: seq<string>) {
    forall i, j :: 0 <= i < j < |names| ==> names[i] != names[j]
  }

  function AliasesOf(entries: seq<string>): (r: seq<string>)
    ensures |r| == |entries|
  {
    seq(|entries|, i requires 0 <= i < |entries| => Cut(entries[i], '=').0)
  }

  function TargetsOf(entries: seq<string>): (r: seq<string>)
    ensures |r| == |entries|
  {
    seq(|entries|, i requires 0 <= i < |entries| => Cut(entries[i], '=').1)
  }

  /** A list in which an alias and a target each appear once. */
  function ParseConversations(value: string): Option<string> {
    var list := ParseListOf(ParserOf(Conversation), value);
    if list.None? || list.value == [] then list
    else
      var entries := Split(list.value, ',');
      if AllDistinct(AliasesOf(entries)) && AllDistinct(TargetsOf(entries)) then list else None
  }

  ghost predicate ShareAlias(a: string, b: string) {
    exists alias, t, u :: '=' !in alias && a == alias + "=" + t && b == alias + "=" + u
  }

  ghost predicate ShareTarget(a: string, b: string) {
    exists target, p, q :: '=' !in p && '=' !in q && a == p + "=" + target && b == q + "=" + target
  }

  lemma SharingIs(a: string, b: string)
    requires Stored(ParserOf(Conversation), a) && Stored(ParserOf(Conversation), b)
    ensures Cut(a, '=').0 == Cut(b, '=').0 <==> ShareAlias(a, b)
    ensures Cut(a, '=').1 == Cut(b, '=').1 <==> ShareTarget(a, b)
  {
    var x, y := Cut(a, '='), Cut(b, '=');
    assert "=" == ['='];
    assert a == x.0 + "=" + x.1 && b == y.0 + "=" + y.1;
    if ShareAlias(a, b) {
      var alias, t, u :| '=' !in alias && a == alias + "=" + t && b == alias + "=" + u;
      CutJoined(alias, '=', t);
      CutJoined(alias, '=', u);
    }
    if ShareTarget(a, b) {
      var target, p, q :| '=' !in p && '=' !in q && a == p + "=" + target && b == q + "=" + target;
      CutJoined(p, '=', target);
      CutJoined(q, '=', target);
    }
  }

  /** Named conversations are a list of entries, refused exactly when two of them share an alias or a target. */
  lemma ConversationsExactlyWhen(value: string) returns (items: seq<string>, at: seq<nat>)
    ensures
      var list := ParseListOf(ParserOf(Conversation), value);
      if list.None? then ParseConversations(value).None?
      else
        && list == Some(Join(items, ',')) && FirstOnes(ParserOf(Conversation), Split(value, ','), items, at)
        && ParseConversations(value)
           == if exists i, j :: 0 <= i < j < |items| && (ShareAlias(items[i], items[j]) || ShareTarget(items[i], items[j]))
              then None else list
  {
    var entry := ParserOf(Conversation);
    items, at := ListHoldsEachEntryOnce(entry, value);
    var list := ParseListOf(entry, value);
    if list.Some? && list.value != [] {
      EntriesSettle(Conversation);
      FirstOnesAreStored(entry, Split(value, ','), items, at);
      StoredListParses(entry, items);
      SharedNames(items);
    } else if list.Some? {
      EntriesSettle(Conversation);
      FirstOnesAreStored(entry, Split(value, ','), items, at);
      if items != [] {
        SomethingJoined(items);
      }
    }
  }

  lemma SomethingJoined(items: seq<string>)
    requires items != [] && forall item <- items :: item != ""
    ensures Join(items, ',') != ""
  {
    assert items[0] in items;
  }

  lemma FirstOnesAreStored(entry: EntryParser, pieces: seq<string>, items: seq<string>, at: seq<nat>)
    requires Settles(entry) && FirstOnes(entry, pieces, items, at)
    ensures StoredList(entry, items)
  {
    hide TrimSpace;
    forall i | 0 <= i < |items|
      ensures Stored(entry, items[i])
    {
      assert Gives(entry, pieces[at[i]], items[i]);
    }
  }

  lemma SharedNames(items: seq<string>)
    requires forall item <- items :: Stored(ParserOf(Conversation), item)
    ensures AllDistinct(AliasesOf(items)) && AllDistinct(TargetsOf(items)) <==>
              !exists i, j :: 0 <= i < j < |items| && (ShareAlias(items[i], items[j]) || ShareTarget(items[i], items[j]))
  {
    hide Stored, ShareAlias, ShareTarget, Cut;
    forall i, j | 0 <= i < j < |items|
      ensures AliasesOf(items)[i] == AliasesOf(items)[j] <==> ShareAlias(items[i], items[j])
      ensures TargetsOf(items)[i] == TargetsOf(items)[j] <==> ShareTarget(items[i], items[j])
    {
      SharingIs(items[i], items[j]);
    }
  }

  lemma DistinctStep(names: seq<string>, i: nat, seen: set<string>)
    requires i < |names| && AllDistinct(names[..i])
    requires forall name :: name in seen <==> name in names[..i]
    ensures AllDistinct(names[..i + 1]) <==> names[i] !in seen
    ensures names[i] in seen ==> !AllDistinct(names)
    ensures forall name :: name in seen + {names[i]} <==> name in names[..i + 1]
  {
    assert names[..i + 1] == names[..i] + [names[i]];
    if names[i] in seen {
      var j :| 0 <= j < i && names[..i][j] == names[i];
      assert names[..i + 1][j] == names[..i + 1][i];
    }
  }

  method NamedConversations(value: string) returns (result: Option<string>)
    ensures result == ParseConversations(value)
  {
    var list := ListOf(ParserOf(Conversation), value);
    if list.None? || list.value == [] {
      return list;
    }
    var distinct := NamesAreDistinct(Split(list.value, ','));
    return if distinct then list else None;
  }

  method NamesAreDistinct(entries: seq<string>) returns (distinct: bool)
    ensures distinct <==> AllDistinct(AliasesOf(entries)) && AllDistinct(TargetsOf(entries))
  {
    var aliases: set<string> := {};
    var targets: set<string> := {};
    ghost var firsts, seconds := AliasesOf(entries), TargetsOf(entries);
    for i := 0 to |entries|
      invariant AllDistinct(firsts[..i]) && AllDistinct(seconds[..i])
      invariant forall name :: name in aliases <==> name in firsts[..i]
      invariant forall name :: name in targets <==> name in seconds[..i]
    {
      var pair := Cut(entries[i], '=');
      DistinctStep(firsts, i, aliases);
      DistinctStep(seconds, i, targets);
      if pair.0 in aliases || pair.1 in targets {
        return false;
      }
      aliases := aliases + {pair.0};
      targets := targets + {pair.1};
    }
    assert firsts[..|entries|] == firsts && seconds[..|entries|] == seconds;
    return true;
  }

  // ---- numbers and choices -------------------------------------------------------------------

  function Decimal(n: nat): (s: string)
    ensures s != [] && AllDigits(s)
  {
    var digit := ['0' + (n % 10) as char];
    if n < 10 then digit else Decimal(n / 10) + digit
  }

  function Value(digits: string): nat
    requires AllDigits(digits)
  {
    if digits == [] then 0
    else 10 * Value(digits[..|digits| - 1]) + (digits[|digits| - 1] - '0') as nat
  }

  lemma {:induction false} DecimalValue(n: nat)
    ensures Value(Decimal(n)) == n
  {
    var s := Decimal(n);
    if n < 10 {
      assert s[..0] == [];
    } else {
      DecimalValue(n / 10);
      assert s[..|s| - 1] == Decimal(n / 10);
    }
  }

  /** A signed decimal number. */
  function Atoi(s: string): Option<int> {
    var negative := s != [] && s[0] == '-';
    var digits := if s != [] && (s[0] == '-' || s[0] == '+') then s[1..] else s;
    if digits == [] || !AllDigits(digits) then None
    else Some(if negative then 0 - Value(digits) else Value(digits))
  }

  function ParsePdfLimit(value: string): Option<string> {
    var text := TrimSpace(value);
    if text == [] then Some([])
    else
      match Atoi(text)
      case None => None
      case Some(n) => if n < 1 || n > 100 then None else Some(Decimal(n))
  }

  predicate IsLimit(s: string) {
    1 <= |s| <= 12 && AllDigits(s) && s[0] != '0'
  }

  function ParseWholeNumber(value: string): Option<string> {
    var text := TrimSpace(value);
    if text == [] || IsLimit(text) then Some(text) else None
  }

  predicate IsLetterOrDigit(c: char) { IsLowerOrDigit(c) || 'A' <= c <= 'Z' }

  predicate IsModelName(s: string) {
    && 1 <= |s| <= 128
    && IsLetterOrDigit(s[0])
    && forall i :: 0 <= i < |s| ==>
         IsLetterOrDigit(s[i]) || s[i] == '.' || s[i] == '_' || s[i] == ':' || s[i] == '/' || s[i] == '-'
  }

  function ParseModelName(value: string): Option<string> {
    var text := TrimSpace(value);
    if text == [] || IsModelName(text) then Some(text) else None
  }

  function ParseOneOf(options: seq<string>, value: string): Option<string> {
    var text := TrimSpace(value);
    if text in options then Some(text) else None
  }

  /** What a setting of this kind makes of a raw value. */
  function Parse(kind: Kind, raw: string): Option<string> {
    match kind
    case PdfLimit => ParsePdfLimit(raw)
    case List(entry) => ParseListOf(ParserOf(entry), raw)
    case OneOf(options) => ParseOneOf(options, raw)
    case Conversations => ParseConversations(raw)
    case WholeNumber => ParseWholeNumber(raw)
    case ModelName => ParseModelName(raw)
  }

  lemma {:induction false} DecimalStartsAbove(n: nat)
    requires n >= 1
    ensures Decimal(n)[0] != '0'
  {
    if n >= 10 {
      DecimalStartsAbove(n / 10);
      assert Decimal(n)[0] == Decimal(n / 10)[0];
    }
  }

  /** The page limit: a number from 1 to 100, a plus sign and leading zeros allowed, stored without them. */
  lemma PdfLimitAcceptedExactlyWhen(raw: string)
    ensures
      var text := TrimSpace(raw);
      if text == "" then Parse(PdfLimit, raw) == Some("")
      else
        var digits := if text[0] == '+' then text[1..] else text;
        if digits != "" && (forall i :: 0 <= i < |digits| ==> '0' <= digits[i] <= '9') && 1 <= Value(digits) <= 100
        then
          var stored := Parse(PdfLimit, raw);
          && stored.Some? && AllDigits(stored.value) && stored.value != "" && stored.value[0] != '0'
          && Value(stored.value) == Value(digits)
        else Parse(PdfLimit, raw) == None
  {
    hide TrimSpace, Decimal, Value;
    var text := TrimSpace(raw);
    if text != "" {
      var n := Atoi(text);
      var digits := if text[0] == '+' then text[1..] else text;
      assert text[0] == '-' ==> !AllDigits(digits) by { assert text[0] == '-' ==> !IsDigit(digits[0]); }
      assert n.Some? && n.value >= 1 ==> text[0] != '-' && digits != "" && AllDigits(digits) && n.value == Value(digits);
      if n.Some? && n.value >= 1 {
        DecimalValue(n.value);
        DecimalStartsAbove(n.value);
      }
    }
  }

  /** The kinds that keep their text as it is, its ends trimmed. */
  lemma TextAcceptedExactlyWhen(raw: string, options: seq<string>)
    ensures
      var t := TrimSpace(raw);
      && Parse(OneOf(options), raw) == (if t in options then Some(t) else None)
      && Parse(WholeNumber, raw)
         == (if t == "" || (|t| <= 12 && t[0] != '0' && forall i :: 0 <= i < |t| ==> '0' <= t[i] <= '9')
             then Some(t) else None)
      && Parse(ModelName, raw)
         == (if t == ""
                || (|t| <= 128 && t[0] != '.' && t[0] != '_' && t[0] != ':' && t[0] != '/' && t[0] != '-'
                    && forall i :: 0 <= i < |t| ==>
                         || 'a' <= t[i] <= 'z' || 'A' <= t[i] <= 'Z' || '0' <= t[i] <= '9'
                         || t[i] == '.' || t[i] == '_' || t[i] == ':' || t[i] == '/' || t[i] == '-')
             then Some(t) else None)
  {
    hide TrimSpace;
  }

  lemma DigitsAreAtoi(s: string)
    requires s != [] && AllDigits(s)
    ensures Atoi(s) == Some(Value(s)) && TrimSpace(s) == s
  {
    assert IsDigit(s[0]) && IsDigit(s[|s| - 1]);
    TrimSpaceTrims(s);
  }

  lemma PdfLimitSettles(raw: string)
    requires ParsePdfLimit(raw).Some?
    ensures ParsePdfLimit(ParsePdfLimit(raw).value) == ParsePdfLimit(raw)
  {
    if TrimSpace(raw) != [] {
      var n := Atoi(TrimSpace(raw)).value;
      DecimalValue(n);
      DigitsAreAtoi(Decimal(n));
    }
  }

  lemma TrimTwice(raw: string)
    ensures TrimSpace(TrimSpace(raw)) == TrimSpace(raw)
  {
    TrimSpaceTrims(raw);
    TrimSpaceTrims(TrimSpace(raw));
  }

  lemma ConversationsSettle(raw: string)
    requires ParseConversations(raw).Some?
    ensures ParseConversations(ParseConversations(raw).value) == ParseConversations(raw)
  {
    hide ParseListOf, AllDistinct, Settles;
    EntriesSettle(Conversation);
    ListSettles(ParserOf(Conversation), raw);
  }

  /** Every catalogue parser accepts its own output and leaves it unchanged. */
  lemma ParseAcceptsItsOutput(kind: Kind, raw: string)
    requires Parse(kind, raw).Some?
    ensures Parse(kind, Parse(kind, raw).value) == Parse(kind, raw)
  {
    hide ParsePdfLimit, ParseListOf, ParseConversations, IsLimit, IsModelName, TrimSpace, Settles;
    TrimTwice(raw);
    match kind
    case PdfLimit => PdfLimitSettles(raw);
    case List(entry) =>
      EntriesSettle(entry);
      ListSettles(ParserOf(entry), raw);
    case Conversations => ConversationsSettle(raw);
    case _ =>
  }

  // ---- the catalogue ---------------------------------------------------------------------------

  type Values = map<string, string>

  /** A map read as the source reads it: a missing key is the empty string. */
  function Get(values: Values, key: string): string {
    if key in values then values[key] else []
  }

  function Ids(catalog: seq<Setting>): set<string> {
    set s <- catalog :: s.id
  }

  function Envs(catalog: seq<Setting>): set<string> {
    set s <- catalog :: s.env
  }

  /** Identifiers and variables each name one setting. */
  ghost predicate SoundCatalog(catalog: seq<Setting>) {
    forall i, j :: 0 <= i < j < |catalog| ==> catalog[i].id != catalog[j].id && catalog[i].env != catalog[j].env
  }

  function ImportSetting(s: Setting, env: Values): Option<string> {
    var raw := Get(env, s.env);
    if raw == [] then Some([])
    else
      var value := Parse(s.kind, raw);
      if value.None? || (s.readOnly && value.value != s.default) then None else value
  }

  function StoredValue(s: Setting, values: Values): Option<string> {
    var raw := Get(values, s.id);
    var value := if raw == [] then Some([]) else Parse(s.kind, raw);
    if value.None? || (s.readOnly && value.value != [] && value.value != s.default) then None else value
  }

  /** The stored values an environment imports to: one for every setting. */
  ghost predicate ImportedAs(catalog: seq<Setting>, env: Values, values: Values) {
    values.Keys == Ids(catalog) && forall s <- catalog :: ImportSetting(s, env) == Some(values[s.id])
  }

  /** The variables a stored configuration projects to: one for every setting. */
  ghost predicate ProjectedAs(catalog: seq<Setting>, values: Values, vars: Values) {
    && values.Keys <= Ids(catalog) && vars.Keys == Envs(catalog)
    && forall s <- catalog :: StoredValue(s, values) == Some(vars[s.env])
  }

  lemma PrefixIds(catalog: seq<Setting>, i: nat)
    requires i < |catalog|
    ensures Ids(catalog[..i + 1]) == Ids(catalog[..i]) + {catalog[i].id}
    ensures Envs(catalog[..i + 1]) == Envs(catalog[..i]) + {catalog[i].env}
    ensures SoundCatalog(catalog) ==> catalog[i].id !in Ids(catalog[..i]) && catalog[i].env !in Envs(catalog[..i])
  {
    assert catalog[..i + 1] == catalog[..i] + [catalog[i]];
  }

  lemma NothingImported(env: Values)
    ensures ImportedAs([], env, map[])
  {
  }

  lemma ImportOneMore(catalog: seq<Setting>, i: nat, env: Values, values: Values, value: string)
    requires SoundCatalog(catalog) && i < |catalog| && ImportedAs(catalog[..i], env, values)
    requires ImportSetting(catalog[i], env) == Some(value)
    ensures ImportedAs(catalog[..i + 1], env, values[catalog[i].id := value])
  {
    hide ImportSetting;
    PrefixIds(catalog, i);
    assert catalog[..i + 1] == catalog[..i] + [catalog[i]];
    forall s <- catalog[..i]
      ensures s.id != catalog[i].id
    {
      assert s.id in Ids(catalog[..i]);
    }
  }

  method ImportSettings(catalog: seq<Setting>, env: Values) returns (values: Option<Values>)
    requires SoundCatalog(catalog)
    ensures values.Some? ==> ImportedAs(catalog, env, values.value)
    ensures values.None? <==> exists s <- catalog :: ImportSetting(s, env).None?
  {
    hide ImportSetting, ImportedAs, SoundCatalog;
    var out: Values := map[];
    assert ImportedAs(catalog[..0], env, out) by { NothingImported(env); }
    for i := 0 to |catalog|
      invariant ImportedAs(catalog[..i], env, out)
      invariant forall j :: 0 <= j < i ==> ImportSetting(catalog[j], env).Some?
    {
      var value := ImportSetting(catalog[i], env);
      if value.None? {
        return None;
      }
      ImportOneMore(catalog, i, env, out, value.value);
      out := out[catalog[i].id := value.value];
    }
    assert catalog[..|catalog|] == catalog;
    return Some(out);
  }

  /** What is stored is kept; what the catalogue gained since is imported. */
  ghost predicate MergedAs(catalog: seq<Setting>, stored: Values, env: Values, merged: Values) {
    && merged.Keys == stored.Keys + Ids(catalog)
    && (forall id <- stored :: merged[id] == stored[id])
    && (forall s <- catalog :: s.id !in stored ==> ImportSetting(s, env) == Some(merged[s.id]))
  }

  lemma MergeOneMore(catalog: seq<Setting>, i: nat, stored: Values, env: Values, merged: Values, value: string)
    requires SoundCatalog(catalog) && i < |catalog| && MergedAs(catalog[..i], stored, env, merged)
    ensures catalog[i].id in stored ==> MergedAs(catalog[..i + 1], stored, env, merged)
    ensures catalog[i].id !in stored && ImportSetting(catalog[i], env) == Some(value) ==>
              MergedAs(catalog[..i + 1], stored, env, merged[catalog[i].id := value])
  {
    hide ImportSetting;
    PrefixIds(catalog, i);
    assert catalog[..i + 1] == catalog[..i] + [catalog[i]];
    forall s <- catalog[..i]
      ensures s.id != catalog[i].id
    {
      assert s.id in Ids(catalog[..i]);
    }
  }

  /** Adds what the catalogue gained since the configuration was stored; `added` says whether anything was. */
  method NewSettings(catalog: seq<Setting>, stored: Values, env: Values) returns (merged: Option<Values>, added: bool)
    requires SoundCatalog(catalog)
    ensures merged.Some? ==> MergedAs(catalog, stored, env, merged.value) && (added <==> !(Ids(catalog) <= stored.Keys))
    ensures merged.None? <==> exists s <- catalog :: s.id !in stored && ImportSetting(s, env).None?
  {
    hide ImportSetting, MergedAs;
    var out := stored;
    added := false;
    assert MergedAs(catalog[..0], stored, env, out) by { NothingMerged(stored, env); }
    for i := 0 to |catalog|
      invariant MergedAs(catalog[..i], stored, env, out)
      invariant added <==> !(Ids(catalog[..i]) <= stored.Keys)
      invariant forall j :: 0 <= j < i && catalog[j].id !in stored ==> ImportSetting(catalog[j], env).Some?
    {
      PrefixIds(catalog, i);
      if catalog[i].id in stored {
        MergeOneMore(catalog, i, stored, env, out, []);
      } else {
        var value := ImportSetting(catalog[i], env);
        if value.None? {
          return None, added;
        }
        MergeOneMore(catalog, i, stored, env, out, value.value);
        out := out[catalog[i].id := value.value];
        added := true;
      }
    }
    assert catalog[..|catalog|] == catalog;
    return Some(out), added;
  }

  lemma NothingMerged(stored: Values, env: Values)
    ensures MergedAs([], stored, env, stored)
  {
  }

  method SettingsVariables(catalog: seq<Setting>, values: Values) returns (vars: Option<Values>)
    requires SoundCatalog(catalog)
    ensures vars.Some? ==> ProjectedAs(catalog, values, vars.value)
    ensures vars.None? <==> !(values.Keys <= Ids(catalog)) || exists s <- catalog :: StoredValue(s, values).None?
  {
    hide StoredValue;
    if !(values.Keys <= Ids(catalog)) {
      return None;
    }
    var out: Values := map[];
    for i := 0 to |catalog|
      invariant out.Keys == Envs(catalog[..i])
      invariant forall s <- catalog[..i] :: StoredValue(s, values) == Some(out[s.env])
    {
      PrefixIds(catalog, i);
      var value := StoredValue(catalog[i], values);
      if value.None? {
        return None;
      }
      out := out[catalog[i].env := value.value];
    }
    assert catalog[..|catalog|] == catalog;
    return Some(out);
  }

  // ---- what saving changes, and only that ----------------------------------------------------

  /** A value as a parser of the setting returned it. */
  ghost predicate ParsedFor(s: Setting, value: string) {
    exists raw :: Parse(s.kind, raw) == Some(value)
  }

  /** Changes keyed by variable, each the result of that setting's own parser. */
  ghost predicate ParsedChanges(catalog: seq<Setting>, changes: Values) {
    && changes.Keys <= Envs(catalog)
    && forall s <- catalog :: s.env in changes ==> ParsedFor(s, changes[s.env])
  }

  lemma ImportKeeps(s: Setting, env: Values, value: string)
    requires ImportSetting(s, env) == Some(value)
    requires Get(env, s.env) == [] || ParsedFor(s, Get(env, s.env))
    ensures value == Get(env, s.env)
  {
    hide Parse;
    if Get(env, s.env) != [] {
      var raw :| Parse(s.kind, raw) == Some(Get(env, s.env));
      ParseAcceptsItsOutput(s.kind, raw);
    }
  }

  lemma StoredIsParsed(s: Setting, values: Values, value: string)
    requires StoredValue(s, values) == Some(value)
    ensures value == [] || ParsedFor(s, value)
  {
    hide Parse;
  }

  /** Saved again, an imported value projects to itself. */
  lemma ImportedProjects(s: Setting, env: Values, value: string, values: Values)
    requires ImportSetting(s, env) == Some(value) && Get(values, s.id) == value
    ensures StoredValue(s, values) == Some(value)
  {
    hide Parse;
    if Get(env, s.env) != [] {
      ParseAcceptsItsOutput(s.kind, Get(env, s.env));
    }
  }

  /** Importing the projection with parsed changes laid over it, and saving that over what is stored,
      projects to exactly the old variables with the changes laid over them. */
  lemma SavingProjectsTheChanges(
    catalog: seq<Setting>, stored: Values, vars: Values, changes: Values, imported: Values)
    requires SoundCatalog(catalog)
    requires ProjectedAs(catalog, stored, vars) && ParsedChanges(catalog, changes)
    requires ImportedAs(catalog, vars + changes, imported)
    ensures ProjectedAs(catalog, stored + imported, vars + changes)
  {
    hide ImportSetting, StoredValue, ParsedFor;
    var after, env := stored + imported, vars + changes;
    forall s <- catalog
      ensures StoredValue(s, after) == Some(env[s.env])
    {
      assert StoredValue(s, stored) == Some(vars[s.env]);
      assert ImportSetting(s, env) == Some(imported[s.id]);
      StoredIsParsed(s, stored, vars[s.env]);
      assert Get(env, s.env) == env[s.env];
      ImportKeeps(s, env, imported[s.id]);
      ImportedProjects(s, env, imported[s.id], after);
    }
  }

  /** Such an import is refused only where a change gives a fixed setting another value. */
  lemma ParsedChangesImport(catalog: seq<Setting>, stored: Values, vars: Values, changes: Values, s: Setting)
    requires s in catalog && ProjectedAs(catalog, stored, vars) && ParsedChanges(catalog, changes)
    ensures ImportSetting(s, vars + changes).None? <==>
              s.readOnly && s.env in changes && changes[s.env] != [] && changes[s.env] != s.default
  {
    hide Parse;
    var env := vars + changes;
    assert StoredValue(s, stored) == Some(vars[s.env]);
    StoredIsParsed(s, stored, vars[s.env]);
    var value := env[s.env];
    assert Get(env, s.env) == value;
    if value != [] {
      assert ParsedFor(s, value);
      var raw :| Parse(s.kind, raw) == Some(value);
      ParseAcceptsItsOutput(s.kind, raw);
    }
  }

  // ---- the shipped catalogue ---------------------------------------------------------------------

  const CATALOG: seq<Setting> := [
    Setting("library.chat_pdf_max_mib", "DOKJA_PDF_MAX_MIB", PdfLimit, "25", ["orchestrator", "feeds"], false),
    Setting("discord.meme_channels", "DISCORD_SCHEDULED_MEME_CHANNEL_ID", List(Channel), "", ["orchestrator", "communications"], false),
    Setting("discord.safe_only_channels", "DISCORD_SAFE_ONLY_CHANNEL_IDS", List(Channel), "", ["orchestrator"], false),
    Setting("discord.answer_channels", "DISCORD_ALLOWED_CHANNELS", List(Channel), "", ["orchestrator", "discord"], false),
    Setting("discord.direct_messages", "DISCORD_DM_POLICY", OneOf(["open", "closed"]), "open", ["orchestrator", "discord"], false),
    Setting("whatsapp.people", "DOKJA_WHATSAPP_ALLOW_FROM", List(Phone), "", ["orchestrator", "whatsapp"], false),
    Setting("whatsapp.groups", "DOKJA_WHATSAPP_ALLOWED_GROUPS", List(Group), "", ["orchestrator", "whatsapp"], false),
    Setting("whatsapp.conversations", "DOKJA_WHATSAPP_CONVERSATIONS", Conversations, "", ["whatsapp"], false),
    Setting("whatsapp.own_chat", "DOKJA_WHATSAPP_SELF_CHAT", OneOf(["true", "false"]), "true", ["orchestrator", "whatsapp"], false),
    Setting("library.max_file_mb", "KNOWLEDGE_MAX_FILE_MB", WholeNumber, "", ["knowledge"], false),
    Setting("library.max_text_chars", "KNOWLEDGE_MAX_TEXT_CHARS", WholeNumber, "", ["knowledge"], false),
    Setting("library.intake_sources", "DOKJA_KNOWLEDGE_INTAKE_SOURCES", List(FeedSource), "", ["orchestrator"], false),
    Setting("models.embedding", "DOKJA_EMBED_MODEL", ModelName, "bge-m3", ["embedding_init", "memory", "knowledge"], true),
    Setting("models.book_classifier", "DOKJA_BOOK_CLASSIFIER_MODEL", ModelName, "typeform/distilbert-base-uncased-mnli", ["feeds"], false),
    Setting("models.book_overview", "DOKJA_BOOK_OVERVIEW_MODEL", ModelName, "sshleifer/distilbart-cnn-12-6", ["feeds"], false),
    Setting("models.speech_to_text", "DOKJA_VOICE_STT_MODEL", ModelName, "openai/whisper-tiny", ["voice"], false),
    Setting("models.ocr", "DOKJA_OCR_REC_MODEL", ModelName, "", ["feeds"], false)
  ]

  lemma FirstIdsDiffer()
    ensures forall i, j :: 0 <= i < 5 && i < j < |CATALOG| ==> CATALOG[i].id != CATALOG[j].id
  {
  }

  lemma LastIdsDiffer()
    ensures forall i, j :: 5 <= i < j < |CATALOG| ==> CATALOG[i].id != CATALOG[j].id
  {
  }

  lemma ShippedIdsDiffer()
    ensures forall i, j :: 0 <= i < j < |CATALOG| ==> CATALOG[i].id != CATALOG[j].id
  {
    hide *;
    FirstIdsDiffer();
    LastIdsDiffer();
  }

  lemma FirstEnvsDiffer()
    ensures forall i, j :: 0 <= i < 5 && i < j < |CATALOG| ==> CATALOG[i].env != CATALOG[j].env
  {
  }

  lemma LastEnvsDiffer()
    ensures forall i, j :: 5 <= i < j < |CATALOG| ==> CATALOG[i].env != CATALOG[j].env
  {
  }

  lemma ShippedEnvsDiffer()
    ensures forall i, j :: 0 <= i < j < |CATALOG| ==> CATALOG[i].env != CATALOG[j].env
  {
    hide *;
    FirstEnvsDiffer();
    LastEnvsDiffer();
  }

  /** The seventeen shipped settings meet the assumption the results above make. */
  lemma ShippedCatalogIsSound()
    ensures SoundCatalog(CATALOG)
  {
    ShippedIdsDiffer();
    ShippedEnvsDiffer();
  }
}
