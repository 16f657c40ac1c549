/** Provider proposals: quotations become byte spans, and a whole reply becomes an assessed proposal. */
module Proposals {
  import opened Wrappers
  import opened Applicability

  const PROPOSAL_CONTRACT := "knowledge.application.proposal.v1"

  datatype Quotation = Quotation(source: string, version: string, quote: string, relation: string)
  datatype QuotedClaim = QuotedClaim(id: string, statement: string, citations: seq<Quotation>)
  datatype QuotedMethod = QuotedMethod(id: string, description: string, prerequisites: seq<string>, citations: seq<Quotation>)
  datatype QuotedProposal = QuotedProposal(claims: seq<QuotedClaim>, approach: QuotedMethod)

  /** A decoded reply. */
  datatype Reply = Reply(
    contract: string, task: string, revision: int, disposition: string, summary: string, proposal: Option<QuotedProposal>)

  datatype Decision = Decision(disposition: string, assessed: Option<(AssessmentRequest, Assessment)>)

  // ---- quotations --------------------------------------------------------------------------------------

  predicate OccursAt(text: string, quote: string, i: int) {
    0 <= i && i + |quote| <= |text| && text[i..i + |quote|] == quote
  }

  /** A quotation stands at a place exactly when the text is what is before it, the quotation, and what is after it. */
  lemma OccursExactlyWhen(text: string, quote: string, i: nat)
    ensures OccursAt(text, quote, i) <==> exists before, after :: |before| == i && text == before + quote + after
  {
    if OccursAt(text, quote, i) {
      var before, after := text[..i], text[i + |quote|..];
      assert text == before + text[i..i + |quote|] + after;
    }
    if before, after :| |before| == i && text == before + quote + after {
      assert text[i..i + |quote|] == quote;
    }
  }

  /** The first place of the quotation from `i` on. */
  function IndexFrom(text: string, quote: string, i: nat): Option<nat>
    requires i <= |text|
    decreases |text| - i
  {
    if OccursAt(text, quote, i) then Some(i)
    else if i == |text| then None
    else IndexFrom(text, quote, i + 1)
  }

  function Index(text: string, quote: string): Option<nat> { IndexFrom(text, quote, 0) }

  lemma {:induction false} IndexIsFirst(text: string, quote: string, i: nat)
    requires i <= |text|
    ensures
      match IndexFrom(text, quote, i)
      case None => forall j :: i <= j ==> !OccursAt(text, quote, j)
      case Some(k) => i <= k && OccursAt(text, quote, k) && forall j :: i <= j < k ==> !OccursAt(text, quote, j)
    decreases |text| - i
  {
    if !OccursAt(text, quote, i) && i < |text| {
      IndexIsFirst(text, quote, i + 1);
    }
  }

  /** The quotation is there, once, overlapping occurrences counted. */
  ghost predicate OnlyAt(text: string, quote: string, start: int) {
    OccursAt(text, quote, start) && forall i :: OccursAt(text, quote, i) ==> i == start
  }

  function AnchorOne(texts: map<string, string>, versions: map<string, string>, q: Quotation): Option<Citation> {
    if q.source !in texts || At(versions, q.source) == "" || q.version != At(versions, q.source)
       || |q.quote| == 0 || |q.quote| > 1000 then None
    else
      var text := texts[q.source];
      match Index(text, q.quote)
      case None => None
      case Some(start) =>
        if start >= |text| || Index(text[start + 1..], q.quote).Some? then None
        else Some(Citation(q.source, q.version, start, start + |q.quote|, q.quote, q.relation))
  }

  predicate Referable(texts: map<string, string>, versions: map<string, string>, q: Quotation) {
    && q.source in texts && At(versions, q.source) != "" && q.version == At(versions, q.source)
    && 1 <= |q.quote| <= 1000
  }

  lemma {:induction false} LaterOccurrence(text: string, quote: string, start: nat, i: nat)
    requires start < |text|
    ensures OccursAt(text[start + 1..], quote, i) <==> OccursAt(text, quote, start + 1 + i)
  {
    var tail := text[start + 1..];
    if i + |quote| <= |tail| {
      assert tail[i..i + |quote|] == text[start + 1 + i..start + 1 + i + |quote|];
    }
  }

  /** A quotation becomes a citation exactly when it stands once in a known source, and the citation says where. */
  lemma {:induction false} AnchorIsExact(texts: map<string, string>, versions: map<string, string>, q: Quotation)
    ensures
      match AnchorOne(texts, versions, q)
      case Some(c) =>
        && Referable(texts, versions, q)
        && c == Citation(q.source, q.version, c.start, c.start + |q.quote|, q.quote, q.relation)
        && OnlyAt(texts[q.source], q.quote, c.start)
      case None => Referable(texts, versions, q) ==> forall i :: !OnlyAt(texts[q.source], q.quote, i)
  {
    if Referable(texts, versions, q) {
      var text := texts[q.source];
      hide IndexFrom;
      IndexIsFirst(text, q.quote, 0);
      if Index(text, q.quote).Some? {
        var start := Index(text, q.quote).value;
        var tail := text[start + 1..];
        IndexIsFirst(tail, q.quote, 0);
        if Index(tail, q.quote).Some? {
          LaterOccurrence(text, q.quote, start, Index(tail, q.quote).value);
        } else {
          forall i | OccursAt(text, q.quote, i) ensures i == start {
            if i > start {
              LaterOccurrence(text, q.quote, start, i - start - 1);
              assert false;
            }
          }
        }
      }
    }
  }

  /** A citation whose quotation stands once where it says is what its quotation anchors to. */
  lemma {:induction false} AnchorFindsAgain(texts: map<string, string>, versions: map<string, string>, c: Citation)
    requires Referable(texts, versions, Quotation(c.source, c.version, c.quote, c.relation))
    requires OnlyAt(texts[c.source], c.quote, c.start) && c.end == c.start + |c.quote|
    ensures AnchorOne(texts, versions, Quotation(c.source, c.version, c.quote, c.relation)) == Some(c)
  {
    AnchorIsExact(texts, versions, Quotation(c.source, c.version, c.quote, c.relation));
  }

  function AnchorAll(texts: map<string, string>, versions: map<string, string>, quoted: seq<Quotation>): Option<seq<Citation>> {
    if quoted == [] then Some([])
    else
      var n := |quoted| - 1;
      match (AnchorAll(texts, versions, quoted[..n]), AnchorOne(texts, versions, quoted[n]))
      case (Some(cs), Some(c)) => Some(cs + [c])
      case _ => None
  }

  function Anchor(texts: map<string, string>, versions: map<string, string>, quoted: seq<Quotation>, limit: nat)
    : Option<seq<Citation>> {
    if |quoted| > limit then None else AnchorAll(texts, versions, quoted)
  }

  method AnchorQuotes(texts: map<string, string>, versions: map<string, string>, quoted: seq<Quotation>, limit: nat)
    returns (r: Option<seq<Citation>>)
    ensures r == Anchor(texts, versions, quoted, limit)
  {
    hide IndexFrom;
    if |quoted| > limit {
      return None;
    }
    var citations: seq<Citation> := [];
    for i := 0 to |quoted|
      invariant AnchorAll(texts, versions, quoted[..i]) == Some(citations)
    {
      var q := quoted[i];
      assert quoted[..i + 1][..i] == quoted[..i];
      AnchorAllFails(texts, versions, quoted, i);
      var known := q.source in texts;
      if !known || At(versions, q.source) == "" || q.version != At(versions, q.source) || |q.quote| == 0 || |q.quote| > 1000 {
        return None;
      }
      var text := texts[q.source];
      var found := Index(text, q.quote);
      if found.None? {
        return None;
      }
      var start := found.value;
      IndexIsFirst(text, q.quote, 0);
      var again := Index(text[start + 1..], q.quote);
      if again.Some? {
        return None;
      }
      citations := citations + [Citation(q.source, q.version, start, start + |q.quote|, q.quote, q.relation)];
    }
    assert quoted[..|quoted|] == quoted;
    return Some(citations);
  }

  lemma {:induction false} AnchorAllFails(
    texts: map<string, string>, versions: map<string, string>, quoted: seq<Quotation>, i: nat)
    requires i < |quoted|
    ensures AnchorOne(texts, versions, quoted[i]).None? ==> AnchorAll(texts, versions, quoted).None?
    decreases |quoted|
  {
    hide AnchorOne;
    if i < |quoted| - 1 {
      AnchorAllFails(texts, versions, quoted[..|quoted| - 1], i);
    }
  }

  lemma {:induction false} AnchoredEach(texts: map<string, string>, versions: map<string, string>, quoted: seq<Quotation>)
    requires AnchorAll(texts, versions, quoted).Some?
    ensures
      var cs := AnchorAll(texts, versions, quoted).value;
      |cs| == |quoted| && forall i :: 0 <= i < |cs| ==> AnchorOne(texts, versions, quoted[i]) == Some(cs[i])
  {
    hide AnchorOne;
    if quoted != [] {
      AnchoredEach(texts, versions, quoted[..|quoted| - 1]);
    }
  }

  /** Each of these citations quotes its source, at the only place the quotation stands. */
  ghost predicate AllUnique(texts: map<string, string>, citations: seq<Citation>) {
    forall i :: 0 <= i < |citations| ==> Unique(texts, citations[i])
  }

  ghost predicate Unique(texts: map<string, string>, c: Citation) {
    c.source in texts && c.end == c.start + |c.quote| && OnlyAt(texts[c.source], c.quote, c.start)
  }

  lemma {:induction false} AnchoredIsUnique(
    texts: map<string, string>, versions: map<string, string>, quoted: seq<Quotation>, limit: nat)
    requires Anchor(texts, versions, quoted, limit).Some?
    ensures AllUnique(texts, Anchor(texts, versions, quoted, limit).value)
  {
    hide AnchorOne, OnlyAt;
    AnchoredEach(texts, versions, quoted);
    forall i | 0 <= i < |quoted| ensures Unique(texts, Anchor(texts, versions, quoted, limit).value[i]) {
      AnchorIsExact(texts, versions, quoted[i]);
    }
  }

  lemma {:induction false} UniqueIsQuoted(texts: map<string, string>, citations: seq<Citation>)
    requires AllUnique(texts, citations)
    ensures AllQuoted(texts, citations)
  {
    forall i | 0 <= i < |citations| ensures Quoted(texts, citations[i]) {
      assert Unique(texts, citations[i]);
      assert OccursAt(texts[citations[i].source], citations[i].quote, citations[i].start);
    }
  }

  // ---- a whole reply -----------------------------------------------------------------------------------

  function TextIn(o: Observation): string {
    if o.Observed? && o.text.Some? then o.text.value else ""
  }

  function VersionIn(o: Observation): string {
    if o.Observed? && o.version.Some? then o.version.value else ""
  }

  /** A loaded source is the one selected, in the version the selection pins, if it pins one. */
  predicate Selected(selected: Selection, o: Observation) {
    o.Observed? && o.id == Some(selected.id) && (selected.version == "" || selected.version == VersionIn(o))
  }

  predicate AllSelected(sources: seq<Selection>, observations: seq<Observation>)
    requires |sources| == |observations|
  {
    forall i :: 0 <= i < |sources| ==> Selected(sources[i], observations[i])
  }

  function VersionsOf(sources: seq<Selection>, observations: seq<Observation>): map<string, string>
    requires |sources| == |observations|
  {
    if sources == [] then map[]
    else
      var n := |sources| - 1;
      VersionsOf(sources[..n], observations[..n])[sources[n].id := VersionIn(observations[n])]
  }

  method IndexObservations(sources: seq<Selection>, observations: seq<Observation>)
    returns (ok: bool, texts: map<string, string>, versions: map<string, string>)
    requires |sources| == |observations|
    ensures ok == AllSelected(sources, observations)
    ensures ok ==> texts == Texts(sources, observations) && versions == VersionsOf(sources, observations)
  {
    texts, versions := map[], map[];
    for i := 0 to |observations|
      invariant texts == Texts(sources[..i], observations[..i]) && versions == VersionsOf(sources[..i], observations[..i])
      invariant forall j :: 0 <= j < i ==> Selected(sources[j], observations[j])
    {
      var o, selected := observations[i], sources[i];
      if o.Other? || o.id != Some(selected.id) {
        assert !Selected(selected, o);
        return false, texts, versions;
      }
      assert sources[..i + 1][..i] == sources[..i] && observations[..i + 1][..i] == observations[..i];
      texts, versions := texts[selected.id := TextIn(o)], versions[selected.id := VersionIn(o)];
      if selected.version != "" && selected.version != At(versions, selected.id) {
        assert !Selected(selected, o);
        return false, texts, versions;
      }
    }
    assert sources[..|sources|] == sources && observations[..|observations|] == observations;
    return true, texts, versions;
  }

  /** The selection, pinned to the versions that were loaded. */
  function PinTo(sources: seq<Selection>, versions: map<string, string>): seq<Selection> {
    seq(|sources|, i requires 0 <= i < |sources| => Selection(sources[i].id, At(versions, sources[i].id)))
  }

  function AnchorClaims(texts: map<string, string>, versions: map<string, string>, claims: seq<QuotedClaim>)
    : Option<seq<Claim>> {
    if claims == [] then Some([])
    else
      var n := |claims| - 1;
      match (AnchorClaims(texts, versions, claims[..n]), Anchor(texts, versions, claims[n].citations, 8))
      case (Some(before), Some(citations)) => Some(before + [Claim(claims[n].id, claims[n].statement, citations)])
      case _ => None
  }

  function AnchorProposal(texts: map<string, string>, versions: map<string, string>, p: QuotedProposal): Option<Proposal> {
    match (AnchorClaims(texts, versions, p.claims), Anchor(texts, versions, p.approach.citations, 8))
    case (Some(claims), Some(citations)) =>
      Some(Proposal(claims, Method(p.approach.id, p.approach.description, p.approach.prerequisites, citations)))
    case _ => None
  }

  /** The reply belongs to this attempt at this task. */
  predicate Bound(rules: Rules, task: string, revision: int, reply: Reply) {
    && reply.contract == PROPOSAL_CONTRACT && task != "" && reply.task == task && reply.revision == revision
    && !rules.blank(reply.summary) && |reply.summary| <= 1200
  }

  function Decoded(
    rules: Rules, task: string, revision: int, request: ApplicationRequest, application: Application, reply: Option<Reply>)
    : Option<Decision> {
    if reply.None? || !Bound(rules, task, revision, reply.value) then None
    else if reply.value.disposition == "clarify" || reply.value.disposition == "abstain" then
      if reply.value.proposal.Some? then None else Some(Decision(reply.value.disposition, None))
    else if reply.value.disposition != "propose" || reply.value.proposal.None? then None
    else DecodedProposal(rules, request, application, reply.value.proposal.value)
  }

  function DecodedProposal(rules: Rules, request: ApplicationRequest, application: Application, p: QuotedProposal)
    : Option<Decision> {
    if application.sources.None? || |application.sources.value| != |request.sources| then None
    else
      var observations := application.sources.value;
      if !AllSelected(request.sources, observations) || |p.claims| > 16 then None
      else
        var texts, versions := Texts(request.sources, observations), VersionsOf(request.sources, observations);
        match AnchorProposal(texts, versions, p)
        case None => None
        case Some(proposal) =>
          var r := AssessmentRequest(
                     ASSESSMENT_CONTRACT, request.(sources := PinTo(request.sources, versions)), proposal);
          match Assessed(rules, r, application)
          case None => None
          case Some(a) => Some(Decision("propose", Some((r, a))))
  }

  method DecodeProposal(
    rules: Rules, task: string, revision: int, request: ApplicationRequest, application: Application, reply: Option<Reply>)
    returns (d: Option<Decision>)
    ensures d == Decoded(rules, task, revision, request, application, reply)
    ensures d.Some? && d.value.assessed.Some? ==>
              && application.sources.Some? && reply.Some? && reply.value.proposal.Some?
              && Takes(request, application.sources.value, reply.value.proposal.value, d.value.assessed.value.0)
  {
    hide Takes, IndexFrom, AnchorOne, ValidAssessment, Prepared, Grounded, Judgement, Texts, VersionsOf, AllSelected, Assessed;
    if reply.None? {
      return None;
    }
    var value := reply.value;
    if value.contract != PROPOSAL_CONTRACT || task == "" || value.task != task || value.revision != revision {
      return None;
    }
    if rules.blank(value.summary) || |value.summary| > 1200 {
      return None;
    }
    if value.disposition == "clarify" || value.disposition == "abstain" {
      if value.proposal.Some? {
        return None;
      }
      return Some(Decision(value.disposition, None));
    }
    if value.disposition != "propose" || value.proposal.None? {
      return None;
    }
    var p := value.proposal.value;
    if application.sources.None? || |application.sources.value| != |request.sources| {
      return None;
    }
    var ok, texts, versions := IndexObservations(request.sources, application.sources.value);
    if !ok {
      return None;
    }
    if |p.claims| > 16 {
      return None;
    }
    var claims: seq<Claim> := [];
    for i := 0 to |p.claims|
      invariant AnchorClaims(texts, versions, p.claims[..i]) == Some(claims)
    {
      assert p.claims[..i + 1][..i] == p.claims[..i];
      AnchorClaimsFails(texts, versions, p.claims, i);
      var citations := AnchorQuotes(texts, versions, p.claims[i].citations, 8);
      if citations.None? {
        return None;
      }
      claims := claims + [Claim(p.claims[i].id, p.claims[i].statement, citations.value)];
    }
    assert p.claims[..|p.claims|] == p.claims;
    var cited := AnchorQuotes(texts, versions, p.approach.citations, 8);
    if cited.None? {
      return None;
    }
    var proposal := Proposal(claims, Method(p.approach.id, p.approach.description, p.approach.prerequisites, cited.value));
    var r := AssessmentRequest(ASSESSMENT_CONTRACT, request.(sources := PinTo(request.sources, versions)), proposal);
    var a := AssessApplication(rules, r, application);
    if a.None? {
      return None;
    }
    TakenExactlyWhen(rules, task, revision, request, application, reply, r, a.value);
    return Some(Decision("propose", Some((r, a.value))));
  }

  lemma {:induction false} AnchorClaimsFails(
    texts: map<string, string>, versions: map<string, string>, claims: seq<QuotedClaim>, i: nat)
    requires i < |claims|
    ensures Anchor(texts, versions, claims[i].citations, 8).None? ==> AnchorClaims(texts, versions, claims).None?
    decreases |claims|
  {
    hide Anchor;
    if i < |claims| - 1 {
      AnchorClaimsFails(texts, versions, claims[..|claims| - 1], i);
    }
  }

  lemma {:induction false} AnchoredClaimsAreUnique(
    texts: map<string, string>, versions: map<string, string>, claims: seq<QuotedClaim>)
    requires AnchorClaims(texts, versions, claims).Some?
    ensures
      var anchored := AnchorClaims(texts, versions, claims).value;
      && |anchored| == |claims|
      && forall i :: 0 <= i < |anchored| ==> AllUnique(texts, anchored[i].citations)
  {
    hide Anchor, AllUnique;
    if claims != [] {
      var n := |claims| - 1;
      AnchoredClaimsAreUnique(texts, versions, claims[..n]);
      AnchoredIsUnique(texts, versions, claims[n].citations, 8);
    }
  }

  ghost predicate UniqueThroughout(texts: map<string, string>, p: Proposal) {
    && (forall i :: 0 <= i < |p.claims| ==> AllUnique(texts, p.claims[i].citations))
    && AllUnique(texts, p.approach.citations)
  }

  /** What was anchored in the loaded texts never fails to match them afterwards. */
  lemma {:induction false} AnchoredIsGrounded(texts: map<string, string>, versions: map<string, string>, p: QuotedProposal)
    requires AnchorProposal(texts, versions, p).Some?
    ensures UniqueThroughout(texts, AnchorProposal(texts, versions, p).value)
    ensures Grounded(texts, AnchorProposal(texts, versions, p).value)
  {
    hide Anchor, AnchorClaims, AllUnique, AllQuoted;
    AnchoredClaimsAreUnique(texts, versions, p.claims);
    AnchoredIsUnique(texts, versions, p.approach.citations, 8);
    var proposal := AnchorProposal(texts, versions, p).value;
    forall i | 0 <= i < |proposal.claims| ensures AllQuoted(texts, proposal.claims[i].citations) {
      UniqueIsQuoted(texts, proposal.claims[i].citations);
    }
    UniqueIsQuoted(texts, proposal.approach.citations);
  }

  lemma {:induction false} PinnedTextsAreSame(sources: seq<Selection>, versions: map<string, string>, observations: seq<Observation>)
    requires |sources| == |observations|
    ensures Texts(PinTo(sources, versions), observations) == Texts(sources, observations)
  {
    if sources != [] {
      var n := |sources| - 1;
      PinnedTextsAreSame(sources[..n], versions, observations[..n]);
      assert PinTo(sources, versions)[..n] == PinTo(sources[..n], versions);
    }
  }

  /** A proposal that is taken was assessed against the loaded sources, every quotation standing once in its text. */
  lemma {:induction false} TakenProposalsQuoteOnce(
    rules: Rules, task: string, revision: int, request: ApplicationRequest, application: Application, reply: Option<Reply>)
    ensures
      var d := Decoded(rules, task, revision, request, application, reply);
      d.Some? && d.value.assessed.Some? ==>
      var (r, a) := d.value.assessed.value;
      && Assessed(rules, r, application) == Some(a)
      && application.sources.Some? && |application.sources.value| == |r.application.sources|
      && UniqueThroughout(Texts(r.application.sources, application.sources.value), r.proposal)
  {
    hide AnchorProposal, Assessed, Texts, VersionsOf, AllSelected, UniqueThroughout, Grounded;
    var d := Decoded(rules, task, revision, request, application, reply);
    if d.Some? && d.value.assessed.Some? {
      var observations := application.sources.value;
      var texts, versions := Texts(request.sources, observations), VersionsOf(request.sources, observations);
      AnchoredIsGrounded(texts, versions, reply.value.proposal.value);
      PinnedTextsAreSame(request.sources, versions, observations);
    }
  }

  // ---- what is taken of a reply ------------------------------------------------------------------------

  /** The citation says where its quotation stands, once, in the source loaded under that name and version. */
  ghost predicate Cites(observations: seq<Observation>, q: Quotation, c: Citation) {
    && c == Citation(q.source, q.version, c.start, c.start + |q.quote|, q.quote, q.relation)
    && q.version != "" && 1 <= |q.quote| <= 1000
    && exists k :: 0 <= k < |observations| && Names(observations[k], q.source, q.version)
                   && OnlyAt(TextIn(observations[k]), q.quote, c.start)
  }

  predicate Names(o: Observation, id: string, version: string) { o.Observed? && o.id == Some(id) && VersionIn(o) == version }

  /** One citation for every quotation, in their order, at most eight. */
  ghost predicate CitesAll(observations: seq<Observation>, quoted: seq<Quotation>, citations: seq<Citation>) {
    |citations| == |quoted| <= 8 && forall i :: 0 <= i < |quoted| ==> Cites(observations, quoted[i], citations[i])
  }

  ghost predicate TakesClaims(observations: seq<Observation>, quoted: seq<QuotedClaim>, claims: seq<Claim>) {
    && |claims| == |quoted| <= 16
    && forall i :: 0 <= i < |quoted| ==>
         && claims[i].id == quoted[i].id && claims[i].statement == quoted[i].statement
         && CitesAll(observations, quoted[i].citations, claims[i].citations)
  }

  /** Every source the caller selected, in the version that was loaded, which is the selected one if any was. */
  ghost predicate PinsAll(selected: seq<Selection>, observations: seq<Observation>, pinned: seq<Selection>) {
    && |pinned| == |selected| == |observations|
    && forall i :: 0 <= i < |selected| ==>
         && pinned[i].id == selected[i].id && Names(observations[i], pinned[i].id, pinned[i].version)
         && (selected[i].version == "" || selected[i].version == pinned[i].version)
  }

  /** The request that is assessed is the caller's, and the proposal in it is the reply's. */
  ghost predicate Takes(request: ApplicationRequest, observations: seq<Observation>, p: QuotedProposal, r: AssessmentRequest) {
    && r.contract == "knowledge.application.assessment.v1"
    && r.application == request.(sources := r.application.sources)
    && PinsAll(request.sources, observations, r.application.sources)
    && TakesClaims(observations, p.claims, r.proposal.claims)
    && r.proposal.approach.id == p.approach.id && r.proposal.approach.description == p.approach.description
    && r.proposal.approach.prerequisites == p.approach.prerequisites
    && CitesAll(observations, p.approach.citations, r.proposal.approach.citations)
  }

  /** A reply to this attempt at this task, with a public justification. */
  ghost predicate Answers(rules: Rules, task: string, revision: int, reply: Reply) {
    && reply.contract == "knowledge.application.proposal.v1" && reply.task == task != "" && reply.revision == revision
    && !rules.blank(reply.summary) && |reply.summary| <= 1200
  }

  lemma {:induction false} LoadedUnder(sources: seq<Selection>, observations: seq<Observation>, i: nat)
    requires |sources| == |observations| && Distinct(SourceIds(sources)) && i < |sources|
    ensures sources[i].id in Texts(sources, observations) && Texts(sources, observations)[sources[i].id] == TextIn(observations[i])
    ensures At(VersionsOf(sources, observations), sources[i].id) == VersionIn(observations[i])
  {
    var n := |sources| - 1;
    if i < n {
      assert SourceIds(sources)[i] != SourceIds(sources)[n];
      assert forall j :: 0 <= j < n ==> SourceIds(sources[..n])[j] == SourceIds(sources)[j];
      LoadedUnder(sources[..n], observations[..n], i);
    }
  }

  lemma {:induction false} OnlySelected(sources: seq<Selection>, observations: seq<Observation>, id: string)
    requires |sources| == |observations|
    ensures id in Texts(sources, observations) ==> exists i :: 0 <= i < |sources| && sources[i].id == id
  {
    if sources != [] {
      var n := |sources| - 1;
      OnlySelected(sources[..n], observations[..n], id);
      if id in Texts(sources[..n], observations[..n]) {
        var i :| 0 <= i < n && sources[..n][i].id == id;
        assert sources[i].id == id;
      }
    }
  }

  /** Quotations become exactly the citations that say where they stand. */
  lemma {:induction false} AnchorsExactly(sources: seq<Selection>, observations: seq<Observation>, q: Quotation, c: Citation)
    requires |sources| == |observations| && Distinct(SourceIds(sources)) && AllSelected(sources, observations)
    ensures AnchorOne(Texts(sources, observations), VersionsOf(sources, observations), q) == Some(c) <==> Cites(observations, q, c)
  {
    var texts, versions := Texts(sources, observations), VersionsOf(sources, observations);
    AnchorIsExact(texts, versions, q);
    OnlySelected(sources, observations, q.source);
    hide AnchorOne, Texts, VersionsOf, OnlyAt, Distinct;
    if AnchorOne(texts, versions, q) == Some(c) {
      var k :| 0 <= k < |sources| && sources[k].id == q.source;
      assert Selected(sources[k], observations[k]);
      LoadedUnder(sources, observations, k);
      assert Names(observations[k], q.source, q.version);
    }
    if Cites(observations, q, c) {
      var k :| 0 <= k < |observations| && Names(observations[k], q.source, q.version)
               && OnlyAt(TextIn(observations[k]), q.quote, c.start);
      assert Selected(sources[k], observations[k]);
      LoadedUnder(sources, observations, k);
      AnchorFindsAgain(texts, versions, c);
    }
  }

  lemma {:induction false} AnchorsAllExactly(
    sources: seq<Selection>, observations: seq<Observation>, quoted: seq<Quotation>, cs: seq<Citation>)
    requires |sources| == |observations| && Distinct(SourceIds(sources)) && AllSelected(sources, observations)
    ensures AnchorAll(Texts(sources, observations), VersionsOf(sources, observations), quoted) == Some(cs)
      <==> |cs| == |quoted| && forall i :: 0 <= i < |quoted| ==> Cites(observations, quoted[i], cs[i])
  {
    hide AnchorOne, Texts, VersionsOf, AllSelected, Distinct, Cites;
    if quoted != [] {
      var n := |quoted| - 1;
      if |cs| == |quoted| {
        AnchorsAllExactly(sources, observations, quoted[..n], cs[..n]);
        AnchorsExactly(sources, observations, quoted[n], cs[n]);
        assert cs == cs[..n] + [cs[n]];
      } else {
        AnchoredLength(Texts(sources, observations), VersionsOf(sources, observations), quoted);
      }
    }
  }

  lemma AnchoredLength(texts: map<string, string>, versions: map<string, string>, quoted: seq<Quotation>)
    ensures AnchorAll(texts, versions, quoted).Some? ==> |AnchorAll(texts, versions, quoted).value| == |quoted|
  {
    if AnchorAll(texts, versions, quoted).Some? {
      AnchoredEach(texts, versions, quoted);
    }
  }

  lemma {:induction false} AnchorsClaimsExactly(
    sources: seq<Selection>, observations: seq<Observation>, quoted: seq<QuotedClaim>, claims: seq<Claim>)
    requires |sources| == |observations| && Distinct(SourceIds(sources)) && AllSelected(sources, observations)
    requires |quoted| <= 16
    ensures AnchorClaims(Texts(sources, observations), VersionsOf(sources, observations), quoted) == Some(claims)
      <==> TakesClaims(observations, quoted, claims)
  {
    hide AnchorAll, Texts, VersionsOf, AllSelected, Distinct, CitesAll;
    var texts, versions := Texts(sources, observations), VersionsOf(sources, observations);
    if quoted != [] {
      var n := |quoted| - 1;
      if |claims| == |quoted| {
        AnchorsClaimsExactly(sources, observations, quoted[..n], claims[..n]);
        AnchorsLimited(sources, observations, quoted[n].citations, claims[n].citations);
        assert claims == claims[..n] + [claims[n]];
      } else if AnchorClaims(texts, versions, quoted).Some? {
        AnchoredClaimsAreUnique(texts, versions, quoted);
      }
    }
  }

  lemma AnchorsLimited(sources: seq<Selection>, observations: seq<Observation>, quoted: seq<Quotation>, cs: seq<Citation>)
    requires |sources| == |observations| && Distinct(SourceIds(sources)) && AllSelected(sources, observations)
    ensures Anchor(Texts(sources, observations), VersionsOf(sources, observations), quoted, 8) == Some(cs)
      <==> CitesAll(observations, quoted, cs)
  {
    hide AnchorAll, Texts, VersionsOf, AllSelected, Distinct, Cites;
    AnchorsAllExactly(sources, observations, quoted, cs);
  }

  lemma {:induction false} AnchorsProposalExactly(
    sources: seq<Selection>, observations: seq<Observation>, p: QuotedProposal, proposal: Proposal)
    requires |sources| == |observations| && Distinct(SourceIds(sources)) && AllSelected(sources, observations)
    requires |p.claims| <= 16
    ensures AnchorProposal(Texts(sources, observations), VersionsOf(sources, observations), p) == Some(proposal)
      <==> && TakesClaims(observations, p.claims, proposal.claims)
           && proposal.approach
              == Method(p.approach.id, p.approach.description, p.approach.prerequisites, proposal.approach.citations)
           && CitesAll(observations, p.approach.citations, proposal.approach.citations)
  {
    hide Anchor, AnchorClaims, Texts, VersionsOf, AllSelected, Distinct, CitesAll, TakesClaims;
    AnchorsClaimsExactly(sources, observations, p.claims, proposal.claims);
    AnchorsLimited(sources, observations, p.approach.citations, proposal.approach.citations);
  }

  lemma {:induction false} PinsExactly(sources: seq<Selection>, observations: seq<Observation>, pinned: seq<Selection>)
    requires |sources| == |observations| && Distinct(SourceIds(sources))
    ensures AllSelected(sources, observations) && pinned == PinTo(sources, VersionsOf(sources, observations))
      <==> PinsAll(sources, observations, pinned)
  {
    hide VersionsOf, Distinct;
    forall i | 0 <= i < |sources|
      ensures At(VersionsOf(sources, observations), sources[i].id) == VersionIn(observations[i])
    {
      LoadedUnder(sources, observations, i);
    }
    if AllSelected(sources, observations) && pinned == PinTo(sources, VersionsOf(sources, observations)) {
      assert forall i :: 0 <= i < |sources| ==> Selected(sources[i], observations[i]);
    }
    if PinsAll(sources, observations, pinned) {
      forall i | 0 <= i < |sources|
        ensures Selected(sources[i], observations[i]) && pinned[i] == PinTo(sources, VersionsOf(sources, observations))[i]
      {
        assert Names(observations[i], pinned[i].id, pinned[i].version);
      }
    }
  }

  /** An assessed request selects different sources. */
  lemma AssessedIsDistinct(rules: Rules, r: AssessmentRequest, application: Application, sources: seq<Selection>)
    requires Assessed(rules, r, application).Some?
    ensures |r.application.sources| == |sources| && (forall i :: 0 <= i < |sources| ==> r.application.sources[i].id == sources[i].id)
            ==> Distinct(SourceIds(sources))
  {
    hide ValidTask, ValidClaim, ValidMethod, Judgement, Grounded, Prepared;
    if |r.application.sources| == |sources| && forall i :: 0 <= i < |sources| ==> r.application.sources[i].id == sources[i].id {
      assert SourceIds(r.application.sources) == SourceIds(sources);
    }
  }

  /** A proposal is taken exactly when the reply answers this attempt with one and the request that takes it, word for
      word, is assessable; what is assessed is that request. */
  lemma {:induction false} TakenExactlyWhen(
    rules: Rules, task: string, revision: int, request: ApplicationRequest, application: Application, reply: Option<Reply>,
    r: AssessmentRequest, a: Assessment)
    ensures
      Decoded(rules, task, revision, request, application, reply) == Some(Decision("propose", Some((r, a))))
      <==> && reply.Some? && Answers(rules, task, revision, reply.value)
           && reply.value.disposition == "propose" && reply.value.proposal.Some?
           && application.sources.Some?
           && Takes(request, application.sources.value, reply.value.proposal.value, r)
           && Assessed(rules, r, application) == Some(a)
  {
    hide Assessed, Takes;
    if reply.Some? && application.sources.Some? && reply.value.proposal.Some? {
      BuiltExactly(rules, request, application, reply.value.proposal.value, r, a);
    }
    hide DecodedProposal;
  }

  lemma {:induction false} BuiltExactly(
    rules: Rules, request: ApplicationRequest, application: Application, p: QuotedProposal, r: AssessmentRequest, a: Assessment)
    requires application.sources.Some?
    ensures
      DecodedProposal(rules, request, application, p) == Some(Decision("propose", Some((r, a))))
      <==> Takes(request, application.sources.value, p, r) && Assessed(rules, r, application) == Some(a)
  {
    var observations := application.sources.value;
    hide Assessed, AnchorProposal, Texts, VersionsOf, AllSelected, TakesClaims, CitesAll, PinTo, Distinct, SourceIds;
    if Assessed(rules, r, application).Some? {
      AssessedIsDistinct(rules, r, application, request.sources);
    }
    if Assessed(rules, r, application).Some? && |observations| == |request.sources| && |p.claims| <= 16
       && Distinct(SourceIds(request.sources)) {
      PinsExactly(request.sources, observations, r.application.sources);
      if AllSelected(request.sources, observations) {
        AnchorsProposalExactly(request.sources, observations, p, r.proposal);
      }
    }
  }

  /** A reply without a proposal is taken exactly when it answers this attempt and says that it clarifies or abstains. */
  lemma DeclinedExactlyWhen(
    rules: Rules, task: string, revision: int, request: ApplicationRequest, application: Application, reply: Option<Reply>,
    disposition: string)
    ensures
      Decoded(rules, task, revision, request, application, reply) == Some(Decision(disposition, None))
      <==> && reply.Some? && Answers(rules, task, revision, reply.value) && reply.value.proposal.None?
           && disposition == reply.value.disposition && (disposition == "clarify" || disposition == "abstain")
    ensures
      var d := Decoded(rules, task, revision, request, application, reply);
      d.Some? && d.value.assessed.Some? ==> d.value.disposition == "propose"
  {
    hide Assessed, AnchorProposal, Texts, VersionsOf, AllSelected;
  }
}
