/** Candidate arguments over pinned sources: what a well-formed one is, what its citations have to match, and what
    state its claims put it in. Strings are sequences of bytes; UTF-8, blankness, fingerprints and the sizes of JSON
    encodings are parameters. */
module Applicability {
  import opened Wrappers

  const ASSESSMENT_CONTRACT := "knowledge.application.assessment.v1"
  const APPLICATION_CONTRACT := "knowledge.application.context.v1"
  const MAX_SOURCES := 8
  const MAX_SOURCE_BYTES := 16 * 1024
  const MAX_TEXT_BYTES := 64 * 1024
  const MAX_REQUEST_BYTES := 32 * 1024
  const MAX_APPLICATION_BYTES := 8192

  datatype Selection = Selection(id: string, version: string)
  datatype ApplicationRequest =
    ApplicationRequest(contract: string, goal: string, constraints: seq<string>, sources: seq<Selection>)

  datatype Citation = Citation(source: string, version: string, start: int, end: int, quote: string, relation: string)
  datatype Claim = Claim(id: string, statement: string, citations: seq<Citation>)
  datatype Method = Method(id: string, description: string, prerequisites: seq<string>, citations: seq<Citation>)
  datatype Proposal = Proposal(claims: seq<Claim>, approach: Method)
  datatype AssessmentRequest = AssessmentRequest(contract: string, application: ApplicationRequest, proposal: Proposal)

  /** A prepared source, as far as it is there and of the right type. */
  datatype Observation = Other | Observed(id: Option<string>, text: Option<string>, version: Option<string>)
  datatype Application = Application(contract: Option<string>, sources: Option<seq<Observation>>)

  /** What this model does not look into. */
  datatype Rules = Rules(
    utf8: string -> bool, blank: string -> bool, fingerprint: string -> string,
    applicationSize: ApplicationRequest -> nat, assessmentSize: AssessmentRequest -> nat)

  // ---- identifiers -------------------------------------------------------------------------------------

  predicate IsLetter(c: char) { 'a' <= c <= 'z' || 'A' <= c <= 'Z' }
  predicate IsDigit(c: char) { '0' <= c <= '9' }

  predicate IsProposalId(s: string) {
    1 <= |s| <= 64 && IsLetter(s[0])
    && forall i :: 1 <= i < |s| ==> IsLetter(s[i]) || IsDigit(s[i]) || s[i] == '.' || s[i] == '_' || s[i] == '-'
  }

  predicate IsSourceId(s: string) {
    1 <= |s| <= 240
    && forall i :: 0 <= i < |s| ==>
      IsLetter(s[i]) || IsDigit(s[i]) || s[i] == '.' || s[i] == '_' || s[i] == ':' || s[i] == '/' || s[i] == '#'
      || s[i] == '@' || s[i] == '-'
  }

  predicate IsVersion(s: string) {
    |s| == 71 && s[..7] == "sha256:" && forall i :: 7 <= i < |s| ==> 'a' <= s[i] <= 'f' || IsDigit(s[i])
  }

  // ---- a well-formed request ---------------------------------------------------------------------------

  predicate Distinct<T(==)>(xs: seq<T>) {
    forall i, j :: 0 <= i < j < |xs| ==> xs[i] != xs[j]
  }

  function ClaimIds(claims: seq<Claim>): (ids: seq<string>)
    ensures |ids| == |claims| && forall i :: 0 <= i < |claims| ==> ids[i] == claims[i].id
  {
    seq(|claims|, i requires 0 <= i < |claims| => claims[i].id)
  }

  function SourceIds(sources: seq<Selection>): (ids: seq<string>)
    ensures |ids| == |sources| && forall i :: 0 <= i < |sources| ==> ids[i] == sources[i].id
  {
    seq(|sources|, i requires 0 <= i < |sources| => sources[i].id)
  }

  predicate ValidTask(rules: Rules, goal: string, constraints: seq<string>) {
    && !rules.blank(goal) && |goal| <= 2000 && |constraints| <= 16
    && forall i :: 0 <= i < |constraints| ==> !rules.blank(constraints[i]) && |constraints[i]| <= 500
  }

  predicate ValidApplication(rules: Rules, a: ApplicationRequest) {
    && rules.applicationSize(a) <= MAX_APPLICATION_BYTES && a.contract == APPLICATION_CONTRACT
    && ValidTask(rules, a.goal, a.constraints)
    && 1 <= |a.sources| <= MAX_SOURCES && Distinct(SourceIds(a.sources))
    && forall i :: 0 <= i < |a.sources| ==>
      IsSourceId(a.sources[i].id) && (a.sources[i].version == "" || IsVersion(a.sources[i].version))
  }

  predicate Pinned(sources: seq<Selection>) {
    forall i :: 0 <= i < |sources| ==> sources[i].version != ""
  }

  /** Cites a selected source in its pinned version, with a span as long as the quotation. */
  predicate ValidCitation(rules: Rules, sources: seq<Selection>, c: Citation, ofMethod: bool) {
    && (exists i :: 0 <= i < |sources| && sources[i] == Selection(c.source, c.version)) && c.version != ""
    && 0 <= c.start < c.end <= MAX_SOURCE_BYTES && 1 <= |c.quote| <= 1000 && rules.utf8(c.quote)
    && c.end - c.start == |c.quote|
    && (c.relation == "supports" || (c.relation == "contradicts" && !ofMethod))
  }

  predicate ValidCitations(rules: Rules, sources: seq<Selection>, citations: seq<Citation>, ofMethod: bool) {
    && |citations| <= 8 && Distinct(citations)
    && forall i :: 0 <= i < |citations| ==> ValidCitation(rules, sources, citations[i], ofMethod)
  }

  function CitationsOf(claims: seq<Claim>): nat {
    if claims == [] then 0 else CitationsOf(claims[..|claims| - 1]) + |claims[|claims| - 1].citations|
  }

  predicate ValidClaim(rules: Rules, sources: seq<Selection>, claim: Claim) {
    && IsProposalId(claim.id) && !rules.blank(claim.statement) && |claim.statement| <= 1200
    && ValidCitations(rules, sources, claim.citations, false)
  }

  predicate ValidMethod(rules: Rules, sources: seq<Selection>, claims: seq<Claim>, m: Method) {
    && IsProposalId(m.id) && m.id !in ClaimIds(claims) && !rules.blank(m.description) && |m.description| <= 2000
    && 1 <= |m.prerequisites| <= 16 && Distinct(m.prerequisites)
    && (forall i :: 0 <= i < |m.prerequisites| ==> m.prerequisites[i] in ClaimIds(claims))
    && ValidCitations(rules, sources, m.citations, true)
  }

  predicate ValidAssessment(rules: Rules, r: AssessmentRequest) {
    var sources, claims := r.application.sources, r.proposal.claims;
    && r.contract == ASSESSMENT_CONTRACT && ValidApplication(rules, r.application) && Pinned(sources)
    && 1 <= |claims| <= 16 && Distinct(ClaimIds(claims))
    && (forall i :: 0 <= i < |claims| ==> ValidClaim(rules, sources, claims[i]))
    && ValidMethod(rules, sources, claims, r.proposal.approach)
    && CitationsOf(claims) + |r.proposal.approach.citations| <= 32
  }

  /** The pinned version of each source, by its name. */
  predicate IsVersions(versions: map<string, string>, sources: seq<Selection>) {
    && (forall i :: 0 <= i < |sources| ==> sources[i].id in versions && versions[sources[i].id] == sources[i].version)
    && (forall id :: id in versions ==> exists i :: 0 <= i < |sources| && sources[i].id == id)
  }

  function At(values: map<string, string>, key: string): string {
    if key in values then values[key] else ""
  }

  lemma VersionsOneMore(sources: seq<Selection>, i: nat, versions: map<string, string>)
    requires Distinct(SourceIds(sources)) && i < |sources| && Pinned(sources[..i]) && IsVersions(versions, sources[..i])
    requires sources[i].version != ""
    ensures
      Pinned(sources[..i + 1]) && IsVersions(versions[sources[i].id := sources[i].version], sources[..i + 1])
  {
    var before, after := sources[..i], sources[..i + 1];
    assert after[i] == sources[i] && forall j :: 0 <= j < i ==> after[j] == before[j] == sources[j];
    assert forall j :: 0 <= j < i ==> SourceIds(sources)[j] != SourceIds(sources)[i];
    hide Distinct, SourceIds;
    var more := versions[sources[i].id := sources[i].version];
    forall id | id in more ensures exists j :: 0 <= j < |after| && after[j].id == id {
      if id == sources[i].id {
        assert after[i].id == id;
      } else {
        var j :| 0 <= j < |before| && before[j].id == id;
        assert after[j].id == id;
      }
    }
  }

  lemma NoVersions()
    ensures Pinned([]) && IsVersions(map[], [])
  {
  }

  method Versions(sources: seq<Selection>) returns (ok: bool, versions: map<string, string>)
    requires Distinct(SourceIds(sources))
    ensures ok == Pinned(sources)
    ensures ok ==> IsVersions(versions, sources)
  {
    hide Distinct, SourceIds, IsVersions;
    NoVersions();
    versions := map[];
    assert sources[..0] == [];
    for i := 0 to |sources|
      invariant Pinned(sources[..i]) && IsVersions(versions, sources[..i])
    {
      if sources[i].version == "" {
        return false, versions;
      }
      VersionsOneMore(sources, i, versions);
      versions := versions[sources[i].id := sources[i].version];
    }
    assert sources[..|sources|] == sources;
    return true, versions;
  }

  lemma {:induction false} SelectedIffVersion(versions: map<string, string>, sources: seq<Selection>, c: Citation)
    requires IsVersions(versions, sources)
    ensures At(versions, c.source) != "" && c.version == At(versions, c.source)
      <==> c.version != "" && exists i :: 0 <= i < |sources| && sources[i] == Selection(c.source, c.version)
  {
    if c.source in versions && c.version == versions[c.source] {
      var i :| 0 <= i < |sources| && sources[i].id == c.source;
      assert sources[i] == Selection(c.source, c.version);
    }
  }

  /** Counts on from `before`: at most thirty-two citations in a whole proposal. */
  method CheckCitations(
    rules: Rules, versions: map<string, string>, sources: seq<Selection>, citations: seq<Citation>, ofMethod: bool, before: nat)
    returns (ok: bool, count: nat)
    requires IsVersions(versions, sources) && before <= 32
    ensures ok == (ValidCitations(rules, sources, citations, ofMethod) && before + |citations| <= 32)
    ensures ok ==> count == before + |citations|
  {
    count := before;
    if |citations| > 8 {
      return false, count;
    }
    hide ValidCitation;
    var seen: set<Citation> := {};
    for i := 0 to |citations|
      invariant count == before + i <= 32
      invariant forall c :: c in seen <==> c in citations[..i]
      invariant Distinct(citations[..i])
      invariant forall j :: 0 <= j < i ==> ValidCitation(rules, sources, citations[j], ofMethod)
    {
      var c := citations[i];
      count := count + 1;
      if count > 32 {
        return false, count;
      }
      var valid := CheckCitation(rules, versions, sources, c, ofMethod);
      if !valid {
        return false, count;
      }
      if c in seen {
        var j :| 0 <= j < i && citations[..i][j] == c;
        assert citations[j] == citations[i];
        return false, count;
      }
      seen := seen + {c};
      assert citations[..i + 1] == citations[..i] + [c];
    }
    assert citations[..|citations|] == citations;
    return true, count;
  }

  method CheckCitation(rules: Rules, versions: map<string, string>, sources: seq<Selection>, c: Citation, ofMethod: bool)
    returns (ok: bool)
    requires IsVersions(versions, sources)
    ensures ok == ValidCitation(rules, sources, c, ofMethod)
  {
    SelectedIffVersion(versions, sources, c);
    hide IsVersions;
    if At(versions, c.source) == "" || c.version != At(versions, c.source) {
      return false;
    }
    if c.start < 0 || c.end <= c.start || c.end > MAX_SOURCE_BYTES || |c.quote| == 0 || |c.quote| > 1000
       || !rules.utf8(c.quote) || c.end - c.start != |c.quote| {
      return false;
    }
    if c.relation != "supports" && c.relation != "contradicts" {
      return false;
    }
    return !(ofMethod && c.relation != "supports");
  }

  lemma {:induction false} CitationsOfMore(claims: seq<Claim>, i: nat)
    requires i < |claims|
    ensures CitationsOf(claims[..i + 1]) == CitationsOf(claims[..i]) + |claims[i].citations|
    ensures CitationsOf(claims[..i + 1]) <= CitationsOf(claims)
    decreases |claims| - i
  {
    assert claims[..i + 1][..i] == claims[..i];
    if i + 1 < |claims| {
      CitationsOfMore(claims, i + 1);
    } else {
      assert claims[..i + 1] == claims;
    }
  }

  method CheckClaims(rules: Rules, versions: map<string, string>, sources: seq<Selection>, claims: seq<Claim>)
    returns (ok: bool, ids: set<string>, count: nat)
    requires IsVersions(versions, sources)
    ensures ok == (Distinct(ClaimIds(claims)) && CitationsOf(claims) <= 32
                   && forall i :: 0 <= i < |claims| ==> ValidClaim(rules, sources, claims[i]))
    ensures ok ==> count == CitationsOf(claims) && forall id :: id in ids <==> id in ClaimIds(claims)
  {
    hide ValidCitations, IsProposalId, IsVersions, CitationsOf;
    ids, count := {}, 0;
    CitationsOfNone(claims);
    for i := 0 to |claims|
      invariant count == CitationsOf(claims[..i]) <= 32
      invariant forall id :: id in ids <==> id in ClaimIds(claims[..i])
      invariant Distinct(ClaimIds(claims[..i]))
      invariant forall j :: 0 <= j < i ==> ValidClaim(rules, sources, claims[j])
    {
      var claim := claims[i];
      CitationsOfMore(claims, i);
      if !IsProposalId(claim.id) || rules.blank(claim.statement) || |claim.statement| > 1200 {
        return false, ids, count;
      }
      if claim.id in ids {
        RepeatedId(claims, i);
        return false, ids, count;
      }
      var valid, more := CheckCitations(rules, versions, sources, claim.citations, false, count);
      if !valid {
        return false, ids, count;
      }
      ids, count := ids + {claim.id}, more;
      assert ClaimIds(claims[..i + 1]) == ClaimIds(claims[..i]) + [claim.id];
    }
    assert claims[..|claims|] == claims;
    return true, ids, count;
  }

  lemma CitationsOfNone(claims: seq<Claim>)
    ensures CitationsOf(claims[..0]) == 0
  {
  }

  lemma {:induction false} RepeatedId(claims: seq<Claim>, i: nat)
    requires i < |claims| && claims[i].id in ClaimIds(claims[..i])
    ensures !Distinct(ClaimIds(claims))
  {
    var j :| 0 <= j < i && ClaimIds(claims[..i])[j] == claims[i].id;
    assert ClaimIds(claims)[j] == ClaimIds(claims)[i];
  }

  method CheckPrerequisites(ids: set<string>, prerequisites: seq<string>) returns (ok: bool)
    ensures ok == (Distinct(prerequisites) && forall i :: 0 <= i < |prerequisites| ==> prerequisites[i] in ids)
  {
    var seen: set<string> := {};
    for i := 0 to |prerequisites|
      invariant forall id :: id in seen <==> id in prerequisites[..i]
      invariant Distinct(prerequisites[..i]) && forall j :: 0 <= j < i ==> prerequisites[j] in ids
    {
      var id := prerequisites[i];
      if id !in ids {
        return false;
      }
      if id in seen {
        var j :| 0 <= j < i && prerequisites[..i][j] == id;
        assert prerequisites[j] == prerequisites[i];
        return false;
      }
      seen := seen + {id};
      assert prerequisites[..i + 1] == prerequisites[..i] + [id];
    }
    assert prerequisites[..|prerequisites|] == prerequisites;
    return true;
  }

  /** A request is accepted exactly when it is well formed. */
  method ValidateAssessment(rules: Rules, r: AssessmentRequest) returns (ok: bool)
    ensures ok == ValidAssessment(rules, r)
  {
    hide ValidCitations, ValidClaim, CitationsOf, IsVersions, IsProposalId, IsSourceId, IsVersion, ValidTask;
    if r.contract != ASSESSMENT_CONTRACT || !ValidApplication(rules, r.application) {
      return false;
    }
    var sources, claims, m := r.application.sources, r.proposal.claims, r.proposal.approach;
    var pinned, versions := Versions(sources);
    if !pinned || |claims| < 1 || |claims| > 16 {
      return false;
    }
    var valid, ids, count := CheckClaims(rules, versions, sources, claims);
    if !valid {
      return false;
    }
    if !IsProposalId(m.id) || m.id in ids || rules.blank(m.description) || |m.description| > 2000
       || |m.prerequisites| < 1 || |m.prerequisites| > 16 {
      return false;
    }
    var known := CheckPrerequisites(ids, m.prerequisites);
    if !known {
      return false;
    }
    var cited, _ := CheckCitations(rules, versions, sources, m.citations, true, count);
    return cited;
  }

  // ---- the assessment ----------------------------------------------------------------------------------

  datatype State = Unknown | Supported | Contradicted | Conflicted

  datatype Applicability = Conditional | Blocked | InConflict | NeedsEvidence

  datatype Assessment = Assessment(
    applicability: Applicability, states: seq<State>, missing: seq<string>, conflicted: seq<string>,
    blocked: seq<string>, methodCited: bool)

  predicate Supports(citations: seq<Citation>) {
    exists i :: 0 <= i < |citations| && citations[i].relation == "supports"
  }

  predicate Opposes(citations: seq<Citation>) {
    exists i :: 0 <= i < |citations| && citations[i].relation != "supports"
  }

  function StateOf(citations: seq<Citation>): State {
    match (Supports(citations), Opposes(citations))
    case (true, true) => Conflicted
    case (true, false) => Supported
    case (false, true) => Contradicted
    case (false, false) => Unknown
  }

  function States(claims: seq<Claim>): (states: seq<State>)
    ensures |states| == |claims| && forall i :: 0 <= i < |claims| ==> states[i] == StateOf(claims[i].citations)
  {
    seq(|claims|, i requires 0 <= i < |claims| => StateOf(claims[i].citations))
  }

  /** The claim with this name. */
  function ClaimNamed(claims: seq<Claim>, id: string): (claim: Claim)
    requires id in ClaimIds(claims)
    ensures claim in claims && claim.id == id
  {
    if claims[|claims| - 1].id == id then claims[|claims| - 1]
    else
      assert ClaimIds(claims) == ClaimIds(claims[..|claims| - 1]) + [claims[|claims| - 1].id];
      ClaimNamed(claims[..|claims| - 1], id)
  }

  function InState(claims: seq<Claim>, ids: seq<string>, state: State): seq<string>
    requires forall i :: 0 <= i < |ids| ==> ids[i] in ClaimIds(claims)
  {
    if ids == [] then []
    else
      var n := |ids| - 1;
      var rest := InState(claims, ids[..n], state);
      if StateOf(ClaimNamed(claims, ids[n]).citations) == state then rest + [ids[n]] else rest
  }

  predicate PreparedSource(rules: Rules, selected: Selection, o: Observation) {
    && o.Observed? && o.text.Some? && o.text.value != "" && |o.text.value| <= MAX_SOURCE_BYTES
    && o.id == Some(selected.id) && o.version == Some(selected.version)
    && rules.fingerprint(o.text.value) == selected.version
  }

  function TextBytes(observations: seq<Observation>): nat {
    if observations == [] then 0
    else
      var o := observations[|observations| - 1];
      TextBytes(observations[..|observations| - 1]) + if o.Observed? && o.text.Some? then |o.text.value| else 0
  }

  predicate PreparedSources(rules: Rules, sources: seq<Selection>, observations: seq<Observation>) {
    && |observations| == |sources| && TextBytes(observations) <= MAX_TEXT_BYTES
    && forall i :: 0 <= i < |sources| ==> PreparedSource(rules, sources[i], observations[i])
  }

  predicate Prepared(rules: Rules, sources: seq<Selection>, application: Application) {
    && application.sources.Some? && application.contract == Some(APPLICATION_CONTRACT)
    && PreparedSources(rules, sources, application.sources.value)
  }

  /** The text of each source, by its name. */
  function Texts(sources: seq<Selection>, observations: seq<Observation>): map<string, string>
    requires |sources| == |observations|
  {
    if sources == [] then map[]
    else
      var n := |sources| - 1;
      var o := observations[n];
      Texts(sources[..n], observations[..n])[
        sources[n].id := if o.Observed? && o.text.Some? then o.text.value else ""]
  }

  /** The quotation stands where the citation says, in the text of the source. */
  predicate Quoted(texts: map<string, string>, c: Citation) {
    0 <= c.start <= c.end <= |At(texts, c.source)| && At(texts, c.source)[c.start..c.end] == c.quote
  }

  predicate AllQuoted(texts: map<string, string>, citations: seq<Citation>) {
    forall i :: 0 <= i < |citations| ==> Quoted(texts, citations[i])
  }

  predicate Grounded(texts: map<string, string>, p: Proposal) {
    && (forall i :: 0 <= i < |p.claims| ==> AllQuoted(texts, p.claims[i].citations))
    && AllQuoted(texts, p.approach.citations)
  }

  function Judgement(p: Proposal): Assessment
    requires forall i :: 0 <= i < |p.approach.prerequisites| ==> p.approach.prerequisites[i] in ClaimIds(p.claims)
  {
    var ids := p.approach.prerequisites;
    var missing, conflicted, blocked :=
      InState(p.claims, ids, Unknown), InState(p.claims, ids, Conflicted), InState(p.claims, ids, Contradicted);
    var applicability :=
      if |blocked| > 0 then Blocked
      else if |conflicted| > 0 then InConflict
      else if |missing| > 0 || |p.approach.citations| == 0 then NeedsEvidence
      else Conditional;
    Assessment(applicability, States(p.claims), missing, conflicted, blocked, |p.approach.citations| > 0)
  }

  /** An assessment is made exactly of a well-formed request whose sources are unchanged and whose quotations stand
      where they say. */
  function Assessed(rules: Rules, r: AssessmentRequest, application: Application): Option<Assessment> {
    if rules.assessmentSize(r) <= MAX_REQUEST_BYTES && ValidAssessment(rules, r)
       && Prepared(rules, r.application.sources, application)
       && Grounded(Texts(r.application.sources, application.sources.value), r.proposal)
    then Some(Judgement(r.proposal))
    else None
  }

  method PrepareTexts(rules: Rules, sources: seq<Selection>, observations: seq<Observation>)
    returns (ok: bool, texts: map<string, string>)
    requires |observations| == |sources|
    ensures ok == PreparedSources(rules, sources, observations)
    ensures ok ==> texts == Texts(sources, observations)
  {
    texts := map[];
    var total := 0;
    TextBytesNone(observations);
    for i := 0 to |observations|
      invariant total == TextBytes(observations[..i]) <= MAX_TEXT_BYTES
      invariant texts == Texts(sources[..i], observations[..i])
      invariant forall j :: 0 <= j < i ==> PreparedSource(rules, sources[j], observations[j])
    {
      var o, selected := observations[i], sources[i];
      TextBytesMore(observations, i);
      if o.Other? || o.text.None? || o.text.value == "" || |o.text.value| > MAX_SOURCE_BYTES
         || o.id != Some(selected.id) || o.version != Some(selected.version)
         || rules.fingerprint(o.text.value) != selected.version {
        assert !PreparedSource(rules, selected, o);
        return false, texts;
      }
      total := total + |o.text.value|;
      if total > MAX_TEXT_BYTES {
        return false, texts;
      }
      assert sources[..i + 1][..i] == sources[..i] && observations[..i + 1][..i] == observations[..i];
      texts := texts[selected.id := o.text.value];
    }
    assert sources[..|sources|] == sources && observations[..|observations|] == observations;
    return true, texts;
  }

  lemma TextBytesNone(observations: seq<Observation>)
    ensures TextBytes(observations[..0]) == 0
  {
  }

  lemma {:induction false} TextBytesMore(observations: seq<Observation>, i: nat)
    requires i < |observations|
    ensures var o := observations[i];
      TextBytes(observations[..i + 1]) == TextBytes(observations[..i]) + if o.Observed? && o.text.Some? then |o.text.value| else 0
    ensures TextBytes(observations[..i + 1]) <= TextBytes(observations)
    decreases |observations| - i
  {
    assert observations[..i + 1][..i] == observations[..i];
    if i + 1 < |observations| {
      TextBytesMore(observations, i + 1);
    } else {
      assert observations[..i + 1] == observations;
    }
  }

  method Verify(texts: map<string, string>, citations: seq<Citation>) returns (ok: bool)
    requires forall i :: 0 <= i < |citations| ==> 0 <= citations[i].start < citations[i].end
    ensures ok == AllQuoted(texts, citations)
  {
    for i := 0 to |citations|
      invariant forall j :: 0 <= j < i ==> Quoted(texts, citations[j])
    {
      var c := citations[i];
      var text := At(texts, c.source);
      if c.end > |text| || text[c.start..c.end] != c.quote {
        assert !Quoted(texts, c);
        return false;
      }
    }
    return true;
  }

  method CitationState(citations: seq<Citation>) returns (state: State)
    ensures state == StateOf(citations)
  {
    var support, contradict := false, false;
    for i := 0 to |citations|
      invariant support == Supports(citations[..i]) && contradict == Opposes(citations[..i])
    {
      assert citations[..i + 1] == citations[..i] + [citations[i]];
      SupportsMore(citations[..i], citations[i]);
      if citations[i].relation == "supports" {
        support := true;
      } else {
        contradict := true;
      }
    }
    assert citations[..|citations|] == citations;
    state := Unknown;
    if support && contradict {
      state := Conflicted;
    } else if support {
      state := Supported;
    } else if contradict {
      state := Contradicted;
    }
  }

  lemma SupportsMore(citations: seq<Citation>, c: Citation)
    ensures Supports(citations + [c]) == (Supports(citations) || c.relation == "supports")
    ensures Opposes(citations + [c]) == (Opposes(citations) || c.relation != "supports")
  {
    var more := citations + [c];
    assert more[|citations|] == c;
    assert forall i :: 0 <= i < |citations| ==> more[i] == citations[i];
  }

  /** The state of every claim, by its name. */
  predicate IsStates(states: map<string, State>, claims: seq<Claim>, n: nat)
    requires n <= |claims|
  {
    forall i :: 0 <= i < n ==> claims[i].id in states && states[claims[i].id] == StateOf(claims[i].citations)
  }

  method VerifyClaims(rules: Rules, sources: seq<Selection>, texts: map<string, string>, claims: seq<Claim>)
    returns (ok: bool, states: map<string, State>)
    requires Distinct(ClaimIds(claims))
    requires forall i :: 0 <= i < |claims| ==> ValidClaim(rules, sources, claims[i])
    ensures ok == forall i :: 0 <= i < |claims| ==> AllQuoted(texts, claims[i].citations)
    ensures ok ==> IsStates(states, claims, |claims|)
  {
    hide AllQuoted, ValidCitation, StateOf;
    states := map[];
    for i := 0 to |claims|
      invariant IsStates(states, claims, i)
      invariant forall j :: 0 <= j < i ==> AllQuoted(texts, claims[j].citations)
    {
      SpansAreSpans(rules, sources, claims[i].citations, false);
      var quoted := Verify(texts, claims[i].citations);
      if !quoted {
        return false, states;
      }
      var state := CitationState(claims[i].citations);
      states := states[claims[i].id := state];
      assert forall j :: 0 <= j < i ==> ClaimIds(claims)[j] != ClaimIds(claims)[i];
    }
    return true, states;
  }

  lemma SpansAreSpans(rules: Rules, sources: seq<Selection>, citations: seq<Citation>, ofMethod: bool)
    requires ValidCitations(rules, sources, citations, ofMethod)
    ensures forall i :: 0 <= i < |citations| ==> 0 <= citations[i].start < citations[i].end
  {
    assert forall i :: 0 <= i < |citations| ==> ValidCitation(rules, sources, citations[i], ofMethod);
  }

  method SortPrerequisites(states: map<string, State>, ids: seq<string>, claims: seq<Claim>)
    returns (missing: seq<string>, conflicted: seq<string>, blocked: seq<string>)
    requires Distinct(ClaimIds(claims)) && IsStates(states, claims, |claims|)
    requires forall i :: 0 <= i < |ids| ==> ids[i] in ClaimIds(claims)
    ensures missing == InState(claims, ids, Unknown)
    ensures conflicted == InState(claims, ids, Conflicted)
    ensures blocked == InState(claims, ids, Contradicted)
  {
    hide Distinct, StateOf, ClaimNamed;
    missing, conflicted, blocked := [], [], [];
    for i := 0 to |ids|
      invariant missing == InState(claims, ids[..i], Unknown)
      invariant conflicted == InState(claims, ids[..i], Conflicted)
      invariant blocked == InState(claims, ids[..i], Contradicted)
    {
      assert ids[..i + 1][..i] == ids[..i];
      var id := ids[i];
      StateNamed(states, claims, id);
      match states[id] {
        case Unknown => missing := missing + [id];
        case Conflicted => conflicted := conflicted + [id];
        case Contradicted => blocked := blocked + [id];
        case Supported =>
      }
    }
    assert ids[..|ids|] == ids;
  }

  lemma {:induction false} StateNamed(states: map<string, State>, claims: seq<Claim>, id: string)
    requires IsStates(states, claims, |claims|) && id in ClaimIds(claims)
    ensures id in states && states[id] == StateOf(ClaimNamed(claims, id).citations)
  {
    var claim := ClaimNamed(claims, id);
    var i :| 0 <= i < |claims| && claims[i] == claim;
  }

  method AssessApplication(rules: Rules, r: AssessmentRequest, application: Application) returns (a: Option<Assessment>)
    ensures a == Assessed(rules, r, application)
  {
    hide ValidCitations, CitationsOf, IsProposalId, ValidApplication, PreparedSources, Texts, AllQuoted, InState, IsStates;
    if rules.assessmentSize(r) > MAX_REQUEST_BYTES {
      return None;
    }
    var valid := ValidateAssessment(rules, r);
    if !valid {
      return None;
    }
    var sources, p := r.application.sources, r.proposal;
    if application.sources.None? || application.contract != Some(APPLICATION_CONTRACT)
       || |application.sources.value| != |sources| {
      PreparedHasAll(rules, sources, application);
      return None;
    }
    var prepared, texts := PrepareTexts(rules, sources, application.sources.value);
    if !prepared {
      return None;
    }
    var grounded, states := VerifyClaims(rules, sources, texts, p.claims);
    if !grounded {
      return None;
    }
    SpansAreSpans(rules, sources, p.approach.citations, true);
    var verified := Verify(texts, p.approach.citations);
    if !verified {
      return None;
    }
    var missing, conflicted, blocked := SortPrerequisites(states, p.approach.prerequisites, p.claims);
    var applicability := Conditional;
    if |blocked| > 0 {
      applicability := Blocked;
    } else if |conflicted| > 0 {
      applicability := InConflict;
    } else if |missing| > 0 || |p.approach.citations| == 0 {
      applicability := NeedsEvidence;
    }
    return Some(Assessment(applicability, States(p.claims), missing, conflicted, blocked, |p.approach.citations| > 0));
  }

  lemma PreparedHasAll(rules: Rules, sources: seq<Selection>, application: Application)
    ensures Prepared(rules, sources, application) ==> |application.sources.value| == |sources|
  {
  }

  // ---- what an assessment says -------------------------------------------------------------------------

  lemma {:induction false} InStateMembers(claims: seq<Claim>, ids: seq<string>, state: State)
    requires forall i :: 0 <= i < |ids| ==> ids[i] in ClaimIds(claims)
    ensures forall id ::
      (id in InState(claims, ids, state)
       <==> id in ids && id in ClaimIds(claims) && StateOf(ClaimNamed(claims, id).citations) == state)
  {
    hide StateOf, ClaimNamed;
    if ids != [] {
      var n := |ids| - 1;
      InStateMembers(claims, ids[..n], state);
      assert ids == ids[..n] + [ids[n]];
    }
  }

  /** A prerequisite stands: cited in support, and by nothing against it. */
  predicate Stands(claims: seq<Claim>, id: string) {
    id in ClaimIds(claims) && Supports(ClaimNamed(claims, id).citations) && !Opposes(ClaimNamed(claims, id).citations)
  }

  /** A proposal is conditionally applicable exactly when its method is cited and every prerequisite stands;
      it is blocked exactly when some prerequisite has only evidence against it. */
  lemma {:induction false} ApplicabilityMeans(p: Proposal)
    requires forall i :: 0 <= i < |p.approach.prerequisites| ==> p.approach.prerequisites[i] in ClaimIds(p.claims)
    ensures Judgement(p).applicability == Conditional
      <==> |p.approach.citations| > 0
           && (forall i :: 0 <= i < |p.approach.prerequisites| ==> Stands(p.claims, p.approach.prerequisites[i]))
    ensures Judgement(p).applicability == Blocked
      <==> (exists i :: 0 <= i < |p.approach.prerequisites|
              && StateOf(ClaimNamed(p.claims, p.approach.prerequisites[i]).citations) == Contradicted)
  {
    var ids := p.approach.prerequisites;
    hide ClaimNamed, Supports, Opposes, InState;
    InStateMembers(p.claims, ids, Unknown);
    InStateMembers(p.claims, ids, Conflicted);
    InStateMembers(p.claims, ids, Contradicted);
    NoneInState(p, Unknown);
    NoneInState(p, Conflicted);
    NoneInState(p, Contradicted);
    hide ClaimIds;
    forall i | 0 <= i < |ids|
      ensures Stands(p.claims, ids[i]) <==> StateOf(ClaimNamed(p.claims, ids[i]).citations) == Supported
    {
    }
  }

  lemma {:induction false} NoneInState(p: Proposal, state: State)
    requires forall i :: 0 <= i < |p.approach.prerequisites| ==> p.approach.prerequisites[i] in ClaimIds(p.claims)
    ensures |InState(p.claims, p.approach.prerequisites, state)| == 0
      <==> (forall i :: 0 <= i < |p.approach.prerequisites|
              ==> StateOf(ClaimNamed(p.claims, p.approach.prerequisites[i]).citations) != state)
  {
    hide InState, StateOf, ClaimNamed;
    var ids := p.approach.prerequisites;
    InStateMembers(p.claims, ids, state);
    var found := InState(p.claims, ids, state);
    if |found| > 0 {
      assert found[0] in found;
      var i :| 0 <= i < |ids| && ids[i] == found[0];
    }
    forall i | 0 <= i < |ids| && |found| == 0
      ensures StateOf(ClaimNamed(p.claims, ids[i]).citations) != state
    {
      assert ids[i] in ids && ids[i] !in found;
    }
  }

  // ---- what is assessed, told part by part -------------------------------------------------------------

  ghost predicate Letters(s: string, marks: string) {
    forall i :: 0 <= i < |s| ==>
      'a' <= s[i] <= 'z' || 'A' <= s[i] <= 'Z' || '0' <= s[i] <= '9' || s[i] in marks
  }

  ghost predicate NamesProposal(s: string) {
    1 <= |s| <= 64 && ('a' <= s[0] <= 'z' || 'A' <= s[0] <= 'Z') && Letters(s, "._-")
  }

  ghost predicate NamesSource(s: string) { 1 <= |s| <= 240 && Letters(s, "._:/#@-") }

  ghost predicate Fingerprinted(s: string) {
    && |s| == 71 && "sha256:" <= s
    && forall i :: 7 <= i < 71 ==> '0' <= s[i] <= '9' || 'a' <= s[i] <= 'f'
  }

  /** Some text, at most this long. */
  ghost predicate Says(rules: Rules, s: string, limit: nat) { !rules.blank(s) && |s| <= limit }

  /** A task within its bounds, and one to eight different sources. */
  ghost predicate Asks(rules: Rules, a: ApplicationRequest) {
    && a.contract == "knowledge.application.context.v1" && rules.applicationSize(a) <= 8192
    && Says(rules, a.goal, 2000)
    && |a.constraints| <= 16 && (forall i :: 0 <= i < |a.constraints| ==> Says(rules, a.constraints[i], 500))
    && 1 <= |a.sources| <= 8
    && (forall i :: 0 <= i < |a.sources| ==>
          NamesSource(a.sources[i].id) && (a.sources[i].version == "" || Fingerprinted(a.sources[i].version)))
    && (forall i, j :: 0 <= i < j < |a.sources| ==> a.sources[i].id != a.sources[j].id)
  }

  /** Quotes a selected source in its version, with a span as long as the quotation, for or against. */
  ghost predicate Quotes(rules: Rules, sources: seq<Selection>, c: Citation, onlyFor: bool) {
    && Selection(c.source, c.version) in sources && c.version != ""
    && 1 <= |c.quote| <= 1000 && rules.utf8(c.quote) && c.start >= 0 && c.end == c.start + |c.quote| <= 16384
    && (c.relation == "supports" || c.relation == "contradicts") && (onlyFor ==> c.relation != "contradicts")
  }

  ghost predicate QuotesEach(rules: Rules, sources: seq<Selection>, cs: seq<Citation>, onlyFor: bool) {
    && |cs| <= 8 && (forall i :: 0 <= i < |cs| ==> Quotes(rules, sources, cs[i], onlyFor))
    && (forall i, j :: 0 <= i < j < |cs| ==> cs[i] != cs[j])
  }

  ghost function CitedBy(claims: seq<Claim>): nat {
    if claims == [] then 0 else |claims[0].citations| + CitedBy(claims[1..])
  }

  /** A claim with a name, a statement and its citations. */
  ghost predicate Argues(rules: Rules, sources: seq<Selection>, claim: Claim) {
    NamesProposal(claim.id) && Says(rules, claim.statement, 1200) && QuotesEach(rules, sources, claim.citations, false)
  }

  ghost predicate NamesClaim(claims: seq<Claim>, id: string) { exists claim <- claims :: claim.id == id }

  /** A method with a name of its own, resting on one to sixteen different claims. */
  ghost predicate RestsOn(rules: Rules, sources: seq<Selection>, claims: seq<Claim>, m: Method) {
    && NamesProposal(m.id) && !NamesClaim(claims, m.id) && Says(rules, m.description, 2000)
    && 1 <= |m.prerequisites| <= 16
    && (forall i :: 0 <= i < |m.prerequisites| ==> NamesClaim(claims, m.prerequisites[i]))
    && (forall i, j :: 0 <= i < j < |m.prerequisites| ==> m.prerequisites[i] != m.prerequisites[j])
    && QuotesEach(rules, sources, m.citations, true)
  }

  /** A request that can be assessed: a task on pinned sources, one to sixteen claims of different names, a method, and
      at most thirty-two citations in all. */
  ghost predicate WellFormed(rules: Rules, r: AssessmentRequest) {
    var sources, claims := r.application.sources, r.proposal.claims;
    && r.contract == "knowledge.application.assessment.v1" && Asks(rules, r.application)
    && (forall i :: 0 <= i < |sources| ==> sources[i].version != "")
    && 1 <= |claims| <= 16 && (forall i :: 0 <= i < |claims| ==> Argues(rules, sources, claims[i]))
    && (forall i, j :: 0 <= i < j < |claims| ==> claims[i].id != claims[j].id)
    && RestsOn(rules, sources, claims, r.proposal.approach)
    && CitedBy(claims) + |r.proposal.approach.citations| <= 32
  }

  lemma NamesAre(s: string)
    ensures IsProposalId(s) <==> NamesProposal(s)
    ensures IsSourceId(s) <==> NamesSource(s)
    ensures IsVersion(s) <==> Fingerprinted(s)
  {
    assert forall c: char :: c in "._-" <==> c == '.' || c == '_' || c == '-';
    assert forall c: char :: c in "._:/#@-" <==>
             c == '.' || c == '_' || c == ':' || c == '/' || c == '#' || c == '@' || c == '-';
    VersionIs(s);
    hide IsVersion, Fingerprinted;
  }

  lemma VersionIs(s: string)
    ensures IsVersion(s) <==> Fingerprinted(s)
  {
    if |s| == 71 {
      assert "sha256:" <= s <==> s[..7] == "sha256:";
    }
  }

  lemma AsksIs(rules: Rules, a: ApplicationRequest)
    ensures ValidApplication(rules, a) <==> Asks(rules, a)
  {
    forall s ensures (IsSourceId(s) <==> NamesSource(s)) && (IsVersion(s) <==> Fingerprinted(s)) {
      NamesAre(s);
    }
    hide IsSourceId, NamesSource, IsVersion, Fingerprinted;
    assert Distinct(SourceIds(a.sources)) <==>
             forall i, j :: 0 <= i < j < |a.sources| ==> a.sources[i].id != a.sources[j].id by {
      var ids := SourceIds(a.sources);
      assert forall i :: 0 <= i < |ids| ==> ids[i] == a.sources[i].id;
    }
    hide Distinct, SourceIds;
  }

  lemma QuotesIs(rules: Rules, sources: seq<Selection>, c: Citation, onlyFor: bool)
    ensures ValidCitation(rules, sources, c, onlyFor) <==> Quotes(rules, sources, c, onlyFor)
  {
  }

  lemma QuotesEachIs(rules: Rules, sources: seq<Selection>, cs: seq<Citation>, onlyFor: bool)
    ensures ValidCitations(rules, sources, cs, onlyFor) <==> QuotesEach(rules, sources, cs, onlyFor)
  {
    forall c ensures ValidCitation(rules, sources, c, onlyFor) <==> Quotes(rules, sources, c, onlyFor) {
      QuotesIs(rules, sources, c, onlyFor);
    }
    hide ValidCitation, Quotes;
  }

  lemma ArguesIs(rules: Rules, sources: seq<Selection>, claim: Claim)
    ensures ValidClaim(rules, sources, claim) <==> Argues(rules, sources, claim)
  {
    NamesAre(claim.id);
    QuotesEachIs(rules, sources, claim.citations, false);
    hide ValidCitations, QuotesEach, IsProposalId, NamesProposal;
  }

  lemma NamedAmong(claims: seq<Claim>, id: string)
    ensures id in ClaimIds(claims) <==> NamesClaim(claims, id)
  {
    if id in ClaimIds(claims) {
      var i :| 0 <= i < |claims| && ClaimIds(claims)[i] == id;
      assert claims[i] in claims;
    }
    if claim :| claim in claims && claim.id == id {
      var i :| 0 <= i < |claims| && claims[i] == claim;
      assert ClaimIds(claims)[i] == id;
    }
  }

  lemma RestsOnIs(rules: Rules, sources: seq<Selection>, claims: seq<Claim>, m: Method)
    ensures ValidMethod(rules, sources, claims, m) <==> RestsOn(rules, sources, claims, m)
  {
    NamesAre(m.id);
    QuotesEachIs(rules, sources, m.citations, true);
    forall id ensures id in ClaimIds(claims) <==> NamesClaim(claims, id) {
      NamedAmong(claims, id);
    }
    hide ValidCitations, QuotesEach, IsProposalId, NamesProposal, ClaimIds, NamesClaim;
  }

  lemma {:induction false} CitedGrows(claims: seq<Claim>, claim: Claim)
    ensures CitedBy(claims + [claim]) == CitedBy(claims) + |claim.citations|
  {
    if claims == [] {
      assert [] + [claim] == [claim] && [claim][1..] == [];
    } else {
      assert (claims + [claim])[1..] == claims[1..] + [claim];
      CitedGrows(claims[1..], claim);
    }
  }

  lemma {:induction false} CitedByIs(claims: seq<Claim>)
    ensures CitationsOf(claims) == CitedBy(claims)
  {
    if claims != [] {
      var n := |claims| - 1;
      CitedByIs(claims[..n]);
      CitedGrows(claims[..n], claims[n]);
      assert claims == claims[..n] + [claims[n]];
    }
  }

  /** What is accepted for assessment is exactly what is well formed. */
  lemma WellFormedIs(rules: Rules, r: AssessmentRequest)
    ensures ValidAssessment(rules, r) <==> WellFormed(rules, r)
  {
    var sources, claims := r.application.sources, r.proposal.claims;
    AsksIs(rules, r.application);
    forall claim ensures ValidClaim(rules, sources, claim) <==> Argues(rules, sources, claim) {
      ArguesIs(rules, sources, claim);
    }
    RestsOnIs(rules, sources, claims, r.proposal.approach);
    CitedByIs(claims);
    assert Distinct(ClaimIds(claims)) <==> forall i, j :: 0 <= i < j < |claims| ==> claims[i].id != claims[j].id by {
      var ids := ClaimIds(claims);
      assert forall i :: 0 <= i < |ids| ==> ids[i] == claims[i].id;
    }
    hide ValidApplication, Asks, ValidClaim, Argues, ValidMethod, RestsOn, CitationsOf, CitedBy, Distinct, ClaimIds;
  }

  ghost function TextAt(observations: seq<Observation>, i: nat): string
    requires i < |observations|
  {
    if observations[i].Observed? && observations[i].text.Some? then observations[i].text.value else ""
  }

  ghost function Together(observations: seq<Observation>): nat {
    if observations == [] then 0 else |TextAt(observations, 0)| + Together(observations[1..])
  }

  /** Every source is loaded under its name with the text of its fingerprint, within the limits. */
  ghost predicate Fresh(rules: Rules, sources: seq<Selection>, application: Application) {
    && application.contract == Some("knowledge.application.context.v1") && application.sources.Some?
    && var observations := application.sources.value;
      && |observations| == |sources| && Together(observations) <= 65536
      && forall i :: 0 <= i < |sources| ==>
           && 1 <= |TextAt(observations, i)| <= 16384
           && observations[i].Observed? && observations[i].id == Some(sources[i].id)
           && observations[i].version == Some(sources[i].version)
           && rules.fingerprint(TextAt(observations, i)) == sources[i].version
  }

  lemma {:induction false} TogetherGrows(observations: seq<Observation>, o: Observation)
    ensures Together(observations + [o]) == Together(observations) + |TextAt([o], 0)|
  {
    var all := observations + [o];
    if observations == [] {
      assert all == [o] && [o][1..] == [];
    } else {
      assert all[1..] == observations[1..] + [o] && all[0] == observations[0];
      TogetherGrows(observations[1..], o);
    }
  }

  lemma {:induction false} TogetherIs(observations: seq<Observation>)
    ensures TextBytes(observations) == Together(observations)
  {
    if observations != [] {
      var n := |observations| - 1;
      TogetherIs(observations[..n]);
      TogetherGrows(observations[..n], observations[n]);
      assert observations == observations[..n] + [observations[n]];
    }
  }

  lemma FreshIs(rules: Rules, sources: seq<Selection>, application: Application)
    ensures Prepared(rules, sources, application) <==> Fresh(rules, sources, application)
  {
    if application.sources.Some? {
      TogetherIs(application.sources.value);
    }
    hide TextBytes, Together;
  }

  /** The quotation stands at its span in the text of the source it names. */
  ghost predicate StandsIn(sources: seq<Selection>, observations: seq<Observation>, c: Citation)
    requires |sources| == |observations|
  {
    exists k :: 0 <= k < |sources| && StandsAt(sources, observations, c, k)
  }

  ghost predicate StandsAt(sources: seq<Selection>, observations: seq<Observation>, c: Citation, k: nat)
    requires k < |sources| == |observations|
  {
    && sources[k].id == c.source && 0 <= c.start <= c.end <= |TextAt(observations, k)|
    && TextAt(observations, k)[c.start..c.end] == c.quote
  }

  ghost predicate AllStand(sources: seq<Selection>, observations: seq<Observation>, cs: seq<Citation>)
    requires |sources| == |observations|
  {
    forall i :: 0 <= i < |cs| ==> StandsIn(sources, observations, cs[i])
  }

  lemma {:induction false} TextOfSource(sources: seq<Selection>, observations: seq<Observation>, k: nat)
    requires k < |sources| == |observations|
    requires forall i, j :: 0 <= i < j < |sources| ==> sources[i].id != sources[j].id
    ensures At(Texts(sources, observations), sources[k].id) == TextAt(observations, k)
  {
    var n := |sources| - 1;
    if k < n {
      TextOfSource(sources[..n], observations[..n], k);
    }
  }

  lemma StandsIs(rules: Rules, sources: seq<Selection>, observations: seq<Observation>, c: Citation, onlyFor: bool)
    requires |sources| == |observations| && Quotes(rules, sources, c, onlyFor)
    requires forall i, j :: 0 <= i < j < |sources| ==> sources[i].id != sources[j].id
    ensures Quoted(Texts(sources, observations), c) <==> StandsIn(sources, observations, c)
  {
    var k :| 0 <= k < |sources| && sources[k] == Selection(c.source, c.version);
    TextOfSource(sources, observations, k);
    hide Texts, TextAt, Quotes;
    if Quoted(Texts(sources, observations), c) {
      assert StandsAt(sources, observations, c, k);
    }
    if other :| 0 <= other < |sources| && StandsAt(sources, observations, c, other) {
      assert other == k;
    }
  }

  lemma AllStandIs(rules: Rules, sources: seq<Selection>, observations: seq<Observation>, cs: seq<Citation>, onlyFor: bool)
    requires |sources| == |observations| && QuotesEach(rules, sources, cs, onlyFor)
    requires forall i, j :: 0 <= i < j < |sources| ==> sources[i].id != sources[j].id
    ensures AllQuoted(Texts(sources, observations), cs) <==> AllStand(sources, observations, cs)
  {
    hide Texts, StandsIn, Quoted;
    forall i | 0 <= i < |cs|
      ensures Quoted(Texts(sources, observations), cs[i]) <==> StandsIn(sources, observations, cs[i])
    {
      StandsIs(rules, sources, observations, cs[i], onlyFor);
    }
  }

  ghost predicate For(claim: Claim) { exists c <- claim.citations :: c.relation == "supports" }

  ghost predicate Against(claim: Claim) { exists c <- claim.citations :: c.relation == "contradicts" }

  /** A claim of this name has evidence for it or not, and against it or not. */
  ghost predicate HasEvidence(claims: seq<Claim>, id: string, isFor: bool, isAgainst: bool) {
    exists claim <- claims :: claim.id == id && For(claim) == isFor && Against(claim) == isAgainst
  }

  /** These names in their order, those left out that no claim in this state has. */
  ghost function Those(ids: seq<string>, claims: seq<Claim>, isFor: bool, isAgainst: bool): seq<string> {
    if ids == [] then []
    else
      (if HasEvidence(claims, ids[0], isFor, isAgainst) then [ids[0]] else []) + Those(ids[1..], claims, isFor, isAgainst)
  }

  /** Claims by the evidence for and against them; prerequisites without any, with both, with only some against; and
      what follows. */
  ghost predicate Judges(p: Proposal, a: Assessment) {
    && StatesOf(p.claims, a.states)
    && a.missing == Those(p.approach.prerequisites, p.claims, false, false)
    && a.conflicted == Those(p.approach.prerequisites, p.claims, true, true)
    && a.blocked == Those(p.approach.prerequisites, p.claims, false, true)
    && (a.methodCited <==> |p.approach.citations| > 0)
    && (a.applicability == Blocked <==> |a.blocked| > 0)
    && (a.applicability == InConflict <==> |a.blocked| == 0 && |a.conflicted| > 0)
    && (a.applicability == Conditional <==> a.blocked == a.conflicted == a.missing == [] && a.methodCited)
  }

  lemma StateIs(rules: Rules, sources: seq<Selection>, claim: Claim)
    requires Argues(rules, sources, claim)
    ensures Supports(claim.citations) <==> For(claim)
    ensures Opposes(claim.citations) <==> Against(claim)
  {
    forall i | 0 <= i < |claim.citations|
      ensures claim.citations[i] in claim.citations
      ensures claim.citations[i].relation == "supports" || claim.citations[i].relation == "contradicts"
    {
      assert Quotes(rules, sources, claim.citations[i], false);
    }
    hide Quotes;
  }

  lemma {:induction false} ThoseGrow(ids: seq<string>, id: string, claims: seq<Claim>, isFor: bool, isAgainst: bool)
    ensures Those(ids + [id], claims, isFor, isAgainst)
         == Those(ids, claims, isFor, isAgainst) + (if HasEvidence(claims, id, isFor, isAgainst) then [id] else [])
  {
    hide HasEvidence;
    if ids == [] {
      assert [] + [id] == [id] && [id][1..] == [];
    } else {
      assert (ids + [id])[1..] == ids[1..] + [id];
      ThoseGrow(ids[1..], id, claims, isFor, isAgainst);
    }
  }

  ghost function StateWith(isFor: bool, isAgainst: bool): State {
    if isFor && isAgainst then Conflicted else if isFor then Supported else if isAgainst then Contradicted else Unknown
  }

  lemma {:induction false} ThoseAre(
    rules: Rules, sources: seq<Selection>, claims: seq<Claim>, ids: seq<string>, isFor: bool, isAgainst: bool)
    requires forall i :: 0 <= i < |claims| ==> Argues(rules, sources, claims[i])
    requires forall i, j :: 0 <= i < j < |claims| ==> claims[i].id != claims[j].id
    requires forall i :: 0 <= i < |ids| ==> ids[i] in ClaimIds(claims)
    ensures InState(claims, ids, StateWith(isFor, isAgainst)) == Those(ids, claims, isFor, isAgainst)
  {
    hide Argues, HasEvidence;
    if ids != [] {
      var n := |ids| - 1;
      ThoseAre(rules, sources, claims, ids[..n], isFor, isAgainst);
      ThoseGrow(ids[..n], ids[n], claims, isFor, isAgainst);
      assert ids == ids[..n] + [ids[n]];
      OneOfThose(rules, sources, claims, ids[n], isFor, isAgainst);
      hide ClaimNamed, StateOf;
    }
  }

  lemma OneOfThose(
    rules: Rules, sources: seq<Selection>, claims: seq<Claim>, id: string, isFor: bool, isAgainst: bool)
    requires forall i :: 0 <= i < |claims| ==> Argues(rules, sources, claims[i])
    requires forall i, j :: 0 <= i < j < |claims| ==> claims[i].id != claims[j].id
    requires id in ClaimIds(claims)
    ensures HasEvidence(claims, id, isFor, isAgainst) <==>
              StateOf(ClaimNamed(claims, id).citations) == StateWith(isFor, isAgainst)
  {
    var claim := ClaimNamed(claims, id);
    var k :| 0 <= k < |claims| && claims[k] == claim;
    StateIs(rules, sources, claim);
    hide For, Against, Supports, Opposes, ClaimNamed, Argues;
    forall other | other in claims && other.id == id
      ensures other == claim
    {
      var j :| 0 <= j < |claims| && claims[j] == other;
    }
  }

  lemma JudgesIs(rules: Rules, r: AssessmentRequest, a: Assessment)
    requires WellFormed(rules, r)
    requires forall i :: 0 <= i < |r.proposal.approach.prerequisites| ==>
               r.proposal.approach.prerequisites[i] in ClaimIds(r.proposal.claims)
    ensures a == Judgement(r.proposal) <==> Judges(r.proposal, a)
  {
    var sources, p := r.application.sources, r.proposal;
    JudgementIs(p, a);
    ThoseAre(rules, sources, p.claims, p.approach.prerequisites, false, false);
    ThoseAre(rules, sources, p.claims, p.approach.prerequisites, true, true);
    ThoseAre(rules, sources, p.claims, p.approach.prerequisites, false, true);
    StatesAre(rules, sources, p.claims, a.states);
    hide InState, Those, For, Against, States, StatesOf, WellFormed, ClaimIds, Judgement;
  }

  lemma JudgementIs(p: Proposal, a: Assessment)
    requires forall i :: 0 <= i < |p.approach.prerequisites| ==> p.approach.prerequisites[i] in ClaimIds(p.claims)
    ensures
      a == Judgement(p)
      <==> && a.states == States(p.claims)
           && a.missing == InState(p.claims, p.approach.prerequisites, Unknown)
           && a.conflicted == InState(p.claims, p.approach.prerequisites, Conflicted)
           && a.blocked == InState(p.claims, p.approach.prerequisites, Contradicted)
           && (a.methodCited <==> |p.approach.citations| > 0)
           && (a.applicability == Blocked <==> |a.blocked| > 0)
           && (a.applicability == InConflict <==> |a.blocked| == 0 && |a.conflicted| > 0)
           && (a.applicability == Conditional <==> a.blocked == a.conflicted == a.missing == [] && a.methodCited)
  {
    hide InState, States, ClaimIds;
    assert a.applicability == NeedsEvidence <==>
             a.applicability != Blocked && a.applicability != InConflict && a.applicability != Conditional;
  }

  ghost predicate StatesOf(claims: seq<Claim>, states: seq<State>) {
    && |states| == |claims|
    && (forall i :: 0 <= i < |claims| ==>
          && (states[i] == Supported <==> For(claims[i]) && !Against(claims[i]))
          && (states[i] == Contradicted <==> Against(claims[i]) && !For(claims[i]))
          && (states[i] == Conflicted <==> For(claims[i]) && Against(claims[i])))
  }

  lemma StatesAre(rules: Rules, sources: seq<Selection>, claims: seq<Claim>, states: seq<State>)
    requires forall i :: 0 <= i < |claims| ==> Argues(rules, sources, claims[i])
    ensures states == States(claims) <==> StatesOf(claims, states)
  {
    forall i | 0 <= i < |claims|
      ensures States(claims)[i] == StateWith(For(claims[i]), Against(claims[i]))
    {
      StateIs(rules, sources, claims[i]);
    }
    hide For, Against, Supports, Opposes, Argues;
    if StatesOf(claims, states) {
      assert forall i :: 0 <= i < |claims| ==> states[i] == States(claims)[i];
    }
  }

  /** An assessment is made exactly of a well-formed request within its size whose sources are loaded as they were
      pinned and whose every quotation stands where it says; and it is the judgement of the evidence cited. */
  lemma AssessedExactlyWhen(rules: Rules, r: AssessmentRequest, application: Application, a: Assessment)
    ensures
      Assessed(rules, r, application) == Some(a)
      <==> && rules.assessmentSize(r) <= 32768 && WellFormed(rules, r)
           && Fresh(rules, r.application.sources, application)
           && var sources, observations := r.application.sources, application.sources.value;
              (forall i :: 0 <= i < |r.proposal.claims| ==> AllStand(sources, observations, r.proposal.claims[i].citations))
              && AllStand(sources, observations, r.proposal.approach.citations)
              && Judges(r.proposal, a)
  {
    WellFormedIs(rules, r);
    FreshIs(rules, r.application.sources, application);
    if ValidAssessment(rules, r) && Fresh(rules, r.application.sources, application) {
      PrerequisitesAreClaims(rules, r);
      JudgesIs(rules, r, a);
      EachStands(rules, r, application.sources.value);
    }
    hide ValidAssessment, WellFormed, Fresh, Prepared, Judgement, Judges, Texts, AllQuoted, AllStand;
  }

  lemma PrerequisitesAreClaims(rules: Rules, r: AssessmentRequest)
    requires ValidAssessment(rules, r)
    ensures forall i :: 0 <= i < |r.proposal.approach.prerequisites| ==>
              r.proposal.approach.prerequisites[i] in ClaimIds(r.proposal.claims)
  {
  }

  lemma EachStands(rules: Rules, r: AssessmentRequest, observations: seq<Observation>)
    requires WellFormed(rules, r) && |r.application.sources| == |observations|
    ensures
      var sources := r.application.sources;
      Grounded(Texts(sources, observations), r.proposal) <==>
        && (forall i :: 0 <= i < |r.proposal.claims| ==> AllStand(sources, observations, r.proposal.claims[i].citations))
        && AllStand(sources, observations, r.proposal.approach.citations)
  {
    var sources, p := r.application.sources, r.proposal;
    hide Texts, AllStand, AllQuoted;
    forall i | 0 <= i < |p.claims|
      ensures AllQuoted(Texts(sources, observations), p.claims[i].citations) <==>
                AllStand(sources, observations, p.claims[i].citations)
    {
      assert Argues(rules, sources, p.claims[i]);
      AllStandIs(rules, sources, observations, p.claims[i].citations, false);
    }
    AllStandIs(rules, sources, observations, p.approach.citations, true);
  }
}
