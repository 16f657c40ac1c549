/** The second opinion on a candidate: what makes a reviewer's reply usable, and the outcome that follows from it. */
module Review {
  import opened Wrappers
  import opened Applicability
  import opened Proposals

  const REVIEW_CONTRACT := "knowledge.application.review.v1"
  const MAX_CONDITIONS := 16
  const MAX_CONFLICTS := 8
  const MAX_REVIEW_CITATIONS := 4
  const MAX_STATEMENT := 600
  const MAX_REASON := 400

  datatype RequiredCondition =
    RequiredCondition(id: string, statement: string, citations: seq<Quotation>, coveredBy: seq<string>)
  datatype Finding = Finding(id: string, verdict: string, reason: string)
  datatype Opposition = Opposition(statement: string, citations: seq<Quotation>)

  datatype ReviewReply = ReviewReply(
    contract: string, task: string, revision: int, conditions: seq<RequiredCondition>, claims: seq<Finding>,
    approach: Finding, conflicts: seq<Opposition>, verdict: string, reason: string)

  datatype Condition =
    Condition(id: string, statement: string, citations: seq<Citation>, coveredBy: seq<string>, covered: bool)
  datatype Conflict = Conflict(statement: string, citations: seq<Citation>)
  datatype Outcome = Accepted | NeedsRevision | Rejected
  datatype Reviewed = Reviewed(
    outcome: Outcome, reasons: seq<string>, verdict: string, reason: string, conditions: seq<Condition>,
    uncovered: seq<string>, claims: seq<Finding>, approach: Finding, conflicts: seq<Conflict>, applicability: string)

  predicate BoundedText(rules: Rules, text: string, limit: nat) { !rules.blank(text) && |text| <= limit }

  // ---- findings ----------------------------------------------------------------------------------------

  predicate Refuted(verdict: string) { verdict == "misread" || verdict == "out_of_scope" || verdict == "stale" }

  predicate ValidFinding(rules: Rules, f: Finding) {
    BoundedText(rules, f.reason, MAX_REASON)
    && (f.verdict == "supported" || f.verdict == "unsupported" || Refuted(f.verdict))
  }

  function FindingIds(findings: seq<Finding>): (ids: seq<string>)
    ensures |ids| == |findings| && forall i :: 0 <= i < |findings| ==> ids[i] == findings[i].id
  {
    seq(|findings|, i requires 0 <= i < |findings| => findings[i].id)
  }

  /** Every claim of the candidate is judged, and once. */
  ghost predicate JudgedOnce(findings: seq<Finding>, claims: seq<Claim>) {
    Distinct(ClaimIds(claims)) && multiset(FindingIds(findings)) == multiset(ClaimIds(claims))
  }

  ghost predicate ValidFindings(rules: Rules, reply: ReviewReply, candidate: Proposal) {
    && JudgedOnce(reply.claims, candidate.claims)
    && (forall i :: 0 <= i < |reply.claims| ==> ValidFinding(rules, reply.claims[i]))
    && reply.approach.id == candidate.approach.id && ValidFinding(rules, reply.approach)
  }

  function Members<T>(xs: seq<T>): set<T> { set x | x in xs }

  lemma {:induction false} MembersCount<T>(xs: seq<T>)
    ensures |Members(xs)| <= |xs| && (|Members(xs)| == |xs| <==> Distinct(xs))
  {
    if xs != [] {
      var n := |xs| - 1;
      MembersCount(xs[..n]);
      assert xs == xs[..n] + [xs[n]];
      assert Members(xs) == Members(xs[..n]) + {xs[n]};
      if xs[n] in xs[..n] {
        assert Members(xs) == Members(xs[..n]);
        var j :| 0 <= j < n && xs[..n][j] == xs[n];
        assert xs[j] == xs[n];
      } else {
        assert Distinct(xs[..n]) ==> Distinct(xs) by {
          if Distinct(xs[..n]) {
            forall i, j | 0 <= i < j < |xs| ensures xs[i] != xs[j] {
              assert xs[i] == xs[..n][i];
            }
          }
        }
        assert Distinct(xs) ==> Distinct(xs[..n]);
      }
    }
  }

  lemma {:induction false} DistinctMultiset<T>(xs: seq<T>, x: T)
    requires Distinct(xs)
    ensures multiset(xs)[x] == if x in xs then 1 else 0
  {
    if xs != [] {
      var n := |xs| - 1;
      assert xs == xs[..n] + [xs[n]];
      assert xs[n] !in xs[..n];
      DistinctMultiset(xs[..n], x);
    }
  }

  lemma {:induction false} SubsetOfSameSize<T>(a: set<T>, b: set<T>)
    requires a <= b && |a| >= |b|
    ensures a == b
  {
    assert b == a + (b - a);
    assert |b| == |a| + |b - a|;
  }

  /** Distinct names among as many: exactly those names, once each. */
  lemma {:induction false} SameNames(findings: seq<string>, claims: seq<string>)
    requires |findings| == |claims| && Distinct(findings)
    requires forall i :: 0 <= i < |findings| ==> findings[i] in claims
    ensures Distinct(claims) && multiset(findings) == multiset(claims)
  {
    MembersCount(findings);
    MembersCount(claims);
    SubsetOfSameSize(Members(findings), Members(claims));
    assert forall x :: x in findings <==> x in Members(findings);
    assert forall x :: x in claims <==> x in Members(claims);
    forall x ensures multiset(findings)[x] == multiset(claims)[x] {
      DistinctMultiset(findings, x);
      DistinctMultiset(claims, x);
    }
    assert multiset(findings) == multiset(claims);
  }

  lemma {:induction false} OnceEach(findings: seq<string>, claims: seq<string>)
    requires multiset(findings) == multiset(claims) && Distinct(claims)
    ensures |findings| == |claims| && Distinct(findings)
    ensures forall i :: 0 <= i < |findings| ==> findings[i] in claims
  {
    assert |multiset(findings)| == |findings| && |multiset(claims)| == |claims|;
    forall i | 0 <= i < |findings| ensures findings[i] in claims {
      assert findings[i] in multiset(findings);
    }
    assert Members(findings) == Members(claims) by {
      forall x ensures x in Members(findings) <==> x in Members(claims) {
        assert x in multiset(findings) <==> x in multiset(claims);
      }
    }
    MembersCount(findings);
    MembersCount(claims);
  }

  method ValidateFindings(rules: Rules, reply: ReviewReply, candidate: Proposal) returns (ok: bool)
    ensures ok == ValidFindings(rules, reply, candidate)
  {
    ghost var ids, found := ClaimIds(candidate.claims), FindingIds(reply.claims);
    hide ValidFinding, Distinct;
    if ValidFindings(rules, reply, candidate) {
      OnceEach(found, ids);
    }
    if |reply.claims| != |candidate.claims| {
      return false;
    }
    var expected := Members(ClaimIds(candidate.claims));
    NoneDistinct(found);
    for i := 0 to |reply.claims|
      invariant Distinct(found[..i])
      invariant forall id :: id in expected <==> id in ids && id !in found[..i]
      invariant forall j :: 0 <= j < i ==> ValidFinding(rules, reply.claims[j]) && found[j] in ids
    {
      var finding := reply.claims[i];
      if finding.id !in expected || !ValidFinding(rules, finding) {
        assert found[i] == finding.id;
        return false;
      }
      OneMoreDistinct(found, i);
      expected := expected - {finding.id};
      assert found[..i + 1] == found[..i] + [found[i]];
    }
    assert found[..|found|] == found;
    SameNames(found, ids);
    if reply.approach.id != candidate.approach.id || !ValidFinding(rules, reply.approach) {
      return false;
    }
    return true;
  }

  lemma NoneDistinct(xs: seq<string>)
    ensures Distinct(xs[..0])
  {
  }

  lemma {:induction false} OneMoreDistinct(xs: seq<string>, i: nat)
    requires i < |xs| && Distinct(xs[..i]) && xs[i] !in xs[..i]
    ensures Distinct(xs[..i + 1])
  {
    assert forall j :: 0 <= j < i ==> xs[..i][j] == xs[j];
  }

  // ---- required conditions -----------------------------------------------------------------------------

  predicate ProperRelations(citations: seq<Citation>) {
    forall i :: 0 <= i < |citations| ==> citations[i].relation == "supports" || citations[i].relation == "contradicts"
  }

  function ReviewQuotes(texts: map<string, string>, versions: map<string, string>, quoted: seq<Quotation>)
    : Option<seq<Citation>> {
    match Anchor(texts, versions, quoted, MAX_REVIEW_CITATIONS)
    case Some(citations) => if ProperRelations(citations) then Some(citations) else None
    case None => None
  }

  /** The method itself, or a claim it depends on. */
  predicate Covers(candidate: Proposal, id: string) {
    id in candidate.approach.prerequisites || id == candidate.approach.id
  }

  predicate Covered(candidate: Proposal, coveredBy: seq<string>) {
    exists i :: 0 <= i < |coveredBy| && Covers(candidate, coveredBy[i])
  }

  /** Only the candidate's own claims and method are named. */
  predicate NamesKnown(candidate: Proposal, coveredBy: seq<string>) {
    forall i :: 0 <= i < |coveredBy| ==> coveredBy[i] in ClaimIds(candidate.claims) || coveredBy[i] == candidate.approach.id
  }

  function AnchorCondition(
    rules: Rules, candidate: Proposal, texts: map<string, string>, versions: map<string, string>, c: RequiredCondition)
    : Option<Condition> {
    if !IsProposalId(c.id) || !BoundedText(rules, c.statement, MAX_STATEMENT) || !NamesKnown(candidate, c.coveredBy) then None
    else
      match ReviewQuotes(texts, versions, c.citations)
      case Some(citations) =>
        Some(Condition(c.id, c.statement, citations, c.coveredBy, Covered(candidate, c.coveredBy)))
      case None => None
  }

  predicate Repeats(conditions: seq<RequiredCondition>, id: string) {
    exists i :: 0 <= i < |conditions| && conditions[i].id == id
  }

  function AnchorEach(
    rules: Rules, candidate: Proposal, texts: map<string, string>, versions: map<string, string>,
    conditions: seq<RequiredCondition>): Option<seq<Condition>> {
    if conditions == [] then Some([])
    else
      var n := |conditions| - 1;
      match (AnchorEach(rules, candidate, texts, versions, conditions[..n]),
             AnchorCondition(rules, candidate, texts, versions, conditions[n]))
      case (Some(before), Some(c)) => if Repeats(conditions[..n], c.id) then None else Some(before + [c])
      case _ => None
  }

  function Uncovered(conditions: seq<Condition>): seq<string> {
    if conditions == [] then []
    else
      var n := |conditions| - 1;
      if conditions[n].covered then Uncovered(conditions[..n]) else Uncovered(conditions[..n]) + [conditions[n].id]
  }

  function AnchoredConditions(
    rules: Rules, candidate: Proposal, texts: map<string, string>, versions: map<string, string>,
    conditions: seq<RequiredCondition>): Option<seq<Condition>> {
    if |conditions| < 1 || |conditions| > MAX_CONDITIONS then None
    else AnchorEach(rules, candidate, texts, versions, conditions)
  }

  method AnchorReviewQuotes(texts: map<string, string>, versions: map<string, string>, quoted: seq<Quotation>)
    returns (r: Option<seq<Citation>>)
    ensures r == ReviewQuotes(texts, versions, quoted)
  {
    var anchored := AnchorQuotes(texts, versions, quoted, MAX_REVIEW_CITATIONS);
    if anchored.None? {
      return None;
    }
    var citations := anchored.value;
    for i := 0 to |citations|
      invariant forall j :: 0 <= j < i ==> citations[j].relation == "supports" || citations[j].relation == "contradicts"
    {
      if citations[i].relation != "supports" && citations[i].relation != "contradicts" {
        return None;
      }
    }
    return Some(citations);
  }

  method CheckCoverage(candidate: Proposal, claims: set<string>, prerequisites: set<string>, coveredBy: seq<string>)
    returns (known: bool, covered: bool)
    requires claims == Members(ClaimIds(candidate.claims)) && prerequisites == Members(candidate.approach.prerequisites)
    ensures known == NamesKnown(candidate, coveredBy)
    ensures known ==> covered == Covered(candidate, coveredBy)
  {
    covered := false;
    for i := 0 to |coveredBy|
      invariant covered == Covered(candidate, coveredBy[..i])
      invariant NamesKnown(candidate, coveredBy[..i])
    {
      var id := coveredBy[i];
      if id !in claims && id != candidate.approach.id {
        assert !(id in ClaimIds(candidate.claims));
        return false, covered;
      }
      covered := covered || id in prerequisites || id == candidate.approach.id;
    }
    assert coveredBy[..|coveredBy|] == coveredBy;
    return true, covered;
  }

  lemma {:induction false} AnchorEachFails(
    rules: Rules, candidate: Proposal, texts: map<string, string>, versions: map<string, string>,
    conditions: seq<RequiredCondition>, i: nat)
    requires i < |conditions|
    requires AnchorCondition(rules, candidate, texts, versions, conditions[i]).None? || Repeats(conditions[..i], conditions[i].id)
    ensures AnchorEach(rules, candidate, texts, versions, conditions).None?
    decreases |conditions|
  {
    hide AnchorCondition, Repeats;
    var n := |conditions| - 1;
    if i < n {
      assert conditions[..n][..i] == conditions[..i];
      AnchorEachFails(rules, candidate, texts, versions, conditions[..n], i);
    } else {
      AnchorConditionId(rules, candidate, texts, versions, conditions[n]);
    }
  }

  lemma AnchorConditionId(
    rules: Rules, candidate: Proposal, texts: map<string, string>, versions: map<string, string>, c: RequiredCondition)
    ensures
      AnchorCondition(rules, candidate, texts, versions, c).Some?
      ==> AnchorCondition(rules, candidate, texts, versions, c).value.id == c.id
  {
  }

  method AnchorNew(
    rules: Rules, candidate: Proposal, texts: map<string, string>, versions: map<string, string>,
    c: RequiredCondition, seen: set<string>) returns (r: Option<Condition>)
    ensures r == if c.id in seen then None else AnchorCondition(rules, candidate, texts, versions, c)
  {
    hide IsProposalId, BoundedText, NamesKnown, Covered, ReviewQuotes;
    if !IsProposalId(c.id) || c.id in seen || !BoundedText(rules, c.statement, MAX_STATEMENT) {
      return None;
    }
    var citations := AnchorReviewQuotes(texts, versions, c.citations);
    if citations.None? {
      return None;
    }
    var claims, prerequisites := Members(ClaimIds(candidate.claims)), Members(candidate.approach.prerequisites);
    var known, covered := CheckCoverage(candidate, claims, prerequisites, c.coveredBy);
    if !known {
      return None;
    }
    return Some(Condition(c.id, c.statement, citations.value, c.coveredBy, covered));
  }

  method AnchorConditions(
    rules: Rules, candidate: Proposal, texts: map<string, string>, versions: map<string, string>,
    conditions: seq<RequiredCondition>) returns (ok: bool, anchored: seq<Condition>, uncovered: seq<string>)
    ensures ok == AnchoredConditions(rules, candidate, texts, versions, conditions).Some?
    ensures ok ==> anchored == AnchoredConditions(rules, candidate, texts, versions, conditions).value
                   && uncovered == Uncovered(anchored)
  {
    hide AnchorCondition, Repeats;
    anchored, uncovered := [], [];
    if |conditions| < 1 || |conditions| > MAX_CONDITIONS {
      return false, anchored, uncovered;
    }
    var seen: set<string> := {};
    NoneRepeats(conditions);
    for i := 0 to |conditions|
      invariant forall id :: id in seen <==> Repeats(conditions[..i], id)
      invariant AnchorEach(rules, candidate, texts, versions, conditions[..i]) == Some(anchored)
      invariant uncovered == Uncovered(anchored)
    {
      var c := conditions[i];
      assert conditions[..i + 1][..i] == conditions[..i];
      var condition := AnchorNew(rules, candidate, texts, versions, c, seen);
      if condition.None? {
        AnchorEachFails(rules, candidate, texts, versions, conditions, i);
        return false, anchored, uncovered;
      }
      AnchorConditionId(rules, candidate, texts, versions, c);
      RepeatsMore(conditions, i);
      seen := seen + {c.id};
      if !condition.value.covered {
        uncovered := uncovered + [c.id];
      }
      assert (anchored + [condition.value])[..|anchored|] == anchored;
      anchored := anchored + [condition.value];
    }
    assert conditions[..|conditions|] == conditions;
    return true, anchored, uncovered;
  }

  lemma NoneRepeats(conditions: seq<RequiredCondition>)
    ensures forall id :: !Repeats(conditions[..0], id)
  {
  }

  lemma RepeatsMore(conditions: seq<RequiredCondition>, i: nat)
    requires i < |conditions|
    ensures forall id :: Repeats(conditions[..i + 1], id) <==> Repeats(conditions[..i], id) || id == conditions[i].id
  {
    assert conditions[..i + 1] == conditions[..i] + [conditions[i]];
    var more := conditions[..i + 1];
    assert more[i] == conditions[i];
    assert forall j :: 0 <= j < i ==> more[j] == conditions[..i][j];
  }

  // ---- the outcome -------------------------------------------------------------------------------------

  predicate AnyRefutedPrerequisite(findings: seq<Finding>, candidate: Proposal) {
    exists i :: 0 <= i < |findings| && RefutedPrerequisite(findings[i], candidate)
  }

  predicate RefutedPrerequisite(f: Finding, candidate: Proposal) {
    Refuted(f.verdict) && f.id in candidate.approach.prerequisites
  }

  predicate NotSupported(f: Finding, candidate: Proposal) {
    f.verdict == "unsupported" || (Refuted(f.verdict) && f.id !in candidate.approach.prerequisites)
  }

  predicate AnyNotSupported(findings: seq<Finding>, candidate: Proposal) {
    exists i :: 0 <= i < |findings| && NotSupported(findings[i], candidate)
  }

  function Code(condition: bool, code: string): seq<string> { if condition then [code] else [] }

  function Rejections(reply: ReviewReply, candidate: Proposal, applicability: string): seq<string> {
    Code(reply.verdict == "rejected", "reviewer_rejected")
    + Code(applicability == "blocked", "prerequisite_contradicted")
    + Code(Refuted(reply.approach.verdict), "method_refuted")
    + Code(AnyRefutedPrerequisite(reply.claims, candidate), "prerequisite_refuted")
  }

  function Revisions(reply: ReviewReply, candidate: Proposal, applicability: string, uncovered: seq<string>): seq<string> {
    Code(reply.approach.verdict == "unsupported", "method_unsupported")
    + Code(reply.verdict == "needs_revision", "reviewer_requested_revision")
    + Code(applicability != "conditional" && applicability != "blocked", "assessment_incomplete")
    + Code(|uncovered| > 0, "condition_uncovered")
    + Code(|reply.conflicts| > 0, "conflict_unaddressed")
    + Code(AnyNotSupported(reply.claims, candidate), "claim_not_supported")
  }

  function OutcomeOf(reply: ReviewReply, candidate: Proposal, applicability: string, uncovered: seq<string>)
    : (Outcome, seq<string>) {
    var rejected, revision := Rejections(reply, candidate, applicability), Revisions(reply, candidate, applicability, uncovered);
    if |rejected| > 0 then (Rejected, rejected + revision)
    else if |revision| > 0 then (NeedsRevision, revision)
    else (Accepted, [])
  }

  /** A code is noted once. */
  method Note(list: seq<string>, condition: bool, code: string) returns (r: seq<string>)
    ensures r == if condition && code !in list then list + [code] else list
  {
    r := list;
    if condition {
      for i := 0 to |list|
        invariant forall j :: 0 <= j < i ==> list[j] != code
      {
        if list[i] == code {
          return;
        }
      }
      r := list + [code];
    }
  }

  method NoteRejections(reply: ReviewReply, applicability: string) returns (rejected: seq<string>)
    ensures rejected == Code(reply.verdict == "rejected", "reviewer_rejected")
                        + Code(applicability == "blocked", "prerequisite_contradicted")
                        + Code(Refuted(reply.approach.verdict), "method_refuted")
  {
    rejected := Note([], reply.verdict == "rejected", "reviewer_rejected");
    rejected := Note(rejected, applicability == "blocked", "prerequisite_contradicted");
    rejected := Note(rejected, Refuted(reply.approach.verdict), "method_refuted");
  }

  lemma OpinionsAreOthers(a: bool, b: bool, c: bool)
    ensures
      var codes := Code(a, "method_unsupported") + Code(b, "reviewer_requested_revision") + Code(c, "assessment_incomplete");
      "condition_uncovered" !in codes && "conflict_unaddressed" !in codes
  {
  }

  method NoteOpinions(reply: ReviewReply, applicability: string) returns (revision: seq<string>)
    ensures revision == Code(reply.approach.verdict == "unsupported", "method_unsupported")
                        + Code(reply.verdict == "needs_revision", "reviewer_requested_revision")
                        + Code(applicability != "conditional" && applicability != "blocked", "assessment_incomplete")
    ensures "condition_uncovered" !in revision && "conflict_unaddressed" !in revision
  {
    revision := Note([], reply.approach.verdict == "unsupported", "method_unsupported");
    revision := Note(revision, reply.verdict == "needs_revision", "reviewer_requested_revision");
    revision := Note(revision, applicability != "conditional" && applicability != "blocked", "assessment_incomplete");
    OpinionsAreOthers(reply.approach.verdict == "unsupported", reply.verdict == "needs_revision",
                      applicability != "conditional" && applicability != "blocked");
  }

  method NoteRevisions(reply: ReviewReply, applicability: string, uncovered: seq<string>) returns (revision: seq<string>)
    ensures revision == Code(reply.approach.verdict == "unsupported", "method_unsupported")
                        + Code(reply.verdict == "needs_revision", "reviewer_requested_revision")
                        + Code(applicability != "conditional" && applicability != "blocked", "assessment_incomplete")
                        + Code(|uncovered| > 0, "condition_uncovered")
                        + Code(|reply.conflicts| > 0, "conflict_unaddressed")
  {
    var opinions := NoteOpinions(reply, applicability);
    var conditions := Note(opinions, |uncovered| > 0, "condition_uncovered");
    assert conditions == opinions + Code(|uncovered| > 0, "condition_uncovered");
    assert "conflict_unaddressed" !in conditions;
    assert conditions + Code(false, "conflict_unaddressed") == conditions;
    hide Code;
    revision := NoteOne(conditions, conditions, false, |reply.conflicts| > 0, "conflict_unaddressed");
  }

  method ReviewOutcome(reply: ReviewReply, candidate: Proposal, applicability: string, uncovered: seq<string>)
    returns (outcome: Outcome, reasons: seq<string>)
    ensures (outcome, reasons) == OutcomeOf(reply, candidate, applicability, uncovered)
  {
    hide Code, RefutedPrerequisite, NotSupported;
    var rejected := NoteRejections(reply, applicability);
    var revision := NoteRevisions(reply, applicability, uncovered);
    ghost var firstRejected, firstRevision := rejected, revision;
    NotYet(reply, candidate, applicability, uncovered);
    for i := 0 to |reply.claims|
      invariant rejected == firstRejected + Code(AnyRefutedPrerequisite(reply.claims[..i], candidate), "prerequisite_refuted")
      invariant revision == firstRevision + Code(AnyNotSupported(reply.claims[..i], candidate), "claim_not_supported")
    {
      var f := reply.claims[i];
      rejected := NoteOne(firstRejected, rejected, AnyRefutedPrerequisite(reply.claims[..i], candidate),
                          RefutedPrerequisite(f, candidate), "prerequisite_refuted");
      revision := NoteOne(firstRevision, revision, AnyNotSupported(reply.claims[..i], candidate),
                          NotSupported(f, candidate), "claim_not_supported");
    }
    assert reply.claims[..|reply.claims|] == reply.claims;
    if |rejected| > 0 {
      return Rejected, rejected + revision;
    }
    if |revision| > 0 {
      return NeedsRevision, revision;
    }
    return Accepted, [];
  }

  method NoteOne(ghost first: seq<string>, list: seq<string>, ghost before: bool, now: bool, code: string)
    returns (r: seq<string>)
    requires list == first + Code(before, code) && code !in first
    ensures r == first + Code(before || now, code)
  {
    r := Note(list, now, code);
  }

  lemma NotYet(reply: ReviewReply, candidate: Proposal, applicability: string, uncovered: seq<string>)
    ensures "prerequisite_refuted" !in Code(reply.verdict == "rejected", "reviewer_rejected")
                        + Code(applicability == "blocked", "prerequisite_contradicted")
                        + Code(Refuted(reply.approach.verdict), "method_refuted")
    ensures "claim_not_supported" !in Code(reply.approach.verdict == "unsupported", "method_unsupported")
                        + Code(reply.verdict == "needs_revision", "reviewer_requested_revision")
                        + Code(applicability != "conditional" && applicability != "blocked", "assessment_incomplete")
                        + Code(|uncovered| > 0, "condition_uncovered")
                        + Code(|reply.conflicts| > 0, "conflict_unaddressed")
    ensures Code(AnyRefutedPrerequisite(reply.claims[..0], candidate), "prerequisite_refuted") == []
    ensures Code(AnyNotSupported(reply.claims[..0], candidate), "claim_not_supported") == []
  {
  }

  // ---- a whole reply -----------------------------------------------------------------------------------

  predicate ValidReply(rules: Rules, task: string, reply: ReviewReply) {
    && reply.contract == REVIEW_CONTRACT && task != "" && reply.task == task && reply.revision == 1
    && BoundedText(rules, reply.reason, MAX_REASON)
    && (reply.verdict == "accepted" || reply.verdict == "needs_revision" || reply.verdict == "rejected")
  }

  function AnchorConflicts(
    rules: Rules, texts: map<string, string>, versions: map<string, string>, conflicts: seq<Opposition>)
    : Option<seq<Conflict>> {
    if conflicts == [] then Some([])
    else
      var n := |conflicts| - 1;
      match (AnchorConflicts(rules, texts, versions, conflicts[..n]), AnchorConflict(rules, texts, versions, conflicts[n]))
      case (Some(before), Some(conflict)) => Some(before + [conflict])
      case _ => None
  }

  function AnchorConflict(rules: Rules, texts: map<string, string>, versions: map<string, string>, conflict: Opposition)
    : Option<Conflict> {
    if !BoundedText(rules, conflict.statement, MAX_STATEMENT) || |conflict.citations| == 0 then None
    else
      match ReviewQuotes(texts, versions, conflict.citations)
      case Some(citations) => Some(Conflict(conflict.statement, citations))
      case None => None
  }

  ghost function Decide(
    rules: Rules, task: string, request: AssessmentRequest, application: Application, applicability: string,
    reply: Option<ReviewReply>): Option<Reviewed> {
    if reply.None? || !ValidReply(rules, task, reply.value) || !ValidFindings(rules, reply.value, request.proposal)
       || application.sources.None? || |application.sources.value| != |request.application.sources|
       || !AllSelected(request.application.sources, application.sources.value) then None
    else
      var sources, observations := request.application.sources, application.sources.value;
      DecideOn(rules, request.proposal, Texts(sources, observations), VersionsOf(sources, observations), applicability,
               reply.value)
  }

  function DecideOn(
    rules: Rules, candidate: Proposal, texts: map<string, string>, versions: map<string, string>, applicability: string,
    reply: ReviewReply): Option<Reviewed> {
    match AnchoredConditions(rules, candidate, texts, versions, reply.conditions)
    case None => None
    case Some(conditions) =>
      if |reply.conflicts| > MAX_CONFLICTS then None
      else
        match AnchorConflicts(rules, texts, versions, reply.conflicts)
        case None => None
        case Some(conflicts) =>
          var (outcome, reasons) := OutcomeOf(reply, candidate, applicability, Uncovered(conditions));
          Some(Reviewed(
                 outcome, reasons, reply.verdict, reply.reason, conditions, Uncovered(conditions), reply.claims,
                 reply.approach, conflicts, applicability))
  }

  lemma {:induction false} AnchorConflictsFails(
    rules: Rules, texts: map<string, string>, versions: map<string, string>, conflicts: seq<Opposition>, i: nat)
    requires i < |conflicts| && AnchorConflict(rules, texts, versions, conflicts[i]).None?
    ensures AnchorConflicts(rules, texts, versions, conflicts).None?
    decreases |conflicts|
  {
    hide AnchorConflict;
    if i < |conflicts| - 1 {
      AnchorConflictsFails(rules, texts, versions, conflicts[..|conflicts| - 1], i);
    }
  }

  method AnchorAllConflicts(
    rules: Rules, texts: map<string, string>, versions: map<string, string>, conflicts: seq<Opposition>)
    returns (r: Option<seq<Conflict>>)
    ensures r == AnchorConflicts(rules, texts, versions, conflicts)
  {
    hide BoundedText, ReviewQuotes;
    var anchored: seq<Conflict> := [];
    for i := 0 to |conflicts|
      invariant AnchorConflicts(rules, texts, versions, conflicts[..i]) == Some(anchored)
    {
      assert conflicts[..i + 1][..i] == conflicts[..i];
      var conflict := conflicts[i];
      if AnchorConflict(rules, texts, versions, conflict).None? {
        AnchorConflictsFails(rules, texts, versions, conflicts, i);
      }
      if !BoundedText(rules, conflict.statement, MAX_STATEMENT) || |conflict.citations| == 0 {
        return None;
      }
      var citations := AnchorReviewQuotes(texts, versions, conflict.citations);
      if citations.None? {
        return None;
      }
      anchored := anchored + [Conflict(conflict.statement, citations.value)];
    }
    assert conflicts[..|conflicts|] == conflicts;
    return Some(anchored);
  }

  method DecodeReview(
    rules: Rules, task: string, request: AssessmentRequest, application: Application, applicability: string,
    reply: Option<ReviewReply>) returns (r: Option<Reviewed>)
    ensures r == Decide(rules, task, request, application, applicability, reply)
  {
    hide ValidFindings, BoundedText, AnchoredConditions, AnchorConflicts, Uncovered, OutcomeOf, AllSelected, Texts, VersionsOf;
    if reply.None? {
      return None;
    }
    var value, candidate := reply.value, request.proposal;
    if value.contract != REVIEW_CONTRACT || task == "" || value.task != task || value.revision != 1 {
      return None;
    }
    if !BoundedText(rules, value.reason, MAX_REASON)
       || (value.verdict != "accepted" && value.verdict != "needs_revision" && value.verdict != "rejected") {
      return None;
    }
    var valid := ValidateFindings(rules, value, candidate);
    if !valid {
      return None;
    }
    if application.sources.None? || |application.sources.value| != |request.application.sources| {
      return None;
    }
    var indexed, texts, versions := IndexObservations(request.application.sources, application.sources.value);
    if !indexed {
      return None;
    }
    var ok, conditions, uncovered := AnchorConditions(rules, candidate, texts, versions, value.conditions);
    if !ok || |value.conflicts| > MAX_CONFLICTS {
      return None;
    }
    var conflicts := AnchorAllConflicts(rules, texts, versions, value.conflicts);
    if conflicts.None? {
      return None;
    }
    var outcome, reasons := ReviewOutcome(value, candidate, applicability, uncovered);
    return Some(Reviewed(
                  outcome, reasons, value.verdict, value.reason, conditions, uncovered, value.claims, value.approach,
                  conflicts.value, applicability));
  }

  // ---- what an outcome says ----------------------------------------------------------------------------

  function Severity(o: Outcome): nat {
    match o
    case Accepted => 0
    case NeedsRevision => 1
    case Rejected => 2
  }

  function VerdictSeverity(verdict: string): nat {
    if verdict == "rejected" then 2 else if verdict == "needs_revision" then 1 else 0
  }

  /** The outcome is never milder than what the reviewer said. */
  lemma NeverMilder(
    rules: Rules, task: string, request: AssessmentRequest, application: Application, applicability: string,
    reply: Option<ReviewReply>)
    ensures
      var r := Decide(rules, task, request, application, applicability, reply);
      r.Some? ==> Severity(r.value.outcome) >= VerdictSeverity(reply.value.verdict)
  {
    hide AnchoredConditions, AnchorConflicts, AnyRefutedPrerequisite, AnyNotSupported, Texts, VersionsOf;
    if Decide(rules, task, request, application, applicability, reply).Some? {
      RejectionsMean(reply.value, request.proposal, applicability);
      RevisionsMean(reply.value, request.proposal, applicability, []);
      var r := Decide(rules, task, request, application, applicability, reply).value;
      RevisionsMean(reply.value, request.proposal, applicability, r.uncovered);
    }
  }

  lemma RejectionsMean(reply: ReviewReply, candidate: Proposal, applicability: string)
    ensures |Rejections(reply, candidate, applicability)| == 0
      <==> && reply.verdict != "rejected" && applicability != "blocked" && !Refuted(reply.approach.verdict)
           && !AnyRefutedPrerequisite(reply.claims, candidate)
  {
    hide AnyRefutedPrerequisite, Refuted;
  }

  lemma RevisionsMean(reply: ReviewReply, candidate: Proposal, applicability: string, uncovered: seq<string>)
    ensures |Revisions(reply, candidate, applicability, uncovered)| == 0
      <==> && reply.approach.verdict != "unsupported" && reply.verdict != "needs_revision"
           && (applicability == "conditional" || applicability == "blocked")
           && |uncovered| == 0 && |reply.conflicts| == 0 && !AnyNotSupported(reply.claims, candidate)
  {
    hide AnyNotSupported;
  }

  predicate AllSupported(findings: seq<Finding>) {
    forall i :: 0 <= i < |findings| ==> findings[i].verdict == "supported"
  }

  /** A usable reply is accepted exactly when the reviewer accepts, the assessment is conditional, every finding is
      support, every condition is covered and no conflict is left. */
  lemma {:induction false} AcceptedExactlyWhen(
    rules: Rules, task: string, request: AssessmentRequest, application: Application, applicability: string,
    reply: Option<ReviewReply>)
    requires Decide(rules, task, request, application, applicability, reply).Some?
    ensures
      var r := Decide(rules, task, request, application, applicability, reply).value;
      r.outcome == Accepted
      <==> && reply.value.verdict == "accepted" && applicability == "conditional"
           && reply.value.approach.verdict == "supported" && AllSupported(reply.value.claims)
           && r.uncovered == [] && reply.value.conflicts == []
  {
    hide AnchoredConditions, AnchorConflicts, Rejections, Revisions, JudgedOnce, BoundedText, Texts, VersionsOf, AllSelected;
    var r := Decide(rules, task, request, application, applicability, reply).value;
    RejectionsMean(reply.value, request.proposal, applicability);
    RevisionsMean(reply.value, request.proposal, applicability, r.uncovered);
  }

  /** A usable reply is rejected exactly when the reviewer rejects, a prerequisite is contradicted by its own
      citations, or the reviewer refutes the method or a claim it depends on. */
  lemma {:induction false} RejectedExactlyWhen(
    rules: Rules, task: string, request: AssessmentRequest, application: Application, applicability: string,
    reply: Option<ReviewReply>)
    requires Decide(rules, task, request, application, applicability, reply).Some?
    ensures
      Decide(rules, task, request, application, applicability, reply).value.outcome == Rejected
      <==> || reply.value.verdict == "rejected" || applicability == "blocked" || Refuted(reply.value.approach.verdict)
           || AnyRefutedPrerequisite(reply.value.claims, request.proposal)
  {
    hide AnchoredConditions, AnchorConflicts, Rejections, Revisions, ValidFindings, BoundedText, Texts, VersionsOf, AllSelected;
    RejectionsMean(reply.value, request.proposal, applicability);
  }

  function ApplicabilityName(a: Applicability): string {
    match a
    case Conditional => "conditional"
    case Blocked => "blocked"
    case InConflict => "conflicted"
    case NeedsEvidence => "needs_evidence"
  }

  lemma {:induction false} AnchoredConditionsEach(
    rules: Rules, candidate: Proposal, texts: map<string, string>, versions: map<string, string>,
    conditions: seq<RequiredCondition>, i: nat)
    requires AnchorEach(rules, candidate, texts, versions, conditions).Some? && i < |conditions|
    ensures
      var anchored := AnchorEach(rules, candidate, texts, versions, conditions).value;
      |anchored| == |conditions| && AnchorCondition(rules, candidate, texts, versions, conditions[i]) == Some(anchored[i])
    decreases |conditions|
  {
    hide AnchorCondition, Repeats;
    var n := |conditions| - 1;
    if i < n {
      AnchoredConditionsEach(rules, candidate, texts, versions, conditions[..n], i);
    } else if n > 0 {
      AnchoredConditionsEach(rules, candidate, texts, versions, conditions[..n], 0);
    }
  }

  lemma {:induction false} NoneUncovered(conditions: seq<Condition>, i: nat)
    requires Uncovered(conditions) == [] && i < |conditions|
    ensures conditions[i].covered
    decreases |conditions|
  {
    if i < |conditions| - 1 {
      NoneUncovered(conditions[..|conditions| - 1], i);
    }
  }

  lemma {:induction false} CoveredCondition(
    rules: Rules, candidate: Proposal, texts: map<string, string>, versions: map<string, string>,
    conditions: seq<RequiredCondition>, i: nat)
    requires AnchorEach(rules, candidate, texts, versions, conditions).Some? && i < |conditions|
    requires Uncovered(AnchorEach(rules, candidate, texts, versions, conditions).value) == []
    ensures
      var anchored := AnchorEach(rules, candidate, texts, versions, conditions).value;
      && i < |anchored| && Covered(candidate, conditions[i].coveredBy) && AllUnique(texts, anchored[i].citations)
  {
    hide AnchorEach, IsProposalId, BoundedText, NamesKnown, Covered, AllUnique, Uncovered, Anchor, ProperRelations;
    AnchoredConditionsEach(rules, candidate, texts, versions, conditions, i);
    var anchored := AnchorEach(rules, candidate, texts, versions, conditions).value;
    NoneUncovered(anchored, i);
    AnchoredIsUnique(texts, versions, conditions[i].citations, MAX_REVIEW_CITATIONS);
  }

  /** The prerequisite stands on quotations that are where they say in the loaded texts. */
  ghost predicate StandsOn(texts: map<string, string>, claims: seq<Claim>, id: string) {
    Stands(claims, id) && AllQuoted(texts, ClaimNamed(claims, id).citations)
  }

  /** What an accepted candidate has, when its assessment was made of the same request and the same loaded sources. */
  ghost predicate Sound(rules: Rules, request: AssessmentRequest, application: Application, reply: ReviewReply, r: Reviewed) {
    var candidate := request.proposal;
    && Prepared(rules, request.application.sources, application)
    && var texts := Texts(request.application.sources, application.sources.value);
    && JudgedOnce(reply.claims, candidate.claims) && AllSupported(reply.claims)
    && reply.approach.verdict == "supported" && reply.verdict == "accepted"
    && |candidate.approach.citations| > 0 && AllQuoted(texts, candidate.approach.citations)
    && (forall i :: 0 <= i < |candidate.approach.prerequisites| ==>
        StandsOn(texts, candidate.claims, candidate.approach.prerequisites[i]))
    && |r.conditions| == |reply.conditions| >= 1
    && (forall i :: 0 <= i < |reply.conditions| ==>
        Covered(candidate, reply.conditions[i].coveredBy) && AllUnique(texts, r.conditions[i].citations))
    && reply.conflicts == []
  }

  lemma {:induction false} PrerequisitesStand(p: Proposal, texts: map<string, string>, i: nat)
    requires Grounded(texts, p) && i < |p.approach.prerequisites|
    requires forall i :: 0 <= i < |p.approach.prerequisites| ==> p.approach.prerequisites[i] in ClaimIds(p.claims)
    requires Judgement(p).applicability == Conditional
    ensures StandsOn(texts, p.claims, p.approach.prerequisites[i]) && |p.approach.citations| > 0
  {
    hide Judgement, AllQuoted, Stands;
    ApplicabilityMeans(p);
    assert Stands(p.claims, p.approach.prerequisites[i]);
    var claim := ClaimNamed(p.claims, p.approach.prerequisites[i]);
    assert claim in p.claims;
  }

  lemma {:induction false} AcceptedConditions(
    rules: Rules, candidate: Proposal, texts: map<string, string>, versions: map<string, string>, applicability: string,
    reply: ReviewReply)
    requires DecideOn(rules, candidate, texts, versions, applicability, reply).Some?
    requires DecideOn(rules, candidate, texts, versions, applicability, reply).value.uncovered == []
    ensures
      var r := DecideOn(rules, candidate, texts, versions, applicability, reply).value;
      && |r.conditions| == |reply.conditions| >= 1
      && forall i :: 0 <= i < |reply.conditions| ==>
           Covered(candidate, reply.conditions[i].coveredBy) && AllUnique(texts, r.conditions[i].citations)
  {
    hide AnchorEach, Covered, AllUnique, Uncovered, OutcomeOf, AnchorConflicts;
    AnchoredConditionsEach(rules, candidate, texts, versions, reply.conditions, 0);
    forall i | 0 <= i < |reply.conditions|
      ensures Covered(candidate, reply.conditions[i].coveredBy)
      ensures AllUnique(texts, DecideOn(rules, candidate, texts, versions, applicability, reply).value.conditions[i].citations)
    {
      CoveredCondition(rules, candidate, texts, versions, reply.conditions, i);
    }
  }

  lemma {:induction false} AllPrerequisitesStand(p: Proposal, texts: map<string, string>)
    requires Grounded(texts, p) && |p.approach.prerequisites| >= 1
    requires forall i :: 0 <= i < |p.approach.prerequisites| ==> p.approach.prerequisites[i] in ClaimIds(p.claims)
    requires Judgement(p).applicability == Conditional
    ensures |p.approach.citations| > 0 && AllQuoted(texts, p.approach.citations)
    ensures forall i :: 0 <= i < |p.approach.prerequisites| ==> StandsOn(texts, p.claims, p.approach.prerequisites[i])
  {
    hide Judgement, AllQuoted, StandsOn;
    forall i | 0 <= i < |p.approach.prerequisites| ensures StandsOn(texts, p.claims, p.approach.prerequisites[i]) {
      PrerequisitesStand(p, texts, i);
    }
    PrerequisitesStand(p, texts, 0);
  }

  lemma SoundByParts(
    rules: Rules, request: AssessmentRequest, application: Application, reply: ReviewReply, r: Reviewed)
    requires Prepared(rules, request.application.sources, application)
    requires JudgedOnce(reply.claims, request.proposal.claims) && AllSupported(reply.claims) && reply.conflicts == []
    requires reply.approach.verdict == "supported" && reply.verdict == "accepted"
    requires
      var p, texts := request.proposal, Texts(request.application.sources, application.sources.value);
      && |p.approach.citations| > 0 && AllQuoted(texts, p.approach.citations)
      && (forall i :: 0 <= i < |p.approach.prerequisites| ==> StandsOn(texts, p.claims, p.approach.prerequisites[i]))
      && |r.conditions| == |reply.conditions| >= 1
      && (forall i :: 0 <= i < |reply.conditions| ==>
          Covered(p, reply.conditions[i].coveredBy) && AllUnique(texts, r.conditions[i].citations))
    ensures Sound(rules, request, application, reply, r)
  {
  }

  /** From quotations to acceptance: everything an accepted review stands on. */
  lemma {:induction false} AcceptedIsSound(
    rules: Rules, task: string, request: AssessmentRequest, application: Application, reply: Option<ReviewReply>)
    requires Assessed(rules, request, application).Some?
    ensures
      var a := Assessed(rules, request, application).value;
      var r := Decide(rules, task, request, application, ApplicabilityName(a.applicability), reply);
      r.Some? && r.value.outcome == Accepted ==> Sound(rules, request, application, reply.value, r.value)
  {
    var p := request.proposal;
    var a := Judgement(p);
    var name := ApplicabilityName(a.applicability);
    hide ApplicabilityName, AllSupported, Decide, DecideOn, Texts, VersionsOf, Grounded, Judgement, JudgedOnce, StandsOn, Covered, AllUnique, AllQuoted, Prepared, Assessed, Sound;
    var r := Decide(rules, task, request, application, name, reply);
    if r.Some? && r.value.outcome == Accepted {
      AcceptedExactlyWhen(rules, task, request, application, name, reply);
      var texts := Texts(request.application.sources, application.sources.value);
      var versions := VersionsOf(request.application.sources, application.sources.value);
      AcceptedConditions(rules, p, texts, versions, name, reply.value);
      AllPrerequisitesStand(p, texts);
      SoundByParts(rules, request, application, reply.value, r.value);
    }
  }

  // ---- what is taken of a reply ------------------------------------------------------------------------

  /** A finding that can be used: one of five verdicts, with a short reason. */
  ghost predicate Judges(rules: Rules, f: Finding) {
    && !rules.blank(f.reason) && |f.reason| <= 400
    && f.verdict in ["supported", "unsupported", "misread", "out_of_scope", "stale"]
  }

  /** At most four citations, one for every quotation, each for or against. */
  ghost predicate CitesFour(observations: seq<Observation>, quoted: seq<Quotation>, citations: seq<Citation>) {
    && |quoted| <= 4 && CitesAll(observations, quoted, citations)
    && forall i :: 0 <= i < |quoted| ==> quoted[i].relation == "supports" || quoted[i].relation == "contradicts"
  }

  /** Names the method or a claim the method depends on. */
  ghost predicate Protected(candidate: Proposal, names: seq<string>) {
    exists name <- names :: name == candidate.approach.id || name in candidate.approach.prerequisites
  }

  /** The condition is the reviewer's, its quotations are where it says, and what it names decides whether it is
      covered. */
  ghost predicate TakesCondition(
    rules: Rules, candidate: Proposal, observations: seq<Observation>, q: RequiredCondition, c: Condition) {
    && IsProposalId(q.id) && !rules.blank(q.statement) && |q.statement| <= 600
    && (c.id, c.statement, c.coveredBy) == (q.id, q.statement, q.coveredBy)
    && CitesFour(observations, q.citations, c.citations)
    && (forall name <- q.coveredBy :: name in ClaimIds(candidate.claims) || name == candidate.approach.id)
    && (c.covered <==> Protected(candidate, q.coveredBy))
  }

  ghost predicate TakesConditions(
    rules: Rules, candidate: Proposal, observations: seq<Observation>, qs: seq<RequiredCondition>, cs: seq<Condition>) {
    && |cs| == |qs|
    && (forall i :: 0 <= i < |qs| ==> TakesCondition(rules, candidate, observations, qs[i], cs[i]))
    && (forall i, j :: 0 <= i < j < |qs| ==> qs[i].id != qs[j].id)
  }

  ghost predicate TakesConflict(rules: Rules, observations: seq<Observation>, q: Opposition, c: Conflict) {
    && !rules.blank(q.statement) && |q.statement| <= 600 && |q.citations| >= 1
    && c.statement == q.statement && CitesFour(observations, q.citations, c.citations)
  }

  ghost predicate TakesConflicts(rules: Rules, observations: seq<Observation>, qs: seq<Opposition>, cs: seq<Conflict>) {
    |cs| == |qs| && forall i :: 0 <= i < |qs| ==> TakesConflict(rules, observations, qs[i], cs[i])
  }

  /** The conditions nothing protects, in their order. */
  ghost function Open(cs: seq<Condition>): seq<string> {
    if cs == [] then [] else (if cs[0].covered then [] else [cs[0].id]) + Open(cs[1..])
  }

  ghost function Said(holds: bool, code: string): seq<string> { if holds then [code] else [] }

  ghost predicate Refutes(f: Finding) { f.verdict in ["misread", "out_of_scope", "stale"] }

  /** Why the candidate cannot stand. */
  ghost function Refusals(reply: ReviewReply, candidate: Proposal, applicability: string): seq<string> {
    Said(reply.verdict == "rejected", "reviewer_rejected")
    + Said(applicability == "blocked", "prerequisite_contradicted")
    + Said(Refutes(reply.approach), "method_refuted")
    + Said(exists f <- reply.claims :: Refutes(f) && f.id in candidate.approach.prerequisites, "prerequisite_refuted")
  }

  /** What is missing. */
  ghost function Lacks(reply: ReviewReply, candidate: Proposal, applicability: string, open: seq<string>): seq<string> {
    Said(reply.approach.verdict == "unsupported", "method_unsupported")
    + Said(reply.verdict == "needs_revision", "reviewer_requested_revision")
    + Said(applicability !in ["conditional", "blocked"], "assessment_incomplete")
    + Said(open != [], "condition_uncovered")
    + Said(reply.conflicts != [], "conflict_unaddressed")
    + Said(exists f <- reply.claims ::
             f.verdict == "unsupported" || (Refutes(f) && f.id !in candidate.approach.prerequisites),
           "claim_not_supported")
  }

  /** A reply to this task, with a verdict and a reason. */
  ghost predicate Delivers(rules: Rules, task: string, reply: ReviewReply) {
    && reply.contract == "knowledge.application.review.v1" && reply.task == task && task != "" && reply.revision == 1
    && !rules.blank(reply.reason) && |reply.reason| <= 400
    && reply.verdict in ["accepted", "needs_revision", "rejected"]
  }

  /** Each loaded source is the one selected at its place, in the version asked for. */
  ghost predicate LoadedAs(selected: seq<Selection>, observations: seq<Observation>) {
    && |selected| == |observations|
    && forall i :: 0 <= i < |selected| ==>
         && observations[i].Observed? && observations[i].id == Some(selected[i].id)
         && (selected[i].version == "" || observations[i].version == Some(selected[i].version))
  }

  lemma QuotesExactly(sources: seq<Selection>, observations: seq<Observation>, quoted: seq<Quotation>, cs: seq<Citation>)
    requires |sources| == |observations| && Distinct(SourceIds(sources)) && AllSelected(sources, observations)
    ensures ReviewQuotes(Texts(sources, observations), VersionsOf(sources, observations), quoted) == Some(cs)
      <==> CitesFour(observations, quoted, cs)
  {
    hide AnchorAll, Texts, VersionsOf, AllSelected, Distinct;
    AnchorsAllExactly(sources, observations, quoted, cs);
    assert CitesAll(observations, quoted, cs) ==> forall i :: 0 <= i < |quoted| ==> cs[i].relation == quoted[i].relation by {
      if CitesAll(observations, quoted, cs) {
        forall i | 0 <= i < |quoted|
          ensures cs[i].relation == quoted[i].relation
        {
          assert Cites(observations, quoted[i], cs[i]);
        }
      }
    }
    hide Cites;
  }

  lemma NamesAre(candidate: Proposal, names: seq<string>)
    ensures NamesKnown(candidate, names) <==>
              forall name <- names :: name in ClaimIds(candidate.claims) || name == candidate.approach.id
    ensures Covered(candidate, names) <==> Protected(candidate, names)
  {
    assert forall i :: 0 <= i < |names| ==> names[i] in names;
    if Protected(candidate, names) {
      var name :| name in names && (name == candidate.approach.id || name in candidate.approach.prerequisites);
      var i :| 0 <= i < |names| && names[i] == name;
      assert Covers(candidate, names[i]);
    }
  }

  lemma ConditionExactly(
    rules: Rules, candidate: Proposal, sources: seq<Selection>, observations: seq<Observation>, q: RequiredCondition,
    c: Condition)
    requires |sources| == |observations| && Distinct(SourceIds(sources)) && AllSelected(sources, observations)
    ensures AnchorCondition(rules, candidate, Texts(sources, observations), VersionsOf(sources, observations), q) == Some(c)
      <==> TakesCondition(rules, candidate, observations, q, c)
  {
    hide ReviewQuotes, Texts, VersionsOf, AllSelected, Distinct, CitesFour, NamesKnown, Covered, Protected, IsProposalId;
    QuotesExactly(sources, observations, q.citations, c.citations);
    NamesAre(candidate, q.coveredBy);
  }

  lemma {:induction false} ConditionsExactly(
    rules: Rules, candidate: Proposal, sources: seq<Selection>, observations: seq<Observation>,
    qs: seq<RequiredCondition>, cs: seq<Condition>)
    requires |sources| == |observations| && Distinct(SourceIds(sources)) && AllSelected(sources, observations)
    ensures AnchorEach(rules, candidate, Texts(sources, observations), VersionsOf(sources, observations), qs) == Some(cs)
      <==> TakesConditions(rules, candidate, observations, qs, cs)
    decreases |qs|
  {
    hide AnchorCondition, TakesCondition, Texts, VersionsOf, AllSelected, Distinct;
    var texts, versions := Texts(sources, observations), VersionsOf(sources, observations);
    if qs != [] {
      var n := |qs| - 1;
      if |cs| == |qs| {
        ConditionsExactly(rules, candidate, sources, observations, qs[..n], cs[..n]);
        ConditionExactly(rules, candidate, sources, observations, qs[n], cs[n]);
        AnchorConditionId(rules, candidate, texts, versions, qs[n]);
        assert cs == cs[..n] + [cs[n]];
      } else if AnchorEach(rules, candidate, texts, versions, qs).Some? {
        AnchoredConditionsEach(rules, candidate, texts, versions, qs, 0);
      }
    }
  }

  lemma ConflictExactly(
    rules: Rules, sources: seq<Selection>, observations: seq<Observation>, q: Opposition, c: Conflict)
    requires |sources| == |observations| && Distinct(SourceIds(sources)) && AllSelected(sources, observations)
    ensures AnchorConflict(rules, Texts(sources, observations), VersionsOf(sources, observations), q) == Some(c)
      <==> TakesConflict(rules, observations, q, c)
  {
    hide ReviewQuotes, Texts, VersionsOf, AllSelected, Distinct, CitesFour;
    QuotesExactly(sources, observations, q.citations, c.citations);
  }

  lemma {:induction false} ConflictsExactly(
    rules: Rules, sources: seq<Selection>, observations: seq<Observation>, qs: seq<Opposition>, cs: seq<Conflict>)
    requires |sources| == |observations| && Distinct(SourceIds(sources)) && AllSelected(sources, observations)
    ensures AnchorConflicts(rules, Texts(sources, observations), VersionsOf(sources, observations), qs) == Some(cs)
      <==> TakesConflicts(rules, observations, qs, cs)
    decreases |qs|
  {
    hide AnchorConflict, TakesConflict, Texts, VersionsOf, AllSelected, Distinct;
    var texts, versions := Texts(sources, observations), VersionsOf(sources, observations);
    if qs != [] {
      var n := |qs| - 1;
      if |cs| == |qs| {
        ConflictsExactly(rules, sources, observations, qs[..n], cs[..n]);
        ConflictExactly(rules, sources, observations, qs[n], cs[n]);
        assert cs == cs[..n] + [cs[n]];
      } else {
        ConflictsLength(rules, texts, versions, qs);
      }
    }
  }

  lemma {:induction false} ConflictsLength(
    rules: Rules, texts: map<string, string>, versions: map<string, string>, qs: seq<Opposition>)
    ensures AnchorConflicts(rules, texts, versions, qs).Some? ==> |AnchorConflicts(rules, texts, versions, qs).value| == |qs|
    decreases |qs|
  {
    hide AnchorConflict;
    if qs != [] {
      ConflictsLength(rules, texts, versions, qs[..|qs| - 1]);
    }
  }

  lemma {:induction false} OpenGrows(cs: seq<Condition>, c: Condition)
    ensures Open(cs + [c]) == Open(cs) + (if c.covered then [] else [c.id])
  {
    if cs == [] {
      assert [] + [c] == [c] && [c][1..] == [];
    } else {
      assert (cs + [c])[1..] == cs[1..] + [c];
      OpenGrows(cs[1..], c);
    }
  }

  lemma {:induction false} UncoveredIsOpen(cs: seq<Condition>)
    ensures Uncovered(cs) == Open(cs)
  {
    if cs != [] {
      var n := |cs| - 1;
      UncoveredIsOpen(cs[..n]);
      OpenGrows(cs[..n], cs[n]);
      assert cs == cs[..n] + [cs[n]];
    }
  }

  lemma FindingIs(rules: Rules, f: Finding)
    ensures ValidFinding(rules, f) <==> Judges(rules, f)
  {
  }

  lemma RefusalsAre(reply: ReviewReply, candidate: Proposal, applicability: string)
    ensures Rejections(reply, candidate, applicability) == Refusals(reply, candidate, applicability)
  {
    assert AnyRefutedPrerequisite(reply.claims, candidate) <==>
             exists f <- reply.claims :: Refutes(f) && f.id in candidate.approach.prerequisites by {
      hide Refuted, Refutes;
      forall f: Finding ensures Refuted(f.verdict) <==> Refutes(f) {
        RefutedIs(f);
      }
      forall i | 0 <= i < |reply.claims|
        ensures reply.claims[i] in reply.claims
      {
      }
    }
    RefutedIs(reply.approach);
    hide AnyRefutedPrerequisite, Refuted, Refutes;
    CodeIsSaid();
    hide Code, Said;
  }

  lemma RefutedIs(f: Finding)
    ensures Refuted(f.verdict) <==> Refutes(f)
  {
  }

  lemma CodeIsSaid()
    ensures forall holds, code :: Code(holds, code) == Said(holds, code)
  {
  }

  lemma LacksAre(reply: ReviewReply, candidate: Proposal, applicability: string, open: seq<string>)
    ensures Revisions(reply, candidate, applicability, open) == Lacks(reply, candidate, applicability, open)
  {
    assert AnyNotSupported(reply.claims, candidate) <==>
             exists f <- reply.claims ::
               f.verdict == "unsupported" || (Refutes(f) && f.id !in candidate.approach.prerequisites) by {
      hide Refuted, Refutes;
      forall f: Finding ensures Refuted(f.verdict) <==> Refutes(f) {
        RefutedIs(f);
      }
      forall i | 0 <= i < |reply.claims|
        ensures reply.claims[i] in reply.claims
      {
      }
    }
    hide AnyNotSupported, Refutes;
    CodeIsSaid();
    hide Code, Said;
  }

  lemma LoadedIs(selected: seq<Selection>, observations: seq<Observation>)
    requires |selected| == |observations|
    ensures AllSelected(selected, observations) <==> LoadedAs(selected, observations)
  {
    forall i | 0 <= i < |selected|
      ensures Selected(selected[i], observations[i]) <==>
                && observations[i].Observed? && observations[i].id == Some(selected[i].id)
                && (selected[i].version == "" || observations[i].version == Some(selected[i].version))
    {
    }
  }

  /** As many findings as claims, of different names, each the name of a claim. */
  ghost predicate EachJudged(findings: seq<Finding>, claims: seq<Claim>) {
    && |findings| == |claims|
    && (forall i, j :: 0 <= i < j < |findings| ==> findings[i].id != findings[j].id)
    && (forall i :: 0 <= i < |findings| ==> exists claim <- claims :: claim.id == findings[i].id)
  }

  lemma EachJudgedIs(findings: seq<Finding>, claims: seq<Claim>)
    ensures JudgedOnce(findings, claims) <==> EachJudged(findings, claims)
  {
    var found, ids := FindingIds(findings), ClaimIds(claims);
    if JudgedOnce(findings, claims) {
      OnceEach(found, ids);
      forall i | 0 <= i < |findings|
        ensures exists claim <- claims :: claim.id == findings[i].id
      {
        assert found[i] in ids;
        var j :| 0 <= j < |ids| && ids[j] == found[i];
        assert claims[j] in claims;
      }
      assert forall i, j :: 0 <= i < j < |findings| ==> found[i] != found[j];
    }
    if EachJudged(findings, claims) {
      forall i | 0 <= i < |found|
        ensures found[i] in ids
      {
        var claim :| claim in claims && claim.id == findings[i].id;
        var j :| 0 <= j < |claims| && claims[j] == claim;
        assert ids[j] == found[i];
      }
      SameNames(found, ids);
    }
  }

  lemma DeliversIs(rules: Rules, task: string, reply: ReviewReply)
    ensures ValidReply(rules, task, reply) <==> Delivers(rules, task, reply)
  {
  }

  /** The outcome is the reviewer's own, made stricter by every refusal and every gap, and says why. */
  ghost predicate Concludes(reply: ReviewReply, candidate: Proposal, applicability: string, r: Reviewed) {
    var refusals, lacks := Refusals(reply, candidate, applicability), Lacks(reply, candidate, applicability, r.uncovered);
    && r.reasons == (if refusals == [] then lacks else refusals + lacks)
    && r.outcome == (if refusals != [] then Rejected else if lacks != [] then NeedsRevision else Accepted)
  }

  /** What a usable review records. */
  ghost predicate Records(
    rules: Rules, candidate: Proposal, observations: seq<Observation>, applicability: string, reply: ReviewReply,
    r: Reviewed) {
    && 1 <= |reply.conditions| <= 16 && TakesConditions(rules, candidate, observations, reply.conditions, r.conditions)
    && |reply.conflicts| <= 8 && TakesConflicts(rules, observations, reply.conflicts, r.conflicts)
    && r.uncovered == Open(r.conditions) && Concludes(reply, candidate, applicability, r)
    && (r.verdict, r.reason, r.claims, r.approach, r.applicability)
       == (reply.verdict, reply.reason, reply.claims, reply.approach, applicability)
  }

  lemma ConcludesIs(reply: ReviewReply, candidate: Proposal, applicability: string, r: Reviewed)
    ensures Concludes(reply, candidate, applicability, r) <==>
              (r.outcome, r.reasons) == OutcomeOf(reply, candidate, applicability, r.uncovered)
  {
    RefusalsAre(reply, candidate, applicability);
    LacksAre(reply, candidate, applicability, r.uncovered);
    hide Rejections, Revisions, Refusals, Lacks;
  }

  lemma RecordsIs(
    rules: Rules, candidate: Proposal, sources: seq<Selection>, observations: seq<Observation>, applicability: string,
    reply: ReviewReply, r: Reviewed)
    requires |sources| == |observations| && Distinct(SourceIds(sources)) && AllSelected(sources, observations)
    ensures DecideOn(rules, candidate, Texts(sources, observations), VersionsOf(sources, observations), applicability, reply)
            == Some(r)
      <==> Records(rules, candidate, observations, applicability, reply, r)
  {
    ConditionsExactly(rules, candidate, sources, observations, reply.conditions, r.conditions);
    ConflictsExactly(rules, sources, observations, reply.conflicts, r.conflicts);
    UncoveredIsOpen(r.conditions);
    ConcludesIs(reply, candidate, applicability, r);
    hide AnchorEach, AnchorConflicts, TakesConditions, TakesConflicts, Texts, VersionsOf, Open, Uncovered, OutcomeOf, Concludes;
    hide AllSelected, Distinct;
  }

  /** A review is taken exactly when the reply is for this task, judges the method and every claim once, its quotations
      stand once in the sources that were loaded, and it names nothing unknown; what is recorded is that reply, word
      for word, with what follows from it. Parsing the request has made sure that its sources differ. */
  lemma ReviewTakenExactlyWhen(
    rules: Rules, task: string, request: AssessmentRequest, application: Application, applicability: string,
    reply: Option<ReviewReply>, r: Reviewed)
    requires Distinct(SourceIds(request.application.sources))
    ensures
      Decide(rules, task, request, application, applicability, reply) == Some(r)
      <==> && reply.Some? && Delivers(rules, task, reply.value)
           && EachJudged(reply.value.claims, request.proposal.claims)
           && (forall i :: 0 <= i < |reply.value.claims| ==> Judges(rules, reply.value.claims[i]))
           && reply.value.approach.id == request.proposal.approach.id && Judges(rules, reply.value.approach)
           && application.sources.Some? && LoadedAs(request.application.sources, application.sources.value)
           && Records(rules, request.proposal, application.sources.value, applicability, reply.value, r)
  {
    hide Records, DecideOn, Delivers, ValidReply, JudgedOnce, ValidFinding, Judges, LoadedAs, AllSelected, Texts, VersionsOf, Distinct;
    hide EachJudged;
    if reply.Some? {
      EachJudgedIs(reply.value.claims, request.proposal.claims);
      DeliversIs(rules, task, reply.value);
      forall f: Finding ensures ValidFinding(rules, f) <==> Judges(rules, f) {
        FindingIs(rules, f);
      }
      if application.sources.Some? {
        var sources, observations := request.application.sources, application.sources.value;
        if |sources| == |observations| {
          LoadedIs(sources, observations);
          if AllSelected(sources, observations) {
            RecordsIs(rules, request.proposal, sources, observations, applicability, reply.value, r);
          }
        } else {
          LoadedLength(sources, observations);
        }
      }
    }
  }

  lemma LoadedLength(selected: seq<Selection>, observations: seq<Observation>)
    ensures LoadedAs(selected, observations) ==> |selected| == |observations|
  {
  }
}
