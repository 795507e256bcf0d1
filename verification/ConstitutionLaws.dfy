/** What the rules and the engine report, finding by finding, and the default verdict on every artifact. */
module ConstitutionLaws {
  import opened Strings
  import opened Normalization
  import opened Matching
  import T = Tokenization
  import opened Constitution

  // ---------- findings ----------

  /** SCHEMA-001 on a report: each defect once where it is, at the position of its entry. */
  ghost predicate IsSchemaFinding(f: Finding, r: MatchReport) {
    && f.ruleId == "SCHEMA-001" && f.severity == Block
    && (|| (f.message == NegativeOverallScore && r.overallScore < 0.0)
        || (exists i :: 0 <= i < |r.requirementMatches| && IsEntryDefect(f.message, r.requirementMatches[i], i)))
  }

  predicate IsEntryDefect(message: Message, m: RequirementMatch, i: nat) {
    var named := m.contributingAtomId.Some? && m.contributingAtomId.value != [];
    || (message == EmptyRequirementTextAt(i) && m.requirementText == [])
    || (message == NegativeScoreAt(i) && m.bestScore < 0.0)
    || (message == MatchedWithoutAtomAt(i) && m.matched && !named)
    || (message == UnmatchedWithAtomAt(i) && !m.matched && named)
  }

  lemma SchemaAtIs(m: RequirementMatch, i: nat, f: Finding)
    ensures f in SchemaAt(m, i) <==> f.ruleId == "SCHEMA-001" && f.severity == Block && IsEntryDefect(f.message, m, i)
  {
  }

  lemma {:induction false} SchemaAllAre(ms: seq<RequirementMatch>, f: Finding)
    ensures f in SchemaAll(ms) <==>
            && f.ruleId == "SCHEMA-001" && f.severity == Block
            && exists i :: 0 <= i < |ms| && IsEntryDefect(f.message, ms[i], i)
  {
    hide SchemaAt, IsEntryDefect;
    if ms != [] {
      var n := |ms| - 1;
      SchemaAllAre(ms[..n], f);
      SchemaAtIs(ms[n], n, f);
      assert forall i :: 0 <= i < n ==> ms[..n][i] == ms[i];
    }
  }

  lemma SchemaFindingsAre(r: MatchReport, f: Finding)
    ensures f in SchemaFindings(OfMatchReport(r)) <==> IsSchemaFinding(f, r)
  {
    hide IsEntryDefect, SchemaAll;
    SchemaAllAre(r.requirementMatches, f);
  }

  /** EVID-001: a matched entry without an atom, or without evidence. */
  ghost predicate IsEvidenceFinding(f: Finding, r: MatchReport) {
    exists m :: m in r.requirementMatches && IsEvidenceOf(f, m)
  }

  predicate IsEvidenceOf(f: Finding, m: RequirementMatch) {
    && f.ruleId == "EVID-001" && f.severity == Fail && m.matched
    && (|| (f.message == NoContributingAtom(m.requirementText)
            && !(m.contributingAtomId.Some? && m.contributingAtomId.value != []))
        || (f.message == NoEvidence(m.requirementText) && m.evidenceTokens == []))
  }

  lemma {:induction false} EvidenceFindingsAre(r: MatchReport, f: Finding)
    ensures f in EvidFindings(OfMatchReport(r)) <==> IsEvidenceFinding(f, r)
    decreases |r.requirementMatches|
  {
    var ms := r.requirementMatches;
    if ms != [] {
      var n := |ms| - 1;
      EvidenceFindingsAre(r.(requirementMatches := ms[..n]), f);
      assert ms == ms[..n] + [ms[n]];
      assert f in EvidAt(ms[n]) <==> IsEvidenceOf(f, ms[n]);
      hide EvidAt, IsEvidenceOf;
    }
  }

  /** SCORE-001 warns exactly when nothing scored although something was asked. */
  lemma ScoreFindingsAre(a: Artifact, f: Finding)
    ensures f in ScoreFindings(a) <==>
            && f == Finding("SCORE-001", Warn, AllScoresZero)
            && a.OfMatchReport? && a.report.overallScore == 0.0 && a.report.requirementMatches != []
  {
  }

  lemma {:induction false} CheckedTokens(category: string, tokens: seq<string>, check: TokenCheck, f: Finding)
    ensures f in CheckTokens(category, tokens, check) <==> exists w :: w in tokens && f in check(category, w)
  {
    if tokens != [] {
      var n := |tokens| - 1;
      CheckedTokens(category, tokens[..n], check, f);
      assert tokens == tokens[..n] + [tokens[n]];
    }
  }

  lemma {:induction false} CheckedCategories(cs: seq<T.Category>, check: TokenCheck, f: Finding)
    ensures f in CheckCategories(cs, check) <==> exists c, w :: c in cs && w in c.tokens && f in check(c.name, w)
  {
    if cs != [] {
      var n := |cs| - 1;
      CheckedCategories(cs[..n], check, f);
      CheckedTokens(cs[n].name, cs[n].tokens, check, f);
      hide CheckTokens;
      assert cs == cs[..n] + [cs[n]];
    }
  }

  /** TOK-002: short tokens, and long enough ones with a character outside a-z and 0-9. */
  lemma Tok002FindingsAre(ir: T.TokenIR, text: string, f: Finding)
    ensures f in Tok002Findings(OfTokenIR(ir, text)) <==>
            && f.ruleId == "TOK-002" && f.severity == Fail
            && exists c, w :: c in ir.categories && w in c.tokens &&
                 (|| (f.message == TokenTooShort(c.name, w) && |w| < 2)
                  || (f.message == TokenBadCharacters(c.name, w) && |w| >= 2
                      && exists i :: 0 <= i < |w| && !('a' <= w[i] <= 'z' || '0' <= w[i] <= '9')))
  {
    CheckedCategories(ir.categories, ShapeOf, f);
    hide CheckCategories;
  }

  predicate IsGroundingFinding(f: Finding, c: T.Category, w: string, text: string) {
    w in c.tokens && w !in Tokens(text, 2) && f == Finding("TOK-004", Fail, TokenNotDerivable(c.name, w))
  }

  /** TOK-004: every token that is not a token of the canonical text. */
  lemma Tok004FindingsAre(ir: T.TokenIR, text: string, f: Finding)
    ensures f in Tok004Findings(OfTokenIR(ir, text)) <==>
            exists c, w :: c in ir.categories && IsGroundingFinding(f, c, w, text)
  {
    hide CheckCategories, GroundingIn, Tokens, IsGroundingFinding;
    var derivable := Derivable(text);
    var check := (c: string, t: string) => GroundingIn(derivable, c, t);
    assert Tok004Findings(OfTokenIR(ir, text)) == CheckCategories(ir.categories, check);
    CheckedCategories(ir.categories, check, f);
    forall c: T.Category, w
      ensures IsGroundingFinding(f, c, w, text) <==> w in c.tokens && f in check(c.name, w)
    {
      GroundingOf(f, c, w, text);
    }
  }

  lemma GroundingOf(f: Finding, c: T.Category, w: string, text: string)
    ensures IsGroundingFinding(f, c, w, text) <==> w in c.tokens && f in GroundingIn(Derivable(text), c.name, w)
  {
    hide Tokens;
  }

  function Complaint(a: Artifact): Message { if a == NoArtifact then MissingArtifact else InvalidArtifactType }

  /** Artifacts of another kind, or none, are a finding of their own for the rules that need theirs. */
  lemma OtherArtifacts(a: Artifact)
    ensures !a.OfMatchReport? ==>
      SchemaFindings(a) == [Finding("SCHEMA-001", Block, Complaint(a))]
    ensures !a.OfMatchReport? ==> EvidFindings(a) == [] && ScoreFindings(a) == []
    ensures !a.OfTokenIR? ==>
      && Tok002Findings(a) == [Finding("TOK-002", Fail, Complaint(a))]
      && Tok004Findings(a) == [Finding("TOK-004", Fail, Complaint(a))]
  {
  }

  // ---------- the engine ----------

  /** The default constitution on every artifact: anything that is not a match report is blocked. */
  lemma DefaultVerdictOnAll(a: Artifact)
    ensures
      StatusOf(Collected(DEFAULT_RULES, a)) ==
      match a
      case OfMatchReport(r) =>
        if !WellFormed(r) then Blocked
        else if !Backed(r) then Rejected
        else if r.overallScore == 0.0 && r.requirementMatches != [] then NeedsReview
        else Accepted
      case _ => Blocked
  {
    hide StatusOf, Collected, SchemaFindings, EvidFindings, ScoreFindings, WellFormed, Backed;
    if a.OfMatchReport? {
      DefaultVerdict(a.report);
    } else {
      OtherArtifacts(a);
      DefaultFindings(a);
      StatusOfParts(SchemaFindings(a), [], []);
      assert SchemaFindings(a) + [] + [] == SchemaFindings(a);
    }
  }

  /** The report order: Block, Fail, Warn, Pass, and rule ids rising within each. */
  lemma ReportOrderMeans(findings: seq<Finding>, i: nat, j: nat)
    requires InReportOrder(findings) && i < j < |findings|
    ensures
      var a, b := findings[i], findings[j];
      && (b.severity == Block ==> a.severity == Block)
      && (b.severity == Fail ==> a.severity == Block || a.severity == Fail)
      && (b.severity == Warn ==> a.severity != Pass)
      && (a.severity == b.severity ==> a.ruleId == b.ruleId || Less(a.ruleId, b.ruleId))
  {
    LessTotal(findings[i].ruleId, findings[j].ruleId);
  }

  /** An override takes effect exactly on a blocked artifact, for a rule that blocks it, with the hash of its id. */
  lemma OverrideAppliesIff(o: OverrideRequest, findings: seq<Finding>, id: string, hash: (bool, string) -> string)
    ensures OverrideApplies(Some(o), findings, id, hash) <==>
            && StatusOf(findings) == Blocked && o.payloadHash == hash(o.legacyHash, id)
            && exists f :: f in findings && f.severity == Block && f.ruleId == o.ruleId
    ensures !OverrideApplies(None, findings, id, hash)
  {
    hide StatusOf;
    StatusReflectsGravest(findings);
  }
}
