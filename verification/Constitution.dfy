/** Validation rules and the engine that runs them (src/constitution). */
module Constitution {
  import opened Strings
  import opened Normalization
  import opened Domain
  import opened Matching
  import T = Tokenization

  datatype Severity = Pass | Warn | Fail | Block

  function Weight(s: Severity): nat {
    match s
    case Pass => 0
    case Warn => 1
    case Fail => 2
    case Block => 3
  }

  /** What a finding says; positions and tokens are kept, wording is not. */
  datatype Message =
    | MissingArtifact | InvalidArtifactType
    | NegativeOverallScore | EmptyRequirementTextAt(index: nat) | NegativeScoreAt(index: nat)
    | MatchedWithoutAtomAt(index: nat) | UnmatchedWithAtomAt(index: nat)
    | NoContributingAtom(text: string) | NoEvidence(text: string)
    | AllScoresZero
    | TokenTooShort(category: string, token: string) | TokenBadCharacters(category: string, token: string)
    | TokenNotDerivable(category: string, token: string)

  datatype Finding = Finding(ruleId: string, severity: Severity, message: Message)

  datatype Artifact =
    | NoArtifact
    | OfMatchReport(report: MatchReport)
    | OfTokenIR(ir: T.TokenIR, canonicalText: string)
    | OfOther

  datatype Rule = Schema001 | Evid001 | Score001 | Tok002 | Tok004 | NullRule

  // ---------- the rules, as functions ----------

  function HasAtom(m: RequirementMatch): bool {
    m.contributingAtomId.Some? && m.contributingAtomId.value != []
  }

  function SchemaAt(m: RequirementMatch, i: nat): seq<Finding> {
    (if m.requirementText == [] then [Finding("SCHEMA-001", Block, EmptyRequirementTextAt(i))] else []) +
    (if m.bestScore < 0.0 then [Finding("SCHEMA-001", Block, NegativeScoreAt(i))] else []) +
    (if m.matched && !HasAtom(m) then [Finding("SCHEMA-001", Block, MatchedWithoutAtomAt(i))]
     else if !m.matched && HasAtom(m) then [Finding("SCHEMA-001", Block, UnmatchedWithAtomAt(i))] else [])
  }

  function SchemaAll(ms: seq<RequirementMatch>): seq<Finding> {
    if ms == [] then [] else SchemaAll(ms[..|ms| - 1]) + SchemaAt(ms[|ms| - 1], |ms| - 1)
  }

  function SchemaFindings(a: Artifact): seq<Finding> {
    match a
    case NoArtifact => [Finding("SCHEMA-001", Block, MissingArtifact)]
    case OfMatchReport(r) =>
      (if r.overallScore < 0.0 then [Finding("SCHEMA-001", Block, NegativeOverallScore)] else [])
      + SchemaAll(r.requirementMatches)
    case _ => [Finding("SCHEMA-001", Block, InvalidArtifactType)]
  }

  function EvidAt(m: RequirementMatch): seq<Finding> {
    if !m.matched then [] else
      (if !HasAtom(m) then [Finding("EVID-001", Fail, NoContributingAtom(m.requirementText))] else []) +
      (if m.evidenceTokens == [] then [Finding("EVID-001", Fail, NoEvidence(m.requirementText))] else [])
  }

  function EvidAll(ms: seq<RequirementMatch>): seq<Finding> {
    if ms == [] then [] else EvidAll(ms[..|ms| - 1]) + EvidAt(ms[|ms| - 1])
  }

  function EvidFindings(a: Artifact): seq<Finding> {
    if a.OfMatchReport? then EvidAll(a.report.requirementMatches) else []
  }

  function ScoreFindings(a: Artifact): seq<Finding> {
    if a.OfMatchReport? && a.report.overallScore == 0.0 && a.report.requirementMatches != []
    then [Finding("SCORE-001", Warn, AllScoresZero)] else []
  }

  /** The finding of one token, for a rule that looks at tokens one by one. */
  type TokenCheck = (string, string) -> seq<Finding>

  function ShapeOf(category: string, token: string): seq<Finding> {
    if |token| < 2 then [Finding("TOK-002", Fail, TokenTooShort(category, token))]
    else if !(forall i :: 0 <= i < |token| ==> IsTokenChar(token[i]))
    then [Finding("TOK-002", Fail, TokenBadCharacters(category, token))] else []
  }

  function GroundingIn(derivable: set<string>, category: string, token: string): seq<Finding> {
    if token in derivable then [] else [Finding("TOK-004", Fail, TokenNotDerivable(category, token))]
  }

  function CheckTokens(category: string, tokens: seq<string>, check: TokenCheck): seq<Finding> {
    if tokens == [] then [] else
      CheckTokens(category, tokens[..|tokens| - 1], check) + check(category, tokens[|tokens| - 1])
  }

  function CheckCategories(cs: seq<T.Category>, check: TokenCheck): seq<Finding> {
    if cs == [] then [] else
      CheckCategories(cs[..|cs| - 1], check) + CheckTokens(cs[|cs| - 1].name, cs[|cs| - 1].tokens, check)
  }

  function Derivable(text: string): set<string> { set w | w in Tokens(text, 2) }

  function TokenFindings(a: Artifact, ruleId: string, check: TokenCheck): seq<Finding> {
    match a
    case NoArtifact => [Finding(ruleId, Fail, MissingArtifact)]
    case OfTokenIR(ir, _) => CheckCategories(ir.categories, check)
    case _ => [Finding(ruleId, Fail, InvalidArtifactType)]
  }

  function Tok002Findings(a: Artifact): seq<Finding> { TokenFindings(a, "TOK-002", ShapeOf) }

  function Tok004Findings(a: Artifact): seq<Finding> {
    var derivable := if a.OfTokenIR? then Derivable(a.canonicalText) else {};
    TokenFindings(a, "TOK-004", (c: string, t: string) => GroundingIn(derivable, c, t))
  }

  function RuleFindings(rule: Rule, a: Artifact): seq<Finding> {
    match rule
    case Schema001 => SchemaFindings(a)
    case Evid001 => EvidFindings(a)
    case Score001 => ScoreFindings(a)
    case Tok002 => Tok002Findings(a)
    case Tok004 => Tok004Findings(a)
    case NullRule => []
  }

  // ---------- the rules, as run ----------

  method ValidateSchema(a: Artifact) returns (findings: seq<Finding>)
    ensures findings == SchemaFindings(a)
  {
    if a.NoArtifact? {
      return [Finding("SCHEMA-001", Block, MissingArtifact)];
    }
    if !a.OfMatchReport? {
      return [Finding("SCHEMA-001", Block, InvalidArtifactType)];
    }
    hide SchemaAll;
    findings := [];
    if a.report.overallScore < 0.0 {
      findings := findings + [Finding("SCHEMA-001", Block, NegativeOverallScore)];
    }
    var more := ValidateSchemaAll(a.report.requirementMatches);
    findings := findings + more;
  }

  method ValidateSchemaAll(ms: seq<RequirementMatch>) returns (findings: seq<Finding>)
    ensures findings == SchemaAll(ms)
  {
    hide SchemaAt;
    findings := [];
    for i := 0 to |ms|
      invariant findings == SchemaAll(ms[..i])
    {
      assert ms[..i + 1][..i] == ms[..i];
      var more := ValidateSchemaAt(ms[i], i);
      findings := findings + more;
    }
    assert ms[..|ms|] == ms;
  }

  method ValidateSchemaAt(rm: RequirementMatch, i: nat) returns (findings: seq<Finding>)
    ensures findings == SchemaAt(rm, i)
  {
    findings := [];
    if rm.requirementText == [] {
      findings := findings + [Finding("SCHEMA-001", Block, EmptyRequirementTextAt(i))];
    }
    if rm.bestScore < 0.0 {
      findings := findings + [Finding("SCHEMA-001", Block, NegativeScoreAt(i))];
    }
    var hasContributingAtom := rm.contributingAtomId.Some? && rm.contributingAtomId.value != [];
    if rm.matched && !hasContributingAtom {
      findings := findings + [Finding("SCHEMA-001", Block, MatchedWithoutAtomAt(i))];
    } else if !rm.matched && hasContributingAtom {
      findings := findings + [Finding("SCHEMA-001", Block, UnmatchedWithAtomAt(i))];
    }
  }

  method ValidateEvidence(a: Artifact) returns (findings: seq<Finding>)
    ensures findings == EvidFindings(a)
  {
    findings := [];
    if !a.OfMatchReport? {
      return;
    }
    var ms := a.report.requirementMatches;
    for i := 0 to |ms|
      invariant findings == EvidAll(ms[..i])
    {
      var rm := ms[i];
      ghost var before := findings;
      assert ms[..i + 1][..i] == ms[..i];
      if rm.matched {
        if !rm.contributingAtomId.Some? || rm.contributingAtomId.value == [] {
          findings := findings + [Finding("EVID-001", Fail, NoContributingAtom(rm.requirementText))];
        }
        if rm.evidenceTokens == [] {
          findings := findings + [Finding("EVID-001", Fail, NoEvidence(rm.requirementText))];
        }
      }
      assert findings == before + EvidAt(rm);
    }
    assert ms[..|ms|] == ms;
  }

  method ValidateScore(a: Artifact) returns (findings: seq<Finding>)
    ensures findings == ScoreFindings(a)
  {
    findings := [];
    if !a.OfMatchReport? {
      return;
    }
    if a.report.overallScore == 0.0 && a.report.requirementMatches != [] {
      findings := findings + [Finding("SCORE-001", Warn, AllScoresZero)];
    }
  }

  method CheckAllTokens(cs: seq<T.Category>, check: TokenCheck) returns (findings: seq<Finding>)
    ensures findings == CheckCategories(cs, check)
  {
    hide CheckCategories, CheckTokens;
    findings := [];
    NothingChecked(check);
    for i := 0 to |cs|
      invariant findings == CheckCategories(cs[..i], check)
    {
      ghost var before := findings;
      var category, tokens := cs[i].name, cs[i].tokens;
      NoTokenChecked(category, check);
      for j := 0 to |tokens|
        invariant findings == before + CheckTokens(category, tokens[..j], check)
      {
        CheckTokensSnoc(category, tokens[..j], tokens[j], check);
        assert tokens[..j + 1] == tokens[..j] + [tokens[j]];
        findings := findings + check(category, tokens[j]);
      }
      assert tokens[..|tokens|] == tokens;
      assert cs[..i + 1] == cs[..i] + [cs[i]];
      CheckCategoriesSnoc(cs[..i], cs[i], check);
    }
    assert cs[..|cs|] == cs;
  }

  lemma NothingChecked(check: TokenCheck)
    ensures CheckCategories([], check) == []
  {
  }

  lemma NoTokenChecked(category: string, check: TokenCheck)
    ensures CheckTokens(category, [], check) == []
  {
  }

  lemma CheckTokensSnoc(category: string, tokens: seq<string>, token: string, check: TokenCheck)
    ensures CheckTokens(category, tokens + [token], check) ==
            CheckTokens(category, tokens, check) + check(category, token)
  {
    assert (tokens + [token])[..|tokens|] == tokens;
  }

  lemma CheckCategoriesSnoc(cs: seq<T.Category>, c: T.Category, check: TokenCheck)
    ensures CheckCategories(cs + [c], check) == CheckCategories(cs, check) + CheckTokens(c.name, c.tokens, check)
  {
    hide CheckTokens;
    assert (cs + [c])[..|cs|] == cs;
  }

  method ValidateTok002(a: Artifact) returns (findings: seq<Finding>)
    ensures findings == Tok002Findings(a)
  {
    if a.NoArtifact? {
      return [Finding("TOK-002", Fail, MissingArtifact)];
    }
    if !a.OfTokenIR? {
      return [Finding("TOK-002", Fail, InvalidArtifactType)];
    }
    findings := CheckAllTokens(a.ir.categories, ShapeOf);
  }

  method ValidateTok004(a: Artifact) returns (findings: seq<Finding>)
    ensures findings == Tok004Findings(a)
  {
    hide Tokens;
    if a.NoArtifact? {
      return [Finding("TOK-004", Fail, MissingArtifact)];
    }
    if !a.OfTokenIR? {
      return [Finding("TOK-004", Fail, InvalidArtifactType)];
    }
    var derivable: set<string> := {};
    NoTokensOfNothing();
    if a.canonicalText != [] {
      var derived := TokenizeAscii(a.canonicalText, 2);
      derivable := set w | w in derived;
    }
    assert derivable == Derivable(a.canonicalText);
    findings := CheckAllTokens(a.ir.categories, (c: string, t: string) => GroundingIn(derivable, c, t));
  }

  lemma NoTokensOfNothing()
    ensures Tokens([], 2) == []
  {
  }

  // ---------- the engine ----------

  datatype Status = Accepted | NeedsReview | Rejected | Blocked | Overridden

  datatype Envelope = Envelope(artifactId: string, artifact: Artifact)

  datatype OverrideRequest = OverrideRequest(ruleId: string, payloadHash: string, legacyHash: bool)

  datatype Outcome = Outcome(status: Status, findings: seq<Finding>)

  function Collected(rules: seq<Rule>, a: Artifact): seq<Finding> {
    if rules == [] then [] else Collected(rules[..|rules| - 1], a) + RuleFindings(rules[|rules| - 1], a)
  }

  /** The greatest weight among the findings, 0 when there are none. */
  function MaxWeight(findings: seq<Finding>): (w: nat)
    ensures forall f :: f in findings ==> Weight(f.severity) <= w
    ensures w > 0 ==> exists f :: f in findings && Weight(f.severity) == w
  {
    if findings == [] then 0 else
      var n := |findings| - 1;
      assert findings == findings[..n] + [findings[n]];
      var w := MaxWeight(findings[..n]);
      if w < Weight(findings[n].severity) then Weight(findings[n].severity) else w
  }

  function StatusOf(findings: seq<Finding>): Status {
    var w := MaxWeight(findings);
    if w == 3 then Blocked else if w == 2 then Rejected else if w == 1 then NeedsReview else Accepted
  }

  /** The severities a status reflects: the gravest finding decides. */
  lemma StatusReflectsGravest(findings: seq<Finding>)
    ensures StatusOf(findings) == Blocked <==> exists f :: f in findings && f.severity == Block
    ensures StatusOf(findings) == Accepted <==> forall f :: f in findings ==> f.severity == Pass
    ensures StatusOf(findings) == Rejected <==>
      (exists f :: f in findings && f.severity == Fail) && forall f :: f in findings ==> f.severity != Block
    ensures StatusOf(findings) != Overridden
  {
    var w := MaxWeight(findings);
    if w > 0 {
      var f :| f in findings && Weight(f.severity) == w;
    }
  }

  method ComputeStatus(findings: seq<Finding>) returns (status: Status)
    ensures status == StatusOf(findings)
  {
    if findings == [] {
      return Accepted;
    }
    var gravest := findings[0];
    for i := 1 to |findings|
      invariant Weight(gravest.severity) == MaxWeight(findings[..i])
    {
      assert findings[..i + 1][..i] == findings[..i];
      if Weight(gravest.severity) < Weight(findings[i].severity) {
        gravest := findings[i];
      }
    }
    assert findings[..|findings|] == findings;
    match gravest.severity
    case Block => status := Blocked;
    case Fail => status := Rejected;
    case Warn => status := NeedsReview;
    case Pass => status := Accepted;
  }

  /** The report order: graver first, then by rule id. */
  predicate FindingBefore(a: Finding, b: Finding) {
    if a.severity != b.severity then Weight(a.severity) > Weight(b.severity) else Less(a.ruleId, b.ruleId)
  }

  ghost predicate InReportOrder(findings: seq<Finding>) {
    forall i, j :: 0 <= i < j < |findings| ==> !FindingBefore(findings[j], findings[i])
  }

  lemma FindingOrder(a: Finding, b: Finding, c: Finding)
    ensures FindingBefore(a, b) ==> !FindingBefore(b, a)
    ensures FindingBefore(a, b) && !FindingBefore(c, b) ==> !FindingBefore(c, a)
  {
    hide Less;
    LessTotal(b.ruleId, c.ruleId);
    if Less(a.ruleId, b.ruleId) {
      LessAntisymmetric(a.ruleId, b.ruleId);
      if Less(b.ruleId, c.ruleId) {
        LessTransitive(a.ruleId, b.ruleId, c.ruleId);
      }
    }
    if Less(a.ruleId, c.ruleId) {
      LessAntisymmetric(a.ruleId, c.ruleId);
    }
  }

  method PlaceFinding(sorted: seq<Finding>, f: Finding) returns (r: seq<Finding>)
    requires InReportOrder(sorted)
    ensures InReportOrder(r) && multiset(r) == multiset(sorted) + multiset{f}
  {
    hide FindingBefore;
    var k := |sorted|;
    while k > 0 && FindingBefore(f, sorted[k - 1])
      invariant 0 <= k <= |sorted|
      invariant forall j :: k <= j < |sorted| ==> FindingBefore(f, sorted[j])
    {
      k := k - 1;
    }
    r := sorted[..k] + [f] + sorted[k..];
    assert sorted == sorted[..k] + sorted[k..];
    PlacedInOrder(sorted, k, f);
  }

  lemma PlacedInOrder(sorted: seq<Finding>, k: nat, f: Finding)
    requires InReportOrder(sorted) && k <= |sorted|
    requires k > 0 ==> !FindingBefore(f, sorted[k - 1])
    requires forall j :: k <= j < |sorted| ==> FindingBefore(f, sorted[j])
    ensures InReportOrder(sorted[..k] + [f] + sorted[k..])
  {
    hide FindingBefore;
    forall j | 0 <= j < k
      ensures !FindingBefore(f, sorted[j])
    {
      if FindingBefore(f, sorted[j]) && j < k - 1 {
        NotBeforeChain(f, sorted[j], sorted[k - 1]);
      }
    }
    forall j | k <= j < |sorted|
      ensures !FindingBefore(sorted[j], f)
    {
      FindingOrder(f, sorted[j], f);
    }
  }

  lemma NotBeforeChain(f: Finding, a: Finding, b: Finding)
    requires FindingBefore(f, a) && !FindingBefore(b, a)
    ensures FindingBefore(f, b)
  {
    LessTotal(a.ruleId, b.ruleId);
    if Less(f.ruleId, a.ruleId) && Less(a.ruleId, b.ruleId) {
      LessTransitive(f.ruleId, a.ruleId, b.ruleId);
    }
  }

  method SortFindings(findings: seq<Finding>) returns (sorted: seq<Finding>)
    ensures InReportOrder(sorted) && multiset(sorted) == multiset(findings)
  {
    hide FindingBefore;
    sorted := [];
    for i := 0 to |findings|
      invariant InReportOrder(sorted) && multiset(sorted) == multiset(findings[..i])
    {
      assert findings[..i + 1] == findings[..i] + [findings[i]];
      sorted := PlaceFinding(sorted, findings[i]);
    }
    assert findings[..|findings|] == findings;
  }

  method RunRule(rule: Rule, a: Artifact) returns (findings: seq<Finding>)
    ensures findings == RuleFindings(rule, a)
  {
    match rule
    case Schema001 => findings := ValidateSchema(a);
    case Evid001 => findings := ValidateEvidence(a);
    case Score001 => findings := ValidateScore(a);
    case Tok002 => findings := ValidateTok002(a);
    case Tok004 => findings := ValidateTok004(a);
    case NullRule => findings := [];
  }

  /** An override lifts a block of the rule it names when its hash is that of the artifact id. */
  predicate OverrideApplies(o: Option<OverrideRequest>, findings: seq<Finding>, id: string,
                            hash: (bool, string) -> string) {
    o.Some? && o.value.payloadHash == hash(o.value.legacyHash, id) &&
    exists f :: f in findings && f.severity == Block && f.ruleId == o.value.ruleId
  }

  class ValidationEngine {
    const rules: seq<Rule>

    constructor (rules: seq<Rule>)
      ensures this.rules == rules
    {
      this.rules := rules;
    }

    method Validate(envelope: Envelope, override: Option<OverrideRequest>, hash: (bool, string) -> string)
      returns (outcome: Outcome)
      ensures multiset(outcome.findings) == multiset(Collected(rules, envelope.artifact))
      ensures InReportOrder(outcome.findings)
      ensures outcome.status ==
              if OverrideApplies(override, Collected(rules, envelope.artifact), envelope.artifactId, hash)
              then Overridden
              else StatusOf(Collected(rules, envelope.artifact))
    {
      hide RuleFindings, InReportOrder;
      var found := [];
      for i := 0 to |rules|
        invariant found == Collected(rules[..i], envelope.artifact)
      {
        assert rules[..i + 1][..i] == rules[..i];
        if rules[i] != NullRule {
          var findings := RunRule(rules[i], envelope.artifact);
          found := found + findings;
        } else {
          NullRuleFindsNothing(envelope.artifact);
        }
      }
      assert rules[..|rules|] == rules;
      var status := ComputeStatus(found);
      var sorted := SortFindings(found);
      SameMembers(sorted, found);
      StatusReflectsGravest(found);
      if override != None && status == Blocked {
        var expected := hash(override.value.legacyHash, envelope.artifactId);
        var i := 0;
        while i < |sorted| && status == Blocked
          invariant i <= |sorted|
          invariant status == Blocked || status == Overridden
          invariant status == Blocked ==>
            override.value.payloadHash != expected ||
            forall j :: 0 <= j < i ==> !(sorted[j].severity == Block && sorted[j].ruleId == override.value.ruleId)
          invariant status == Overridden ==> OverrideApplies(override, sorted, envelope.artifactId, hash)
          decreases |sorted| - i, if status == Blocked then 1 else 0
        {
          if sorted[i].severity == Block && sorted[i].ruleId == override.value.ruleId
             && override.value.payloadHash == expected {
            assert sorted[i] in sorted;
            status := Overridden;
          } else {
            i := i + 1;
          }
        }
      }
      outcome := Outcome(status, sorted);
    }
  }

  lemma NullRuleFindsNothing(a: Artifact)
    ensures RuleFindings(NullRule, a) == []
  {
  }

  lemma SameMembers(a: seq<Finding>, b: seq<Finding>)
    requires multiset(a) == multiset(b)
    ensures forall f :: f in a <==> f in b
  {
    forall f
      ensures f in a <==> f in b
    {
      assert f in a <==> f in multiset(a);
    }
  }

  const DEFAULT_RULES: seq<Rule> := [Schema001, Evid001, Score001]

  // ---------- token rules against the tokenizers ----------

  lemma {:induction false} CheckTokensEmptyIff(category: string, tokens: seq<string>, check: TokenCheck)
    ensures CheckTokens(category, tokens, check) == [] <==> forall w :: w in tokens ==> check(category, w) == []
  {
    if tokens != [] {
      var n := |tokens| - 1;
      CheckTokensEmptyIff(category, tokens[..n], check);
      assert tokens == tokens[..n] + [tokens[n]];
    }
  }

  lemma {:induction false} CheckCategoriesEmptyIff(cs: seq<T.Category>, check: TokenCheck)
    ensures CheckCategories(cs, check) == [] <==>
            forall c, w :: c in cs && w in c.tokens ==> check(c.name, w) == []
  {
    if cs != [] {
      var n := |cs| - 1;
      CheckCategoriesEmptyIff(cs[..n], check);
      CheckTokensEmptyIff(cs[n].name, cs[n].tokens, check);
      assert forall c :: c in cs <==> c in cs[..n] || c == cs[n];
    }
  }

  /** TOK-002 is silent exactly when every token is two or more lower-case ASCII alphanumerics. */
  lemma Tok002SilentIff(ir: T.TokenIR, text: string)
    ensures Tok002Findings(OfTokenIR(ir, text)) == [] <==>
            forall c, w :: c in ir.categories && w in c.tokens ==> IsToken(w, 2)
  {
    CheckCategoriesEmptyIff(ir.categories, ShapeOf);
    assert forall c: string, w :: ShapeOf(c, w) == [] <==> IsToken(w, 2);
  }

  /** TOK-004 is silent exactly when every token occurs in the canonical text. */
  lemma Tok004SilentIff(ir: T.TokenIR, text: string)
    ensures Tok004Findings(OfTokenIR(ir, text)) == [] <==>
            forall c, w :: c in ir.categories && w in c.tokens ==> w in Tokens(text, 2)
  {
    hide Tokens;
    var derivable := Derivable(text);
    var check := (c: string, t: string) => GroundingIn(derivable, c, t);
    CheckCategoriesEmptyIff(ir.categories, check);
    assert forall c: string, w :: check(c, w) == [] <==> w in Tokens(text, 2);
  }

  /** The IR of the lexical tokenizer, filtered or not, draws no finding against the text it was made from. */
  lemma LexicalIRIsSilent(resume: string, hash: string, filtered: bool)
    ensures
      var tokens := if filtered then T.WithoutStopWords(T.TokenSet(resume)) else T.TokenSet(resume);
      var a := OfTokenIR(T.TokenIR(hash, T.DeterministicLexical, [T.Category("lexical", tokens)]), resume);
      Tok002Findings(a) == [] && Tok004Findings(a) == []
  {
    hide Tokens, T.TokenSet, T.IsStopWord, Tok002Findings, Tok004Findings;
    T.TokenSetIs(resume);
    T.WithoutStopWordsIs(T.TokenSet(resume));
    var tokens := if filtered then T.WithoutStopWords(T.TokenSet(resume)) else T.TokenSet(resume);
    var ir := T.TokenIR(hash, T.DeterministicLexical, [T.Category("lexical", tokens)]);
    Tok002SilentIff(ir, resume);
    Tok004SilentIff(ir, resume);
  }

  lemma {:induction false} NonEmptyMembers(cs: seq<T.Category>)
    ensures forall c :: c in T.NonEmpty(cs) ==> c in cs
  {
    if cs != [] {
      NonEmptyMembers(cs[1..]);
      assert cs == [cs[0]] + cs[1..];
    }
  }

  /** So does the IR of the stub tokenizer. */
  lemma StubIRIsSilent(resume: string, hash: string)
    ensures
      var a := OfTokenIR(T.TokenIR(hash, T.InferenceAssisted, T.StubCategories(Tokens(resume, 2))), resume);
      Tok002Findings(a) == [] && Tok004Findings(a) == []
  {
    hide Tokens, T.KindOf, T.OfKind, T.NonEmpty, Tok002Findings, Tok004Findings;
    var all := Tokens(resume, 2);
    TokensAreTokens(resume, 2);
    var cs := [T.Category("domains", T.OfKind(all, T.DomainArea)), T.Category("entities", T.OfKind(all, T.Entity)),
               T.Category("roles", T.OfKind(all, T.Role)), T.Category("skills", T.OfKind(all, T.Skill))];
    NonEmptyMembers(cs);
    T.OfKindIs(all, T.DomainArea);
    T.OfKindIs(all, T.Entity);
    T.OfKindIs(all, T.Role);
    T.OfKindIs(all, T.Skill);
    var ir := T.TokenIR(hash, T.InferenceAssisted, T.StubCategories(all));
    forall c, w | c in ir.categories && w in c.tokens
      ensures IsToken(w, 2) && w in all
    {
      assert c in cs;
    }
    Tok002SilentIff(ir, resume);
    Tok004SilentIff(ir, resume);
  }

  // ---------- what the default constitution demands of any report ----------

  lemma DefaultFindings(a: Artifact)
    ensures Collected(DEFAULT_RULES, a) == SchemaFindings(a) + EvidFindings(a) + ScoreFindings(a)
  {
    hide SchemaFindings, EvidFindings, ScoreFindings;
    var r := DEFAULT_RULES;
    assert r[..2][..1] == r[..1] && r[..1][..0] == [];
    assert Collected(r[..0], a) == [];
    assert Collected(r[..1], a) == SchemaFindings(a);
    assert Collected(r[..2], a) == SchemaFindings(a) + EvidFindings(a);
    assert r[..3] == r;
  }

  /** Well-formed: texts present, no negative score, and an atom named exactly where something matched. */
  ghost predicate WellFormed(r: MatchReport) {
    r.overallScore >= 0.0 && forall i :: 0 <= i < |r.requirementMatches| ==> WellFormedMatch(r.requirementMatches[i])
  }

  predicate WellFormedMatch(m: RequirementMatch) {
    m.requirementText != [] && m.bestScore >= 0.0 && (m.matched <==> HasAtom(m))
  }

  predicate BackedMatch(m: RequirementMatch) { m.matched ==> HasAtom(m) && m.evidenceTokens != [] }

  ghost predicate Backed(r: MatchReport) {
    forall i :: 0 <= i < |r.requirementMatches| ==> BackedMatch(r.requirementMatches[i])
  }

  ghost predicate AllOf(findings: seq<Finding>, s: Severity) { forall f :: f in findings ==> f.severity == s }

  lemma SchemaAtIff(m: RequirementMatch, i: nat)
    ensures AllOf(SchemaAt(m, i), Block)
    ensures SchemaAt(m, i) == [] <==> WellFormedMatch(m)
  {
  }

  lemma {:induction false} SchemaAllIff(ms: seq<RequirementMatch>)
    ensures AllOf(SchemaAll(ms), Block)
    ensures SchemaAll(ms) == [] <==> forall i :: 0 <= i < |ms| ==> WellFormedMatch(ms[i])
  {
    hide SchemaAt, WellFormedMatch;
    if ms != [] {
      SchemaAllIff(ms[..|ms| - 1]);
      SchemaAtIff(ms[|ms| - 1], |ms| - 1);
    }
  }

  lemma {:induction false} EvidAllIff(ms: seq<RequirementMatch>)
    ensures AllOf(EvidAll(ms), Fail)
    ensures EvidAll(ms) == [] <==> forall i :: 0 <= i < |ms| ==> BackedMatch(ms[i])
  {
    if ms != [] {
      EvidAllIff(ms[..|ms| - 1]);
    }
  }

  /** Blocking findings decide first, then failures, then warnings. */
  lemma StatusOfParts(schema: seq<Finding>, evid: seq<Finding>, score: seq<Finding>)
    requires AllOf(schema, Block) && AllOf(evid, Fail) && AllOf(score, Warn)
    ensures StatusOf(schema + evid + score) ==
            if schema != [] then Blocked else if evid != [] then Rejected
            else if score != [] then NeedsReview else Accepted
  {
    hide StatusOf, MaxWeight;
    var all := schema + evid + score;
    StatusReflectsGravest(all);
    assert forall f :: f in all <==> f in schema || f in evid || f in score;
    if schema != [] {
      assert schema[0] in all;
    } else if evid != [] {
      assert evid[0] in all;
    } else if score != [] {
      assert score[0] in all;
    }
  }

  /**
   The verdict of the default constitution on any match report whatever: blocked unless well-formed, rejected
   when a match is not backed by evidence, for review when nothing scored, accepted otherwise.
   */
  lemma DefaultVerdict(r: MatchReport)
    ensures
      StatusOf(Collected(DEFAULT_RULES, OfMatchReport(r))) ==
      if !WellFormed(r) then Blocked
      else if !Backed(r) then Rejected
      else if r.overallScore == 0.0 && r.requirementMatches != [] then NeedsReview
      else Accepted
  {
    hide StatusOf, Collected, SchemaAll, EvidAll;
    var a := OfMatchReport(r);
    DefaultFindings(a);
    SchemaAllIff(r.requirementMatches);
    EvidAllIff(r.requirementMatches);
    StatusOfParts(SchemaFindings(a), EvidFindings(a), ScoreFindings(a));
  }

  // ---------- the matcher's own reports ----------

  /**
   A report of the matcher, from any candidates with non-empty ids over requirements with non-empty texts,
   passes the default constitution: accepted when there are no requirements or one was matched, for review
   otherwise; never rejected or blocked.
   */
  lemma MatchReportPasses(config: Config, opp: Opportunity, candidates: seq<Atom>, stats: RetrievalStats)
    requires forall r :: r in opp.requirements ==> r.text != []
    requires forall c :: c in candidates ==> c.atomId != []
    ensures
      var r := ReportOf(config, opp, candidates, stats);
      StatusOf(Collected(DEFAULT_RULES, OfMatchReport(r))) ==
      if opp.requirements == [] || exists i :: 0 <= i < |opp.requirements| && r.requirementMatches[i].matched
      then Accepted else NeedsReview
  {
    hide ReportOf, StatusOf, SoundMatch, Collected;
    var r := ReportOf(config, opp, candidates, stats);
    ReportSound(config, opp, candidates, stats);
    var ms := r.requirementMatches;
    forall i | 0 <= i < |ms|
      ensures WellFormedMatch(ms[i]) && BackedMatch(ms[i])
    {
      assert opp.requirements[i] in opp.requirements;
      SoundMatchPasses(ms[i], opp.requirements[i], candidates);
    }
    DefaultVerdict(r);
  }

  lemma SoundMatchPasses(m: RequirementMatch, req: Requirement, candidates: seq<Atom>)
    requires SoundMatch(m, req, candidates) && req.text != [] && forall c :: c in candidates ==> c.atomId != []
    ensures WellFormedMatch(m) && BackedMatch(m)
  {
  }

  lemma {:induction false} LookupMembers(ids: seq<string>, m: map<string, Atom>)
    ensures forall c :: c in Lookup(ids, m) ==> exists id :: id in m && m[id] == c
  {
    if ids != [] {
      LookupMembers(ids[..|ids| - 1], m);
    }
  }

  lemma {:induction false} AtomMapMembers(atoms: seq<Atom>)
    ensures forall id :: id in AtomMap(atoms) ==> AtomMap(atoms)[id] in atoms
  {
    if atoms != [] {
      var n := |atoms| - 1;
      AtomMapMembers(atoms[..n]);
      assert atoms == atoms[..n] + [atoms[n]];
    }
  }

  /**
   The same for whole evaluations, in either mode, with any index results, repeated ids and unverified atoms
   included: the matcher's own report is never blocked or rejected.
   */
  lemma OwnReportPasses(config: Config, opp: Opportunity, atoms: seq<Atom>, hits: seq<string>)
    requires forall r :: r in opp.requirements ==> r.text != []
    requires forall a :: a in atoms ==> a.atomId != []
    ensures
      var r := Report(config, opp, atoms, hits);
      StatusOf(Collected(DEFAULT_RULES, OfMatchReport(r))) ==
      if opp.requirements == [] || exists i :: 0 <= i < |opp.requirements| && r.requirementMatches[i].matched
      then Accepted else NeedsReview
  {
    hide ReportOf, StatusOf, Collected, QueryTokens, LexicalIds, Lookup, AtomMap;
    var (candidates, stats) := Select(config, opp, atoms, hits);
    AtomMapMembers(atoms);
    var merged := SortedSet(LexicalIds(config, opp, atoms) + SortedSet(hits));
    LookupMembers(merged, AtomMap(atoms));
    assert forall c :: c in candidates ==> c in atoms;
    MatchReportPasses(config, opp, candidates, stats);
  }
}
