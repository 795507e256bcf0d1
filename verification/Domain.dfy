/** Atoms, requirements and opportunities: validation and normalisation (src/domain). */
module Domain {
  import opened Strings
  import opened Normalization

  datatype Atom = Atom(atomId: string, domain: string, title: string, claim: string,
                       tags: seq<string>, verified: bool, evidenceRefs: seq<string>)

  datatype Requirement = Requirement(text: string, tags: seq<string>, required: bool)

  datatype Opportunity = Opportunity(opportunityId: string, company: string, roleTitle: string,
                                     requirements: seq<Requirement>, source: string)

  datatype Problem =
    | EmptyAtomId | EmptyClaim | TagsNotNormalized | DomainNotNormalized
    | EmptyRequirementText
    | EmptyOpportunityId | EmptyCompany | EmptyRoleTitle | InvalidRequirement(cause: Problem)

  datatype Result = Ok | Err(problem: Problem)

  // ---------- validation: the first failing check is reported ----------

  method ValidateAtom(atom: Atom) returns (r: Result)
    ensures r == AtomVerdict(atom)
  {
    if atom.atomId == [] {
      return Err(EmptyAtomId);
    }
    if atom.claim == [] {
      return Err(EmptyClaim);
    }
    var normalizedTags := NormalizeTags(atom.tags);
    if atom.tags != normalizedTags {
      return Err(TagsNotNormalized);
    }
    var normalizedDomain := NormalizeAsciiLower(atom.domain);
    if atom.domain != normalizedDomain {
      return Err(DomainNotNormalized);
    }
    return Ok;
  }

  function AtomVerdict(atom: Atom): Result {
    if atom.atomId == [] then Err(EmptyAtomId)
    else if atom.claim == [] then Err(EmptyClaim)
    else if atom.tags != TagsOf(atom.tags) then Err(TagsNotNormalized)
    else if atom.domain != LowerAll(atom.domain) then Err(DomainNotNormalized)
    else Ok
  }

  function RequirementVerdict(req: Requirement): Result {
    if req.text == [] then Err(EmptyRequirementText)
    else if req.tags != [] && req.tags != TagsOf(req.tags) then Err(TagsNotNormalized)
    else Ok
  }

  method ValidateRequirement(req: Requirement) returns (r: Result)
    ensures r == RequirementVerdict(req)
  {
    if req.text == [] {
      return Err(EmptyRequirementText);
    }
    if req.tags != [] {
      var normalizedTags := NormalizeTags(req.tags);
      if req.tags != normalizedTags {
        return Err(TagsNotNormalized);
      }
    }
    return Ok;
  }

  /** The verdict on the first invalid requirement, or Ok. */
  function RequirementsVerdict(reqs: seq<Requirement>): Result {
    if reqs == [] then Ok
    else if RequirementVerdict(reqs[0]).Err? then Err(InvalidRequirement(RequirementVerdict(reqs[0]).problem))
    else RequirementsVerdict(reqs[1..])
  }

  function OpportunityVerdict(opp: Opportunity): Result {
    if opp.opportunityId == [] then Err(EmptyOpportunityId)
    else if opp.company == [] then Err(EmptyCompany)
    else if opp.roleTitle == [] then Err(EmptyRoleTitle)
    else RequirementsVerdict(opp.requirements)
  }

  method ValidateOpportunity(opp: Opportunity) returns (r: Result)
    ensures r == OpportunityVerdict(opp)
  {
    if opp.opportunityId == [] {
      return Err(EmptyOpportunityId);
    }
    if opp.company == [] {
      return Err(EmptyCompany);
    }
    if opp.roleTitle == [] {
      return Err(EmptyRoleTitle);
    }
    for i := 0 to |opp.requirements|
      invariant RequirementsVerdict(opp.requirements) == RequirementsVerdict(opp.requirements[i..])
    {
      var result := ValidateRequirement(opp.requirements[i]);
      if result.Err? {
        return Err(InvalidRequirement(result.problem));
      }
    }
    return Ok;
  }

  lemma {:induction false} RequirementsOkIff(reqs: seq<Requirement>)
    ensures RequirementsVerdict(reqs) == Ok <==> forall r :: r in reqs ==> RequirementVerdict(r) == Ok
  {
    if reqs != [] {
      RequirementsOkIff(reqs[1..]);
      assert reqs == [reqs[0]] + reqs[1..];
    }
  }

  // ---------- normalisation ----------

  /** The trimmed references that are not empty, in order. */
  function TrimmedRefs(refs: seq<string>): seq<string> {
    if refs == [] then [] else
      var t := TrimText(refs[|refs| - 1]);
      TrimmedRefs(refs[..|refs| - 1]) + if t != [] then [t] else []
  }

  function NormalAtom(atom: Atom): Atom {
    atom.(domain := LowerAll(TrimText(atom.domain)), title := TrimText(atom.title), claim := TrimText(atom.claim),
          tags := TagsOf(atom.tags), evidenceRefs := TrimmedRefs(atom.evidenceRefs))
  }

  method NormalizeAtom(atom: Atom) returns (normalized: Atom)
    ensures normalized == NormalAtom(atom)
  {
    var trimmedDomain := Trim(atom.domain);
    var domain := NormalizeAsciiLower(trimmedDomain);
    var title := Trim(atom.title);
    var claim := Trim(atom.claim);
    var tags := NormalizeTags(atom.tags);
    var refs := [];
    for i := 0 to |atom.evidenceRefs|
      invariant refs == TrimmedRefs(atom.evidenceRefs[..i])
    {
      var trimmed := Trim(atom.evidenceRefs[i]);
      assert atom.evidenceRefs[..i + 1][..i] == atom.evidenceRefs[..i];
      if trimmed != [] {
        refs := refs + [trimmed];
      }
    }
    assert atom.evidenceRefs[..|atom.evidenceRefs|] == atom.evidenceRefs;
    normalized := atom.(domain := domain, title := title, claim := claim, tags := tags, evidenceRefs := refs);
  }

  function NormalRequirement(req: Requirement): Requirement {
    req.(text := TrimText(req.text), tags := TagsOf(req.tags))
  }

  function NormalRequirements(reqs: seq<Requirement>): (r: seq<Requirement>)
    ensures |r| == |reqs| && forall i :: 0 <= i < |reqs| ==> r[i] == NormalRequirement(reqs[i])
  {
    seq(|reqs|, i requires 0 <= i < |reqs| => NormalRequirement(reqs[i]))
  }

  function NormalOpportunity(opp: Opportunity): Opportunity {
    opp.(company := TrimText(opp.company), roleTitle := TrimText(opp.roleTitle), source := TrimText(opp.source),
         requirements := NormalRequirements(opp.requirements))
  }

  method NormalizeRequirement(req: Requirement) returns (normalized: Requirement)
    ensures normalized == NormalRequirement(req)
  {
    var text := Trim(req.text);
    var tags := NormalizeTags(req.tags);
    normalized := req.(text := text, tags := tags);
  }

  method NormalizeOpportunity(opp: Opportunity) returns (normalized: Opportunity)
    ensures normalized == NormalOpportunity(opp)
  {
    hide TrimText, TagsOf;
    var company := Trim(opp.company);
    var roleTitle := Trim(opp.roleTitle);
    var source := Trim(opp.source);
    var requirements := [];
    for i := 0 to |opp.requirements|
      invariant requirements == NormalRequirements(opp.requirements)[..i]
    {
      var req := NormalizeRequirement(opp.requirements[i]);
      requirements := requirements + [req];
    }
    assert requirements == NormalRequirements(opp.requirements);
    normalized := opp.(company := company, roleTitle := roleTitle, source := source, requirements := requirements);
  }

  // ---------- what normalisation achieves ----------

  lemma LowerKeepsTrimmed(s: string)
    ensures Trimmed(LowerAll(s)) <==> Trimmed(s)
    ensures LowerAll(LowerAll(s)) == LowerAll(s)
  {
    assert forall c :: IsBlank(Lower(c)) <==> IsBlank(c);
  }

  lemma {:induction false} TrimmedRefsAre(refs: seq<string>)
    ensures forall r :: r in TrimmedRefs(refs) ==> r != [] && TrimText(r) == r
  {
    hide TrimText;
    if refs != [] {
      var n := |refs| - 1;
      TrimmedRefsAre(refs[..n]);
      TrimIdempotent(refs[n]);
    }
  }

  lemma {:induction false} TrimmedRefsStay(refs: seq<string>)
    requires forall r :: r in refs ==> r != [] && TrimText(r) == r
    ensures TrimmedRefs(refs) == refs
  {
    hide TrimText;
    if refs != [] {
      var n := |refs| - 1;
      assert refs == refs[..n] + [refs[n]];
      assert forall r :: r in refs[..n] ==> r in refs;
      TrimmedRefsStay(refs[..n]);
    }
  }

  lemma AtomNormalizationIdempotent(atom: Atom)
    ensures NormalAtom(NormalAtom(atom)) == NormalAtom(atom)
  {
    hide TrimText, TagsOf, LowerAll, TrimmedRefs;
    TrimIdempotent(atom.domain);
    LowerKeepsTrimmed(TrimText(atom.domain));
    TrimIdempotent(TrimText(atom.domain));
    TrimIdempotent(LowerAll(TrimText(atom.domain)));
    TrimIdempotent(atom.title);
    TrimIdempotent(atom.claim);
    TagsIdempotent(atom.tags);
    TrimmedRefsAre(atom.evidenceRefs);
    TrimmedRefsStay(TrimmedRefs(atom.evidenceRefs));
  }

  /** What a valid atom is: an id, a claim, strictly sorted tokens for tags, no capital in the domain. */
  lemma ValidAtomIff(atom: Atom)
    ensures AtomVerdict(atom) == Ok <==>
      && atom.atomId != [] && atom.claim != []
      && StrictlySorted(atom.tags) && (forall w :: w in atom.tags ==> IsToken(w, 2))
      && forall i :: 0 <= i < |atom.domain| ==> !IsUpper(atom.domain[i])
  {
    hide TagsOf, StrictlySorted, IsToken;
    TagsFixedIff(atom.tags);
    if forall i :: 0 <= i < |atom.domain| ==> !IsUpper(atom.domain[i]) {
      assert LowerAll(atom.domain) == atom.domain;
    }
  }

  /** A normalised atom validates exactly when its id and its trimmed claim are non-empty. */
  lemma NormalAtomValidIff(atom: Atom)
    ensures AtomVerdict(NormalAtom(atom)) == Ok <==> atom.atomId != [] && TrimText(atom.claim) != []
  {
    hide TrimText, TagsOf, LowerAll, TrimmedRefs;
    TagsIdempotent(atom.tags);
    LowerKeepsTrimmed(TrimText(atom.domain));
  }

  lemma RequirementNormalizationIdempotent(req: Requirement)
    ensures NormalRequirement(NormalRequirement(req)) == NormalRequirement(req)
    ensures RequirementVerdict(NormalRequirement(req)) == Ok <==> TrimText(req.text) != []
  {
    hide TrimText, TagsOf;
    TrimIdempotent(req.text);
    TagsIdempotent(req.tags);
  }

  lemma OpportunityNormalizationIdempotent(opp: Opportunity)
    ensures NormalOpportunity(NormalOpportunity(opp)) == NormalOpportunity(opp)
  {
    hide TrimText, NormalRequirement;
    TrimIdempotent(opp.company);
    TrimIdempotent(opp.roleTitle);
    TrimIdempotent(opp.source);
    forall req
      ensures NormalRequirement(NormalRequirement(req)) == NormalRequirement(req)
    {
      RequirementNormalizationIdempotent(req);
    }
  }

  /** A normalised opportunity validates exactly when its id and every trimmed mandatory text are non-empty. */
  lemma NormalOpportunityValidIff(opp: Opportunity)
    ensures OpportunityVerdict(NormalOpportunity(opp)) == Ok <==>
      && opp.opportunityId != [] && TrimText(opp.company) != [] && TrimText(opp.roleTitle) != []
      && forall r :: r in opp.requirements ==> TrimText(r.text) != []
  {
    hide TrimText, NormalRequirement, RequirementVerdict;
    var reqs := NormalRequirements(opp.requirements);
    RequirementsOkIff(reqs);
    forall r
      ensures RequirementVerdict(NormalRequirement(r)) == Ok <==> TrimText(r.text) != []
    {
      RequirementNormalizationIdempotent(r);
    }
    forall i | 0 <= i < |reqs|
      ensures reqs[i] in reqs && opp.requirements[i] in opp.requirements
    {
    }
    assert forall r :: r in opp.requirements ==> NormalRequirement(r) in reqs;
  }

  // ---------- field by field ----------

  predicate Blank(c: char) { c == ' ' || c == '\t' || c == '\n' || c == '\r' }

  /** Everything outside i..j is blank, and nothing at either end inside is. */
  predicate Cut(s: string, i: nat, j: nat) {
    && i <= j <= |s| && (forall k :: 0 <= k < i ==> Blank(s[k])) && (forall k :: j <= k < |s| ==> Blank(s[k]))
    && (i < j ==> !Blank(s[i]) && !Blank(s[j - 1]))
  }

  ghost predicate IsTrimmed(s: string, t: string) { exists i: nat, j: nat :: Cut(s, i, j) && t == s[i..j] }

  lemma TrimTextIs(s: string)
    ensures IsTrimmed(s, TrimText(s))
  {
    hide TrimText;
    var i, j := TrimIs(s);
    assert forall k :: 0 <= k < i ==> s[..i][k] == s[k];
    assert forall k :: j <= k < |s| ==> s[j..][k - j] == s[k];
    assert Cut(s, i, j);
  }

  /** What normalising does to each field of an atom; id and verification stay. */
  lemma NormalAtomIs(atom: Atom)
    ensures
      var n := NormalAtom(atom);
      && n.atomId == atom.atomId && n.verified == atom.verified
      && IsTrimmed(atom.title, n.title) && IsTrimmed(atom.claim, n.claim)
      && (exists d :: IsTrimmed(atom.domain, d) && n.domain == LowerAll(d))
      && StrictlySorted(n.tags) && (forall w :: w in n.tags <==> exists t :: t in atom.tags && w in Tokens(t, 2))
      && n.evidenceRefs == TrimmedRefs(atom.evidenceRefs)
  {
    hide TrimText, TagsOf, LowerAll, TrimmedRefs, Tokens, StrictlySorted, IsTrimmed;
    TrimTextIs(atom.title);
    TrimTextIs(atom.claim);
    TrimTextIs(atom.domain);
    TagsOfAre(atom.tags);
  }

  /** References are trimmed one by one, in order; one that trims to nothing is dropped. */
  lemma {:induction false} RefsLaw(a: seq<string>, b: seq<string>, r: string)
    ensures TrimmedRefs(a + b) == TrimmedRefs(a) + TrimmedRefs(b)
    ensures exists t :: IsTrimmed(r, t) && TrimmedRefs([r]) == if t == [] then [] else [t]
  {
    hide TrimText, IsTrimmed;
    TrimTextIs(r);
    assert [r][..0] == [];
    if b == [] {
      assert a + b == a;
    } else {
      var n := |b| - 1;
      RefsLaw(a, b[..n], r);
      assert (a + b)[..|a + b| - 1] == a + b[..n];
    }
  }

  lemma NormalRequirementIs(req: Requirement)
    ensures
      var n := NormalRequirement(req);
      && n.required == req.required && IsTrimmed(req.text, n.text)
      && StrictlySorted(n.tags) && (forall w :: w in n.tags <==> exists t :: t in req.tags && w in Tokens(t, 2))
  {
    hide TrimText, TagsOf, Tokens, StrictlySorted, IsTrimmed;
    TrimTextIs(req.text);
    TagsOfAre(req.tags);
  }

  /** An opportunity: three trimmed texts, the id as it was, and every requirement normalised in its place. */
  lemma NormalOpportunityIs(opp: Opportunity)
    ensures
      var n := NormalOpportunity(opp);
      && n.opportunityId == opp.opportunityId
      && IsTrimmed(opp.company, n.company) && IsTrimmed(opp.roleTitle, n.roleTitle) && IsTrimmed(opp.source, n.source)
      && |n.requirements| == |opp.requirements|
      && forall i :: 0 <= i < |opp.requirements| ==> n.requirements[i] == NormalRequirement(opp.requirements[i])
  {
    hide TrimText, IsTrimmed;
    TrimTextIs(opp.company);
    TrimTextIs(opp.roleTitle);
    TrimTextIs(opp.source);
  }

  /** Which complaint an invalid atom draws: that of the first thing missing, in this order. */
  lemma AtomComplaint(atom: Atom)
    ensures AtomVerdict(atom) == Err(EmptyAtomId) <==> atom.atomId == []
    ensures AtomVerdict(atom) == Err(EmptyClaim) <==> atom.atomId != [] && atom.claim == []
    ensures AtomVerdict(atom) == Err(TagsNotNormalized) <==>
      && atom.atomId != [] && atom.claim != []
      && !(StrictlySorted(atom.tags) && forall w :: w in atom.tags ==> IsToken(w, 2))
    ensures AtomVerdict(atom).Err? ==>
      AtomVerdict(atom).problem in {EmptyAtomId, EmptyClaim, TagsNotNormalized, DomainNotNormalized}
  {
    hide TagsOf, StrictlySorted, IsToken;
    TagsFixedIff(atom.tags);
  }

  /** A requirement's: no text first, then its tags. */
  lemma RequirementComplaint(req: Requirement)
    ensures RequirementVerdict(req) == Err(EmptyRequirementText) <==> req.text == []
    ensures RequirementVerdict(req) == Err(TagsNotNormalized) <==>
      req.text != [] && !(StrictlySorted(req.tags) && forall w :: w in req.tags ==> IsToken(w, 2))
    ensures RequirementVerdict(req).Err? ==>
      RequirementVerdict(req).problem in {EmptyRequirementText, TagsNotNormalized}
  {
    hide TagsOf, StrictlySorted, IsToken;
    TagsFixedIff(req.tags);
    if req.tags == [] {
      NoTagsNormal();
    }
  }

  lemma NoTagsNormal()
    ensures TagsOf([]) == []
  {
  }

  /** An opportunity's: id, company, role title, then the complaint of its first invalid requirement. */
  lemma OpportunityComplaint(opp: Opportunity)
    ensures OpportunityVerdict(opp) == Err(EmptyOpportunityId) <==> opp.opportunityId == []
    ensures OpportunityVerdict(opp) == Err(EmptyCompany) <==> opp.opportunityId != [] && opp.company == []
    ensures OpportunityVerdict(opp) == Err(EmptyRoleTitle) <==>
      opp.opportunityId != [] && opp.company != [] && opp.roleTitle == []
    ensures opp.opportunityId != [] && opp.company != [] && opp.roleTitle != [] && OpportunityVerdict(opp).Err? ==>
      exists i :: 0 <= i < |opp.requirements| && FirstInvalid(opp.requirements, i)
                  && OpportunityVerdict(opp) == Err(InvalidRequirement(RequirementVerdict(opp.requirements[i]).problem))
  {
    hide RequirementVerdict;
    FirstComplaint(opp.requirements);
  }

  predicate FirstInvalid(reqs: seq<Requirement>, i: nat) {
    i < |reqs| && RequirementVerdict(reqs[i]).Err? && forall j :: 0 <= j < i ==> RequirementVerdict(reqs[j]) == Ok
  }

  lemma {:induction false} FirstComplaint(reqs: seq<Requirement>)
    ensures
      var v := RequirementsVerdict(reqs);
      v == Ok || exists i :: 0 <= i < |reqs| && FirstInvalid(reqs, i)
                             && v == Err(InvalidRequirement(RequirementVerdict(reqs[i]).problem))
  {
    hide RequirementVerdict;
    if reqs != [] {
      if RequirementVerdict(reqs[0]).Err? {
        assert FirstInvalid(reqs, 0);
      } else {
        FirstComplaint(reqs[1..]);
        if RequirementsVerdict(reqs[1..]) != Ok {
          var i :| 0 <= i < |reqs[1..]| && FirstInvalid(reqs[1..], i)
            && RequirementsVerdict(reqs[1..]) == Err(InvalidRequirement(RequirementVerdict(reqs[1..][i]).problem));
          assert forall j :: 0 <= j < i ==> RequirementVerdict(reqs[1..][j]) == Ok;
          assert forall j :: 1 <= j < i + 1 ==> reqs[j] == reqs[1..][j - 1];
          assert FirstInvalid(reqs, i + 1);
        }
      }
    }
  }
}
