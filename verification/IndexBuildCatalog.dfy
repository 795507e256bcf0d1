/**
 The index build seen from the catalog: which artifacts a scope covers and under which keys, how canonical texts
 follow edits, and that an edit is never missed.
 */
module IndexBuildCatalog {
  import opened Domain
  import opened StableHash
  import opened IndexBuild
  import opened IndexBuildLaws

  // ---------- canonical texts ----------

  lemma CancelFront(p: string, u: string, v: string)
    requires p + u == p + v
    ensures u == v
  {
    assert (p + u)[|p|..] == u && (p + v)[|p|..] == v;
  }

  lemma CancelBack(u: string, v: string, q: string)
    requires u + q == v + q
    ensures u == v
  {
    assert |u| == |v| && (u + q)[..|u|] == u && (v + q)[..|v|] == v;
  }

  /** Changing one item changes the list written out. */
  lemma {:induction false} SpacedTracks(items: seq<string>, i: nat, x: string)
    requires i < |items| && x != items[i]
    ensures Spaced(items[i := x]) != Spaced(items)
  {
    var n := |items| - 1;
    var changed := items[i := x];
    if Spaced(changed) == Spaced(items) {
      if i < n {
        assert changed[..n] == items[..n][i := x];
        SpacedTracks(items[..n], i, x);
        CancelBack(Spaced(changed[..n]), Spaced(items[..n]), " " + items[n]);
      } else {
        assert changed[..n] == items[..n];
        CancelFront(Spaced(items[..n]), " " + x, " " + items[n]);
        CancelFront(" ", x, items[n]);
      }
    }
  }

  /** One text of three differs. */
  lemma JoinTracks(a: string, b: string, c: string, a': string, b': string, c': string)
    requires (a != a' && b == b' && c == c') || (a == a' && b != b' && c == c') || (a == a' && b == b' && c != c')
    ensures a + " " + b + c != a' + " " + b' + c'
  {
    if a + " " + b + c == a' + " " + b' + c' {
      if c != c' {
        CancelFront(a + " " + b, c, c');
      } else {
        CancelBack(a + " " + b, a' + " " + b', c);
        if b != b' {
          CancelFront(a + " ", b, b');
        } else {
          CancelBack(a + " ", a' + " ", b);
          CancelBack(a, a', " ");
        }
      }
    }
  }

  predicate OneDiffers(xs: seq<string>, ys: seq<string>) {
    |xs| == |ys| && exists i :: 0 <= i < |xs| && xs[i] != ys[i] && ys == xs[i := ys[i]]
  }

  /** The same atom with its title, its claim or one of its tags changed. */
  predicate AtomEdit(a: Atom, b: Atom) {
    && a.atomId == b.atomId
    && (|| (a.title != b.title && a.claim == b.claim && a.tags == b.tags)
        || (a.title == b.title && a.claim != b.claim && a.tags == b.tags)
        || (a.title == b.title && a.claim == b.claim && OneDiffers(a.tags, b.tags)))
  }

  /** The same opportunity with its role title, its company or the text of one requirement changed. */
  predicate OpportunityEdit(o: Opportunity, q: Opportunity) {
    var xs, ys := RequirementTexts(o.requirements), RequirementTexts(q.requirements);
    && o.opportunityId == q.opportunityId
    && (|| (o.roleTitle != q.roleTitle && o.company == q.company && xs == ys)
        || (o.roleTitle == q.roleTitle && o.company != q.company && xs == ys)
        || (o.roleTitle == q.roleTitle && o.company == q.company && OneDiffers(xs, ys)))
  }

  /** Every such edit changes the canonical text. */
  lemma AtomTextTracks(a: Atom, b: Atom)
    requires AtomEdit(a, b)
    ensures AtomText(a) != AtomText(b)
  {
    if a.tags != b.tags {
      var i :| 0 <= i < |a.tags| && a.tags[i] != b.tags[i] && b.tags == a.tags[i := b.tags[i]];
      SpacedTracks(a.tags, i, b.tags[i]);
    }
    hide Spaced;
    JoinTracks(a.title, a.claim, Spaced(a.tags), b.title, b.claim, Spaced(b.tags));
  }

  lemma OpportunityTextTracks(o: Opportunity, q: Opportunity)
    requires OpportunityEdit(o, q)
    ensures OpportunityText(o) != OpportunityText(q)
  {
    var xs, ys := RequirementTexts(o.requirements), RequirementTexts(q.requirements);
    if xs != ys {
      var i :| 0 <= i < |xs| && xs[i] != ys[i] && ys == xs[i := ys[i]];
      SpacedTracks(xs, i, ys[i]);
    }
    hide Spaced, RequirementTexts;
    JoinTracks(o.roleTitle, o.company, Spaced(xs), q.roleTitle, q.company, Spaced(ys));
  }

  /** The texts spelled out for two tags and two requirements. */
  lemma CanonicalTexts(a: Atom, o: Opportunity, x: string, y: string, r: Requirement, s: Requirement)
    requires a.tags == [x, y] && o.requirements == [r, s]
    ensures AtomText(a) == a.title + " " + a.claim + (" " + x + " " + y)
    ensures OpportunityText(o) == o.roleTitle + " " + o.company + (" " + r.text + " " + s.text)
  {
    TwoSpaced(x, y);
    TwoSpaced(r.text, s.text);
    assert RequirementTexts(o.requirements) == [r.text, s.text];
  }

  lemma TwoSpaced(x: string, y: string)
    ensures Spaced([x, y]) == " " + x + " " + y
  {
    assert [x, y][..1] == [x] && [x][..0] == [];
    assert Spaced([x]) == " " + x;
  }

  // ---------- what a scope covers ----------

  predicate CoversAtoms(scope: string) { scope == "atoms" || scope == "all" }
  predicate CoversResumes(scope: string) { scope == "resumes" || scope == "all" }
  predicate CoversOpportunities(scope: string) { scope == "opportunities" || scope == "all" }

  function OpportunityUnder(o: Opportunity): Source { Source(OpportunityKind, o.opportunityId, OpportunityText(o)) }

  /** Exactly the catalog's atoms, resumes and opportunities, each under the scopes that name its kind. */
  lemma ScopeCovers(scope: string, c: Catalog, d: Source)
    ensures d in InScope(scope, c) <==>
            || (CoversAtoms(scope) && exists a :: a in c.atoms && d == Source(AtomKind, a.atomId, AtomText(a)))
            || (CoversResumes(scope) && exists r :: r in c.resumes && d == Source(ResumeKind, r.resumeId, r.markdown))
            || (CoversOpportunities(scope) && exists o :: o in c.opportunities && d == OpportunityUnder(o))
  {
    hide AtomText, OpportunityText, Map;
    MapMembers(AtomSource, c.atoms, d);
    MapMembers(ResumeSource, c.resumes, d);
    MapMembers(OpportunitySource, c.opportunities, d);
  }

  /** In catalog order, atoms before resumes before opportunities. */
  lemma ScopeOrder(c: Catalog)
    ensures InScope("all", c) == InScope("atoms", c) + InScope("resumes", c) + InScope("opportunities", c)
    ensures |InScope("atoms", c)| == |c.atoms| && |InScope("resumes", c)| == |c.resumes|
    ensures |InScope("opportunities", c)| == |c.opportunities|
    ensures forall i :: 0 <= i < |c.atoms| ==> InScope("atoms", c)[i].id == c.atoms[i].atomId
    ensures forall i :: 0 <= i < |c.resumes| ==> InScope("resumes", c)[i].id == c.resumes[i].resumeId
    ensures forall i :: 0 <= i < |c.opportunities| ==>
      InScope("opportunities", c)[i].id == c.opportunities[i].opportunityId
  {
    ScopesAre(c);
    hide AtomText, OpportunityText, InScope;
  }

  lemma ScopesAre(c: Catalog)
    ensures InScope("atoms", c) == Map(AtomSource, c.atoms)
    ensures InScope("resumes", c) == Map(ResumeSource, c.resumes)
    ensures InScope("opportunities", c) == Map(OpportunitySource, c.opportunities)
    ensures InScope("all", c) ==
            Map(AtomSource, c.atoms) + Map(ResumeSource, c.resumes) + Map(OpportunitySource, c.opportunities)
  {
    hide Map;
    assert "atoms"[0] == 'a' && "resumes"[0] == 'r' && "opportunities"[0] == 'o' && |"all"| == 3;
  }

  lemma MapMembers<A>(f: A -> Source, s: seq<A>, d: Source)
    ensures d in Map(f, s) <==> exists a :: a in s && f(a) == d
  {
    forall a | a in s
      ensures f(a) in Map(f, s)
    {
      var i :| 0 <= i < |s| && s[i] == a;
      assert Map(f, s)[i] == f(a);
    }
  }

  // ---------- no stale vectors, artifact by artifact ----------

  /** After every history with rising times each covered atom's vector, under its id, embeds its current text. */
  lemma AtomsUpToDate(steps: seq<BuildStep>, p: Provider, embed: Embedder, a: Atom) returns (t: string)
    requires steps != [] && GoodHistory(steps) && embed(AtomText(a)) != []
    requires CoversAtoms(steps[|steps| - 1].scope) && a in steps[|steps| - 1].catalog.atoms
    ensures
      var w := History(steps, p, embed);
      a.atomId in w.vectors && w.vectors[a.atomId] == embed(t) && (t == AtomText(a) || Collision(t, AtomText(a)))
  {
    hide AtomText, History, InScope, GoodHistory;
    ScopeCovers(steps[|steps| - 1].scope, steps[|steps| - 1].catalog, AtomSource(a));
    t := NoStaleVectors(steps, p, embed, AtomSource(a));
  }

  /** Each covered resume's, under "resume:" and its id, its current markdown. */
  lemma ResumesUpToDate(steps: seq<BuildStep>, p: Provider, embed: Embedder, r: Resume) returns (t: string)
    requires steps != [] && GoodHistory(steps) && embed(r.markdown) != []
    requires CoversResumes(steps[|steps| - 1].scope) && r in steps[|steps| - 1].catalog.resumes
    ensures
      var w := History(steps, p, embed);
      var key := "resume:" + r.resumeId;
      key in w.vectors && w.vectors[key] == embed(t) && (t == r.markdown || Collision(t, r.markdown))
  {
    hide History, InScope, GoodHistory;
    ScopeCovers(steps[|steps| - 1].scope, steps[|steps| - 1].catalog, ResumeSource(r));
    t := NoStaleVectors(steps, p, embed, ResumeSource(r));
  }

  /** Each covered opportunity's, under "opp:" and its id, its current text. */
  lemma OpportunitiesUpToDate(steps: seq<BuildStep>, p: Provider, embed: Embedder, o: Opportunity) returns (t: string)
    requires steps != [] && GoodHistory(steps) && embed(OpportunityText(o)) != []
    requires CoversOpportunities(steps[|steps| - 1].scope) && o in steps[|steps| - 1].catalog.opportunities
    ensures
      var w := History(steps, p, embed);
      var key := "opp:" + o.opportunityId;
      && key in w.vectors && w.vectors[key] == embed(t)
      && (t == OpportunityText(o) || Collision(t, OpportunityText(o)))
  {
    hide OpportunityText, History, InScope, GoodHistory;
    ScopeCovers(steps[|steps| - 1].scope, steps[|steps| - 1].catalog, OpportunitySource(o));
    t := NoStaleVectors(steps, p, embed, OpportunitySource(o));
  }

  // ---------- no edit is missed ----------

  /** Two builds around a change of text: the second re-embeds the artifact, or the two texts have one hash. */
  lemma EditReembedded(w: World, p: Provider, embed: Embedder, s: BuildStep, s': BuildStep, d: Source, e: Source)
    requires Numbered(w.store) && Before(w, s.now)
    requires Distinct(InScope(s.scope, s.catalog)) && Distinct(InScope(s'.scope, s'.catalog))
    requires d in InScope(s.scope, s.catalog) && e in InScope(s'.scope, s'.catalog)
    requires d.kind == e.kind && d.id == e.id && d.text != e.text && embed(d.text) != [] && embed(e.text) != []
    ensures
      var w2 := BuildAt(BuildAt(w, p, embed, s), p, embed, s');
      Written(w2, w2.store.counter, embed, e) || Collision(d.text, e.text)
  {
    hide Build, InScope, Hash, LastSourceHash, IsLastSourceHash, VectorKey, WroteDue, Before, SameAt, Written;
    var w1 := BuildAt(w, p, embed, s);
    OwnBuildAnswers(w, p, embed, s, d);
    BuildWritesDue(w, p, embed, s.scope, s.catalog, s.now);
    ReembedsIff(w1, p, embed, s'.scope, s'.catalog, s'.now, e);
    BuildRun(w1, p, embed, s');
    BuildCounter(w1, p, embed, s');
  }

  /** An edited atom is re-embedded by the next build that covers it. */
  lemma AtomEditReembedded(w: World, p: Provider, embed: Embedder, s: BuildStep, s': BuildStep, a: Atom, b: Atom)
    requires Numbered(w.store) && Before(w, s.now)
    requires Distinct(InScope(s.scope, s.catalog)) && Distinct(InScope(s'.scope, s'.catalog))
    requires CoversAtoms(s.scope) && a in s.catalog.atoms && CoversAtoms(s'.scope) && b in s'.catalog.atoms
    requires AtomEdit(a, b) && embed(AtomText(a)) != [] && embed(AtomText(b)) != []
    ensures
      var w2 := BuildAt(BuildAt(w, p, embed, s), p, embed, s');
      || (&& (w2.store.counter, AtomKind, b.atomId) in w2.store.entries
          && b.atomId in w2.vectors && w2.vectors[b.atomId] == embed(AtomText(b)))
      || Collision(AtomText(a), AtomText(b))
  {
    hide Build, InScope, Hash, AtomText, Numbered, Before, Distinct;
    ScopeCovers(s.scope, s.catalog, AtomSource(a));
    ScopeCovers(s'.scope, s'.catalog, AtomSource(b));
    AtomTextTracks(a, b);
    EditReembedded(w, p, embed, s, s', AtomSource(a), AtomSource(b));
  }

  /** An edited resume too. */
  lemma ResumeEditReembedded(w: World, p: Provider, embed: Embedder, s: BuildStep, s': BuildStep, q: Resume, r: Resume)
    requires Numbered(w.store) && Before(w, s.now)
    requires Distinct(InScope(s.scope, s.catalog)) && Distinct(InScope(s'.scope, s'.catalog))
    requires CoversResumes(s.scope) && q in s.catalog.resumes && CoversResumes(s'.scope) && r in s'.catalog.resumes
    requires q.resumeId == r.resumeId && q.markdown != r.markdown && embed(q.markdown) != [] && embed(r.markdown) != []
    ensures
      var w2 := BuildAt(BuildAt(w, p, embed, s), p, embed, s');
      var key := "resume:" + r.resumeId;
      || (&& (w2.store.counter, ResumeKind, r.resumeId) in w2.store.entries
          && key in w2.vectors && w2.vectors[key] == embed(r.markdown))
      || Collision(q.markdown, r.markdown)
  {
    hide Build, InScope, Hash, Numbered, Before, Distinct;
    ScopeCovers(s.scope, s.catalog, ResumeSource(q));
    ScopeCovers(s'.scope, s'.catalog, ResumeSource(r));
    EditReembedded(w, p, embed, s, s', ResumeSource(q), ResumeSource(r));
  }

  /** And an edited opportunity, when its role, its company or a single requirement was changed. */
  lemma OpportunityEditReembedded(w: World, p: Provider, embed: Embedder, s: BuildStep, s': BuildStep,
                                  o: Opportunity, q: Opportunity)
    requires Numbered(w.store) && Before(w, s.now)
    requires Distinct(InScope(s.scope, s.catalog)) && Distinct(InScope(s'.scope, s'.catalog))
    requires CoversOpportunities(s.scope) && o in s.catalog.opportunities
    requires CoversOpportunities(s'.scope) && q in s'.catalog.opportunities
    requires OpportunityEdit(o, q) && embed(OpportunityText(o)) != [] && embed(OpportunityText(q)) != []
    ensures
      var w2 := BuildAt(BuildAt(w, p, embed, s), p, embed, s');
      var key := "opp:" + q.opportunityId;
      || (&& (w2.store.counter, OpportunityKind, q.opportunityId) in w2.store.entries
          && key in w2.vectors && w2.vectors[key] == embed(OpportunityText(q)))
      || Collision(OpportunityText(o), OpportunityText(q))
  {
    hide Build, InScope, Hash, OpportunityText, Numbered, Before, Distinct;
    ScopeCovers(s.scope, s.catalog, OpportunitySource(o));
    ScopeCovers(s'.scope, s'.catalog, OpportunitySource(q));
    OpportunityTextTracks(o, q);
    EditReembedded(w, p, embed, s, s', OpportunitySource(o), OpportunitySource(q));
  }

  // ---------- the audit records of a build ----------

  /** One record for each artifact that is new or stale, in order. */
  function ExpectedRecords(w: World, p: Provider, embed: Embedder, srcs: seq<Source>, run: nat): seq<Record> {
    if srcs == [] then [] else
      var d := srcs[|srcs| - 1];
      ExpectedRecords(w, p, embed, srcs[..|srcs| - 1], run) +
      match VerdictOn(w, p, embed, d)
      case Fresh => [Indexed(run, d.kind, d.id, Hash(d.text), false)]
      case Stale => [Indexed(run, d.kind, d.id, Hash(d.text), true)]
      case _ => []
  }

  lemma OneRecord(w: World, g: Progress, p: Provider, embed: Embedder, done: seq<Source>, d: Source,
                  before: seq<Record>)
    requires MidBuild(w, g, p, embed, done)
    requires g.w.audit == before + ExpectedRecords(w, p, embed, done, g.w.store.counter)
    ensures IndexOne(g, g.w.store.counter, p, embed, d).w.audit ==
            before + ExpectedRecords(w, p, embed, done + [d], g.w.store.counter)
  {
    hide MidBuild, Hash, VectorKey, LastSourceHash;
    QueryMidBuild(w, g, p, embed, done, d.kind, d.id);
    assert (done + [d])[..|done|] == done;
    assert before + (ExpectedRecords(w, p, embed, done, g.w.store.counter) + []) == g.w.audit;
  }

  lemma {:induction false} RecordsSoFar(w: World, p: Provider, embed: Embedder, srcs: seq<Source>)
    requires Numbered(w.store) && Distinct(srcs)
    ensures
      var run := w.store.counter + 1;
      IndexAll(Begin(w, p), run, p, embed, srcs).w.audit ==
      w.audit + [Started(run)] + ExpectedRecords(w, p, embed, srcs, run)
  {
    var run := w.store.counter + 1;
    if srcs != [] {
      hide Numbered, Distinct, MidBuild, ExpectedRecords, IndexOne;
      var n := |srcs| - 1;
      DistinctFront(srcs);
      assert srcs == srcs[..n] + [srcs[n]];
      RecordsSoFar(w, p, embed, srcs[..n]);
      IndexAllKeepsMidBuild(w, p, embed, srcs[..n]);
      IndexAllKeepsRuns(Begin(w, p), run, p, embed, srcs[..n]);
      var g := IndexAll(Begin(w, p), run, p, embed, srcs[..n]);
      OneRecord(w, g, p, embed, srcs[..n], srcs[n], w.audit + [Started(run)]);
    }
  }

  /** What a build writes to the audit log: its start, a record per indexed artifact telling stale from new, its end. */
  lemma BuildAudit(w: World, p: Provider, embed: Embedder, s: BuildStep)
    requires Numbered(w.store) && Distinct(InScope(s.scope, s.catalog))
    ensures
      var (w', r) := Build(w, p, embed, s.scope, s.catalog, s.now);
      w'.audit == w.audit + [Started(r.run)] + ExpectedRecords(w, p, embed, InScope(s.scope, s.catalog), r.run)
                  + [Finished(r.run, r.tally)]
  {
    hide InScope, ExpectedRecords, IndexAll, Distinct;
    IndexAllKeepsRuns(Begin(w, p), w.store.counter + 1, p, embed, InScope(s.scope, s.catalog));
    RecordsSoFar(w, p, embed, InScope(s.scope, s.catalog));
  }
}
