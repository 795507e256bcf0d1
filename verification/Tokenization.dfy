/** The two resume tokenizers (src/tokenization) and the token IR they fill. */
module Tokenization {
  import opened Strings
  import opened Normalization

  /** One entry of the IR's token map; the map is kept as its entries in key order. */
  datatype Category = Category(name: string, tokens: seq<string>)

  datatype TokenizerType = DeterministicLexical | InferenceAssisted

  datatype TokenIR = TokenIR(sourceHash: string, tokenizer: TokenizerType, categories: seq<Category>)

  const STOP_WORDS: set<string> := {
    "a", "an", "the", "about", "above", "across", "after", "against", "along", "among", "around", "at",
    "before", "behind", "below", "beneath", "beside", "between", "beyond", "by", "down", "during", "except",
    "for", "from", "in", "inside", "into", "near", "of", "off", "on", "onto", "out", "outside", "over", "past",
    "since", "through", "throughout", "to", "toward", "under", "underneath", "until", "up", "upon", "with",
    "within", "without", "and", "but", "or", "nor", "so", "yet", "as", "if", "than", "that", "though", "unless",
    "when", "where", "whether", "while", "i", "me", "my", "mine", "myself", "you", "your", "yours", "yourself",
    "he", "him", "his", "himself", "she", "her", "hers", "herself", "it", "its", "itself", "we", "us", "our",
    "ours", "ourselves", "they", "them", "their", "theirs", "themselves", "this", "these", "those", "who",
    "whom", "whose", "which", "what", "am", "is", "are", "was", "were", "be", "been", "being", "have", "has",
    "had", "having", "do", "does", "did", "doing", "will", "would", "shall", "should", "may", "might", "must",
    "can", "could", "all", "any", "both", "each", "few", "more", "most", "other", "some", "such", "no", "not",
    "only", "own", "same", "then", "there", "very", "get", "got", "make", "made", "just", "like", "well",
    "also", "back", "even", "still", "way", "take", "come", "give", "use", "find", "tell", "ask", "work",
    "seem", "feel", "try", "leave", "call"
  }

  const KNOWN_SKILLS: set<string> := {
    "python", "java", "cpp", "c", "javascript", "typescript", "rust", "go", "sql", "docker", "kubernetes",
    "aws", "gcp", "azure", "react", "angular", "vue", "django", "flask", "spring", "node", "git", "ci", "cd",
    "terraform", "ansible", "jenkins", "cmake", "make", "gradle", "maven", "pytest", "junit", "testing", "tdd",
    "agile", "scrum", "rest", "api", "graphql", "mongodb", "postgresql", "mysql", "redis", "kafka", "spark",
    "hadoop", "machine", "learning", "deep", "neural", "tensorflow", "pytorch", "scikit", "pandas", "numpy"
  }

  const KNOWN_DOMAINS: set<string> := {
    "backend", "frontend", "fullstack", "devops", "infrastructure", "security", "mobile", "web", "cloud",
    "distributed", "systems", "architecture", "database", "data", "engineering", "software", "platform",
    "network", "embedded", "performance", "scalability", "reliability", "observability", "automation",
    "testing", "quality", "assurance", "integration", "deployment", "monitoring", "analytics", "visualization",
    "reporting", "optimization", "ai", "ml"
  }

  const KNOWN_ROLES: set<string> := {
    "engineer", "developer", "architect", "lead", "senior", "staff", "principal", "manager", "director", "head",
    "vp", "cto", "technical", "software", "platform", "infrastructure", "site", "reliability", "consultant",
    "analyst", "specialist", "coordinator", "associate", "intern"
  }

  predicate IsStopWord(w: string) { w in STOP_WORDS }
  predicate IsLikelySkill(w: string) { w in KNOWN_SKILLS }
  predicate IsLikelyDomain(w: string) { w in KNOWN_DOMAINS }
  predicate IsLikelyRole(w: string) { w in KNOWN_ROLES }

  /** tokenize_deterministic: the tokens of a text as a set, in order. */
  function TokenSet(text: string): seq<string> { SortedSet(Tokens(text, 2)) }

  lemma TokenSetIs(text: string)
    ensures StrictlySorted(TokenSet(text))
    ensures forall w :: w in TokenSet(text) <==> w in Tokens(text, 2)
    ensures forall w :: w in TokenSet(text) ==> IsToken(w, 2)
  {
    SortedSetIs(Tokens(text, 2));
    TokensAreTokens(text, 2);
  }

  method ToSet(xs: seq<string>) returns (s: seq<string>)
    ensures s == SortedSet(xs)
  {
    s := [];
    for i := 0 to |xs|
      invariant s == SortedSet(xs[..i])
    {
      assert xs[..i + 1][..i] == xs[..i];
      s := Insert(s, xs[i]);
    }
    assert xs[..|xs|] == xs;
  }

  method TokenizeDeterministic(text: string) returns (tokens: seq<string>)
    ensures tokens == TokenSet(text)
  {
    var all := TokenizeAscii(text, 2);
    tokens := ToSet(all);
  }

  function WithoutStopWords(tokens: seq<string>): seq<string> {
    if tokens == [] then [] else
      WithoutStopWords(tokens[..|tokens| - 1]) +
      if IsStopWord(tokens[|tokens| - 1]) then [] else [tokens[|tokens| - 1]]
  }

  lemma {:induction false} WithoutStopWordsIs(tokens: seq<string>)
    requires StrictlySorted(tokens)
    ensures StrictlySorted(WithoutStopWords(tokens))
    ensures forall w :: w in WithoutStopWords(tokens) <==> w in tokens && !IsStopWord(w)
  {
    hide IsStopWord;
    if tokens != [] {
      var n := |tokens| - 1;
      WithoutStopWordsIs(tokens[..n]);
      assert tokens == tokens[..n] + [tokens[n]];
      forall w | w in WithoutStopWords(tokens[..n])
        ensures Less(w, tokens[n])
      {
        assert w in tokens[..n];
      }
    }
  }

  lemma StopWordIs(w: string)
    ensures IsStopWord(w) <==> w in STOP_WORDS
  {
  }

  /** The words of the deterministic tokenizer, with and without the filter. */
  lemma LexicalWordsAre(resume: string, w: string)
    ensures w in TokenSet(resume) <==> w in Tokens(resume, 2)
    ensures w in WithoutStopWords(TokenSet(resume)) <==> w in Tokens(resume, 2) && w !in STOP_WORDS
  {
    hide IsStopWord, TokenSet, Tokens;
    StopWordIs(w);
    TokenSetIs(resume);
    WithoutStopWordsIs(TokenSet(resume));
  }

  method DeterministicTokenize(resume: string, sourceHash: string, filterStopWords: bool) returns (ir: TokenIR)
    ensures
      var tokens := if filterStopWords then WithoutStopWords(TokenSet(resume)) else TokenSet(resume);
      ir == TokenIR(sourceHash, DeterministicLexical, [Category("lexical", tokens)])
  {
    hide TokenSet, IsStopWord;
    var tokens := TokenizeDeterministic(resume);
    if filterStopWords {
      var kept := [];
      for i := 0 to |tokens|
        invariant kept == WithoutStopWords(tokens[..i])
      {
        assert tokens[..i + 1][..i] == tokens[..i];
        if !IsStopWord(tokens[i]) {
          kept := kept + [tokens[i]];
        }
      }
      assert tokens[..|tokens|] == tokens;
      tokens := kept;
    }
    ir := TokenIR(sourceHash, DeterministicLexical, [Category("lexical", tokens)]);
  }

  // ---------- the stub categories ----------

  datatype Kind = Skill | DomainArea | Role | Entity

  /** The first list a token is on decides. */
  function KindOf(w: string): Kind {
    if IsLikelySkill(w) then Skill
    else if IsLikelyDomain(w) then DomainArea
    else if IsLikelyRole(w) then Role
    else Entity
  }

  function WordsOfKind(all: seq<string>, k: Kind): seq<string> {
    if all == [] then [] else
      WordsOfKind(all[..|all| - 1], k) + if KindOf(all[|all| - 1]) == k then [all[|all| - 1]] else []
  }

  /** The words of kind k, as a set in order. */
  function OfKind(all: seq<string>, k: Kind): seq<string> { SortedSet(WordsOfKind(all, k)) }

  lemma {:induction false} WordsOfKindAre(all: seq<string>, k: Kind)
    ensures forall w :: w in WordsOfKind(all, k) <==> w in all && KindOf(w) == k
  {
    hide KindOf;
    if all != [] {
      var n := |all| - 1;
      WordsOfKindAre(all[..n], k);
      assert all == all[..n] + [all[n]];
    }
  }

  lemma OfKindIs(all: seq<string>, k: Kind)
    ensures StrictlySorted(OfKind(all, k))
    ensures forall w :: w in OfKind(all, k) <==> w in all && KindOf(w) == k
  {
    hide KindOf;
    WordsOfKindAre(all, k);
    SortedSetIs(WordsOfKind(all, k));
  }

  /** Which list a token goes by: skills before domains before roles, everything else an entity. */
  lemma KindsByList(all: seq<string>, w: string)
    ensures w in OfKind(all, Skill) <==> w in all && w in KNOWN_SKILLS
    ensures w in OfKind(all, DomainArea) <==> w in all && w !in KNOWN_SKILLS && w in KNOWN_DOMAINS
    ensures w in OfKind(all, Role) <==> w in all && w !in KNOWN_SKILLS && w !in KNOWN_DOMAINS && w in KNOWN_ROLES
    ensures w in OfKind(all, Entity) <==>
      w in all && w !in KNOWN_SKILLS && w !in KNOWN_DOMAINS && w !in KNOWN_ROLES
  {
    hide OfKind;
    OfKindIs(all, Skill);
    OfKindIs(all, DomainArea);
    OfKindIs(all, Role);
    OfKindIs(all, Entity);
  }

  /** The categories of the stub tokenizer's IR: the four under their names, empty ones left out, names rising. */
  lemma StubCategoriesAre(all: seq<string>, c: Category)
    ensures c in StubCategories(all) <==>
      && c.tokens != []
      && (|| c == Category("skills", OfKind(all, Skill)) || c == Category("domains", OfKind(all, DomainArea))
          || c == Category("roles", OfKind(all, Role)) || c == Category("entities", OfKind(all, Entity)))
    ensures forall i, j :: 0 <= i < j < |StubCategories(all)| ==>
      Less(StubCategories(all)[i].name, StubCategories(all)[j].name)
  {
    hide OfKind, NonEmpty;
    var d, e := Category("domains", OfKind(all, DomainArea)), Category("entities", OfKind(all, Entity));
    var r, k := Category("roles", OfKind(all, Role)), Category("skills", OfKind(all, Skill));
    FourCategories(d, e, r, k);
    NamesRise();
  }

  lemma NamesRise()
    ensures Less("domains", "entities") && Less("domains", "roles") && Less("domains", "skills")
    ensures Less("entities", "roles") && Less("entities", "skills") && Less("roles", "skills")
  {
  }

  lemma OfKindNext(all: seq<string>, i: nat, k: Kind)
    requires i < |all|
    ensures OfKind(all[..i + 1], k) ==
            if KindOf(all[i]) == k then Insert(OfKind(all[..i], k), all[i]) else OfKind(all[..i], k)
  {
    hide KindOf;
    var words := WordsOfKind(all[..i], k);
    assert all[..i + 1][..i] == all[..i];
    assert (words + [all[i]])[..|words|] == words;
    assert words + [] == words;
  }

  /** The categories of an IR that are not empty, in key order. */
  function NonEmpty(categories: seq<Category>): seq<Category> {
    if categories == [] then [] else
      (if categories[0].tokens == [] then [] else [categories[0]]) + NonEmpty(categories[1..])
  }

  function StubCategories(all: seq<string>): seq<Category> {
    NonEmpty([Category("domains", OfKind(all, DomainArea)), Category("entities", OfKind(all, Entity)),
              Category("roles", OfKind(all, Role)), Category("skills", OfKind(all, Skill))])
  }

  method StubTokenize(resume: string, sourceHash: string) returns (ir: TokenIR)
    ensures ir == TokenIR(sourceHash, InferenceAssisted, StubCategories(Tokens(resume, 2)))
  {
    hide IsLikelySkill, IsLikelyDomain, IsLikelyRole, OfKind, Tokens;
    var all := TokenizeAscii(resume, 2);
    var skills, domains, roles, entities := [], [], [], [];
    NoneOfKind();
    for i := 0 to |all|
      invariant skills == OfKind(all[..i], Skill) && domains == OfKind(all[..i], DomainArea)
      invariant roles == OfKind(all[..i], Role) && entities == OfKind(all[..i], Entity)
    {
      var token := all[i];
      OfKindNext(all, i, Skill);
      OfKindNext(all, i, DomainArea);
      OfKindNext(all, i, Role);
      OfKindNext(all, i, Entity);
      if IsLikelySkill(token) {
        skills := Insert(skills, token);
      } else if IsLikelyDomain(token) {
        domains := Insert(domains, token);
      } else if IsLikelyRole(token) {
        roles := Insert(roles, token);
      } else {
        entities := Insert(entities, token);
      }
    }
    assert all[..|all|] == all;
    var categories := [];
    if domains != [] {
      categories := categories + [Category("domains", domains)];
    }
    if entities != [] {
      categories := categories + [Category("entities", entities)];
    }
    if roles != [] {
      categories := categories + [Category("roles", roles)];
    }
    if skills != [] {
      categories := categories + [Category("skills", skills)];
    }
    FourCategories(Category("domains", domains), Category("entities", entities),
                   Category("roles", roles), Category("skills", skills));
    hide NonEmpty;
    ir := TokenIR(sourceHash, InferenceAssisted, categories);
  }

  lemma NoneOfKind()
    ensures forall k :: OfKind([], k) == []
  {
  }

  lemma NoCategories()
    ensures NonEmpty([]) == []
  {
  }

  lemma NonEmptyCons(c: Category, rest: seq<Category>)
    ensures NonEmpty([c] + rest) == (if c.tokens == [] then [] else [c]) + NonEmpty(rest)
  {
    assert ([c] + rest)[1..] == rest;
  }

  lemma FourCategories(a: Category, b: Category, c: Category, d: Category)
    ensures NonEmpty([a, b, c, d]) ==
            [] + (if a.tokens == [] then [] else [a]) + (if b.tokens == [] then [] else [b])
               + (if c.tokens == [] then [] else [c]) + (if d.tokens == [] then [] else [d])
  {
    hide NonEmpty;
    NonEmptyCons(a, [b, c, d]);
    NonEmptyCons(b, [c, d]);
    NonEmptyCons(c, [d]);
    NonEmptyCons(d, []);
    NoCategories();
    assert [a] + [b, c, d] == [a, b, c, d] && [b] + [c, d] == [b, c, d] && [c] + [d] == [c, d] && [d] + [] == [d];
  }

  /**
   The stub's categories are pairwise disjoint and together hold exactly the deterministic token set before
   stop-word filtering.
   */
  lemma StubPartitionsTokens(resume: string)
    ensures
      var all := Tokens(resume, 2);
      && (forall k, l, w :: k != l ==> !(w in OfKind(all, k) && w in OfKind(all, l)))
      && (forall w :: w in TokenSet(resume) <==> exists k :: w in OfKind(all, k))
      && |OfKind(all, Skill)| + |OfKind(all, DomainArea)| + |OfKind(all, Role)| + |OfKind(all, Entity)|
         == |TokenSet(resume)|
  {
    hide KindOf, Tokens, OfKind, TokenSet;
    var all := Tokens(resume, 2);
    TokenSetIs(resume);
    forall k {
      OfKindIs(all, k);
    }
    forall w
      ensures w in all <==> w in OfKind(all, KindOf(w))
    {
    }
    PartitionSize(all, TokenSet(resume));
  }

  lemma MembersAre(s: seq<string>)
    ensures forall w :: w in Members(s) <==> w in s
  {
  }

  lemma KindSet(all: seq<string>, k: Kind)
    ensures forall w :: w in Members(OfKind(all, k)) <==> w in all && KindOf(w) == k
    ensures |OfKind(all, k)| == |Members(OfKind(all, k))|
  {
    hide KindOf, OfKind;
    OfKindIs(all, k);
    SetSize(OfKind(all, k));
  }

  lemma PartitionSize(all: seq<string>, whole: seq<string>)
    requires StrictlySorted(whole) && forall w :: w in whole <==> w in all
    ensures |OfKind(all, Skill)| + |OfKind(all, DomainArea)| + |OfKind(all, Role)| + |OfKind(all, Entity)| == |whole|
  {
    hide KindOf, OfKind, StrictlySorted, Members;
    KindSet(all, Skill);
    KindSet(all, DomainArea);
    KindSet(all, Role);
    KindSet(all, Entity);
    SetSize(whole);
    MembersAre(whole);
    var s, d := Members(OfKind(all, Skill)), Members(OfKind(all, DomainArea));
    var r, e := Members(OfKind(all, Role)), Members(OfKind(all, Entity));
    assert Members(whole) == s + d + r + e;
    SizeOfFour(s, d, r, e);
  }

  lemma SizeOfFour(a: set<string>, b: set<string>, c: set<string>, d: set<string>)
    requires a !! b !! c !! d
    ensures |a + b + c + d| == |a| + |b| + |c| + |d|
  {
  }

  function Members(s: seq<string>): set<string> { set w | w in s }

  lemma {:induction false} SetSize(s: seq<string>)
    requires StrictlySorted(s)
    ensures |Members(s)| == |s|
  {
    if s != [] {
      var n := |s| - 1;
      SetSize(s[..n]);
      assert s == s[..n] + [s[n]];
      assert Members(s) == Members(s[..n]) + {s[n]};
      LessIrreflexive(s[n]);
    }
  }
}
