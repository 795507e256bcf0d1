/** ASCII normalisation (include/ccmcp/core/normalization.h): lower case, tokens, tags, trimming. */
module Normalization {
  import opened Strings

  predicate IsUpper(c: char) { 'A' <= c <= 'Z' }
  predicate IsTokenChar(c: char) { 'a' <= c <= 'z' || '0' <= c <= '9' }
  predicate IsAlnum(c: char) { IsTokenChar(c) || IsUpper(c) }

  function Lower(c: char): (d: char)
    ensures !IsUpper(d) && (IsAlnum(c) <==> IsTokenChar(d)) && (!IsUpper(c) ==> d == c)
  {
    if IsUpper(c) then (c as int + 32) as char else c
  }

  /** Token characters are a to z and 0 to 9; capitals become the small letters of their place, the rest stays. */
  lemma LowerLaw(c: char)
    ensures IsTokenChar(c) <==> 'a' <= c <= 'z' || '0' <= c <= '9'
    ensures IsAlnum(c) <==> 'a' <= c <= 'z' || '0' <= c <= '9' || 'A' <= c <= 'Z'
    ensures 'A' <= c <= 'Z' ==> 'a' <= Lower(c) <= 'z' && Lower(c) as int - 'a' as int == c as int - 'A' as int
    ensures !('A' <= c <= 'Z') ==> Lower(c) == c
  {
  }

  /** So lower-casing rises strictly along the capitals. */
  lemma LowerRises(c: char, d: char)
    requires 'A' <= c < d <= 'Z'
    ensures 'a' <= Lower(c) < Lower(d) <= 'z'
  {
    LowerLaw(c);
    LowerLaw(d);
  }

  function LowerAll(s: string): (r: string)
    ensures |r| == |s| && forall i :: 0 <= i < |s| ==> r[i] == Lower(s[i])
  {
    seq(|s|, i requires 0 <= i < |s| => Lower(s[i]))
  }

  /** normalize_ascii_lower. */
  method NormalizeAsciiLower(input: string) returns (result: string)
    ensures result == LowerAll(input)
  {
    result := [];
    for i := 0 to |input|
      invariant result == LowerAll(input)[..i]
    {
      result := result + [if 'A' <= input[i] <= 'Z' then (input[i] as int + 32) as char else input[i]];
    }
  }

  // ---------- tokens ----------

  /** Length of the run of alphanumerics s begins with. */
  function RunLength(s: string): (n: nat)
    ensures n <= |s|
    ensures forall i :: 0 <= i < n ==> IsAlnum(s[i])
    ensures n < |s| ==> !IsAlnum(s[n])
  {
    if s == [] || !IsAlnum(s[0]) then 0 else 1 + RunLength(s[1..])
  }

  /** The maximal alphanumeric runs of s in order, lower-cased, those of at least `min` characters. */
  function Tokens(s: string, min: nat): seq<string>
    decreases |s|
  {
    if s == [] then []
    else if !IsAlnum(s[0]) then Tokens(s[1..], min)
    else Keep(LowerAll(s[..RunLength(s)]), min) + Tokens(s[RunLength(s)..], min)
  }

  function Keep(word: string, min: nat): seq<string> {
    if word != [] && |word| >= min then [word] else []
  }

  predicate IsToken(w: string, min: nat) {
    w != [] && |w| >= min && forall i :: 0 <= i < |w| ==> IsTokenChar(w[i])
  }

  /** What the loop over the prepared text still produces, holding `current`. */
  function Scan(current: string, rest: string, min: nat): seq<string>
    decreases |rest|
  {
    if rest == [] then Keep(current, min)
    else if rest[0] == ' ' then Keep(current, min) + Scan([], rest[1..], min)
    else Scan(current + [rest[0]], rest[1..], min)
  }

  /** Lower case, and a space for everything that is not alphanumeric. */
  function Prepared(s: string): (r: string)
    ensures |r| == |s|
    ensures forall i :: 0 <= i < |s| ==> r[i] == if IsAlnum(s[i]) then Lower(s[i]) else ' '
  {
    seq(|s|, i requires 0 <= i < |s| => if IsAlnum(s[i]) then Lower(s[i]) else ' ')
  }

  lemma {:induction false} ScanRun(current: string, s: string, min: nat)
    ensures
      var n := RunLength(s);
      Scan(current, Prepared(s), min) ==
      if n == |s| then Keep(current + LowerAll(s), min)
      else Keep(current + LowerAll(s[..n]), min) + Scan([], Prepared(s[n + 1..]), min)
    decreases |s|
  {
    hide Keep, LowerAll;
    if s == [] {
      assert current + LowerAll(s) == current;
    } else if !IsAlnum(s[0]) {
      assert Prepared(s)[1..] == Prepared(s[1..]);
      assert current + LowerAll(s[..0]) == current;
    } else {
      var n := RunLength(s);
      ScanStep(current, s, min);
      hide Scan, Prepared;
      ScanRun(current + [Lower(s[0])], s[1..], min);
      LowerAllCons(current, s, n);
      assert n == |s| ==> s[..n] == s && s[1..n] == s[1..];
      assert n < |s| ==> s[1..][n..] == s[n + 1..] && s[1..][..n - 1] == s[1..n];
    }
  }

  lemma ScanStep(current: string, s: string, min: nat)
    requires s != [] && IsAlnum(s[0])
    ensures Scan(current, Prepared(s), min) == Scan(current + [Lower(s[0])], Prepared(s[1..]), min)
  {
    assert Prepared(s)[1..] == Prepared(s[1..]) && Prepared(s)[0] == Lower(s[0]) != ' ';
  }

  lemma LowerAllCons(current: string, s: string, n: nat)
    requires 1 <= n <= |s|
    ensures current + [Lower(s[0])] + LowerAll(s[1..n]) == current + LowerAll(s[..n])
  {
  }

  /** The loop finds exactly the maximal runs. */
  lemma {:induction false} ScanIsTokens(s: string, min: nat)
    ensures Scan([], Prepared(s), min) == Tokens(s, min)
    decreases |s|
  {
    var n := RunLength(s);
    ScanRun([], s, min);
    assert [] + LowerAll(s[..n]) == LowerAll(s[..n]);
    if s == [] {
    } else if n == |s| {
      assert s[..n] == s && s[n..] == [];
      assert Keep(LowerAll(s), min) + [] == Keep(LowerAll(s), min);
    } else {
      ScanIsTokens(s[n + 1..], min);
      if n == 0 {
        assert Keep([], min) + Tokens(s[1..], min) == Tokens(s[1..], min);
      } else {
        assert s[n..][1..] == s[n + 1..];
      }
    }
  }

  /** The first pass of tokenize_ascii. */
  method Prepare(input: string) returns (normalized: string)
    ensures normalized == Prepared(input)
  {
    normalized := [];
    for i := 0 to |input|
      invariant normalized == Prepared(input)[..i]
    {
      var ch := input[i];
      if 'a' <= ch <= 'z' || '0' <= ch <= '9' {
        normalized := normalized + [ch];
      } else if 'A' <= ch <= 'Z' {
        normalized := normalized + [(ch as int + 32) as char];
      } else {
        normalized := normalized + [' '];
      }
    }
  }

  /** tokenize_ascii: two passes, as run. */
  method TokenizeAscii(input: string, minLength: nat) returns (tokens: seq<string>)
    ensures tokens == Tokens(input, minLength)
  {
    hide Tokens, Prepared;
    var normalized := Prepare(input);
    tokens := [];
    var current := [];
    for i := 0 to |normalized|
      invariant tokens + Scan(current, normalized[i..], minLength) == Scan([], normalized, minLength)
    {
      assert normalized[i..][1..] == normalized[i + 1..];
      if normalized[i] == ' ' {
        if current != [] && |current| >= minLength {
          tokens := tokens + [current];
        }
        current := [];
      } else {
        current := current + [normalized[i]];
      }
    }
    if current != [] && |current| >= minLength {
      tokens := tokens + [current];
    }
    ScanIsTokens(input, minLength);
  }

  lemma {:induction false} TokensAreTokens(s: string, min: nat)
    ensures forall w :: w in Tokens(s, min) ==> IsToken(w, min)
    decreases |s|
  {
    if s != [] {
      TokensAreTokens(s[if IsAlnum(s[0]) then RunLength(s) else 1..], min);
    }
  }

  /** A token read again is itself. */
  lemma TokenOfToken(w: string, min: nat)
    requires IsToken(w, min)
    ensures Tokens(w, min) == [w]
  {
    assert RunLength(w) == |w|;
    assert w[..|w|] == w && LowerAll(w) == w;
    assert w[|w|..] == [];
  }

  // ---------- tokens of concatenations ----------

  /** A word of alphanumerics is one token, lower-cased, when long enough, and none otherwise. */
  lemma TokenOfWord(word: string, min: nat)
    requires word != [] && forall i :: 0 <= i < |word| ==> IsAlnum(word[i])
    ensures Tokens(word, min) == if |word| >= min then [LowerAll(word)] else []
  {
    assert RunLength(word) == |word| && word[..|word|] == word && word[|word|..] == [];
  }

  /** A maximal run of alphanumerics. */
  predicate RunAt(s: string, i: nat, j: nat) {
    && i < j <= |s| && (forall k :: i <= k < j ==> IsAlnum(s[k]))
    && (i > 0 ==> !IsAlnum(s[i - 1])) && (j < |s| ==> !IsAlnum(s[j]))
  }

  predicate RunToken(s: string, i: nat, j: nat, min: nat, w: string) {
    RunAt(s, i, j) && j - i >= min && w == LowerAll(s[i..j])
  }

  /** The tokens are the maximal runs of at least the given length, lower-cased. */
  lemma {:induction false} TokensAreRuns(s: string, min: nat, w: string)
    ensures w in Tokens(s, min) <==> exists i, j :: RunToken(s, i, j, min, w)
    decreases |s|
  {
    hide LowerAll;
    if s != [] {
      var n := if IsAlnum(s[0]) then RunLength(s) else 1;
      TokensAreRuns(s[n..], min, w);
      RunsFrom(s, n, min, w);
      if IsAlnum(s[0]) {
        TokensRun(s, min);
        assert RunAt(s, 0, n);
      } else {
        TokensGap(s, min);
      }
    }
  }

  /** Behind a delimiter or the first run, the runs are those of the rest; in front there is at most that run. */
  lemma RunsFrom(s: string, n: nat, min: nat, w: string)
    requires s != [] && n == if IsAlnum(s[0]) then RunLength(s) else 1
    ensures (exists i, j :: RunToken(s, i, j, min, w)) <==>
            || (exists i, j :: RunToken(s[n..], i, j, min, w))
            || (IsAlnum(s[0]) && n >= min && w == LowerAll(s[..n]))
  {
    hide LowerAll, RunToken;
    if i: nat, j: nat :| RunToken(s, i, j, min, w) {
      RunSplit(s, n, i, j, min, w);
    }
    if i: nat, j: nat :| RunToken(s[n..], i, j, min, w) {
      ShiftRun(s, n, i, j, min, w);
    }
    if IsAlnum(s[0]) && n >= min && w == LowerAll(s[..n]) {
      FirstRun(s, min);
    }
  }

  lemma FirstRun(s: string, min: nat)
    requires s != [] && IsAlnum(s[0]) && RunLength(s) >= min
    ensures RunToken(s, 0, RunLength(s), min, LowerAll(s[..RunLength(s)]))
  {
    hide LowerAll;
    assert s[0..RunLength(s)] == s[..RunLength(s)];
  }

  lemma RunSplit(s: string, n: nat, i: nat, j: nat, min: nat, w: string)
    requires s != [] && n == (if IsAlnum(s[0]) then RunLength(s) else 1) && RunToken(s, i, j, min, w)
    ensures
      || (i >= n && j >= n && RunToken(s[n..], i - n, j - n, min, w))
      || (IsAlnum(s[0]) && n >= min && w == LowerAll(s[..n]))
  {
    hide LowerAll;
    if i >= n {
      ShiftRun(s, n, i - n, j - n, min, w);
    } else {
      FrontRun(s, i, j);
      assert s[0..n] == s[..n];
    }
  }

  lemma FrontRun(s: string, i: nat, j: nat)
    requires RunAt(s, i, j) && i < if IsAlnum(s[0]) then RunLength(s) else 1
    ensures IsAlnum(s[0]) && i == 0 && j == RunLength(s)
  {
  }

  lemma ShiftRun(s: string, n: nat, i: nat, j: nat, min: nat, w: string)
    requires 0 < n <= |s| && (!IsAlnum(s[n - 1]) || n == |s| || !IsAlnum(s[n]))
    ensures RunToken(s[n..], i, j, min, w) <==> RunToken(s, i + n, j + n, min, w)
  {
    hide LowerAll, IsAlnum;
    var rest := s[n..];
    assert forall k :: 0 <= k < |rest| ==> rest[k] == s[k + n];
    if i < j <= |rest| {
      assert rest[i..j] == s[i + n..j + n];
      if RunAt(s, i + n, j + n) {
        forall k | i <= k < j
          ensures IsAlnum(rest[k])
        {
          assert IsAlnum(s[k + n]);
        }
      }
      if RunAt(rest, i, j) {
        forall k | i + n <= k < j + n
          ensures IsAlnum(s[k])
        {
          assert IsAlnum(rest[k - n]);
        }
      }
    }
  }

  /** A delimiter separates: tokens of the whole are the tokens of the parts. */
  lemma {:induction false} TokensSplit(a: string, d: char, b: string, min: nat)
    requires !IsAlnum(d)
    ensures Tokens(a + [d] + b, min) == Tokens(a, min) + Tokens(b, min)
    decreases |a|
  {
    hide Tokens, Keep, LowerAll, RunLength;
    var s := a + [d] + b;
    if a == [] {
      TokensGap(s, min);
      assert s[1..] == b;
      NoTokens(min);
    } else if !IsAlnum(a[0]) {
      TokensGap(s, min);
      TokensGap(a, min);
      assert s[1..] == a[1..] + [d] + b;
      TokensSplit(a[1..], d, b, min);
    } else {
      var n := RunLength(a);
      RunLengthUpTo(a, d, b);
      TokensRun(a, min);
      TokensRun(s, min);
      assert s[..n] == a[..n] && s[n..] == a[n..] + [d] + b;
      TokensSplit(a[n..], d, b, min);
    }
  }

  lemma NoTokens(min: nat)
    ensures Tokens([], min) == []
  {
  }

  lemma TokensGap(s: string, min: nat)
    requires s != [] && !IsAlnum(s[0])
    ensures Tokens(s, min) == Tokens(s[1..], min)
  {
  }

  lemma TokensRun(s: string, min: nat)
    requires s != [] && IsAlnum(s[0])
    ensures RunLength(s) > 0
    ensures Tokens(s, min) == Keep(LowerAll(s[..RunLength(s)]), min) + Tokens(s[RunLength(s)..], min)
  {
    hide Keep, LowerAll;
  }

  lemma {:induction false} RunLengthUpTo(a: string, d: char, b: string)
    requires !IsAlnum(d)
    ensures RunLength(a + [d] + b) == RunLength(a)
  {
    if a != [] && IsAlnum(a[0]) {
      assert (a + [d] + b)[1..] == a[1..] + [d] + b;
      RunLengthUpTo(a[1..], d, b);
    }
  }

  lemma TokensThenDelimiter(a: string, d: char, min: nat)
    requires !IsAlnum(d)
    ensures Tokens(a + [d], min) == Tokens(a, min)
  {
    TokensSplit(a, d, [], min);
    assert a + [d] + [] == a + [d];
  }

  // ---------- tags ----------

  function AllTokens(tags: seq<string>): seq<string> {
    if tags == [] then [] else AllTokens(tags[..|tags| - 1]) + Tokens(tags[|tags| - 1], 2)
  }

  function TagsOf(tags: seq<string>): seq<string> { SortedSet(AllTokens(tags)) }

  /** normalize_tags: tokenise, sort, drop duplicates. */
  method NormalizeTags(inputTags: seq<string>) returns (tags: seq<string>)
    ensures tags == TagsOf(inputTags)
  {
    var all := [];
    for i := 0 to |inputTags|
      invariant all == AllTokens(inputTags[..i])
    {
      var tokens := TokenizeAscii(inputTags[i], 2);
      assert inputTags[..i + 1][..i] == inputTags[..i];
      all := all + tokens;
    }
    assert inputTags[..|inputTags|] == inputTags;
    var sorted := Sort(all);
    tags := Unique(sorted);
    forall y
      ensures y in sorted <==> y in all
    {
      assert y in sorted <==> y in multiset(sorted);
      assert y in all <==> y in multiset(all);
    }
    SortedSetIs(all);
    SortedUnique(tags, SortedSet(all));
  }

  lemma {:induction false} AllTokensAre(tags: seq<string>)
    ensures forall w :: w in AllTokens(tags) ==> IsToken(w, 2)
    ensures forall w :: w in AllTokens(tags) <==> exists t :: t in tags && w in Tokens(t, 2)
  {
    if tags != [] {
      var n := |tags| - 1;
      AllTokensAre(tags[..n]);
      TokensAreTokens(tags[n], 2);
      forall w
        ensures w in AllTokens(tags) <==> exists t :: t in tags && w in Tokens(t, 2)
      {
        assert forall t :: t in tags <==> t in tags[..n] || t == tags[n];
        assert w in AllTokens(tags) <==> w in AllTokens(tags[..n]) || w in Tokens(tags[n], 2);
      }
    }
  }

  lemma {:induction false} TokensStay(tags: seq<string>)
    requires forall w :: w in tags ==> IsToken(w, 2)
    ensures AllTokens(tags) == tags
  {
    if tags != [] {
      var n := |tags| - 1;
      TokensStay(tags[..n]);
      TokenOfToken(tags[n], 2);
      assert tags == tags[..n] + [tags[n]];
    }
  }

  /** Normal tags are strictly sorted tokens, exactly those occurring in the input. */
  lemma TagsOfAre(tags: seq<string>)
    ensures StrictlySorted(TagsOf(tags))
    ensures forall w :: w in TagsOf(tags) ==> IsToken(w, 2)
    ensures forall w :: w in TagsOf(tags) <==> exists t :: t in tags && w in Tokens(t, 2)
  {
    AllTokensAre(tags);
    SortedSetIs(AllTokens(tags));
  }

  /** Exactly the strictly sorted lists of tokens are fixed. */
  lemma TagsFixedIff(tags: seq<string>)
    ensures TagsOf(tags) == tags <==> StrictlySorted(tags) && forall w :: w in tags ==> IsToken(w, 2)
  {
    TagsOfAre(tags);
    if StrictlySorted(tags) && forall w :: w in tags ==> IsToken(w, 2) {
      TokensStay(tags);
      SortedSetFixed(tags);
    }
  }

  lemma TagsIdempotent(tags: seq<string>)
    ensures TagsOf(TagsOf(tags)) == TagsOf(tags)
  {
    TagsOfAre(tags);
    TagsFixedIff(TagsOf(tags));
  }

  // ---------- trimming ----------

  predicate IsBlank(c: char) { c == ' ' || c == '\t' || c == '\n' || c == '\r' }

  predicate AllBlank(s: string) { forall i :: 0 <= i < |s| ==> IsBlank(s[i]) }

  /** No blank at either end. */
  predicate Trimmed(s: string) { s != [] ==> !IsBlank(s[0]) && !IsBlank(s[|s| - 1]) }

  function TrimRight(s: string): string {
    if s != [] && IsBlank(s[|s| - 1]) then TrimRight(s[..|s| - 1]) else s
  }

  function TrimText(s: string): string {
    if s != [] && IsBlank(s[0]) then TrimText(s[1..]) else TrimRight(s)
  }

  lemma {:induction false} TrimRightIs(s: string)
    ensures TrimRight(s) <= s && AllBlank(s[|TrimRight(s)|..])
    ensures TrimRight(s) != [] ==> !IsBlank(TrimRight(s)[|TrimRight(s)| - 1])
    ensures s != [] && !IsBlank(s[0]) ==> TrimRight(s) != []
  {
    if s != [] && IsBlank(s[|s| - 1]) {
      var n := |s| - 1;
      TrimRightIs(s[..n]);
      assert forall i :: |TrimRight(s)| <= i < n ==> s[i] == s[..n][|TrimRight(s)|..][i - |TrimRight(s)|];
    }
  }

  /** Trimming removes a blank prefix and a blank suffix and leaves no blank at either end. */
  lemma {:induction false} TrimIs(s: string) returns (i: nat, j: nat)
    ensures i <= j <= |s| && TrimText(s) == s[i..j]
    ensures AllBlank(s[..i]) && AllBlank(s[j..])
    ensures Trimmed(TrimText(s))
  {
    if s != [] && IsBlank(s[0]) {
      i, j := TrimIs(s[1..]);
      i, j := i + 1, j + 1;
      assert s[1..][i - 1..j - 1] == s[i..j] && s[1..][j - 1..] == s[j..];
      assert s[..i] == [s[0]] + s[1..][..i - 1];
    } else {
      TrimRightIs(s);
      i, j := 0, |TrimRight(s)|;
    }
  }

  lemma TrimFixed(s: string)
    requires Trimmed(s)
    ensures TrimText(s) == s
  {
  }

  /** A text trims to itself exactly when it has no blank at either end. */
  lemma TrimIdempotent(s: string)
    ensures TrimText(TrimText(s)) == TrimText(s)
    ensures TrimText(s) == s <==> Trimmed(s)
  {
    var i, j := TrimIs(s);
    TrimFixed(TrimText(s));
    if Trimmed(s) {
      TrimFixed(s);
    }
  }

  lemma {:induction false} TrimAt(s: string, i: nat, j: nat)
    requires i <= j <= |s| && AllBlank(s[..i]) && AllBlank(s[j..])
    requires i < j ==> !IsBlank(s[i]) && !IsBlank(s[j - 1])
    ensures TrimText(s) == s[i..j]
    decreases |s|
  {
    if s == [] {
    } else if i > 0 {
      assert s[0] == s[..i][0];
      assert s[1..][..i - 1] == s[..i][1..] && s[1..][j - 1..] == s[j..];
      TrimAt(s[1..], i - 1, j - 1);
      assert s[1..][i - 1..j - 1] == s[i..j];
    } else if i == j {
      assert s[0..] == s;
      TrimBlank(s);
    } else {
      TrimRightAt(s, j);
    }
  }

  lemma {:induction false} TrimBlank(s: string)
    requires AllBlank(s)
    ensures TrimText(s) == []
  {
    if s != [] {
      TrimBlank(s[1..]);
    }
  }

  lemma {:induction false} TrimRightAt(s: string, j: nat)
    requires 0 < j <= |s| && AllBlank(s[j..]) && !IsBlank(s[j - 1])
    ensures TrimRight(s) == s[..j]
  {
    var n := |s| - 1;
    if j <= n {
      assert s[j..][n - j] == s[n];
      assert s[..n][j..] == s[j..][..n - j];
      TrimRightAt(s[..n], j);
      assert s[..n][..j] == s[..j];
    } else {
      assert s[..j] == s;
    }
  }

  /** trim: two index-moving loops. */
  method Trim(input: string) returns (result: string)
    ensures result == TrimText(input)
  {
    if input == [] {
      return [];
    }
    var start := 0;
    while start < |input| && IsBlank(input[start])
      invariant start <= |input| && AllBlank(input[..start])
    {
      start := start + 1;
    }
    if start == |input| {
      assert input[..start] == input;
      TrimBlank(input);
      return [];
    }
    var end := |input|;
    while end > start && IsBlank(input[end - 1])
      invariant start <= end <= |input|
      invariant forall i :: end <= i < |input| ==> IsBlank(input[i])
    {
      end := end - 1;
    }
    TrimAt(input, start, end);
    return input[start..end];
  }
}
