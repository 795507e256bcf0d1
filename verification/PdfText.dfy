/** Text strings in PDF content streams (src/ingest/format_adapter.cpp, extract_text_from_pdf_content). */
module PdfText {
  // ---------- the extractor, as functions ----------

  /** Index of the next opening parenthesis at or after pos, or the length. */
  function FindOpen(content: string, pos: nat): (n: nat)
    requires pos <= |content|
    ensures pos <= n <= |content| && (n < |content| ==> content[n] == '(')
    ensures forall i :: pos <= i < n ==> content[i] != '('
    decreases |content| - pos
  {
    if pos == |content| || content[pos] == '(' then pos else FindOpen(content, pos + 1)
  }

  /** Where the scan for the matching parenthesis stops, and the depth left then. */
  function Match(content: string, i: nat, depth: nat): (r: (nat, nat))
    requires i <= |content|
    ensures i <= r.0 <= |content|
    ensures depth > 0 && r.1 == 0 ==> i < r.0
    decreases |content| - i
  {
    if i == |content| || depth == 0 then (i, depth)
    else if content[i] == '\\' && i + 1 < |content| then Match(content, i + 2, depth)
    else if content[i] == '(' then Match(content, i + 1, depth + 1)
    else if content[i] == ')' then Match(content, i + 1, depth - 1)
    else Match(content, i + 1, depth)
  }

  /** Escapes n, r, t, backslash and parentheses; any other backslash stays. */
  function Unescape(s: string): string {
    if s == [] then []
    else if s[0] == '\\' && |s| > 1 then
      if s[1] == 'n' then ['\n'] + Unescape(s[2..])
      else if s[1] == 'r' then ['\r'] + Unescape(s[2..])
      else if s[1] == 't' then ['\t'] + Unescape(s[2..])
      else if s[1] == '\\' || s[1] == '(' || s[1] == ')' then [s[1]] + Unescape(s[2..])
      else [s[0]] + Unescape(s[1..])
    else [s[0]] + Unescape(s[1..])
  }

  function Extract(content: string, pos: nat): string
    requires pos <= |content|
    decreases |content| - pos
  {
    var open := FindOpen(content, pos);
    if open == |content| then [] else
      var (end, depth) := Match(content, open + 1, 1);
      if depth == 0 then Unescape(content[open + 1..end - 1]) + " " + Extract(content, end)
      else Extract(content, open + 1)
  }

  // ---------- the extractor, as run ----------

  method UnescapeString(pdfString: string) returns (unescaped: string)
    ensures unescaped == Unescape(pdfString)
  {
    hide Unescape;
    unescaped := [];
    var i := 0;
    assert pdfString[0..] == pdfString;
    while i < |pdfString|
      invariant i <= |pdfString|
      invariant unescaped + Unescape(pdfString[i..]) == Unescape(pdfString)
    {
      UnescapeAt(pdfString, i, unescaped);
      if pdfString[i] == '\\' && i + 1 < |pdfString| {
        var next := pdfString[i + 1];
        if next == 'n' {
          unescaped := unescaped + ['\n'];
          i := i + 1;
        } else if next == 'r' {
          unescaped := unescaped + ['\r'];
          i := i + 1;
        } else if next == 't' {
          unescaped := unescaped + ['\t'];
          i := i + 1;
        } else if next == '\\' || next == '(' || next == ')' {
          unescaped := unescaped + [next];
          i := i + 1;
        } else {
          unescaped := unescaped + [pdfString[i]];
        }
      } else {
        unescaped := unescaped + [pdfString[i]];
      }
      i := i + 1;
    }
    UnescapeNothing(pdfString[i..]);
  }

  lemma UnescapeNothing(s: string)
    requires |s| == 0
    ensures Unescape(s) == []
  {
  }

  predicate Escaped(c: char) { c == 'n' || c == 'r' || c == 't' || c == '\\' || c == '(' || c == ')' }

  function Meaning(c: char): char {
    if c == 'n' then '\n' else if c == 'r' then '\r' else if c == 't' then '\t' else c
  }

  lemma UnescapeAt(s: string, i: nat, before: string)
    requires i < |s|
    ensures
      before + Unescape(s[i..]) ==
      if s[i] == '\\' && i + 1 < |s| && Escaped(s[i + 1]) then before + [Meaning(s[i + 1])] + Unescape(s[i + 2..])
      else before + [s[i]] + Unescape(s[i + 1..])
  {
    assert s[i..][1..] == s[i + 1..];
    assert s[i..][0] == s[i];
    if i + 1 < |s| {
      assert s[i..][2..] == s[i + 2..] && s[i..][1] == s[i + 1];
    }
    UnescapeFront(s[i..]);
    hide Unescape, Escaped, Meaning;
    if s[i] == '\\' && i + 1 < |s| && Escaped(s[i + 1]) {
      var meant, rest := [Meaning(s[i + 1])], Unescape(s[i + 2..]);
      assert before + (meant + rest) == before + meant + rest;
    } else {
      assert before + ([s[i]] + Unescape(s[i + 1..])) == before + [s[i]] + Unescape(s[i + 1..]);
    }
  }

  lemma UnescapeFront(w: string)
    requires w != []
    ensures Unescape(w) ==
            if w[0] == '\\' && |w| > 1 && Escaped(w[1]) then [Meaning(w[1])] + Unescape(w[2..])
            else [w[0]] + Unescape(w[1..])
  {
  }

  /** The matching parenthesis of the one at paren: where the scan stops and the depth left. */
  method FindClose(content: string, paren: nat) returns (parenEnd: nat, depth: nat)
    requires paren < |content|
    ensures (parenEnd, depth) == Match(content, paren + 1, 1)
  {
    parenEnd, depth := paren + 1, 1;
    while parenEnd < |content| && depth > 0
      invariant paren + 1 <= parenEnd <= |content|
      invariant Match(content, parenEnd, depth) == Match(content, paren + 1, 1)
      decreases |content| - parenEnd
    {
      if content[parenEnd] == '\\' && parenEnd + 1 < |content| {
        parenEnd := parenEnd + 2;
        continue;
      }
      if content[parenEnd] == '(' {
        depth := depth + 1;
      } else if content[parenEnd] == ')' {
        depth := depth - 1;
      }
      parenEnd := parenEnd + 1;
    }
  }

  method FindParen(content: string, pos: nat) returns (paren: nat)
    requires pos <= |content|
    ensures paren == FindOpen(content, pos)
  {
    paren := pos;
    while paren < |content| && content[paren] != '('
      invariant pos <= paren <= |content|
      invariant FindOpen(content, paren) == FindOpen(content, pos)
    {
      paren := paren + 1;
    }
  }

  lemma AppendInFront(text: string, piece: string, rest: string)
    ensures text + (piece + " " + rest) == text + piece + " " + rest
  {
  }

  method ExtractText(content: string) returns (text: string)
    ensures text == Extract(content, 0)
  {
    hide Unescape, Match, FindOpen;
    text := [];
    var pos := 0;
    while pos < |content|
      invariant pos <= |content|
      invariant text + Extract(content, pos) == Extract(content, 0)
      decreases |content| - pos
    {
      var parenStart := FindParen(content, pos);
      if parenStart == |content| {
        break;
      }
      var parenEnd, depth := FindClose(content, parenStart);
      if depth == 0 {
        var unescaped := UnescapeString(content[parenStart + 1..parenEnd - 1]);
        AppendInFront(text, unescaped, Extract(content, parenEnd));
        text := text + unescaped + " ";
        pos := parenEnd;
      } else {
        pos := parenStart + 1;
      }
    }
    assert Extract(content, pos) == [];
  }

  // ---------- literal strings (section 7.3.4.2 of ISO 32000-1) ----------

  /** Walking a string body from nesting depth d: the depth at its end, or -1 for a stray ')' or a final backslash. */
  function Walk(s: string, d: int): int {
    if s == [] then d
    else if s[0] == '\\' then if |s| > 1 then Walk(s[2..], d) else -1
    else if s[0] == '(' then Walk(s[1..], d + 1)
    else if s[0] == ')' then if d <= 0 then -1 else Walk(s[1..], d - 1)
    else Walk(s[1..], d)
  }

  /** A string body: parentheses are escaped or balanced. */
  predicate IsBody(s: string) { Walk(s, 0) == 0 }

  datatype Piece = Piece(gap: string, body: string)

  predicate IsPiece(p: Piece) { '(' !in p.gap && IsBody(p.body) }

  /** Parenthesised bodies, each after a gap, and a last stretch without strings. */
  function Written(pieces: seq<Piece>, tail: string): string {
    if pieces == [] then tail
    else pieces[0].gap + ("(" + (pieces[0].body + (")" + Written(pieces[1..], tail))))
  }

  function Decoded(pieces: seq<Piece>): string {
    if pieces == [] then [] else Unescape(pieces[0].body) + " " + Decoded(pieces[1..])
  }

  lemma {:induction false} MatchBody(content: string, i: nat, s: string, d: nat, rest: string)
    requires i <= |content| && content[i..] == s + (")" + rest) && Walk(s, d) == 0
    ensures Match(content, i, d + 1) == (i + |s| + 1, 0)
    decreases |s|
  {
    var w := s + (")" + rest);
    assert |content| == i + |w| && content[i] == w[0];
    assert content[i + 1..] == w[1..];
    if s == [] {
      assert w[0] == ')';
    } else if s[0] == '\\' {
      assert content[i + 2..] == w[2..] == s[2..] + (")" + rest);
      MatchBody(content, i + 2, s[2..], d, rest);
    } else {
      assert w[1..] == s[1..] + (")" + rest);
      MatchBody(content, i + 1, s[1..], if s[0] == '(' then d + 1 else if s[0] == ')' then d - 1 else d, rest);
    }
  }

  lemma {:induction false} FindOpenAfterGap(content: string, pos: nat, gap: string, rest: string)
    requires pos <= |content| && content[pos..] == gap + rest && '(' !in gap && (rest == [] || rest[0] == '(')
    ensures FindOpen(content, pos) == pos + |gap|
    decreases |gap|
  {
    var w := gap + rest;
    assert |content| == pos + |w|;
    if gap != [] {
      assert content[pos] == w[0] == gap[0];
      assert content[pos + 1..] == w[1..] == gap[1..] + rest;
      FindOpenAfterGap(content, pos + 1, gap[1..], rest);
    } else {
      assert rest != [] ==> content[pos] == content[pos..][0] == rest[0];
    }
  }

  /** Dropping a known front part of a suffix. */
  lemma SuffixAfter(content: string, pos: nat, front: string, rest: string)
    requires pos <= |content| && content[pos..] == front + rest
    ensures pos + |front| <= |content|
    ensures content[pos..pos + |front|] == front && content[pos + |front|..] == rest
  {
    assert |content| == pos + |front| + |rest|;
    assert content[pos..pos + |front|] == content[pos..][..|front|];
    assert content[pos + |front|..] == content[pos..][|front|..];
  }

  /** Where the parts of one gap and one parenthesised body stand. */
  lemma PieceParts(content: string, pos: nat, p: Piece, after: string)
    requires pos <= |content| && content[pos..] == p.gap + ("(" + (p.body + (")" + after)))
    ensures var open := pos + |p.gap|;
      var end := open + |p.body| + 2;
      && end <= |content|
      && content[open..] == "(" + (p.body + (")" + after)) && content[open + 1..] == p.body + (")" + after)
      && content[open + 1..end - 1] == p.body && content[end..] == after
  {
    var open := pos + |p.gap|;
    SuffixAfter(content, pos, p.gap, "(" + (p.body + (")" + after)));
    SuffixAfter(content, open, "(", p.body + (")" + after));
    SuffixAfter(content, open + 1, p.body, ")" + after);
    SuffixAfter(content, open + 1 + |p.body|, ")", after);
  }

  /** One step: a gap, then a parenthesised body. */
  lemma ExtractStep(content: string, pos: nat, p: Piece, after: string)
    requires pos <= |content| && content[pos..] == p.gap + ("(" + (p.body + (")" + after))) && IsPiece(p)
    ensures var end := pos + |p.gap| + |p.body| + 2;
      && end <= |content| && content[end..] == after
      && Extract(content, pos) == Unescape(p.body) + " " + Extract(content, end)
  {
    hide Unescape, Match, FindOpen, Walk, Extract;
    PieceParts(content, pos, p, after);
    FindOpenAfterGap(content, pos, p.gap, "(" + (p.body + (")" + after)));
    MatchBody(content, pos + |p.gap| + 1, p.body, 0, after);
    ExtractAt(content, pos, pos + |p.gap|, pos + |p.gap| + |p.body| + 2);
  }

  lemma ExtractAt(content: string, pos: nat, open: nat, end: nat)
    requires pos <= open < end - 1 < |content| && FindOpen(content, pos) == open
    requires Match(content, open + 1, 1) == (end, 0)
    ensures Extract(content, pos) == Unescape(content[open + 1..end - 1]) + " " + Extract(content, end)
  {
    hide Unescape, Match, FindOpen;
  }

  lemma ExtractNothing(content: string, pos: nat)
    requires pos <= |content| && '(' !in content[pos..]
    ensures Extract(content, pos) == []
  {
    assert content[pos..] + [] == content[pos..];
    FindOpenAfterGap(content, pos, content[pos..], []);
  }

  lemma {:induction false} ExtractFrom(content: string, pos: nat, pieces: seq<Piece>, tail: string)
    requires pos <= |content| && content[pos..] == Written(pieces, tail)
    requires (forall p :: p in pieces ==> IsPiece(p)) && '(' !in tail
    ensures Extract(content, pos) == Decoded(pieces)
    decreases |pieces|
  {
    hide Unescape, Extract, IsPiece;
    if pieces == [] {
      ExtractNothing(content, pos);
    } else {
      ExtractStep(content, pos, pieces[0], Written(pieces[1..], tail));
      ExtractFrom(content, pos + |pieces[0].gap| + |pieces[0].body| + 2, pieces[1..], tail);
    }
  }

  /** From any well-formed content the extractor returns the string bodies in order, unescaped, a space after each. */
  lemma ExtractsEveryString(pieces: seq<Piece>, tail: string)
    requires (forall p :: p in pieces ==> IsPiece(p)) && '(' !in tail
    ensures Extract(Written(pieces, tail), 0) == Decoded(pieces)
  {
    assert Written(pieces, tail)[0..] == Written(pieces, tail);
    ExtractFrom(Written(pieces, tail), 0, pieces, tail);
  }

  // ---------- writing and reading back ----------

  function EscapeChar(c: char): string {
    if c == '\n' then "\\n"
    else if c == '\r' then "\\r"
    else if c == '\t' then "\\t"
    else if c == '\\' || c == '(' || c == ')' then ['\\', c]
    else [c]
  }

  function Escape(s: string): string {
    if s == [] then [] else EscapeChar(s[0]) + Escape(s[1..])
  }

  lemma {:induction false} EscapeRoundTrip(s: string)
    ensures Unescape(Escape(s)) == s
    ensures IsBody(Escape(s))
  {
    if s != [] {
      EscapeRoundTrip(s[1..]);
      ReadEscaped(s[0], Escape(s[1..]));
      hide Unescape, Walk, EscapeChar;
      assert s == [s[0]] + s[1..];
    }
  }

  /** One escaped character is read back as itself and leaves the nesting depth alone. */
  lemma ReadEscaped(c: char, rest: string)
    ensures Unescape(EscapeChar(c) + rest) == [c] + Unescape(rest)
    ensures Walk(EscapeChar(c) + rest, 0) == Walk(rest, 0)
  {
    var e := EscapeChar(c);
    var w := e + rest;
    assert w[|e|..] == rest && w[0] == e[0] && (|e| == 2 ==> w[1] == e[1]);
  }

  function Pieces(gaps: seq<string>, strings: seq<string>): (ps: seq<Piece>)
    requires |gaps| == |strings|
    ensures |ps| == |strings| && forall i :: 0 <= i < |strings| ==> ps[i] == Piece(gaps[i], Escape(strings[i]))
  {
    seq(|strings|, i requires 0 <= i < |strings| => Piece(gaps[i], Escape(strings[i])))
  }

  /** Each string followed by one space. */
  function Listed(strings: seq<string>): string {
    if strings == [] then [] else strings[0] + " " + Listed(strings[1..])
  }

  /** Writing then extracting: every list of strings comes back in order, whatever text without '(' lies between. */
  lemma ExtractUndoesWriting(gaps: seq<string>, strings: seq<string>, tail: string)
    requires |gaps| == |strings| && (forall i :: 0 <= i < |gaps| ==> '(' !in gaps[i]) && '(' !in tail
    ensures Extract(Written(Pieces(gaps, strings), tail), 0) == Listed(strings)
  {
    var ps := Pieces(gaps, strings);
    forall i | 0 <= i < |ps|
      ensures IsPiece(ps[i])
    {
      EscapeRoundTrip(strings[i]);
    }
    ExtractsEveryString(ps, tail);
    DecodedPieces(gaps, strings);
  }

  lemma {:induction false} DecodedPieces(gaps: seq<string>, strings: seq<string>)
    requires |gaps| == |strings|
    ensures Decoded(Pieces(gaps, strings)) == Listed(strings)
  {
    if strings != [] {
      EscapeRoundTrip(strings[0]);
      DecodedPieces(gaps[1..], strings[1..]);
      assert Pieces(gaps, strings)[1..] == Pieces(gaps[1..], strings[1..]);
    }
  }

  /** Any other backslash stays where it is, and so does what follows it. */
  lemma OtherBackslashStays(c: char, rest: string)
    requires c !in "nrt\\()"
    ensures Unescape(['\\', c] + rest) == ['\\', c] + Unescape(rest)
    ensures Unescape("\\") == "\\"
  {
    var w := ['\\', c] + rest;
    assert c != 'n' && c != 'r' && c != 't' && c != '\\' && c != '(' && c != ')' by {
      Listed6();
    }
    assert w[1..] == [c] + rest && ([c] + rest)[1..] == rest;
    assert Unescape(w) == ['\\'] + Unescape([c] + rest);
    assert Unescape([c] + rest) == [c] + Unescape(rest);
  }

  lemma Listed6()
    ensures 'n' in "nrt\\()" && 'r' in "nrt\\()" && 't' in "nrt\\()"
    ensures '\\' in "nrt\\()" && '(' in "nrt\\()" && ')' in "nrt\\()"
  {
    var s := "nrt\\()";
    assert s[0] == 'n' && s[1] == 'r' && s[2] == 't' && s[3] == '\\' && s[4] == '(' && s[5] == ')';
  }

  // ---------- unbalanced input ----------

  /** A string body and its closing parenthesis stand at content[i..k + 1], from nesting depth d. */
  predicate ClosesAt(content: string, i: nat, d: nat, k: nat) {
    i <= k < |content| && content[k] == ')' && Walk(content[i..k], d) == 0
  }

  ghost predicate Closable(content: string, i: nat) { exists k: nat :: ClosesAt(content, i, 0, k) }

  lemma {:induction false} MatchFindsBody(content: string, i: nat, d: nat)
    requires i <= |content| && Match(content, i, d + 1).1 == 0
    ensures ClosesAt(content, i, d, Match(content, i, d + 1).0 - 1)
    decreases |content| - i
  {
    var k := Match(content, i, d + 1).0 - 1;
    if content[i] == '\\' && i + 1 < |content| {
      MatchFindsBody(content, i + 2, d);
      assert content[i..k][2..] == content[i + 2..k];
    } else if content[i] == ')' && d == 0 {
      assert content[i..k] == [];
    } else {
      MatchFindsBody(content, i + 1, if content[i] == '(' then d + 1 else if content[i] == ')' then d - 1 else d);
      assert content[i..k][1..] == content[i + 1..k];
    }
  }

  /** The scan from an opening parenthesis succeeds exactly when some body and its closing parenthesis follow. */
  lemma MatchSucceedsIff(content: string, i: nat)
    requires i <= |content|
    ensures Match(content, i, 1).1 == 0 <==> Closable(content, i)
  {
    if Match(content, i, 1).1 == 0 {
      MatchFindsBody(content, i, 0);
    }
    if k: nat :| ClosesAt(content, i, 0, k) {
      assert content[i..] == content[i..k] + (")" + content[k + 1..]);
      MatchBody(content, i, content[i..k], 0, content[k + 1..]);
    }
  }

  /** An opening parenthesis that is never closed is passed over: what follows is extracted as if it were not there. */
  lemma UnclosedParenthesisSkipped(content: string, pos: nat)
    requires pos < |content| && content[pos] == '('
    requires !Closable(content, pos + 1)
    ensures Extract(content, pos) == Extract(content, pos + 1)
  {
    MatchSucceedsIff(content, pos + 1);
    assert FindOpen(content, pos) == pos;
  }
}
