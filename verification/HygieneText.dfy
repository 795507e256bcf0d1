/**
 What cleaned text looks like, character by character, and how it comes from the lines of the original: stated
 without the passes, so that a pass that leaves more or less alone would break a statement here.
 */
module HygieneText {
  import opened Normalization
  import opened Hygiene

  /** White space in the C locale. */
  predicate White(c: char) {
    c == ' ' || c == '\t' || c == '\n' || c == 11 as char || c == 12 as char || c == '\r'
  }

  predicate Blank(c: char) { c == ' ' || c == '\t' }

  lemma WhiteIsSpace(c: char)
    ensures IsSpace(c) <==> White(c)
  {
  }

  // ---------- one line ----------

  /** Trailing white space goes, all of it and nothing else. */
  lemma {:induction false} TrimLaw(line: string, tail: string)
    requires forall c :: c in tail ==> White(c)
    requires line != [] ==> !White(line[|line| - 1])
    ensures TrimLine(line + tail) == line
  {
    if tail == [] {
      assert line + tail == line;
    } else {
      var n := |tail| - 1;
      assert tail[n] in tail;
      assert (line + tail)[..|line + tail| - 1] == line + tail[..n];
      TrimLaw(line, tail[..n]);
    }
  }

  /** A heading: hashes, blanks if any, and a text that begins with neither. */
  lemma HeadingLaw(hashes: string, blanks: string, text: string)
    requires hashes != [] && (forall c :: c in hashes ==> c == '#') && (forall c :: c in blanks ==> Blank(c))
    requires text != [] && !Blank(text[0]) && (blanks == [] ==> text[0] != '#')
    ensures Heading(hashes + (blanks + text)) == hashes + ([' '] + text)
  {
    hide HashRun, BlankRun;
    var line := hashes + (blanks + text);
    var rest := blanks + text;
    assert rest[0] == if blanks != [] then blanks[0] else text[0];
    assert blanks != [] ==> blanks[0] in blanks;
    assert forall i :: 0 <= i < |hashes| ==> hashes[i] in hashes;
    HashRunOf(hashes, rest);
    BlankRunOf(blanks, text);
    assert line[|hashes|..] == blanks + text && line[..|hashes|] == hashes;
    assert line[|hashes| + |blanks|..] == text;
    Associate(hashes, [' '], text);
  }

  lemma BlankRunOf(blanks: string, text: string)
    requires (forall c :: c in blanks ==> Blank(c)) && (text != [] ==> !Blank(text[0]))
    ensures BlankRun(blanks + text) == |blanks|
  {
    var w := blanks + text;
    assert forall i :: 0 <= i < |blanks| ==> w[i] == blanks[i] && blanks[i] in blanks;
    assert text != [] ==> w[|blanks|] == text[0];
  }

  /** Any other line is left alone: no hash in front, or nothing but hashes and blanks. */
  lemma NoHeadingLaw(line: string, hashes: string, blanks: string)
    requires (forall c :: c in hashes ==> c == '#') && (forall c :: c in blanks ==> Blank(c))
    ensures line == [] || line[0] != '#' ==> Heading(line) == line
    ensures Heading(hashes + blanks) == hashes + blanks
  {
    var w := hashes + blanks;
    if hashes != [] {
      assert forall i :: 0 <= i < |hashes| ==> hashes[i] in hashes;
      assert forall i :: 0 <= i < |blanks| ==> blanks[i] in blanks && w[|hashes| + i] == blanks[i];
      assert blanks != [] ==> w[|hashes|] == blanks[0];
      OnlyHashes(w, |hashes|);
      assert w[|hashes|..] == blanks + [];
      BlankRunOf(blanks, []);
    } else {
      assert blanks != [] ==> blanks[0] in blanks;
    }
  }

  lemma OnlyHashes(line: string, n: nat)
    requires n <= |line| && (forall i :: 0 <= i < n ==> line[i] == '#') && (n < |line| ==> line[n] != '#')
    ensures HashRun(line) == n
  {
  }

  /** What a heading line of a cleaned text is: hashes alone, or hashes, one space and a text. */
  predicate HeadingShape(l: string) {
    forall k :: 1 <= k <= |l| && (forall j :: 0 <= j < k ==> l[j] == '#') && (k < |l| ==> l[k] != '#') ==>
      k == |l| || (k + 1 < |l| && l[k] == ' ' && !Blank(l[k + 1]))
  }

  lemma FixedHeadingShape(l: string)
    requires Heading(l) == l && (l != [] ==> !White(l[|l| - 1]))
    ensures HeadingShape(l)
  {
    forall k | 1 <= k < |l| && (forall j :: 0 <= j < k ==> l[j] == '#') && l[k] != '#'
      ensures k + 1 < |l| && l[k] == ' ' && !Blank(l[k + 1])
    {
      assert HashRun(l) == k;
      OneBlankAfter(l, k);
    }
  }

  lemma OneBlankAfter(l: string, k: nat)
    requires 1 <= k < |l| && HashRun(l) == k && Heading(l) == l && !White(l[|l| - 1])
    ensures k + 1 < |l| && l[k] == ' ' && !Blank(l[k + 1])
  {
    hide HashRun, BlankRun;
    var rest := l[k..];
    var b := BlankRun(rest);
    LastNotBlank(rest, l);
    if b < |rest| {
      var out := l[..k] + [' '] + l[k + b..];
      assert out == l;
      assert |out| == k + 1 + |l| - (k + b) && b == 1;
      assert l[k] == out[k] == ' ' && l[k + 1] == rest[1];
    }
  }

  lemma LastNotBlank(rest: string, l: string)
    requires rest != [] && l != [] && rest[|rest| - 1] == l[|l| - 1] && !White(l[|l| - 1])
    ensures BlankRun(rest) < |rest|
  {
    hide BlankRun;
  }

  // ---------- runs of empty lines, and line breaks ----------

  function Empties(n: nat): (s: seq<string>)
    ensures |s| == n && forall i :: 0 <= i < n ==> s[i] == []
  {
    seq(n, _ => [])
  }

  /** A run of n empty lines becomes one of at most two; every other line stays. */
  lemma CollapseLaw(n: nat, line: string, rest: seq<string>)
    requires rest != [] ==> rest[0] != []
    ensures Collapse(Empties(n) + rest, 0) == Empties(if n < 2 then n else 2) + Collapse(rest, 0)
    ensures line != [] ==> Collapse([line] + rest, 0) == [line] + Collapse(rest, 0)
  {
    CollapseRun(n, rest, 0);
    CollapseCons(line, rest, 0);
  }

  lemma EmptiesCons(n: nat, rest: seq<string>)
    ensures Empties(0) + rest == rest
    ensures Empties(n + 1) + rest == [[]] + (Empties(n) + rest)
  {
  }

  lemma {:induction false} CollapseRun(n: nat, rest: seq<string>, b: nat)
    requires rest != [] ==> rest[0] != []
    ensures
      var room := if b < 2 then 2 - b else 0;
      Collapse(Empties(n) + rest, b) == Empties(if n < room then n else room) + Collapse(rest, 0)
  {
    if n == 0 {
      EmptiesCons(0, rest);
      EmptiesCons(0, Collapse(rest, 0));
    } else {
      CollapseRun(n - 1, rest, b + 1);
      hide Collapse, Empties;
      EmptiesCons(n - 1, rest);
      CollapseCons([], Empties(n - 1) + rest, b);
      var left := if n < 2 - b then n - 1 else 1 - b;
      if b < 2 {
        EmptiesCons(left, Collapse(rest, 0));
      }
    }
  }

  /** No three lines in a row are empty. */
  lemma {:induction false} NoThreeEmpty(lines: seq<string>, b: nat, i: nat)
    requires Collapse(lines, b) == lines && i + 2 < |lines|
    ensures lines[i] != [] || lines[i + 1] != [] || lines[i + 2] != []
  {
    var b' := if lines[0] != [] then 0 else b + 1;
    CollapseShrinks(lines[1..], b');
    if i > 0 {
      NoThreeEmpty(lines[1..], b', i - 1);
    } else {
      CollapseShrinks(lines[2..], if lines[1] != [] then 0 else b' + 1);
      CollapseShrinks(lines[3..], 0);
      assert lines[1..][1..] == lines[2..] && lines[2..][1..] == lines[3..];
      FirstKept(lines, b);
      if lines[0] == [] && lines[1] == [] {
        FirstKept(lines[1..], b + 1);
        if lines[2] == [] {
          FirstKept(lines[2..], b + 2);
        }
      }
    }
  }

  lemma {:induction false} CollapseShrinks(lines: seq<string>, b: nat)
    ensures |Collapse(lines, b)| <= |lines|
  {
    if lines != [] {
      CollapseShrinks(lines[1..], if lines[0] != [] then 0 else b + 1);
    }
  }

  lemma FirstKept(lines: seq<string>, b: nat)
    requires lines != [] && Collapse(lines, b) == lines
    ensures lines[0] == [] ==> b < 2
    ensures Collapse(lines[1..], if lines[0] != [] then 0 else b + 1) == lines[1..]
  {
    CollapseShrinks(lines[1..], if lines[0] != [] then 0 else b + 1);
  }

  /** CR LF is one break, so is a lone CR; every other character stays. */
  lemma EndingsLaw(c: char, t: string)
    ensures Endings([]) == []
    ensures Endings(['\r', '\n'] + t) == ['\n'] + Endings(t)
    ensures t == [] || t[0] != '\n' ==> Endings(['\r'] + t) == ['\n'] + Endings(t)
    ensures c != '\r' ==> Endings([c] + t) == [c] + Endings(t)
  {
    assert (['\r', '\n'] + t)[2..] == t && (['\r'] + t)[1..] == t && ([c] + t)[1..] == t;
  }

  // ---------- cleaned texts ----------

  /** Every line of a cleaned text: no break, no trailing white space, and a heading in its one form. */
  lemma CleanLine(t: string, i: nat)
    requires i < |Lines(Clean(t))|
    ensures
      var l := Lines(Clean(t))[i];
      && '\n' !in l && '\r' !in l
      && (l != [] ==> !White(l[|l| - 1]))
      && (l != [] && l[0] == '#' ==> HeadingShape(l))
      && (i + 2 < |Lines(Clean(t))| ==> l != [] || Lines(Clean(t))[i + 1] != [] || Lines(Clean(t))[i + 2] != [])
  {
    CleanIsClean(t);
    hide Clean, Lines, Collapse, Heading;
    LinesAreOneLines(Clean(t));
    var lines := Lines(Clean(t));
    assert OneLine(lines[i]);
    TrimLineIs(lines[i]);
    FixedHeadingShape(lines[i]);
    if i + 2 < |lines| {
      NoThreeEmpty(lines, 0, i);
    }
  }

  /** The lines of a text without trailing white space; a last line of white space that no break follows is none. */
  function TrimmedLines(t: string): seq<string> {
    var ls := TrimLines(Lines(Endings(t)));
    if ls != [] && ls[|ls| - 1] == [] && OpenEnded(Endings(t)) then ls[..|ls| - 1] else ls
  }

  /**
   The lines of a cleaned text are those of the original, each without trailing white space, with runs of empty
   ones cut to two, and each in heading form.
   */
  lemma LinesOfClean(t: string)
    ensures Lines(Clean(t)) == Headings(Collapse(TrimmedLines(t), 0))
  {
    hide Lines, Collapse, TrimLine, Heading, Endings, Rebuild, Headings;
    var e := Endings(t);
    EndingsNoReturn(t);
    LinesOfTrimPass(e);
    TrimPassResult(e);
    CollapsePassResult(TrimPass(e));
    forall i | 0 <= i < |Lines(CollapsePass(TrimPass(e)))|
      ensures TrimLine(Lines(CollapsePass(TrimPass(e)))[i]) == Lines(CollapsePass(TrimPass(e)))[i]
    {
      assert Lines(CollapsePass(TrimPass(e)))[i] in Lines(TrimPass(e));
    }
    LinesOfHeadingPass(CollapsePass(TrimPass(e)));
  }

  lemma TrimmedOneLines(t: string)
    requires '\r' !in t
    ensures OneLines(TrimLines(Lines(t)))
  {
    hide Lines, TrimLine;
    LinesAreOneLines(t);
    var ls := TrimLines(Lines(t));
    forall i | 0 <= i < |ls|
      ensures OneLine(ls[i])
    {
      assert OneLine(Lines(t)[i]);
      TrimLineIs(Lines(t)[i]);
    }
  }

  lemma LinesOfTrimPass(t: string)
    requires '\r' !in t
    ensures
      var ls := TrimLines(Lines(t));
      Lines(TrimPass(t)) == if ls != [] && ls[|ls| - 1] == [] && OpenEnded(t) then ls[..|ls| - 1] else ls
  {
    hide Lines, TrimLine, TrimLines, Unlines, OneLines;
    var ls := TrimLines(Lines(t));
    TrimmedOneLines(t);
    LinesOfUnlines(ls);
    if ls != [] {
      LinesOfOpenUnlines(ls);
    } else if OpenEnded(t) {
      LastLineOpen(t);
    }
  }

  lemma LinesOfHeadingPass(t: string)
    requires '\r' !in t && forall i :: 0 <= i < |Lines(t)| ==> TrimLine(Lines(t)[i]) == Lines(t)[i]
    ensures Lines(HeadingPass(t)) == Headings(Lines(t))
  {
    hide Lines, TrimLine, Heading, Rebuild;
    var ls, hs := Lines(t), Headings(Lines(t));
    LinesAreOneLines(t);
    forall i | 0 <= i < |ls|
      ensures OneLine(hs[i]) && (hs[i] == [] <==> ls[i] == [])
    {
      assert OneLine(ls[i]);
      HeadingOfTrimmed(ls[i]);
    }
    if OpenEnded(t) {
      LastLineOpen(t);
    }
    RebuiltLines(t, hs);
  }

  // ---------- the final line break ----------

  lemma OpenRebuild(t: string, lines: seq<string>)
    requires OneLines(lines)
    ensures OpenEnded(Rebuild(t, lines)) <==> OpenEnded(t) && lines != [] && lines[|lines| - 1] != []
  {
    hide Unlines, OneLine;
    if lines == [] {
      NoUnlines();
    } else {
      var n := |lines| - 1;
      assert lines == lines[..n] + [lines[n]] && OneLine(lines[n]);
      UnlinesSnoc(lines[..n], lines[n]);
      UnlinesEndsInNewline(lines[..n]);
      OpenAfter(Unlines(lines[..n]), lines[n]);
    }
  }

  lemma OpenAfter(front: string, line: string)
    requires (front != [] ==> front[|front| - 1] == '\n') && OneLine(line)
    ensures OpenEnded(front + line) <==> line != []
    ensures !OpenEnded(front + line + ['\n'])
    ensures (front + line + ['\n'])[..|front + line|] == front + line
  {
    assert line != [] ==> (front + line)[|front + line| - 1] == line[|line| - 1];
  }

  lemma {:induction false} OpenEndings(t: string)
    ensures OpenEnded(Endings(t)) <==> OpenEnded(t)
    ensures Endings(t) == [] <==> t == []
    decreases |t|
  {
    if t != [] {
      var rest := t[if t[0] == '\r' && |t| > 1 && t[1] == '\n' then 2 else 1..];
      OpenEndings(rest);
      assert rest != [] ==> Endings(t)[|Endings(t)| - 1] == Endings(rest)[|Endings(rest)| - 1];
      assert rest != [] ==> t[|t| - 1] == rest[|rest| - 1];
    }
  }

  /** A cleaned text lacks its final break exactly when the original did and its last line is not all white space. */
  lemma FinalBreak(t: string)
    ensures
      var ls := TrimLines(Lines(Endings(t)));
      OpenEnded(Clean(t)) <==> OpenEnded(t) && ls != [] && ls[|ls| - 1] != []
  {
    hide Lines, Collapse, TrimLine, Heading, Endings, Rebuild, OpenEnded;
    var e := Endings(t);
    EndingsNoReturn(t);
    OpenEndings(t);
    TrimmedOneLines(e);
    OpenRebuild(e, TrimLines(Lines(e)));
    var t2 := TrimPass(e);
    TrimPassResult(e);
    OpenThroughCollapse(t2);
    CollapsePassResult(t2);
    var t3 := CollapsePass(t2);
    forall i | 0 <= i < |Lines(t3)|
      ensures TrimLine(Lines(t3)[i]) == Lines(t3)[i]
    {
      assert Lines(t3)[i] in Lines(t2);
    }
    OpenThroughHeadings(t3);
  }

  lemma OpenThroughCollapse(t: string)
    requires '\r' !in t
    ensures OpenEnded(CollapsePass(t)) <==> OpenEnded(t)
  {
    hide Lines, Collapse, Rebuild;
    LinesAreOneLines(t);
    var ls := Collapse(Lines(t), 0);
    CollapseMembers(Lines(t), 0);
    forall i | 0 <= i < |ls|
      ensures OneLine(ls[i])
    {
      assert ls[i] in Lines(t);
    }
    OpenRebuild(t, ls);
    if OpenEnded(t) {
      LastLineOpen(t);
    }
  }

  lemma OpenThroughHeadings(t: string)
    requires '\r' !in t && forall i :: 0 <= i < |Lines(t)| ==> TrimLine(Lines(t)[i]) == Lines(t)[i]
    ensures OpenEnded(HeadingPass(t)) <==> OpenEnded(t)
  {
    hide Lines, TrimLine, Heading, Rebuild;
    var ls, hs := Lines(t), Headings(Lines(t));
    LinesAreOneLines(t);
    forall i | 0 <= i < |ls|
      ensures OneLine(hs[i]) && (hs[i] == [] <==> ls[i] == [])
    {
      assert OneLine(ls[i]);
      HeadingOfTrimmed(ls[i]);
    }
    OpenRebuild(t, hs);
    if OpenEnded(t) {
      LastLineOpen(t);
    }
  }

  /** A heading without its space, one with too many, and one without a text. */
  lemma HeadingExamples()
    ensures Heading("##Skills") == "## Skills" && Heading("#   Skills") == "# Skills" && Heading("###") == "###"
  {
    hide Heading;
    HeadingLaw("##", "", "Skills");
    HeadingLaw("#", "   ", "Skills");
    NoHeadingLaw("", "###", "");
    assert "##" + ("" + "Skills") == "##Skills" && "##" + ([' '] + "Skills") == "## Skills";
    assert "#" + ("   " + "Skills") == "#   Skills" && "#" + ([' '] + "Skills") == "# Skills";
    assert "###" + "" == "###";
  }
}
