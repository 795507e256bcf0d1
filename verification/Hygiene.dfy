/** The four text-cleaning passes of resume ingestion and their composition (src/ingest/hygiene.cpp). */
module Hygiene {
  import opened Normalization

  // ---------- lines, as std::getline reads them ----------

  /** Index of the first newline, or the length. */
  function LineEnd(t: string): (n: nat)
    ensures n <= |t| && (n < |t| ==> t[n] == '\n') && forall i :: 0 <= i < n ==> t[i] != '\n'
  {
    if t == [] || t[0] == '\n' then 0 else 1 + LineEnd(t[1..])
  }

  function Lines(t: string): seq<string>
    decreases |t|
  {
    if t == [] then []
    else if LineEnd(t) == |t| then [t]
    else [t[..LineEnd(t)]] + Lines(t[LineEnd(t) + 1..])
  }

  function Unlines(lines: seq<string>): string {
    if lines == [] then [] else lines[0] + ['\n'] + Unlines(lines[1..])
  }

  /** The text does not end in a line break, so its rewriting must not either. */
  predicate OpenEnded(t: string) { t != [] && t[|t| - 1] != '\n' && t[|t| - 1] != '\r' }

  /** The lines written out, without the final newline if the original text had none. */
  function Rebuild(t: string, lines: seq<string>): string {
    var r := Unlines(lines);
    if OpenEnded(t) && r != [] then r[..|r| - 1] else r
  }

  method GetLine(text: string, pos: nat) returns (line: string, next: nat)
    requires pos < |text|
    ensures pos < next <= |text|
    ensures Lines(text[pos..]) == [line] + Lines(text[next..])
  {
    var end := pos;
    while end < |text| && text[end] != '\n'
      invariant pos <= end <= |text|
      invariant end - pos <= LineEnd(text[pos..])
    {
      end := end + 1;
    }
    assert end - pos == LineEnd(text[pos..]);
    line := text[pos..end];
    next := if end < |text| then end + 1 else end;
    if end < |text| {
      assert text[pos..][..end - pos] == line;
      assert text[pos..][end - pos + 1..] == text[next..];
    } else {
      assert text[pos..] == line && text[next..] == [];
    }
  }

  // ---------- the passes, as functions on lines ----------

  function Endings(t: string): string {
    if t == [] then []
    else if t[0] == '\r' then ['\n'] + Endings(t[if |t| > 1 && t[1] == '\n' then 2 else 1..])
    else [t[0]] + Endings(t[1..])
  }

  /** isspace in the C locale. */
  predicate IsSpace(c: char) { c == ' ' || 9 <= c as int <= 13 }

  function TrimLine(line: string): (r: string)
    ensures |r| <= |line|
  {
    if line != [] && IsSpace(line[|line| - 1]) then TrimLine(line[..|line| - 1]) else line
  }

  /** At most two of any run of empty lines; `blanks` of them were just seen. */
  function Collapse(lines: seq<string>, blanks: nat): seq<string> {
    if lines == [] then []
    else if lines[0] != [] then [lines[0]] + Collapse(lines[1..], 0)
    else if blanks < 2 then [lines[0]] + Collapse(lines[1..], blanks + 1)
    else Collapse(lines[1..], blanks + 1)
  }

  function HashRun(line: string): (n: nat)
    ensures n <= |line| && (n < |line| ==> line[n] != '#') && forall i :: 0 <= i < n ==> line[i] == '#'
  {
    if line == [] || line[0] != '#' then 0 else 1 + HashRun(line[1..])
  }

  function BlankRun(line: string): (n: nat)
    ensures n <= |line| && (n < |line| ==> line[n] != ' ' && line[n] != '\t')
    ensures forall i :: 0 <= i < n ==> line[i] == ' ' || line[i] == '\t'
  {
    if line == [] || (line[0] != ' ' && line[0] != '\t') then 0 else 1 + BlankRun(line[1..])
  }

  /** One space between the hashes of a heading and its text; a heading without text is left alone. */
  function Heading(line: string): string {
    var h := HashRun(line);
    var b := BlankRun(line[h..]);
    if h == 0 || h + b == |line| then line else line[..h] + [' '] + line[h + b..]
  }

  function TrimLines(lines: seq<string>): (r: seq<string>)
    ensures |r| == |lines| && forall i :: 0 <= i < |lines| ==> r[i] == TrimLine(lines[i])
  {
    seq(|lines|, i requires 0 <= i < |lines| => TrimLine(lines[i]))
  }

  function Headings(lines: seq<string>): (r: seq<string>)
    ensures |r| == |lines| && forall i :: 0 <= i < |lines| ==> r[i] == Heading(lines[i])
  {
    seq(|lines|, i requires 0 <= i < |lines| => Heading(lines[i]))
  }

  function TrimPass(t: string): string { Rebuild(t, TrimLines(Lines(t))) }
  function CollapsePass(t: string): string { Rebuild(t, Collapse(Lines(t), 0)) }
  function HeadingPass(t: string): string { Rebuild(t, Headings(Lines(t))) }

  function Clean(t: string): string { HeadingPass(CollapsePass(TrimPass(Endings(t)))) }

  // ---------- the passes, as run ----------

  /** A CR LF pair counts as one break. */
  predicate PairAt(t: string, i: nat)
    requires i < |t|
  {
    t[i] == '\r' && i + 1 < |t| && t[i + 1] == '\n'
  }

  lemma EndingsAt(t: string, i: nat, before: string)
    requires i < |t|
    ensures before + Endings(t[i..]) ==
            before + [if t[i] == '\r' then '\n' else t[i]] + Endings(t[if PairAt(t, i) then i + 2 else i + 1..])
  {
    var s := t[i..];
    assert s[1..] == t[i + 1..];
    if PairAt(t, i) {
      assert s[2..] == t[i + 2..];
    }
  }

  method NormalizeLineEndings(text: string) returns (result: string)
    ensures result == Endings(text)
  {
    hide Endings;
    result := [];
    var i := 0;
    assert text[0..] == text && result + Endings(text) == Endings(text);
    while i < |text|
      invariant i <= |text|
      invariant result + Endings(text[i..]) == Endings(text)
    {
      EndingsAt(text, i, result);
      if text[i] == '\r' {
        if i + 1 < |text| && text[i + 1] == '\n' {
          result := result + ['\n'];
          i := i + 1;
        } else {
          result := result + ['\n'];
        }
      } else {
        result := result + [text[i]];
      }
      i := i + 1;
    }
    assert text[i..] == [];
    EndingsEmpty();
    assert result + [] == result;
  }

  lemma EndingsEmpty()
    ensures Endings([]) == []
  {
  }

  method DropFinalNewline(text: string, written: string) returns (result: string)
    requires written == [] || written[|written| - 1] == '\n'
    ensures result == if OpenEnded(text) && written != [] then written[..|written| - 1] else written
  {
    result := written;
    if text != [] && text[|text| - 1] != '\n' && text[|text| - 1] != '\r' {
      if result != [] && result[|result| - 1] == '\n' {
        result := result[..|result| - 1];
      }
    }
  }

  method TrimTrailingWhitespace(text: string) returns (result: string)
    ensures result == TrimPass(text)
  {
    hide Lines, Unlines, TrimLines, Headings;
    result := [];
    var pos := 0;
    assert text[0..] == text;
    while pos < |text|
      invariant pos <= |text|
      invariant result + Unlines(TrimLines(Lines(text[pos..]))) == Unlines(TrimLines(Lines(text)))
      invariant result == [] || result[|result| - 1] == '\n'
    {
      var line, next := GetLine(text, pos);
      var end := |line|;
      assert line[..end] == line;
      while end > 0 && IsSpace(line[end - 1])
        invariant 0 <= end <= |line| && TrimLine(line[..end]) == TrimLine(line)
      {
        assert line[..end][..end - 1] == line[..end - 1];
        end := end - 1;
      }
      assert line[..end] == TrimLine(line);
      TrimLinesCons(line, Lines(text[next..]));
      UnlinesCons(TrimLine(line), TrimLines(Lines(text[next..])), result);
      result := result + line[..end] + ['\n'];
      pos := next;
    }
    NothingWritten(0);
    assert text[pos..] == [] && result + [] == result;
    result := DropFinalNewline(text, result);
  }

  lemma NoLines()
    ensures Lines([]) == []
  {
  }

  lemma UnlinesCons(line: string, lines: seq<string>, before: string)
    ensures before + Unlines([line] + lines) == (before + line + ['\n']) + Unlines(lines)
  {
    assert ([line] + lines)[1..] == lines;
  }

  lemma CollapseCons(line: string, rest: seq<string>, b: nat)
    ensures Collapse([line] + rest, b) ==
            if line != [] then [line] + Collapse(rest, 0)
            else if b < 2 then [line] + Collapse(rest, b + 1) else Collapse(rest, b + 1)
  {
    assert ([line] + rest)[1..] == rest;
  }

  lemma TrimLinesCons(line: string, rest: seq<string>)
    ensures TrimLines([line] + rest) == [TrimLine(line)] + TrimLines(rest)
  {
    assert ([line] + rest)[1..] == rest;
  }

  lemma HeadingsCons(line: string, rest: seq<string>)
    ensures Headings([line] + rest) == [Heading(line)] + Headings(rest)
  {
    assert ([line] + rest)[1..] == rest;
  }

  lemma NothingWritten(b: nat)
    ensures Unlines([]) == [] && Lines([]) == [] && Collapse([], b) == [] && TrimLines([]) == [] && Headings([]) == []
  {
  }

  method CollapseBlankLines(text: string) returns (result: string)
    ensures result == CollapsePass(text)
  {
    hide Lines, Collapse, Unlines;
    result := [];
    var blankCount := 0;
    var pos := 0;
    assert text[0..] == text;
    while pos < |text|
      invariant pos <= |text|
      invariant result + Unlines(Collapse(Lines(text[pos..]), blankCount)) == Unlines(Collapse(Lines(text), 0))
      invariant result == [] || result[|result| - 1] == '\n'
    {
      var line, next := GetLine(text, pos);
      CollapseCons(line, Lines(text[next..]), blankCount);
      if line == [] {
        UnlinesCons(line, Collapse(Lines(text[next..]), blankCount + 1), result);
        assert result + line + ['\n'] == result + ['\n'];
        blankCount := blankCount + 1;
        if blankCount <= 2 {
          result := result + ['\n'];
        }
      } else {
        UnlinesCons(line, Collapse(Lines(text[next..]), 0), result);
        blankCount := 0;
        result := result + line;
        result := result + ['\n'];
      }
      pos := next;
    }
    NothingWritten(blankCount);
    assert text[pos..] == [] && result + [] == result;
    result := DropFinalNewline(text, result);
  }

  method NormalizeHeadings(text: string) returns (result: string)
    ensures result == HeadingPass(text)
  {
    hide Lines, Unlines, TrimLines, Headings;
    result := [];
    var pos := 0;
    assert text[0..] == text;
    while pos < |text|
      invariant pos <= |text|
      invariant result + Unlines(Headings(Lines(text[pos..]))) == Unlines(Headings(Lines(text)))
      invariant result == [] || result[|result| - 1] == '\n'
    {
      var line, next := GetLine(text, pos);
      HeadingsCons(line, Lines(text[next..]));
      UnlinesCons(Heading(line), Headings(Lines(text[next..])), result);
      var out := NormalizeHeadingLine(line);
      result := result + out;
      result := result + ['\n'];
      pos := next;
    }
    NothingWritten(0);
    assert text[pos..] == [] && result + [] == result;
    result := DropFinalNewline(text, result);
  }

  method NormalizeHeadingLine(line: string) returns (out: string)
    ensures out == Heading(line)
  {
    if line != [] && line[0] == '#' {
      var hashEnd := HashRun(line);
      if hashEnd < |line| && hashEnd > 0 {
        var rest := line[hashEnd..];
        var textStart := BlankRun(rest);
        if textStart < |rest| {
          out := line[..hashEnd] + [' '] + rest[textStart..];
        } else {
          out := line;
        }
      } else {
        out := line;
      }
    } else {
      out := line;
    }
  }

  method ApplyHygiene(text: string) returns (result: string)
    ensures result == Clean(text)
  {
    result := NormalizeLineEndings(text);
    result := TrimTrailingWhitespace(result);
    result := CollapseBlankLines(result);
    result := NormalizeHeadings(result);
  }

  // ---------- reading back what was written ----------

  predicate OneLine(line: string) { '\n' !in line && '\r' !in line }

  ghost predicate OneLines(lines: seq<string>) { forall i :: 0 <= i < |lines| ==> OneLine(lines[i]) }

  lemma LinesCons(line: string, rest: string)
    requires '\n' !in line
    ensures Lines(line + ['\n'] + rest) == [line] + Lines(rest)
  {
    var t := line + ['\n'] + rest;
    assert t[|line|] == '\n';
    assert forall i :: 0 <= i < |line| ==> t[i] == line[i];
    assert t[..|line|] == line && t[|line| + 1..] == rest;
  }

  lemma {:induction false} LinesOfUnlines(lines: seq<string>)
    requires OneLines(lines)
    ensures Lines(Unlines(lines)) == lines
  {
    if lines != [] {
      LinesOfUnlines(lines[1..]);
      assert OneLine(lines[0]);
      LinesCons(lines[0], Unlines(lines[1..]));
    }
  }

  lemma {:induction false} UnlinesSnoc(lines: seq<string>, last: string)
    ensures Unlines(lines + [last]) == Unlines(lines) + last + ['\n']
  {
    if lines == [] {
      assert [last][1..] == [];
      assert [] + [last] == [last];
    } else {
      assert (lines + [last])[1..] == lines[1..] + [last];
      UnlinesSnoc(lines[1..], last);
    }
  }

  /** Dropping the last newline leaves the same lines, unless the last line is empty: then it disappears. */
  lemma LinesOfOpenUnlines(lines: seq<string>)
    requires OneLines(lines) && lines != []
    ensures
      var n := |lines| - 1;
      Unlines(lines) != [] &&
      Lines(Unlines(lines)[..|Unlines(lines)| - 1]) == if lines[n] == [] then lines[..n] else lines
  {
    var n := |lines| - 1;
    var front, last := lines[..n], lines[n];
    assert lines == front + [last];
    UnlinesSnoc(front, last);
    var t := Unlines(lines);
    assert t[..|t| - 1] == Unlines(front) + last;
    LinesAppend(front, last);
  }

  lemma {:induction false} LinesAppend(front: seq<string>, last: string)
    requires OneLines(front) && OneLine(last)
    ensures Lines(Unlines(front) + last) == if last == [] then front else front + [last]
  {
    hide Lines, LineEnd;
    if front == [] {
      assert Unlines(front) + last == last;
      LinesOfLine(last);
    } else {
      LinesAppend(front[1..], last);
      assert OneLine(front[0]);
      LinesCons(front[0], Unlines(front[1..]) + last);
      Regroup(front[0], Unlines(front[1..]), last);
      hide Unlines, OneLine;
      assert front == [front[0]] + front[1..];
      assert front + [last] == [front[0]] + (front[1..] + [last]);
    }
  }

  lemma LinesOfLine(line: string)
    requires OneLine(line)
    ensures Lines(line) == if line == [] then [] else [line]
  {
    assert LineEnd(line) == |line|;
  }

  lemma Regroup(a: string, b: string, c: string)
    ensures a + ['\n'] + b + c == a + ['\n'] + (b + c)
  {
  }

  lemma {:induction false} LinesAreOneLines(t: string)
    requires '\r' !in t
    ensures OneLines(Lines(t))
    decreases |t|
  {
    if t != [] && LineEnd(t) < |t| {
      LinesAreOneLines(t[LineEnd(t) + 1..]);
    }
  }

  /** An open-ended text has a non-empty last line. */
  lemma {:induction false} LastLineOpen(t: string)
    requires t != [] && t[|t| - 1] != '\n'
    ensures Lines(t) != [] && Lines(t)[|Lines(t)| - 1] != []
    decreases |t|
  {
    if LineEnd(t) < |t| {
      var line, rest := FirstLine(t);
      assert Lines(t) == [line] + Lines(rest);
      hide Lines, LineEnd;
      LastLineOpen(rest);
    }
  }

  /** Writing back the lines of a text gives the text. */
  lemma {:induction false} RebuildLines(t: string)
    requires t != [] ==> t[|t| - 1] != '\r'
    ensures Rebuild(t, Lines(t)) == t
    decreases |t|
  {
    if t == [] {
      NothingWritten(0);
    } else if LineEnd(t) == |t| {
      RebuildLastLine(t);
    } else {
      var line, rest := FirstLine(t);
      hide Lines, Rebuild;
      RebuildLines(rest);
      RebuildCons(line, rest);
    }
  }

  lemma FirstLine(t: string) returns (line: string, rest: string)
    requires LineEnd(t) < |t|
    ensures line == t[..LineEnd(t)] && rest == t[LineEnd(t) + 1..]
    ensures t == line + ['\n'] + rest && '\n' !in line && |rest| < |t|
    ensures rest != [] ==> rest[|rest| - 1] == t[|t| - 1]
  {
    line, rest := t[..LineEnd(t)], t[LineEnd(t) + 1..];
  }

  lemma RebuildLastLine(t: string)
    requires t != [] && LineEnd(t) == |t| && t[|t| - 1] != '\r'
    ensures Rebuild(t, Lines(t)) == t
  {
    assert [t][1..] == [];
    assert Unlines([t]) == t + ['\n'];
  }

  lemma PrependRebuilt(p: string, u: string, rest: string)
    requires rest != [] && u != []
    requires rest == if OpenEnded(rest) then u[..|u| - 1] else u
    ensures p + rest == if OpenEnded(p + rest) then (p + u)[..|p + u| - 1] else p + u
  {
    assert (p + rest)[|p + rest| - 1] == rest[|rest| - 1];
    assert (p + u)[..|p + u| - 1] == p + u[..|u| - 1];
  }

  lemma RebuildCons(line: string, rest: string)
    requires '\n' !in line && Rebuild(rest, Lines(rest)) == rest
    ensures Rebuild(line + ['\n'] + rest, Lines(line + ['\n'] + rest)) == line + ['\n'] + rest
  {
    hide Lines, Unlines, OpenEnded;
    LinesCons(line, rest);
    var p, u := line + ['\n'], Unlines(Lines(rest));
    UnlinesCons(line, Lines(rest), []);
    assert [] + line + ['\n'] == p;
    assert [] + Unlines([line] + Lines(rest)) == Unlines([line] + Lines(rest));
    if rest == [] {
      NoLines();
      ClosedText(line);
      assert u == [] by {
        NoUnlines();
      }
      assert p + u == p && p + rest == p;
    } else {
      LastLineOrNot(rest);
      UnlinesNonEmpty(Lines(rest));
      PrependRebuilt(p, u, rest);
    }
  }

  lemma ClosedText(line: string)
    ensures !OpenEnded(line + ['\n'])
  {
  }

  lemma NoUnlines()
    ensures Unlines([]) == []
  {
  }

  lemma LastLineOrNot(t: string)
    requires t != []
    ensures Lines(t) != []
  {
  }

  lemma UnlinesNonEmpty(lines: seq<string>)
    requires lines != []
    ensures Unlines(lines) != []
  {
  }

  lemma {:induction false} UnlinesEndsInNewline(lines: seq<string>)
    ensures Unlines(lines) != [] ==> Unlines(lines)[|Unlines(lines)| - 1] == '\n'
  {
    if lines != [] {
      UnlinesEndsInNewline(lines[1..]);
    }
  }

  lemma {:induction false} UnlinesNoReturn(lines: seq<string>)
    requires OneLines(lines)
    ensures '\r' !in Unlines(lines)
  {
    if lines != [] {
      assert OneLine(lines[0]);
      UnlinesNoReturn(lines[1..]);
    }
  }

  lemma RebuildNoReturn(t: string, lines: seq<string>)
    requires OneLines(lines)
    ensures '\r' !in Rebuild(t, lines)
  {
    UnlinesNoReturn(lines);
  }

  /** Lines of a rebuilt text: as given, when its last line is non-empty wherever the original was open-ended. */
  lemma RebuiltLines(t: string, lines: seq<string>)
    requires OneLines(lines)
    requires OpenEnded(t) ==> lines != [] && lines[|lines| - 1] != []
    ensures Lines(Rebuild(t, lines)) == lines
  {
    hide Lines, Unlines, OneLines;
    LinesOfUnlines(lines);
    if OpenEnded(t) {
      LinesOfOpenUnlines(lines);
    }
  }

  // ---------- a text no pass changes ----------

  ghost predicate IsClean(t: string) {
    && '\r' !in t
    && Collapse(Lines(t), 0) == Lines(t)
    && forall i :: 0 <= i < |Lines(t)| ==> TrimLine(Lines(t)[i]) == Lines(t)[i] && Heading(Lines(t)[i]) == Lines(t)[i]
  }

  lemma {:induction false} EndingsNoReturn(t: string)
    ensures '\r' !in Endings(t)
    ensures '\r' !in t ==> Endings(t) == t
    decreases |t|
  {
    if t != [] {
      EndingsNoReturn(t[if t[0] == '\r' && |t| > 1 && t[1] == '\n' then 2 else 1..]);
      if '\r' !in t {
        assert t == [t[0]] + t[1..];
      }
    }
  }

  lemma CleanIsFixed(t: string)
    requires IsClean(t)
    ensures Clean(t) == t
  {
    hide Lines, Rebuild, TrimLine, Heading, Collapse, Endings;
    EndingsNoReturn(t);
    assert t != [] ==> t[|t| - 1] in t;
    RebuildLines(t);
    assert TrimLines(Lines(t)) == Lines(t);
    assert Headings(Lines(t)) == Lines(t);
  }

  lemma {:induction false} TrimLineIs(line: string)
    ensures TrimLine(line) <= line
    ensures TrimLine(line) != [] ==> !IsSpace(TrimLine(line)[|TrimLine(line)| - 1])
    ensures TrimLine(TrimLine(line)) == TrimLine(line)
  {
    if line != [] && IsSpace(line[|line| - 1]) {
      TrimLineIs(line[..|line| - 1]);
    }
  }

  /** After the trimming pass no line ends in white space and there is no carriage return. */
  lemma TrimPassResult(t: string)
    requires '\r' !in t
    ensures '\r' !in TrimPass(t)
    ensures forall i :: 0 <= i < |Lines(TrimPass(t))| ==> TrimLine(Lines(TrimPass(t))[i]) == Lines(TrimPass(t))[i]
  {
    hide Lines, TrimLine;
    var ls := TrimLines(Lines(t));
    LinesAreOneLines(t);
    forall i | 0 <= i < |ls|
      ensures OneLine(ls[i]) && TrimLine(ls[i]) == ls[i]
    {
      assert OneLine(Lines(t)[i]);
      TrimLineIs(Lines(t)[i]);
    }
    RebuildNoReturn(t, ls);
    if OpenEnded(t) && ls != [] {
      LinesOfOpenUnlines(ls);
    } else {
      LinesOfUnlines(ls);
    }
  }

  lemma {:induction false} CollapseIdempotent(lines: seq<string>, b: nat)
    ensures Collapse(Collapse(lines, b), b) == Collapse(lines, b)
    ensures b >= 2 && Collapse(lines, b) != [] ==> Collapse(lines, b)[0] != []
  {
    if lines != [] {
      var b' := if lines[0] != [] then 0 else b + 1;
      CollapseIdempotent(lines[1..], b');
      var r := Collapse(lines[1..], b');
      if lines[0] != [] || b < 2 {
        assert Collapse(lines, b) == [lines[0]] + r;
        CollapseCons(lines[0], r, b);
      } else {
        SameFromTwo(r, b, b + 1);
      }
    }
  }

  lemma {:induction false} CollapseMembers(lines: seq<string>, b: nat)
    ensures forall l :: l in Collapse(lines, b) ==> l in lines
    ensures lines != [] && lines[|lines| - 1] != [] ==>
      Collapse(lines, b) != [] && Collapse(lines, b)[|Collapse(lines, b)| - 1] == lines[|lines| - 1]
  {
    if lines != [] {
      CollapseMembers(lines[1..], if lines[0] != [] then 0 else b + 1);
      assert lines == [lines[0]] + lines[1..];
    }
  }

  lemma SameFromTwo(lines: seq<string>, b: nat, b': nat)
    requires b >= 2 && b' >= 2 && (lines != [] ==> lines[0] != [])
    ensures Collapse(lines, b) == Collapse(lines, b')
  {
  }

  /** Whether collapsing changes a list depends only on which lines are empty. */
  lemma {:induction false} CollapseByShape(lines: seq<string>, other: seq<string>, b: nat)
    requires |lines| == |other| && forall i :: 0 <= i < |lines| ==> (lines[i] == [] <==> other[i] == [])
    ensures |Collapse(lines, b)| == |Collapse(other, b)| <= |lines|
    ensures |Collapse(lines, b)| == |lines| ==> Collapse(other, b) == other
  {
    if lines != [] {
      CollapseByShape(lines[1..], other[1..], if lines[0] != [] then 0 else b + 1);
    }
  }

  lemma CollapsePassResult(t: string)
    requires '\r' !in t
    ensures '\r' !in CollapsePass(t)
    ensures Lines(CollapsePass(t)) == Collapse(Lines(t), 0)
    ensures Collapse(Lines(CollapsePass(t)), 0) == Lines(CollapsePass(t))
    ensures forall l :: l in Lines(CollapsePass(t)) ==> l in Lines(t)
    ensures OpenEnded(t) ==> Lines(t) != [] && Lines(t)[|Lines(t)| - 1] != []
  {
    hide Lines, Collapse;
    var ls := Collapse(Lines(t), 0);
    CollapseIdempotent(Lines(t), 0);
    CollapseMembers(Lines(t), 0);
    LinesAreOneLines(t);
    assert OneLines(ls) by {
      forall i | 0 <= i < |ls|
        ensures OneLine(ls[i])
      {
        assert ls[i] in ls;
      }
    }
    if OpenEnded(t) {
      LastLineOpen(t);
    }
    RebuiltLines(t, ls);
    RebuildNoReturn(t, ls);
  }

  lemma HashRunOf(hashes: string, rest: string)
    requires forall i :: 0 <= i < |hashes| ==> hashes[i] == '#'
    requires rest != [] && rest[0] != '#'
    ensures HashRun(hashes + rest) == |hashes|
  {
    assert (hashes + rest)[|hashes|] == rest[0];
    assert forall i :: 0 <= i < |hashes| ==> (hashes + rest)[i] == '#';
  }

  /** A heading in normal form is left alone. */
  lemma NormalHeading(hashes: string, tail: string)
    requires hashes != [] && forall i :: 0 <= i < |hashes| ==> hashes[i] == '#'
    requires tail != [] && tail[0] != ' ' && tail[0] != '\t'
    ensures Heading(hashes + ([' '] + tail)) == hashes + ([' '] + tail)
  {
    hide HashRun, BlankRun;
    var rest := [' '] + tail;
    var out := hashes + rest;
    HashRunOf(hashes, rest);
    OneBlank(tail);
    assert out[|hashes|..] == rest && out[..|hashes|] == hashes && out[|hashes| + 1..] == tail;
    Associate(hashes, [' '], tail);
  }

  lemma OneBlank(tail: string)
    requires tail != [] && tail[0] != ' ' && tail[0] != '\t'
    ensures BlankRun([' '] + tail) == 1
  {
    assert ([' '] + tail)[1..] == tail;
  }

  /** Either a line is its own heading form, or it is hashes, blanks and a text, and only the blanks change. */
  lemma HeadingParts(line: string) returns (hashes: string, tail: string)
    ensures Heading(line) == line || Heading(line) == hashes + ([' '] + tail)
    ensures Heading(line) != line ==>
      && hashes != [] && (forall i :: 0 <= i < |hashes| ==> hashes[i] == '#')
      && tail != [] && tail[0] != ' ' && tail[0] != '\t' && tail[|tail| - 1] == line[|line| - 1]
      && (forall c :: c in hashes || c in tail ==> c in line)
  {
    hide HashRun, BlankRun;
    var h := HashRun(line);
    var b := BlankRun(line[h..]);
    hashes, tail := line[..h], line[h + b..];
    if h > 0 && h + b < |line| {
      assert tail[0] == line[h..][b];
      assert Heading(line) == hashes + [' '] + tail;
      hide Heading;
      Associate(hashes, [' '], tail);
      PartMembers(line, 0, h);
      PartMembers(line, h + b, |line|);
    }
  }

  lemma Associate(a: string, b: string, c: string)
    ensures a + b + c == a + (b + c)
  {
  }

  lemma PartMembers(line: string, i: nat, j: nat)
    requires i <= j <= |line|
    ensures forall c :: c in line[i..j] ==> c in line
  {
  }

  /** On a line without trailing white space the heading form is reached at once and stays trimmed. */
  lemma HeadingOfTrimmed(line: string)
    requires TrimLine(line) == line && OneLine(line)
    ensures Heading(Heading(line)) == Heading(line)
    ensures TrimLine(Heading(line)) == Heading(line) && OneLine(Heading(line))
    ensures Heading(line) == [] <==> line == []
  {
    TrimLineIs(line);
    var hashes, tail := HeadingParts(line);
    assert Heading([]) == [];
    hide Heading, TrimLine;
    if Heading(line) != line {
      NormalHeading(hashes, tail);
      var whole := hashes + ([' '] + tail);
      assert whole[|whole| - 1] == tail[|tail| - 1];
      NoTrailingSpace(whole);
      assert forall c :: c in whole ==> c in hashes || c == ' ' || c in tail;
    }
  }

  lemma NoTrailingSpace(line: string)
    requires line != [] && !IsSpace(line[|line| - 1])
    ensures TrimLine(line) == line
  {
  }

  lemma HeadingPassResult(t: string)
    requires '\r' !in t
    requires Collapse(Lines(t), 0) == Lines(t)
    requires forall i :: 0 <= i < |Lines(t)| ==> TrimLine(Lines(t)[i]) == Lines(t)[i]
    ensures IsClean(HeadingPass(t))
  {
    hide Lines, Collapse, TrimLine, Heading;
    var ls, hs := Lines(t), Headings(Lines(t));
    LinesAreOneLines(t);
    forall i | 0 <= i < |ls|
      ensures Heading(hs[i]) == hs[i] && TrimLine(hs[i]) == hs[i] && OneLine(hs[i]) && (hs[i] == [] <==> ls[i] == [])
    {
      assert OneLine(ls[i]);
      HeadingOfTrimmed(ls[i]);
    }
    if OpenEnded(t) {
      LastLineOpen(t);
    }
    RebuiltLines(t, hs);
    RebuildNoReturn(t, hs);
    CollapseByShape(ls, hs, 0);
  }

  lemma CleanIsClean(t: string)
    ensures IsClean(Clean(t))
  {
    hide Lines, Collapse, TrimLine, Heading, Endings, TrimPass, CollapsePass, HeadingPass, IsClean;
    var t1 := Endings(t);
    EndingsNoReturn(t);
    var t2 := TrimPass(t1);
    TrimPassResult(t1);
    var t3 := CollapsePass(t2);
    CollapsePassResult(t2);
    forall i | 0 <= i < |Lines(t3)|
      ensures TrimLine(Lines(t3)[i]) == Lines(t3)[i]
    {
      assert Lines(t3)[i] in Lines(t3);
    }
    HeadingPassResult(t3);
  }

  /** Cleaning a cleaned text changes nothing, for every text. */
  lemma HygieneIdempotent(t: string)
    ensures Clean(Clean(t)) == Clean(t)
  {
    hide Clean, IsClean;
    CleanIsClean(t);
    CleanIsFixed(Clean(t));
  }

  /** The texts left alone are exactly the clean ones. */
  lemma FixedIffClean(t: string)
    ensures Clean(t) == t <==> IsClean(t)
  {
    hide Clean, IsClean;
    CleanIsClean(t);
    if IsClean(t) {
      CleanIsFixed(t);
    }
  }

  // ---------- meaning for matching: the tokens ----------

  function LineTokens(lines: seq<string>, min: nat): seq<string> {
    if lines == [] then [] else Tokens(lines[0], min) + LineTokens(lines[1..], min)
  }

  lemma {:induction false} TokensOfUnlines(lines: seq<string>, min: nat)
    ensures Tokens(Unlines(lines), min) == LineTokens(lines, min)
  {
    hide Tokens;
    if lines == [] {
      NoTokens(min);
    } else {
      TokensOfUnlines(lines[1..], min);
      TokensSplit(lines[0], '\n', Unlines(lines[1..]), min);
    }
  }

  lemma TokensOfRebuild(t: string, lines: seq<string>, min: nat)
    ensures Tokens(Rebuild(t, lines), min) == LineTokens(lines, min)
  {
    hide Tokens;
    TokensOfUnlines(lines, min);
    var r := Unlines(lines);
    if r != [] {
      UnlinesEndsInNewline(lines);
      TokensThenDelimiter(r[..|r| - 1], '\n', min);
      assert r == r[..|r| - 1] + ['\n'];
    }
  }

  lemma {:induction false} TokensOfLines(t: string, min: nat)
    ensures Tokens(t, min) == LineTokens(Lines(t), min)
    decreases |t|
  {
    hide Tokens;
    NoTokens(min);
    if t != [] {
      var n := LineEnd(t);
      if n == |t| {
        assert [t][1..] == [];
        assert Tokens(t, min) + [] == Tokens(t, min);
      } else {
        var rest := t[n + 1..];
        TokensOfLines(rest, min);
        TokensSplit(t[..n], '\n', rest, min);
        assert t == t[..n] + ['\n'] + rest;
        assert ([t[..n]] + Lines(rest))[1..] == Lines(rest);
      }
    }
  }

  lemma {:induction false} TrimLineTokens(line: string, min: nat)
    ensures Tokens(TrimLine(line), min) == Tokens(line, min)
  {
    hide Tokens;
    if line != [] && IsSpace(line[|line| - 1]) {
      var n := |line| - 1;
      TrimLineTokens(line[..n], min);
      TokensThenDelimiter(line[..n], line[n], min);
      assert line == line[..n] + [line[n]];
    }
  }

  lemma {:induction false} TokensSkip(p: string, s: string, min: nat)
    requires forall i :: 0 <= i < |p| ==> !IsAlnum(p[i])
    ensures Tokens(p + s, min) == Tokens(s, min)
  {
    if p == [] {
      assert p + s == s;
    } else {
      assert (p + s)[1..] == p[1..] + s;
      TokensSkip(p[1..], s, min);
    }
  }

  lemma HeadingTokens(line: string, min: nat)
    ensures Tokens(Heading(line), min) == Tokens(line, min)
  {
    hide Tokens;
    var h := HashRun(line);
    var b := BlankRun(line[h..]);
    if h > 0 && h + b < |line| {
      var tail := line[h + b..];
      assert forall i :: 0 <= i < h + b ==> line[i] == if i < h then line[i] else line[h..][i - h];
      TokensSkip(line[..h + b], tail, min);
      assert line == line[..h + b] + tail;
      TokensSkip(line[..h] + [' '], tail, min);
    }
  }

  lemma {:induction false} TrimLinesTokens(lines: seq<string>, min: nat)
    ensures LineTokens(TrimLines(lines), min) == LineTokens(lines, min)
  {
    if lines != [] {
      TrimLineTokens(lines[0], min);
      TrimLinesTokens(lines[1..], min);
      assert TrimLines(lines)[1..] == TrimLines(lines[1..]);
    }
  }

  lemma {:induction false} HeadingsTokens(lines: seq<string>, min: nat)
    ensures LineTokens(Headings(lines), min) == LineTokens(lines, min)
  {
    if lines != [] {
      HeadingTokens(lines[0], min);
      HeadingsTokens(lines[1..], min);
      assert Headings(lines)[1..] == Headings(lines[1..]);
    }
  }

  lemma {:induction false} CollapseTokens(lines: seq<string>, b: nat, min: nat)
    ensures LineTokens(Collapse(lines, b), min) == LineTokens(lines, min)
  {
    hide Tokens;
    NoTokens(min);
    if lines != [] {
      var b' := if lines[0] != [] then 0 else b + 1;
      CollapseTokens(lines[1..], b', min);
      var r := Collapse(lines[1..], b');
      assert ([lines[0]] + r)[1..] == r;
    }
  }

  lemma {:induction false} EndingsRun(t: string, n: nat)
    requires n <= |t| && forall i :: 0 <= i < n ==> t[i] != '\r'
    ensures Endings(t) == t[..n] + Endings(t[n..])
  {
    if n > 0 {
      EndingsRun(t[1..], n - 1);
      assert t[1..][..n - 1] == t[1..n] && t[1..][n - 1..] == t[n..];
      assert t[..n] == [t[0]] + t[1..n];
    }
  }

  lemma {:induction false} EndingsTokens(t: string, min: nat)
    ensures Tokens(Endings(t), min) == Tokens(t, min)
    decreases |t|
  {
    if t == [] {
    } else if IsAlnum(t[0]) {
      var n := RunLength(t);
      EndingsRun(t, n);
      EndingsTokens(t[n..], min);
      SameRun(t, n);
      assert Endings(t)[..n] == t[..n] && Endings(t)[n..] == Endings(t[n..]);
    } else if t[0] == '\r' && |t| > 1 && t[1] == '\n' {
      EndingsTokens(t[2..], min);
      assert Endings(t)[1..] == Endings(t[2..]);
      assert t[1..][1..] == t[2..];
    } else {
      EndingsTokens(t[1..], min);
      assert Endings(t)[1..] == Endings(t[1..]);
    }
  }

  lemma SameRun(t: string, n: nat)
    requires n == RunLength(t) && Endings(t) == t[..n] + Endings(t[n..])
    ensures RunLength(Endings(t)) == n
  {
    if n < |t| {
      assert Endings(t[n..]) != [] && !IsAlnum(Endings(t[n..])[0]);
      assert Endings(t)[n] == Endings(t[n..])[0];
    } else {
      assert t[..n] == t && Endings([]) == [];
    }
    assert forall i :: 0 <= i < n ==> Endings(t)[i] == t[i];
  }

  /** Cleaning preserves meaning for matching: the same tokens in the same order, for every text and length. */
  lemma HygienePreservesTokens(t: string, min: nat)
    ensures Tokens(Clean(t), min) == Tokens(t, min)
  {
    hide Tokens, Lines, Endings, Rebuild, TrimLines, Collapse, Headings, LineTokens;
    var t1 := Endings(t);
    EndingsTokens(t, min);
    var t2 := TrimPass(t1);
    TokensOfRebuild(t1, TrimLines(Lines(t1)), min);
    TrimLinesTokens(Lines(t1), min);
    TokensOfLines(t1, min);
    var t3 := CollapsePass(t2);
    TokensOfRebuild(t2, Collapse(Lines(t2), 0), min);
    CollapseTokens(Lines(t2), 0, min);
    TokensOfLines(t2, min);
    TokensOfRebuild(t3, Headings(Lines(t3)), min);
    HeadingsTokens(Lines(t3), min);
    TokensOfLines(t3, min);
  }
}
