/**
 The rewritten block, line by line: which lines of the text a replacement keeps, and
 what stands between them (`replaceBlockLines` in scripts/sync-moonshot-docs.ts).
 */
module BlockLines {
  import opened Common
  import opened BlockLens

  /** The number of newlines. */
  function Newlines(s: string): nat {
    if s == "" then 0 else (if s[0] == NL then 1 else 0) + Newlines(s[1..])
  }

  lemma {:induction false} NewlinesAdd(x: string, y: string)
    ensures Newlines(x + y) == Newlines(x) + Newlines(y)
    decreases |x|
  {
    if x == "" {
      assert x + y == y;
    } else {
      assert (x + y)[1..] == x[1..] + y;
      NewlinesAdd(x[1..], y);
    }
  }

  lemma {:induction false} NewlinesOfPart(text: string, i: nat, j: nat)
    requires i <= j <= |text| && NoNewline(text, i, j)
    ensures Newlines(text[..j]) == Newlines(text[..i])
  {
    assert text[..j] == text[..i] + text[i..j];
    NewlinesAdd(text[..i], text[i..j]);
    NoNewlines(text[i..j]);
  }

  lemma {:induction false} NoNewlines(x: string)
    requires NoNewline(x, 0, |x|)
    ensures Newlines(x) == 0 && LinesOf(x) == [x]
    decreases |x|
  {
    if x == "" {
    } else {
      NoNewlines(x[1..]);
      assert [x[0]] + x[1..] == x;
    }
  }

  lemma {:induction false} LineCount(x: string)
    ensures |LinesOf(x)| == Newlines(x) + 1
    decreases |x|
  {
    if x == "" {
    } else {
      LineCount(x[1..]);
    }
  }

  /** A newline separates the lines before it from those after it. */
  lemma {:induction false} LinesAround(x: string, y: string)
    ensures LinesOf(x + ([NL] + y)) == LinesOf(x) + LinesOf(y)
    decreases |x|
  {
    var s := x + ([NL] + y);
    if x == "" {
      assert s == [NL] + y && s[1..] == y;
    } else {
      assert s[1..] == x[1..] + ([NL] + y);
      LinesAround(x[1..], y);
      if x[0] != NL {
        assert Prepend(x[0], LinesOf(x[1..]) + LinesOf(y)) == Prepend(x[0], LinesOf(x[1..])) + LinesOf(y);
      }
    }
  }

  /** Whole lines, each with its newline, in front of a text. */
  lemma {:induction false} LinesAfter(before: string, y: string)
    requires before == "" || before[|before| - 1] == NL
    ensures Newlines(before) < |LinesOf(before)| && Newlines(before) <= |LinesOf(before + y)|
    ensures LinesOf(before + y) == LinesOf(before)[..Newlines(before)] + LinesOf(y)
  {
    LineCount(before);
    if before == "" {
      assert before + y == y;
    } else {
      var x := before[..|before| - 1];
      assert before == x + ([NL] + "") && before + y == x + ([NL] + y);
      LinesAround(x, "");
      LinesAround(x, y);
      LineCount(x);
      LineCount("");
      assert LinesOf(before)[..|LinesOf(x)|] == LinesOf(x);
    }
  }

  lemma {:induction false} OneEmptyLine(y: string)
    ensures LinesOf(y) == [""] <==> y == ""
  {
  }

  // ------------------------------------------------------------------- lines of the block

  /** The line, counted from 0, on which index i stands. */
  function LineNumber(text: string, i: nat): nat
    requires i <= |text|
  {
    Newlines(text[..i])
  }

  /** The lines after line k; a text that ends with a newline has no further line. */
  function LinesBehind(lines: seq<string>, k: nat): seq<string>
    requires k < |lines|
  {
    if lines[k + 1..] == [""] then [] else lines[k + 1..]
  }

  /** What stands in front of the first start marker on its line. */
  function IndentOf(line: string, m: Markers): string {
    var i := IndexOf(line, m.start, 0);
    if i == -1 then "" else line[..i]
  }

  /** Before the line that the text before it ends at, the lines of the text are those
      of that text. */
  lemma {:induction false} FrontLines(text: string, s: nat, l: nat)
    requires l <= s <= |text| && BeginsLine(text, s, l)
    ensures LineNumber(text, s) == Newlines(text[..l]) < |LinesOf(text)|
    ensures Newlines(text[..l]) < |LinesOf(text[..l])|
    ensures LinesOf(text)[..LineNumber(text, s)] == LinesOf(text[..l])[..Newlines(text[..l])]
    ensures LinesOf(text)[LineNumber(text, s)] == LinesOf(text[l..])[0]
  {
    NewlinesOfPart(text, l, s);
    assert text == text[..l] + text[l..];
    LinesAfter(text[..l], text[l..]);
  }

  lemma {:induction false} LinesOfRest(text: string, e: nat, n: int)
    requires e <= |text| && n == IndexOf(text, [NL], e)
    ensures LineNumber(text, e) < |LinesOf(text)|
    ensures LinesBehind(LinesOf(text), LineNumber(text, e)) ==
            if n == -1 || n + 1 == |text| then [] else LinesOf(text[n + 1..])
  {
    LineIsOver(text, e, n);
    NewlinesOfPart(text, e, if n == -1 then |text| else n);
    if n == -1 {
      assert text[..|text|] == text;
      LineCount(text);
    } else {
      var x, y := text[..n], text[n + 1..];
      assert text == x + ([NL] + y);
      LinesAround(x, y);
      LineCount(x);
      OneEmptyLine(y);
      assert LinesOf(text)[LineNumber(text, e) + 1..] == LinesOf(y);
    }
  }

  /** The first line of a text. */
  lemma {:induction false} FirstLine(y: string)
    ensures LinesOf(y)[0] <= y
    ensures |LinesOf(y)[0]| < |y| ==> y[|LinesOf(y)[0]|] == NL
    decreases |y|
  {
    if y == "" || y[0] == NL {
    } else {
      FirstLine(y[1..]);
    }
  }

  /** The indent is what its line has in front of the start marker. */
  lemma {:induction false} IndentIsOnLine(text: string, m: Markers)
    requires SingleLine(m) && Locate(text, m).Ok?
    ensures var p := Locate(text, m).value;
            |p.before| <= |text| && IndentOf(LinesOf(text[|p.before|..])[0], m) == p.indent
  {
    var p, s := Locate(text, m).value, StartAt(text, m);
    FrontIsLaid(text, m);
    IndentInFront(text, m, s, |p.before|);
  }

  lemma {:induction false} FrontIsLaid(text: string, m: Markers)
    requires SingleLine(m) && Locate(text, m).Ok?
    ensures var p, s := Locate(text, m).value, StartAt(text, m);
            var l := |p.before|;
            l <= s <= |text| && BeginsLine(text, s, l) && p.before == text[..l] && p.indent == text[l..s]
  {
    CharOf(m.start, text, StartAt(text, m), 0);
  }

  lemma {:induction false} IndentInFront(text: string, m: Markers, s: nat, l: nat)
    requires NL !in m.start && l <= s && BeginsLine(text, s, l)
    requires OccursAt(m.start, text, s) && forall i :: 0 <= i < s ==> !OccursAt(m.start, text, i)
    ensures IndentOf(LinesOf(text[l..])[0], m) == text[l..s]
  {
    var line := LinesOf(text[l..])[0];
    FirstLine(text[l..]);
    MarkerIsOnLine(text, m.start, l, s, |line|);
    FirstOnLine(text, m.start, l, s, line);
  }

  lemma {:induction false} FirstOnLine(text: string, marker: string, l: nat, s: nat, line: string)
    requires l <= s && OccursAt(marker, text, s) && forall i :: 0 <= i < s ==> !OccursAt(marker, text, i)
    requires line <= text[l..] && s - l + |marker| <= |line|
    ensures IndexOf(line, marker, 0) == s - l && line[..s - l] == text[l..s]
  {
    assert OccursAt(line, text, l) by {
      assert forall k :: 0 <= k < |line| ==> text[l + k] == text[l..][k] == line[k];
    }
    OccursInside(marker, line, text, l, s - l);
    forall i | 0 <= i < s - l
      ensures !OccursAt(marker, line, i)
    {
      OccursInside(marker, line, text, l, i);
    }
  }

  lemma {:induction false} MarkerIsOnLine(text: string, marker: string, l: nat, s: nat, n: nat)
    requires OccursAt(marker, text, s) && NL !in marker && l <= s && BeginsLine(text, s, l)
    requires l + n <= |text| && (l + n < |text| ==> text[l + n] == NL)
    ensures s - l + |marker| <= n
  {
    if l + n < |text| {
      BesideNewline(marker, text, s, l + n);
    }
  }

  /** All lines of the result: those before the line of the start marker, the block,
      and those after the line of the end marker. */
  lemma {:induction false} ReplaceKeepsLines(text: string, m: Markers, lines: seq<string>)
    requires SingleLine(m) && Locate(text, m).Ok? && forall i :: 0 <= i < |lines| ==> NL !in lines[i]
    ensures var a, b := LineNumber(text, StartAt(text, m)), LineNumber(text, EndAt(text, m));
            && a < |LinesOf(text)| && b < |LinesOf(text)|
            && LinesOf(ReplaceBlockLines(text, m, lines).value) ==
               LinesOf(text)[..a]
               + Indented(IndentOf(LinesOf(text)[a], m), [m.start] + lines + [m.end])
               + LinesBehind(LinesOf(text), b)
  {
    var p := Locate(text, m).value;
    KeptFront(text, m);
    KeptRest(text, m);
    LocatedIsWellPlaced(text, m);
    LinesOfRender(p, m, lines);
  }

  lemma {:induction false} LinesOfRender(p: Parts, m: Markers, lines: seq<string>)
    requires SingleLine(m) && NL !in p.indent && (p.before == "" || p.before[|p.before| - 1] == NL)
    requires forall i :: 0 <= i < |lines| ==> NL !in lines[i]
    ensures Newlines(p.before) < |LinesOf(p.before)|
    ensures LinesOf(Render(p, m, lines)) ==
            LinesOf(p.before)[..Newlines(p.before)]
            + Indented(p.indent, [m.start] + lines + [m.end])
            + if p.after == "" then [] else LinesOf(p.after)
  {
    var block := Indented(p.indent, [m.start] + lines + [m.end]);
    RenderJoins(p, m, lines);
    LinesAfter(p.before, JoinLines(block) + Tail(p.after));
    BlockAndTail(block, p.after);
    Assoc(LinesOf(p.before)[..Newlines(p.before)], block, if p.after == "" then [] else LinesOf(p.after));
  }

  lemma {:induction false} KeptFront(text: string, m: Markers)
    requires SingleLine(m) && Locate(text, m).Ok?
    ensures var p, a := Locate(text, m).value, LineNumber(text, StartAt(text, m));
            && a == Newlines(p.before) < |LinesOf(p.before)| && a < |LinesOf(text)|
            && LinesOf(text)[..a] == LinesOf(p.before)[..a] && IndentOf(LinesOf(text)[a], m) == p.indent
  {
    var p, s := Locate(text, m).value, StartAt(text, m);
    IndentIsOnLine(text, m);
    FrontIsLaid(text, m);
    FrontLines(text, s, |p.before|);
  }

  lemma {:induction false} KeptRest(text: string, m: Markers)
    requires Locate(text, m).Ok?
    ensures var p, b := Locate(text, m).value, LineNumber(text, EndAt(text, m));
            && b < |LinesOf(text)|
            && LinesBehind(LinesOf(text), b) == if p.after == "" then [] else LinesOf(p.after)
  {
    var e := EndAt(text, m);
    LinesOfRest(text, e, IndexOf(text, [NL], e));
  }

  lemma {:induction false} BlockAndTail(block: seq<string>, after: string)
    requires block != [] && forall i :: 0 <= i < |block| ==> NL !in block[i]
    ensures LinesOf(JoinLines(block) + Tail(after)) == block + if after == "" then [] else LinesOf(after)
  {
    LinesOfJoin(block);
    if after == "" {
      assert JoinLines(block) + Tail(after) == JoinLines(block);
    } else {
      LinesAround(JoinLines(block), after);
    }
  }
}
