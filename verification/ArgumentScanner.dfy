/**
 The quote-aware argument scanner (scripts/check-temp-path-guardrails.ts):
 `beginQuotedSection`, `consumeQuotedChar`, `findMatchingParen` and
 `splitTopLevelArguments`.
 */
module ArgumentScanner {
  import opened Common

  /** Outside quotes, or inside with the closing mark and a pending backslash. */
  datatype Quote = Outside | Inside(mark: char, escaped: bool)

  predicate IsMark(c: char) {
    c == '\'' || c == '"' || c == '`'
  }

  function NextQuote(q: Quote, c: char): Quote {
    match q
    case Outside => if IsMark(c) then Inside(c, false) else Outside
    case Inside(m, true) => Inside(m, false)
    case Inside(m, false) => if c == '\\' then Inside(m, true) else if c == m then Outside else q
  }

  /** Not inside quotes and not a quotation mark itself. */
  predicate IsCode(q: Quote, c: char) {
    q.Outside? && !IsMark(c)
  }

  class QuoteScanState {
    var quote: Option<char>
    var escaped: bool

    ghost predicate Valid()
      reads this
    {
      escaped ==> quote.Some?
    }

    ghost function State(): Quote
      reads this
    {
      if quote.None? then Outside else Inside(quote.value, escaped)
    }

    constructor ()
      ensures Valid() && State() == Outside
    {
      quote, escaped := None, false;
    }

    method BeginQuotedSection(c: char) returns (begun: bool)
      requires Valid() && State().Outside?
      modifies this
      ensures Valid() && begun == IsMark(c) && State() == NextQuote(old(State()), c)
      ensures begun <==> c == '\'' || c == '"' || c == '`'
      ensures quote == (if begun then Some(c) else None) && !escaped
    {
      if c != '\'' && c != '"' && c != '`' {
        return false;
      }
      quote := Some(c);
      return true;
    }

    method ConsumeQuotedChar(c: char) returns (consumed: bool)
      requires Valid()
      modifies this
      ensures Valid() && consumed == old(State()).Inside?
      ensures State() == if consumed then NextQuote(old(State()), c) else old(State())
      ensures consumed <==> old(quote).Some?
      ensures escaped <==> consumed && !old(escaped) && c == '\\'
      ensures quote == if consumed && !old(escaped) && c != '\\' && c == old(quote).value then None else old(quote)
    {
      if quote.None? {
        return false;
      }
      if escaped {
        escaped := false;
        return true;
      }
      if c == '\\' {
        escaped := true;
        return true;
      }
      if c == quote.value {
        quote := None;
      }
      return true;
    }
  }

  // --------------------------------------------------------------- matching parenthesis

  /** How deep the parentheses are; walking fails when one closes that was not
      opened. */
  datatype Place = Place(quote: Quote, depth: nat)

  const GROUND := Place(Outside, 0)

  function WalkChar(p: Place, c: char): Option<Place> {
    var q := NextQuote(p.quote, c);
    if !IsCode(p.quote, c) then Some(Place(q, p.depth))
    else if c == '(' then Some(Place(q, p.depth + 1))
    else if c == ')' then (if p.depth == 0 then None else Some(Place(q, p.depth - 1)))
    else Some(Place(q, p.depth))
  }

  function Walk(p: Place, s: string): Option<Place> {
    if s == "" then Some(p) else
    match Walk(p, s[..|s| - 1])
    case None => None
    case Some(p') => WalkChar(p', s[|s| - 1])
  }

  /** Parentheses are balanced and quotes are closed. */
  predicate Balanced(s: string) {
    Walk(GROUND, s) == Some(GROUND)
  }

  lemma {:induction false} WalkConcat(p: Place, a: string, b: string)
    ensures Walk(p, a + b) == match Walk(p, a) case None => None case Some(p') => Walk(p', b)
    decreases |b|
  {
    if b == "" {
      assert a + b == a;
    } else {
      assert (a + b)[..|a + b| - 1] == a + b[..|b| - 1];
      WalkConcat(p, a, b[..|b| - 1]);
    }
  }

  /** The index of the parenthesis that closes the one at `open`: the only one
      outside quotes with balanced text in between; -1 if there is none. */
  ghost predicate Closes(s: string, open: nat, close: nat) {
    open < close < |s| && s[close] == ')' && Balanced(s[open + 1..close])
  }

  lemma {:induction false} OneCloses(s: string, open: nat, j: nat, k: nat)
    requires Closes(s, open, j) && Closes(s, open, k)
    ensures j == k
  {
    if j < k {
      NoLaterClose(s, open, j, k);
    } else if k < j {
      NoLaterClose(s, open, k, j);
    }
  }

  lemma {:induction false} NoLaterClose(s: string, open: nat, j: nat, k: nat)
    requires Closes(s, open, j) && j < k <= |s|
    ensures Walk(GROUND, s[open + 1..k]) == None
  {
    SliceAround(s, open + 1, j, k);
    WalkConcat(GROUND, s[open + 1..j], [')'] + s[j + 1..k]);
    WalkConcat(GROUND, [')'], s[j + 1..k]);
    WalkClose();
  }

  lemma {:induction false} WalkClose()
    ensures Walk(GROUND, [')']) == None
  {
    assert [')'][..0] == "";
  }

  lemma {:induction false} WalkOneMore(s: string, c: char)
    ensures Walk(GROUND, s + [c]) == match Walk(GROUND, s) case None => None case Some(p) => WalkChar(p, c)
  {
    assert (s + [c])[..|s|] == s;
  }

  /** One more character after the opening parenthesis. */
  lemma {:induction false} WalkOn(s: string, open: nat, i: nat)
    requires open < i < |s|
    ensures Walk(GROUND, s[open + 1..i + 1])
            == match Walk(GROUND, s[open + 1..i]) case None => None case Some(p) => WalkChar(p, s[i])
    ensures Closes(s, open, i) <==> s[i] == ')' && Walk(GROUND, s[open + 1..i]) == Some(GROUND)
  {
    assert s[open + 1..i + 1] == s[open + 1..i] + [s[i]];
    WalkOneMore(s[open + 1..i], s[i]);
  }

  method FindMatchingParen(source: string, openIndex: nat) returns (r: int)
    ensures r == -1 || (r >= 0 && Closes(source, openIndex, r))
    ensures r == -1 <==> !exists k: nat :: Closes(source, openIndex, k)
  {
    if openIndex >= |source| {
      return -1;
    }
    var depth: nat := 1;
    var quoteState := new QuoteScanState();
    for i := openIndex + 1 to |source|
      invariant quoteState.Valid() && depth >= 1
      invariant Walk(GROUND, source[openIndex + 1..i]) == Some(Place(quoteState.State(), depth - 1))
      invariant forall k: nat :: k < i ==> !Closes(source, openIndex, k)
    {
      var c := source[i];
      WalkOn(source, openIndex, i);
      var consumed := quoteState.ConsumeQuotedChar(c);
      if consumed {
        continue;
      }
      var begun := quoteState.BeginQuotedSection(c);
      if begun {
        continue;
      }
      if c == '(' {
        depth := depth + 1;
        continue;
      }
      if c == ')' {
        depth := depth - 1;
        if depth == 0 {
          assert Closes(source, openIndex, i);
          return i;
        }
      }
    }
    r := -1;
  }

  // ------------------------------------------------------------------ top-level arguments

  datatype Depths = Depths(quote: Quote, paren: nat, bracket: nat, brace: nat)

  const TOP := Depths(Outside, 0, 0, 0)

  function Less(n: nat): nat {
    if n > 0 then n - 1 else 0
  }

  function StepDepths(d: Depths, c: char): Depths {
    var d' := d.(quote := NextQuote(d.quote, c));
    if !IsCode(d.quote, c) then d'
    else if c == '(' then d'.(paren := d.paren + 1)
    else if c == ')' then d'.(paren := Less(d.paren))
    else if c == '[' then d'.(bracket := d.bracket + 1)
    else if c == ']' then d'.(bracket := Less(d.bracket))
    else if c == '{' then d'.(brace := d.brace + 1)
    else if c == '}' then d'.(brace := Less(d.brace))
    else d'
  }

  predicate AtTop(d: Depths) {
    d == TOP
  }

  function EndDepths(d: Depths, s: string): Depths {
    if s == "" then d else StepDepths(EndDepths(d, s[..|s| - 1]), s[|s| - 1])
  }

  /** Reading s from depths d meets no comma that would separate arguments. */
  ghost predicate NoTopComma(d: Depths, s: string) {
    forall i :: 0 <= i < |s| && s[i] == ',' ==> !AtTop(EndDepths(d, s[..i]))
  }

  /** The variables of the loop of `splitTopLevelArguments`. */
  datatype Cutting = Cutting(out: seq<string>, current: string, depths: Depths)

  const UNCUT := Cutting([], "", TOP)

  function CutChar(k: Cutting, c: char): Cutting {
    if c == ',' && AtTop(k.depths) then Cutting(k.out + [Trim(k.current)], "", k.depths)
    else Cutting(k.out, k.current + [c], StepDepths(k.depths, c))
  }

  function Cut(k: Cutting, s: string): Cutting {
    if s == "" then k else CutChar(Cut(k, s[..|s| - 1]), s[|s| - 1])
  }

  function Finished(k: Cutting): seq<string> {
    if Trim(k.current) != "" then k.out + [Trim(k.current)] else k.out
  }

  function SplitArguments(s: string): seq<string> {
    Finished(Cut(UNCUT, s))
  }

  method SplitTopLevelArguments(source: string) returns (out: seq<string>)
    ensures out == SplitArguments(source)
  {
    out := [];
    var current := "";
    var parenDepth: nat, bracketDepth: nat, braceDepth: nat := 0, 0, 0;
    var quoteState := new QuoteScanState();
    for i := 0 to |source|
      invariant quoteState.Valid()
      invariant Cut(UNCUT, source[..i])
                == Cutting(out, current, Depths(quoteState.State(), parenDepth, bracketDepth, braceDepth))
    {
      var c := source[i];
      assert source[..i + 1][..i] == source[..i];
      if quoteState.quote.Some? {
        current := current + [c];
        var _ := quoteState.ConsumeQuotedChar(c);
        continue;
      }
      var begun := quoteState.BeginQuotedSection(c);
      if begun {
        current := current + [c];
        continue;
      }
      if c == ',' && parenDepth == 0 && bracketDepth == 0 && braceDepth == 0 {
        out := out + [Trim(current)];
        current := "";
        continue;
      }
      if c == '(' {
        parenDepth := parenDepth + 1;
      } else if c == ')' {
        if parenDepth > 0 { parenDepth := parenDepth - 1; }
      } else if c == '[' {
        bracketDepth := bracketDepth + 1;
      } else if c == ']' {
        if bracketDepth > 0 { bracketDepth := bracketDepth - 1; }
      } else if c == '{' {
        braceDepth := braceDepth + 1;
      } else if c == '}' {
        if braceDepth > 0 { braceDepth := braceDepth - 1; }
      }
      current := current + [c];
    }
    assert source[..|source|] == source;
    if Trim(current) != "" {
      out := out + [Trim(current)];
    }
  }

  // -------------------------------------------------------------------------- lemmas

  lemma {:induction false} CutConcat(k: Cutting, a: string, b: string)
    ensures Cut(k, a + b) == Cut(Cut(k, a), b)
    decreases |b|
  {
    if b == "" {
      assert a + b == a;
    } else {
      assert (a + b)[..|a + b| - 1] == a + b[..|b| - 1];
      CutConcat(k, a, b[..|b| - 1]);
    }
  }

  /** Text without a separating comma is gathered whole. */
  lemma {:induction false} CutWhole(k: Cutting, s: string)
    requires NoTopComma(k.depths, s)
    ensures Cut(k, s) == Cutting(k.out, k.current + s, EndDepths(k.depths, s))
    decreases |s|
  {
    if s == "" {
      assert k.current + s == k.current;
    } else {
      var init := s[..|s| - 1];
      forall i | 0 <= i < |init| && init[i] == ','
        ensures !AtTop(EndDepths(k.depths, init[..i]))
      {
        assert init[..i] == s[..i];
      }
      CutWhole(k, init);
      assert s[|s| - 1] == ',' ==> !AtTop(EndDepths(k.depths, s[..|s| - 1]));
      assert k.current + init + [s[|s| - 1]] == k.current + s;
    }
  }

  /** Reading from greater bracket and brace depths ends at greater ones. */
  predicate Deeper(d: Depths, e: Depths) {
    d.quote == e.quote && d.paren == e.paren && d.bracket <= e.bracket && d.brace <= e.brace
  }

  lemma {:induction false} DeeperStays(d: Depths, e: Depths, s: string)
    requires Deeper(d, e)
    ensures Deeper(EndDepths(d, s), EndDepths(e, s))
    ensures NoTopComma(d, s) ==> NoTopComma(e, s)
    decreases |s|
  {
    if s != "" {
      DeeperStays(d, e, s[..|s| - 1]);
    }
    if NoTopComma(d, s) {
      forall i | 0 <= i < |s| && s[i] == ','
        ensures !AtTop(EndDepths(e, s[..i]))
      {
        DeeperStays(d, e, s[..i]);
      }
    }
  }

  /** Where parentheses never close too early, the two scanners agree on them. */
  lemma {:induction false} WalkAgrees(d: Depths, s: string)
    requires Walk(Place(d.quote, d.paren), s).Some?
    ensures Walk(Place(d.quote, d.paren), s) == Some(Place(EndDepths(d, s).quote, EndDepths(d, s).paren))
    decreases |s|
  {
    if s == "" {
    } else {
      WalkAgrees(d, s[..|s| - 1]);
    }
  }

  // ------------------------------------------------------------------------ round trip

  function Join(args: seq<string>): string {
    if |args| == 0 then "" else if |args| == 1 then args[0] else args[0] + ("," + Join(args[1..]))
  }

  function Trimmed(args: seq<string>): seq<string> {
    if args == [] then [] else [Trim(args[0])] + Trimmed(args[1..])
  }

  /** An argument as it may stand between commas, blanks around it included:
      parentheses balanced, quotes closed, no comma of its own at top level. */
  ghost predicate IsArgument(a: string) {
    Balanced(a) && NoTopComma(TOP, a) && Trim(a) != ""
  }

  ghost predicate AllArguments(args: seq<string>) {
    forall i :: 0 <= i < |args| ==> IsArgument(args[i])
  }

  /** The brackets and braces of every argument but the last come out even. */
  ghost predicate BracketsClose(args: seq<string>) {
    forall i :: 0 <= i < |args| - 1 ==> AtTop(EndDepths(TOP, args[i]))
  }

  lemma {:induction false} JoinIsBalanced(args: seq<string>)
    requires AllArguments(args)
    ensures Balanced(Join(args))
    decreases |args|
  {
    if |args| > 1 {
      var rest := Join(args[1..]);
      JoinIsBalanced(args[1..]);
      WalkConcat(GROUND, args[0], "," + rest);
      WalkConcat(GROUND, ",", rest);
      assert Walk(GROUND, ",") == Some(GROUND) by { assert ","[..0] == ""; }
    }
  }

  /** For every list of arguments, `findMatchingParen` finds exactly the closing
      parenthesis of the call, whatever stands before and after it. */
  lemma {:induction false} CallIsClosed(pre: string, args: seq<string>, post: string, k: nat)
    requires AllArguments(args)
    ensures Closes(pre + "(" + Join(args) + ")" + post, |pre|, k) <==> k == |pre| + 1 + |Join(args)|
  {
    var s, close := pre + "(" + Join(args) + ")" + post, |pre| + 1 + |Join(args)|;
    JoinIsBalanced(args);
    assert s[|pre| + 1..close] == Join(args) && s[close] == ')';
    if Closes(s, |pre|, k) {
      OneCloses(s, |pre|, k, close);
    }
  }

  lemma {:induction false} ArgumentEnds(a: string, d: Depths)
    requires IsArgument(a) && Deeper(TOP, d)
    ensures NoTopComma(d, a) && Deeper(EndDepths(TOP, a), EndDepths(d, a))
    ensures Deeper(TOP, EndDepths(d, a))
  {
    WalkAgrees(TOP, a);
    DeeperStays(TOP, d, a);
  }

  /** One argument and the comma after it. */
  lemma {:induction false} CutArgument(k: Cutting, a: string)
    requires IsArgument(a) && Deeper(TOP, k.depths)
    ensures var d := EndDepths(k.depths, a);
            Cut(k, a + ",") == if AtTop(d) then Cutting(k.out + [Trim(k.current + a)], "", d)
                               else Cutting(k.out, k.current + a + ",", d)
  {
    ArgumentEnds(a, k.depths);
    CutConcat(k, a, ",");
    CutWhole(k, a);
    assert ","[..0] == "";
  }

  lemma {:induction false} CutRest(k: Cutting, a: string, rest: string)
    ensures Cut(k, a + ("," + rest)) == Cut(Cut(k, a + ","), rest)
  {
    assert a + ("," + rest) == (a + ",") + rest;
    CutConcat(k, a + ",", rest);
  }

  /** Cutting along the joined arguments passes through the given stages. */
  lemma {:induction false} CutStages(args: seq<string>, stages: seq<Cutting>)
    requires args != [] && |stages| == |args|
    requires forall i :: 0 <= i < |args| - 1 ==> stages[i + 1] == Cut(stages[i], args[i] + ",")
    ensures Cut(stages[0], Join(args)) == Cut(stages[|args| - 1], args[|args| - 1])
    decreases |args|
  {
    if |args| > 1 {
      CutRest(stages[0], args[0], Join(args[1..]));
      var args', stages' := args[1..], stages[1..];
      forall i | 0 <= i < |args'| - 1
        ensures stages'[i + 1] == Cut(stages'[i], args'[i] + ",")
      {
        assert stages[i + 2] == Cut(stages[i + 1], args[i + 1] + ",");
      }
      CutStages(args', stages');
    }
  }

  function Stage(args: seq<string>, i: nat): Cutting
    requires i <= |args|
  {
    Cutting(Trimmed(args[..i]), "", TOP)
  }

  lemma {:induction false} TrimmedSnoc(args: seq<string>, a: string)
    ensures Trimmed(args + [a]) == Trimmed(args) + [Trim(a)]
    decreases |args|
  {
    if args == [] {
      assert [a][1..] == [] && args + [a] == [a];
    } else {
      assert (args + [a])[1..] == args[1..] + [a];
      TrimmedSnoc(args[1..], a);
    }
  }

  lemma {:induction false} NextStage(args: seq<string>, i: nat)
    requires i < |args| && IsArgument(args[i]) && AtTop(EndDepths(TOP, args[i]))
    ensures Cut(Stage(args, i), args[i] + ",") == Stage(args, i + 1)
  {
    CutArgument(Stage(args, i), args[i]);
    assert "" + args[i] == args[i];
    assert args[..i + 1] == args[..i] + [args[i]];
    TrimmedSnoc(args[..i], args[i]);
  }

  lemma {:induction false} LastStage(args: seq<string>)
    requires args != [] && IsArgument(args[|args| - 1])
    ensures Finished(Cut(Stage(args, |args| - 1), args[|args| - 1])) == Trimmed(args)
  {
    var n, a := |args| - 1, args[|args| - 1];
    var k := Stage(args, n);
    assert Cut(k, a).out == k.out && Cut(k, a).current == a by {
      CutWhole(k, a);
      assert "" + a == a;
    }
    assert Trimmed(args) == Trimmed(args[..n]) + [Trim(a)] by {
      InitAndLast(args);
      TrimmedSnoc(args[..n], a);
    }
  }

  lemma {:induction false} CutList(args: seq<string>)
    requires args != [] && AllArguments(args) && BracketsClose(args)
    ensures SplitArguments(Join(args)) == Trimmed(args)
  {
    var stages := Stages(args);
    forall i | 0 <= i < |args| - 1
      ensures stages[i + 1] == Cut(stages[i], args[i] + ",")
    {
      NextStage(args, i);
    }
    CutStages(args, stages);
    FirstStage(args);
    LastStage(args);
  }

  function Stages(args: seq<string>): (r: seq<Cutting>)
    ensures |r| == |args| && forall i :: 0 <= i < |args| ==> r[i] == Stage(args, i)
  {
    seq(|args|, i requires 0 <= i < |args| => Stage(args, i))
  }

  lemma {:induction false} FirstStage(args: seq<string>)
    ensures Stage(args, 0) == UNCUT
  {
    assert args[..0] == [];
  }

  /** Splitting never gives more pieces than there are arguments, and fewer when
      an argument before the last leaves a bracket or a brace open. */
  lemma {:induction false} CutCount(k: Cutting, args: seq<string>)
    requires args != [] && AllArguments(args) && Deeper(TOP, k.depths)
    ensures |Finished(Cut(k, Join(args)))| <= |k.out| + |args|
    ensures k.depths == TOP && !BracketsClose(args) ==> |Finished(Cut(k, Join(args)))| < |k.out| + |args|
    decreases |args|
  {
    var a := args[0];
    ArgumentEnds(a, k.depths);
    if |args| == 1 {
      CutWhole(k, a);
    } else {
      CutArgument(k, a);
      assert Join(args) == (a + ",") + Join(args[1..]);
      CutConcat(k, a + ",", Join(args[1..]));
      CutCount(Cut(k, a + ","), args[1..]);
      if k.depths == TOP && AtTop(EndDepths(TOP, a)) && !BracketsClose(args) {
        var i :| 0 <= i < |args| - 1 && !AtTop(EndDepths(TOP, args[i]));
        assert args[1..][i - 1] == args[i];
      }
    }
  }

  lemma TrimmedLength(args: seq<string>)
    ensures |Trimmed(args)| == |args|
  {
  }

  /** For every list of arguments, `splitTopLevelArguments` on the joined text gives
      back exactly the list, trimmed, if and only if every argument but the last
      closes its brackets and braces. */
  lemma {:induction false} SplitInvertsJoin(args: seq<string>)
    requires AllArguments(args)
    ensures SplitArguments(Join(args)) == Trimmed(args) <==> BracketsClose(args)
  {
    if args == [] {
      assert SplitArguments("") == [];
    } else {
      CutCount(UNCUT, args);
      TrimmedLength(args);
      if BracketsClose(args) {
        CutList(args);
      }
    }
  }

  /** An open bracket swallows the next comma: the two arguments of `f([,x)` are
      taken for one. */
  lemma {:induction false} OpenBracketSwallowsComma()
    ensures AllArguments(["[", "x"]) && SplitArguments(Join(["[", "x"])) != ["[", "x"]
  {
    OneCharArgument('[');
    OneCharArgument('x');
    var args := ["[", "x"];
    assert EndDepths(TOP, "[").bracket == 1;
    assert !BracketsClose(args) by { assert args[0] == "["; }
    SplitInvertsJoin(args);
    assert Trimmed(args) == ["[", "x"] by { assert args[1..] == ["x"] && args[1..][1..] == []; }
  }

  lemma {:induction false} OneCharArgument(c: char)
    requires c == '[' || c == 'x'
    ensures IsArgument([c]) && Trim([c]) == [c]
  {
    var s := [c];
    assert s[..0] == "" && !IsSpace(c);
    assert Walk(GROUND, s) == WalkChar(GROUND, c);
  }
}
