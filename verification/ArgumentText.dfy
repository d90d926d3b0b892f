/**
 What the argument scanner does to text (scripts/check-temp-path-guardrails.ts), without
 its state: where quoted sections begin and end, and that every text built from
 plain characters, string literals and brackets is taken apart as it was put together.
 */
module ArgumentText {
  import opened Common
  import opened ArgumentScanner

  // ------------------------------------------------------------------- quoted sections

  predicate QuotationMark(c: char) {
    c == '\'' || c == '"' || c == '`'
  }

  /** The length of the run of backslashes directly before i and after o. */
  function Backslashes(s: string, o: nat, i: nat): nat
    requires o < i <= |s|
  {
    if i - 1 > o && s[i - 1] == '\\' then 1 + Backslashes(s, o, i - 1) else 0
  }

  /** The mark at o stands again at i, not escaped. */
  predicate MarkAgain(s: string, o: nat, i: nat) {
    o < i < |s| && s[i] == s[o] && Backslashes(s, o, i) % 2 == 0
  }

  /** The section opened at o is closed at i: by the first such mark. */
  ghost predicate ClosesSection(s: string, o: nat, i: nat) {
    MarkAgain(s, o, i) && forall j: nat :: o < j < i ==> !MarkAgain(s, o, j)
  }

  /** Index i is outside sections: at the start, after a character outside that is no
      mark, and after the end of a section. */
  ghost predicate OutsideAt(s: string, i: nat)
    requires i <= |s|
    decreases i, 0
  {
    || i == 0
    || (OutsideAt(s, i - 1) && !QuotationMark(s[i - 1]))
    || exists o: nat :: o < i - 1 && OpensSection(s, o) && ClosesSection(s, o, i - 1)
  }

  /** Each of the three marks opens a section outside one. */
  ghost predicate OpensSection(s: string, o: nat)
    requires o < |s|
    decreases o, 1
  {
    OutsideAt(s, o) && QuotationMark(s[o])
  }

  /** Index i is within the section opened at o. */
  ghost predicate WithinSection(s: string, o: nat, i: nat)
    requires i <= |s|
  {
    o < i && OpensSection(s, o) && forall j: nat :: o < j < i ==> !MarkAgain(s, o, j)
  }

  /** The scanner's quote state after s. */
  function QuoteAfter(q: Quote, s: string): Quote
    decreases |s|
  {
    if s == "" then q else NextQuote(QuoteAfter(q, s[..|s| - 1]), s[|s| - 1])
  }

  lemma {:induction false} QuoteSnoc(s: string, i: nat)
    requires i < |s|
    ensures QuoteAfter(Outside, s[..i + 1]) == NextQuote(QuoteAfter(Outside, s[..i]), s[i])
  {
    TakeOneMore(s, i);
  }

  /** Within a section the scanner has its mark, and an escape pending exactly after an
      odd run of backslashes. */
  lemma {:induction false} SectionState(s: string, o: nat, i: nat)
    requires o < i <= |s| && QuoteAfter(Outside, s[..o]) == Outside && QuotationMark(s[o])
    requires forall j: nat :: o < j < i ==> !MarkAgain(s, o, j)
    ensures QuoteAfter(Outside, s[..i]) == Inside(s[o], Backslashes(s, o, i) % 2 == 1)
    decreases i
  {
    QuoteSnoc(s, i - 1);
    if i - 1 == o {
    } else {
      SectionState(s, o, i - 1);
      assert !MarkAgain(s, o, i - 1);
    }
  }

  /** The scanner is outside exactly where the text is, and otherwise in the section
      that the text is in. */
  lemma {:induction false} ScannerSeesSections(s: string, i: nat)
    requires i <= |s|
    ensures QuoteAfter(Outside, s[..i]) == Outside <==> OutsideAt(s, i)
    ensures InSections(s, i, QuoteAfter(Outside, s[..i]))
    ensures QuoteAfter(Outside, s[..i]) == Outside || exists o: nat :: WithinSection(s, o, i)
    decreases i
  {
    forall o: nat | WithinSection(s, o, i)
      ensures QuoteAfter(Outside, s[..i]) == Inside(s[o], Backslashes(s, o, i) % 2 == 1)
    {
      ScannerSeesSections(s, o);
      SectionState(s, o, i);
    }
    if i > 0 {
      ScannerSeesSections(s, i - 1);
      QuoteSnoc(s, i - 1);
      if QuoteAfter(Outside, s[..i - 1]) == Outside {
        AfterOutside(s, i);
      } else {
        var o: nat :| WithinSection(s, o, i - 1);
        AfterSection(s, o, i, QuoteAfter(Outside, s[..i - 1]));
      }
    }
  }

  /** What `ScannerSeesSections` says of the sections around index i. */
  ghost predicate InSections(s: string, i: nat, q: Quote)
    requires i <= |s|
  {
    forall o: nat :: WithinSection(s, o, i) ==> q == Inside(s[o], Backslashes(s, o, i) % 2 == 1)
  }

  lemma {:induction false} AfterOutside(s: string, i: nat)
    requires 0 < i <= |s| && OutsideAt(s, i - 1) && InSections(s, i - 1, Outside)
    ensures NextQuote(Outside, s[i - 1]) == Outside <==> OutsideAt(s, i)
    ensures NextQuote(Outside, s[i - 1]) == Outside || WithinSection(s, i - 1, i)
  {
    forall o: nat | o < i - 1 && OpensSection(s, o)
      ensures !ClosesSection(s, o, i - 1)
    {
      assert !WithinSection(s, o, i - 1);
    }
  }

  lemma {:induction false} AfterSection(s: string, o: nat, i: nat, q: Quote)
    requires 0 < i <= |s| && WithinSection(s, o, i - 1) && !OutsideAt(s, i - 1) && InSections(s, i - 1, q)
    ensures NextQuote(q, s[i - 1]) == Outside <==> OutsideAt(s, i)
    ensures NextQuote(q, s[i - 1]) == Outside || WithinSection(s, o, i)
  {
    forall a: nat | a < i - 1 && OpensSection(s, a) && ClosesSection(s, a, i - 1)
      ensures NextQuote(q, s[i - 1]) == Outside
    {
      assert WithinSection(s, a, i - 1);
    }
    if MarkAgain(s, o, i - 1) {
      assert ClosesSection(s, o, i - 1);
    }
  }

  // ------------------------------------------------------------ closing and separating

  /** How many more a than b stand outside sections from index j up to i. */
  ghost function Net(s: string, j: nat, i: nat, a: char, b: char): int
    requires j <= i <= |s|
    decreases i
  {
    if i == j then 0 else Net(s, j, i - 1, a, b) + Weight(s, i - 1, a, b)
  }

  ghost function Weight(s: string, i: nat, a: char, b: char): int
    requires i < |s|
  {
    if !OutsideAt(s, i) then 0 else if s[i] == a then 1 else if s[i] == b then -1 else 0
  }

  ghost predicate NeverShort(s: string, i: nat)
    requires i <= |s|
  {
    forall j: nat :: j <= i ==> Net(s, 0, j, '(', ')') >= 0
  }

  lemma {:induction false} WalkCounts(s: string, i: nat)
    requires i <= |s|
    ensures NeverShort(s, i) ==>
              Walk(GROUND, s[..i]) == Some(Place(QuoteAfter(Outside, s[..i]), Net(s, 0, i, '(', ')')))
    ensures !NeverShort(s, i) ==> Walk(GROUND, s[..i]) == None
    decreases i
  {
    if i > 0 {
      WalkCounts(s, i - 1);
      TakeOneMore(s, i - 1);
      ScannerSeesSections(s, i - 1);
      assert NeverShort(s, i) <==> NeverShort(s, i - 1) && Net(s, 0, i, '(', ')') >= 0;
    }
  }

  /** A parenthesis closes the one at `open` if and only if it stands outside the
      sections of the text between, which has as many opening as closing ones outside
      sections, and no beginning with fewer. */
  lemma {:induction false} ClosesIsCounted(s: string, open: nat, close: nat)
    ensures Closes(s, open, close) <==>
            && open < close < |s| && s[close] == ')'
            && var inside := s[open + 1..close];
               OutsideAt(inside, |inside|) && Net(inside, 0, |inside|, '(', ')') == 0 && NeverShort(inside, |inside|)
  {
    if open < close < |s| {
      var inside := s[open + 1..close];
      WalkCounts(inside, |inside|);
      ScannerSeesSections(inside, |inside|);
      TakeAll(inside);
    }
  }

  /** Every a outside sections before index i is closed by a b after it. */
  ghost predicate AllClosed(s: string, i: nat, a: char, b: char)
    requires i <= |s|
  {
    forall j: nat :: j <= i ==> Net(s, j, i, a, b) <= 0
  }

  /** The comma at i separates: it stands outside sections and outside brackets of each
      kind. */
  ghost predicate Separates(s: string, i: nat)
    requires i < |s|
  {
    && s[i] == ',' && OutsideAt(s, i)
    && AllClosed(s, i, '(', ')') && AllClosed(s, i, '[', ']') && AllClosed(s, i, '{', '}')
  }

  function DepthOf(d: Depths, a: char): nat {
    if a == '(' then d.paren else if a == '[' then d.bracket else d.brace
  }

  lemma {:induction false} QuoteOfDepths(s: string)
    ensures EndDepths(TOP, s).quote == QuoteAfter(Outside, s)
    decreases |s|
  {
    if s == "" {
    } else {
      QuoteOfDepths(s[..|s| - 1]);
    }
  }

  /** The depth of brackets a is the greatest surplus of a in a stretch of text before i. */
  ghost predicate IsSurplus(depth: nat, s: string, i: nat, a: char)
    requires i <= |s|
  {
    && (forall j: nat :: j <= i ==> AtMost(depth, s, j, i, a))
    && exists j: nat :: j <= i && Net(s, j, i, a, Closer(a)) == depth
  }

  ghost predicate AtMost(depth: nat, s: string, j: nat, i: nat, a: char)
    requires j <= i <= |s|
  {
    Net(s, j, i, a, Closer(a)) <= depth
  }

  lemma {:induction false} SurplusStep(depth: nat, after: nat, s: string, i: nat, a: char)
    requires i < |s| && IsSurplus(depth, s, i, a)
    requires var w := Weight(s, i, a, Closer(a)); after == if depth + w >= 0 then depth + w else 0
    ensures IsSurplus(after, s, i + 1, a)
  {
    var w := Weight(s, i, a, Closer(a));
    assert Net(s, i + 1, i + 1, a, Closer(a)) == 0;
    var n := i + 1;
    forall j: nat | j <= n
      ensures AtMost(after, s, j, n, a)
    {
      if j <= i {
        assert AtMost(depth, s, j, i, a);
      }
    }
    var from: nat :| from <= i && Net(s, from, i, a, Closer(a)) == depth;
    assert Net(s, from, i + 1, a, Closer(a)) == depth + w;
  }

  lemma {:induction false} DepthStep(s: string, i: nat, a: char)
    requires i < |s| && Opener(a)
    ensures var d, w := EndDepths(TOP, s[..i]), Weight(s, i, a, Closer(a));
            DepthOf(StepDepths(d, s[i]), a) == if DepthOf(d, a) + w >= 0 then DepthOf(d, a) + w else 0
  {
    ScannerSeesSections(s, i);
    QuoteOfDepths(s[..i]);
  }

  lemma {:induction false} DepthIsSurplus(s: string, i: nat, a: char)
    requires i <= |s| && Opener(a)
    ensures IsSurplus(DepthOf(EndDepths(TOP, s[..i]), a), s, i, a)
    decreases i
  {
    if i == 0 {
      assert Net(s, 0, 0, a, Closer(a)) == 0;
    } else {
      DepthIsSurplus(s, i - 1, a);
      TakeOneMore(s, i - 1);
      DepthStep(s, i - 1, a);
      SurplusStep(DepthOf(EndDepths(TOP, s[..i - 1]), a), DepthOf(EndDepths(TOP, s[..i]), a), s, i - 1, a);
    }
  }

  lemma {:induction false} SurplusIsOpen(s: string, i: nat, a: char)
    requires i <= |s| && Opener(a)
    ensures AllClosed(s, i, a, Closer(a)) <==> DepthOf(EndDepths(TOP, s[..i]), a) == 0
  {
    DepthIsSurplus(s, i, a);
    var depth := DepthOf(EndDepths(TOP, s[..i]), a);
    forall j: nat | j <= i
      ensures Net(s, j, i, a, Closer(a)) <= depth
    {
      assert AtMost(depth, s, j, i, a);
    }
  }

  lemma {:induction false} TopIsAllClosed(s: string, i: nat)
    requires i < |s|
    ensures Separates(s, i) <==> s[i] == ',' && AtTop(EndDepths(TOP, s[..i]))
  {
    QuoteOfDepths(s[..i]);
    ScannerSeesSections(s, i);
    SurplusIsOpen(s, i, '(');
    SurplusIsOpen(s, i, '[');
    SurplusIsOpen(s, i, '{');
  }

  ghost function Separators(s: string): (r: seq<bool>)
    ensures |r| == |s| && forall i :: 0 <= i < |s| ==> r[i] == Separates(s, i)
  {
    seq(|s|, i requires 0 <= i < |s| => Separates(s, i))
  }

  function Start(at: seq<nat>, j: nat): nat
    requires j <= |at|
  {
    if j == 0 then 0 else at[j - 1] + 1
  }

  /** The pieces of s before the cuts, trimmed. */
  ghost predicate PiecesAt(out: seq<string>, s: string, at: seq<nat>) {
    |out| == |at| && forall j: nat :: j < |at| ==> PieceAt(out, s, at, j)
  }

  predicate PieceAt(out: seq<string>, s: string, at: seq<nat>, j: nat) {
    j < |out| && j < |at| && Start(at, j) <= at[j] <= |s| && out[j] == Trim(s[Start(at, j)..at[j]])
  }

  /** The state of the cut before index i. */
  lemma {:induction false} CutAt(s: string, i: nat) returns (at: seq<nat>)
    requires i <= |s|
    ensures Indexes(at, Separators(s)[..i])
    ensures Start(at, |at|) <= i && PiecesAt(Cut(UNCUT, s[..i]).out, s, at)
    ensures Cut(UNCUT, s[..i]).current == s[Start(at, |at|)..i]
    ensures Cut(UNCUT, s[..i]).depths == EndDepths(TOP, s[..i])
    decreases i
  {
    at := [];
    if i > 0 {
      var n := i - 1;
      at := CutAt(s, n);
      TakeOneMore(s, n);
      TakeOneMore(Separators(s), n);
      IndexesSnoc(at, Separators(s)[..n], Separates(s, n));
      TopIsAllClosed(s, n);
      var k := Cut(UNCUT, s[..n]);
      if Separates(s, n) {
        PiecesSnoc(k.out, s, at, n);
        at := at + [n];
        CommaKeepsDepths(k.depths);
      } else {
        SliceAround(s, Start(at, |at|), n, i);
      }
    }
  }

  lemma {:induction false} CommaKeepsDepths(d: Depths)
    requires AtTop(d)
    ensures StepDepths(d, ',') == d
  {
  }

  lemma {:induction false} PiecesSnoc(out: seq<string>, s: string, at: seq<nat>, n: nat)
    requires PiecesAt(out, s, at) && Start(at, |at|) <= n <= |s|
    ensures PiecesAt(out + [Trim(s[Start(at, |at|)..n])], s, at + [n])
  {
    var out', at' := out + [Trim(s[Start(at, |at|)..n])], at + [n];
    forall j: nat | j < |at'|
      ensures PieceAt(out', s, at', j)
    {
      assert Start(at', j) == Start(at, j);
      if j < |at| {
        assert PieceAt(out, s, at, j);
      }
    }
  }

  /** `splitTopLevelArguments` cuts exactly at the separating commas, trims every piece,
      and leaves out the last one if it is blank. */
  lemma {:induction false} SplitIsExact(s: string) returns (at: seq<nat>)
    ensures Indexes(at, Separators(s)) && Start(at, |at|) <= |s|
    ensures PiecesAt(SplitArguments(s), s, if Blank(s[Start(at, |at|)..]) then at else at + [|s|])
  {
    at := CutAt(s, |s|);
    TakeAll(s);
    TakeAll(Separators(s));
    PiecesSnoc(Cut(UNCUT, s).out, s, at, |s|);
    var _, _ := TrimIsExact(s[Start(at, |at|)..]);
  }

  // ---------------------------------------------------------------------- argument text

  /** A character of a string literal: any but its mark and the backslash, or any with
      a backslash before it. */
  datatype Letter = Plain(c: char) | Escaped(c: char)

  /** Code in which every bracket is closed. */
  datatype Text =
    | Done
    | Code(c: char, rest: Text)
    | Literal(mark: char, body: seq<Letter>, rest: Text)
    | Group(opener: char, inner: Text, rest: Text)

  predicate Bracket(c: char) {
    c == '(' || c == ')' || c == '[' || c == ']' || c == '{' || c == '}'
  }

  predicate Opener(c: char) {
    c == '(' || c == '[' || c == '{'
  }

  function Closer(c: char): char {
    if c == '(' then ')' else if c == '[' then ']' else '}'
  }

  /** Letters, marks and brackets are where they belong; a comma of its own stands only
      within brackets. */
  predicate WellFormed(t: Text, nested: bool) {
    match t
    case Done => true
    case Code(c, rest) =>
      !QuotationMark(c) && !Bracket(c) && (c == ',' ==> nested) && WellFormed(rest, nested)
    case Literal(m, body, rest) => QuotationMark(m) && WellEscaped(m, body) && WellFormed(rest, nested)
    case Group(c, inner, rest) => Opener(c) && WellFormed(inner, true) && WellFormed(rest, nested)
  }

  predicate WellEscaped(m: char, body: seq<Letter>) {
    forall i :: 0 <= i < |body| && body[i].Plain? ==> body[i].c != m && body[i].c != '\\'
  }

  function ShowLetter(l: Letter): string {
    if l.Plain? then [l.c] else ['\\', l.c]
  }

  function ShowBody(body: seq<Letter>): string {
    if body == [] then "" else ShowLetter(body[0]) + ShowBody(body[1..])
  }

  function ShowLiteral(m: char, body: seq<Letter>): string {
    [m] + (ShowBody(body) + [m])
  }

  function Show(t: Text): string {
    match t
    case Done => ""
    case Code(c, rest) => [c] + Show(rest)
    case Literal(m, body, rest) => ShowLiteral(m, body) + Show(rest)
    case Group(c, inner, rest) => ([c] + (Show(inner) + [Closer(c)])) + Show(rest)
  }

  /** Reading s from depths d ends at depths e, in `findMatchingParen` as well, and no
      comma of s separates. */
  ghost predicate Reads(d: Depths, s: string, e: Depths) {
    && EndDepths(d, s) == e
    && Walk(Place(d.quote, d.paren), s) == Some(Place(e.quote, e.paren))
    && NoTopComma(d, s)
  }

  lemma {:induction false} EndDepthsConcat(d: Depths, a: string, b: string)
    ensures EndDepths(d, a + b) == EndDepths(EndDepths(d, a), b)
    decreases |b|
  {
    if b == "" {
      assert a + b == a;
    } else {
      assert (a + b)[..|a + b| - 1] == a + b[..|b| - 1];
      EndDepthsConcat(d, a, b[..|b| - 1]);
    }
  }

  lemma {:induction false} ReadsConcat(d: Depths, a: string, e: Depths, b: string, f: Depths)
    requires Reads(d, a, e) && Reads(e, b, f)
    ensures Reads(d, a + b, f)
  {
    var s := a + b;
    EndDepthsConcat(d, a, b);
    WalkConcat(Place(d.quote, d.paren), a, b);
    forall i | 0 <= i < |s| && s[i] == ','
      ensures !AtTop(EndDepths(d, s[..i]))
    {
      if i < |a| {
        assert s[..i] == a[..i];
      } else {
        assert s[..i] == a + b[..i - |a|];
        EndDepthsConcat(d, a, b[..i - |a|]);
      }
    }
  }

  lemma {:induction false} ReadsNothing(d: Depths)
    ensures Reads(d, "", d)
  {
  }

  /** A single character that does not close a parenthesis of someone else. */
  lemma {:induction false} ReadsChar(d: Depths, c: char)
    requires c == ',' ==> d != TOP
    requires c == ')' && d.quote == Outside ==> d.paren > 0
    ensures Reads(d, [c], StepDepths(d, c))
  {
    assert [c][..0] == "";
  }

  lemma {:induction false} LetterReads(d: Depths, l: Letter)
    requires d.quote.Inside? && !d.quote.escaped
    requires l.Plain? ==> l.c != d.quote.mark && l.c != '\\'
    ensures Reads(d, ShowLetter(l), d)
  {
    if l.Plain? {
      ReadsChar(d, l.c);
    } else {
      var e := StepDepths(d, '\\');
      ReadsChar(d, '\\');
      ReadsChar(e, l.c);
      ReadsConcat(d, ['\\'], e, [l.c], d);
      assert ['\\'] + [l.c] == ShowLetter(l);
    }
  }

  lemma {:induction false} BodyReads(d: Depths, body: seq<Letter>)
    requires d.quote.Inside? && !d.quote.escaped && WellEscaped(d.quote.mark, body)
    ensures Reads(d, ShowBody(body), d)
    decreases |body|
  {
    if body == [] {
      ReadsNothing(d);
    } else {
      LetterReads(d, body[0]);
      BodyReads(d, body[1..]);
      ReadsConcat(d, ShowLetter(body[0]), d, ShowBody(body[1..]), d);
    }
  }

  lemma {:induction false} LiteralReads(d: Depths, m: char, body: seq<Letter>)
    requires d.quote == Outside && QuotationMark(m) && WellEscaped(m, body)
    ensures Reads(d, ShowLiteral(m, body), d)
  {
    var e := d.(quote := Inside(m, false));
    ReadsChar(d, m);
    BodyReads(e, body);
    ReadsChar(e, m);
    ReadsConcat(e, ShowBody(body), e, [m], d);
    ReadsConcat(d, [m], e, ShowBody(body) + [m], d);
  }

  /** Well-formed text leaves the depths as they were. */
  lemma {:induction false} TextReads(d: Depths, t: Text, nested: bool)
    requires d.quote == Outside && WellFormed(t, nested) && (nested ==> d != TOP)
    ensures Reads(d, Show(t), d)
    decreases t
  {
    match t
    case Done => ReadsNothing(d);
    case Code(c, rest) =>
      ReadsChar(d, c);
      TextReads(d, rest, nested);
      ReadsConcat(d, [c], d, Show(rest), d);
    case Literal(m, body, rest) =>
      LiteralReads(d, m, body);
      TextReads(d, rest, nested);
      ReadsConcat(d, ShowLiteral(m, body), d, Show(rest), d);
    case Group(c, inner, rest) =>
      var e := StepDepths(d, c);
      TextReads(e, inner, true);
      GroupReads(d, c, Show(inner));
      TextReads(d, rest, nested);
      ReadsConcat(d, [c] + (Show(inner) + [Closer(c)]), d, Show(rest), d);
  }

  lemma {:induction false} GroupReads(d: Depths, c: char, inner: string)
    requires d.quote == Outside && Opener(c) && Reads(StepDepths(d, c), inner, StepDepths(d, c))
    ensures Reads(d, [c] + (inner + [Closer(c)]), d)
  {
    var e := StepDepths(d, c);
    ReadsChar(d, c);
    ReadsChar(e, Closer(c));
    ReadsConcat(e, inner, e, [Closer(c)], d);
    ReadsConcat(d, [c], e, inner + [Closer(c)], d);
  }

  // ------------------------------------------------------------------------- main lemmas

  /** A string literal with any body is an argument: nothing in it closes or separates. */
  lemma {:induction false} LiteralIsArgument(m: char, body: seq<Letter>)
    requires QuotationMark(m) && WellEscaped(m, body)
    ensures IsArgument(ShowLiteral(m, body))
    ensures SplitArguments(ShowLiteral(m, body)) == [ShowLiteral(m, body)]
  {
    var s := ShowLiteral(m, body);
    LiteralReads(TOP, m, body);
    var a, b := TrimIsExact(s);
    assert !IsSpace(s[0]) && !IsSpace(s[|s| - 1]);
    assert Trim(s) == s by { AllInk(s, a, b); }
    SplitInvertsJoin([s]);
    assert [s][1..] == [];
  }

  lemma {:induction false} AllInk(s: string, a: string, b: string)
    requires s != "" && !IsSpace(s[0]) && !IsSpace(s[|s| - 1])
    requires s == a + Trim(s) + b && Blank(a) && Blank(b)
    ensures Trim(s) == s
  {
  }

  ghost predicate ArgumentTexts(texts: seq<Text>) {
    forall i :: 0 <= i < |texts| ==> IsArgumentText(texts[i])
  }

  predicate IsArgumentText(t: Text) {
    WellFormed(t, false) && !Blank(Show(t))
  }

  function ShowAll(texts: seq<Text>): (r: seq<string>)
    ensures |r| == |texts| && forall i :: 0 <= i < |texts| ==> r[i] == Show(texts[i])
  {
    seq(|texts|, i requires 0 <= i < |texts| => Show(texts[i]))
  }

  /** For every call whose arguments are well-formed code, whatever stands around it:
      `findMatchingParen` finds the closing parenthesis of the call and no other, and
      `splitTopLevelArguments` gives back its arguments, trimmed. */
  lemma {:induction false} CallIsTakenApart(pre: string, texts: seq<Text>, post: string, k: nat)
    requires ArgumentTexts(texts)
    ensures var inside := Join(ShowAll(texts));
            && (Closes(pre + "(" + inside + ")" + post, |pre|, k) <==> k == |pre| + 1 + |inside|)
            && SplitArguments(inside) == Trimmed(ShowAll(texts))
  {
    var args := ShowAll(texts);
    forall i | 0 <= i < |args|
      ensures IsArgument(args[i]) && AtTop(EndDepths(TOP, args[i]))
    {
      assert IsArgumentText(texts[i]);
      TextReads(TOP, texts[i], false);
      var _, _ := TrimIsExact(args[i]);
    }
    CallIsClosed(pre, args, post, k);
    SplitInvertsJoin(args);
  }

  lemma {:induction false} TrimmedAt(args: seq<string>, i: nat)
    requires i < |args|
    ensures |Trimmed(args)| == |args| && Trimmed(args)[i] == Trim(args[i])
  {
    if i > 0 {
      TrimmedAt(args[1..], i - 1);
    }
    TrimmedLength(args);
  }
}
