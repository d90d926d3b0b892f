/**
 The marked text block that `replaceBlockLines` rewrites (scripts/sync-moonshot-docs.ts),
 and the laws of rewriting it twice.
 */
module BlockLens {
  import opened Common

  datatype MissingMarker = MissingStart | MissingEnd

  // ------------------------------------------------------------------- string searches

  /** `text.indexOf(part, from)`. */
  function IndexOf(s: string, part: string, from: nat): (r: int)
    ensures r == -1 || (from <= r && OccursAt(part, s, r))
    ensures r == -1 ==> forall i :: from <= i ==> !OccursAt(part, s, i)
    ensures forall i :: from <= i < r ==> !OccursAt(part, s, i)
    decreases |s| - from
  {
    if from + |part| > |s| then -1
    else if OccursAt(part, s, from) then from
    else IndexOf(s, part, from + 1)
  }

  /** `text.lastIndexOf("\n", at)`. */
  function LastNewline(s: string, at: nat): (r: int)
    requires at <= |s|
    ensures -1 <= r <= at
    ensures r >= 0 ==> r < |s| && s[r] == NL
    ensures forall i :: r < i <= at && i < |s| ==> s[i] != NL
  {
    if at < |s| && s[at] == NL then at else if at == 0 then -1 else LastNewline(s, at - 1)
  }

  /** `text.slice(i, j)`. */
  function Slice(s: string, i: nat, j: nat): string
    requires i <= |s| && j <= |s|
  {
    if i < j then s[i..j] else ""
  }

  /** `lines.join("\n")`. */
  function JoinLines(lines: seq<string>): string {
    if lines == [] then "" else if |lines| == 1 then lines[0] else lines[0] + ([NL] + JoinLines(lines[1..]))
  }

  function Indented(indent: string, lines: seq<string>): (r: seq<string>)
    ensures |r| == |lines| && forall i :: 0 <= i < |lines| ==> r[i] == indent + lines[i]
  {
    if lines == [] then [] else [indent + lines[0]] + Indented(indent, lines[1..])
  }

  // ---------------------------------------------------------------------- the operation

  datatype Markers = Markers(start: string, end: string)

  /** Markers are non-empty and stand on one line. */
  predicate SingleLine(m: Markers) {
    m.start != "" && m.end != "" && NL !in m.start && NL !in m.end
  }

  /** What a text is made of around its block. */
  datatype Parts = Parts(before: string, indent: string, after: string)

  function Locate(text: string, m: Markers): Result<Parts, MissingMarker>
  {
    var startIndex := IndexOf(text, m.start, 0);
    if startIndex == -1 then Err(MissingStart) else
    var endIndex := IndexOf(text, m.end, startIndex);
    if endIndex == -1 then Err(MissingEnd) else
    var lineStart := LastNewline(text, startIndex) + 1;
    var endLineEnd := IndexOf(text, [NL], endIndex);
    var afterStart := if endLineEnd == -1 then |text| else endLineEnd + 1;
    Ok(Parts(text[..lineStart], Slice(text, lineStart, startIndex), text[afterStart..]))
  }

  /** Everything from the start marker to the last line of the block. */
  function Inner(p: Parts, m: Markers, lines: seq<string>): string {
    JoinLines([m.start] + Indented(p.indent, lines))
  }

  function Tail(after: string): string {
    if after == "" then "" else [NL] + after
  }

  function Render(p: Parts, m: Markers, lines: seq<string>): string {
    p.before + (p.indent + (Inner(p, m, lines) + ([NL] + (p.indent + (m.end + Tail(p.after))))))
  }

  function ReplaceBlockLines(text: string, m: Markers, lines: seq<string>): Result<string, MissingMarker>
  {
    var p :- Locate(text, m);
    Ok(Render(p, m, lines))
  }

  // ------------------------------------------------------------------------ the condition

  /** The end marker occurs in no line that is written before it. */
  ghost predicate Sealed(p: Parts, m: Markers, lines: seq<string>) {
    && !Occurs(m.end, m.start)
    && forall i :: 0 <= i < |lines| ==> !Occurs(m.end, p.indent + lines[i])
  }

  /** Text without a newline that occurs in joined lines occurs in one of them. */
  lemma {:induction false} OccursInJoin(part: string, lines: seq<string>)
    requires part != "" && NL !in part
    ensures Occurs(part, JoinLines(lines)) <==> exists i :: 0 <= i < |lines| && Occurs(part, lines[i])
    decreases |lines|
  {
    if |lines| == 1 {
      assert JoinLines(lines) == lines[0];
    } else if |lines| > 1 {
      var a, b := lines[0], JoinLines(lines[1..]);
      OccursInJoin(part, lines[1..]);
      OccursInPair(part, a, b);
      assert forall i :: 0 <= i < |lines| - 1 ==> lines[1..][i] == lines[i + 1];
      if Occurs(part, b) {
        var i :| 0 <= i < |lines[1..]| && Occurs(part, lines[1..][i]);
        assert Occurs(part, lines[i + 1]);
      }
      if i :| 0 <= i < |lines| && Occurs(part, lines[i]) {
        assert i > 0 ==> Occurs(part, lines[1..][i - 1]);
      }
    }
  }

  lemma {:induction false} OccursInPair(part: string, a: string, b: string)
    requires part != "" && NL !in part
    ensures Occurs(part, a + ([NL] + b)) <==> Occurs(part, a) || Occurs(part, b)
  {
    var s := a + ([NL] + b);
    forall i | OccursAt(part, s, i)
      ensures OccursAt(part, a, i) || OccursAt(part, b, i - |a| - 1)
    {
      OneSideOfPair(part, a, b, i);
    }
    forall i | OccursAt(part, a, i)
      ensures OccursAt(part, s, i)
    {
      InPair(part, a, b, i);
    }
    forall i | OccursAt(part, b, i)
      ensures OccursAt(part, s, |a| + 1 + i)
    {
      InPair(part, a, b, |a| + 1 + i);
    }
  }

  /** A position in two lines that lies wholly in one of them. */
  lemma {:induction false} InPair(part: string, a: string, b: string, i: int)
    requires 0 <= i <= |a| - |part| || |a| + 1 <= i <= |a| + 1 + |b| - |part|
    ensures OccursAt(part, a + ([NL] + b), i) <==> if i <= |a| then OccursAt(part, a, i) else OccursAt(part, b, i - |a| - 1)
  {
    var s := a + ([NL] + b);
    if i <= |a| {
      assert OccursAt(a, s, 0);
      OccursInside(part, a, s, 0, i);
    } else {
      assert OccursAt(b, s, |a| + 1);
      OccursInside(part, b, s, |a| + 1, i - |a| - 1);
    }
  }

  lemma {:induction false} OneSideOfPair(part: string, a: string, b: string, i: int)
    requires part != "" && NL !in part && OccursAt(part, a + ([NL] + b), i)
    ensures OccursAt(part, a, i) || OccursAt(part, b, i - |a| - 1)
  {
    BesideNewline(part, a + ([NL] + b), i, |a|);
    InPair(part, a, b, i);
  }

  lemma CharOf(part: string, s: string, i: int, k: nat)
    requires OccursAt(part, s, i) && k < |part|
    ensures s[i + k] == part[k]
  {
  }

  /** Text without a newline lies wholly on one side of one. */
  lemma {:induction false} BesideNewline(part: string, s: string, i: int, n: nat)
    requires NL !in part && OccursAt(part, s, i) && n < |s| && s[n] == NL
    ensures i + |part| <= n || i > n
  {
    if i <= n < i + |part| {
      CharOf(part, s, i, n - i);
    }
  }

  lemma {:induction false} SealedIsNoOccurrence(p: Parts, m: Markers, lines: seq<string>)
    requires SingleLine(m)
    ensures Occurs(m.end, Inner(p, m, lines)) <==> !Sealed(p, m, lines)
  {
    var all := [m.start] + Indented(p.indent, lines);
    OccursInJoin(m.end, all);
    assert all[0] == m.start;
    assert forall i :: 0 <= i < |lines| ==> all[i + 1] == p.indent + lines[i];
    if !Sealed(p, m, lines) && !Occurs(m.end, m.start) {
      var i :| 0 <= i < |lines| && Occurs(m.end, p.indent + lines[i]);
      assert Occurs(m.end, all[i + 1]);
    }
  }

  // ------------------------------------------------------------- reading back what was written

  /** `before` ends a line, the indent is within one, and the start marker does not
      occur earlier. */
  ghost predicate WellPlaced(p: Parts, m: Markers) {
    && (p.before == "" || p.before[|p.before| - 1] == NL)
    && NL !in p.indent
    && NotBefore(m.start, p.before + p.indent + m.start, |p.before| + |p.indent|)
  }

  /** part does not stand in s at an index below n. */
  ghost predicate NotBefore(part: string, s: string, n: nat) {
    forall i :: 0 <= i < n ==> !OccursAt(part, s, i)
  }

  lemma {:induction false} LocatedIsWellPlaced(text: string, m: Markers)
    requires SingleLine(m) && Locate(text, m).Ok?
    ensures WellPlaced(Locate(text, m).value, m)
  {
    var p, s := Locate(text, m).value, IndexOf(text, m.start, 0);
    CharOf(m.start, text, s, 0);
    FrontIsFirst(text, m.start, s, |p.before|, p.before + p.indent + m.start);
  }

  lemma {:induction false} FrontIsFirst(text: string, part: string, s: nat, l: nat, front: string)
    requires l <= s && OccursAt(part, text, s) && NotBefore(part, text, s) && front == text[..l] + text[l..s] + part
    ensures NotBefore(part, front, s)
  {
    SliceOf(part, text, s);
    assert front == text[..s + |part|];
    forall i | 0 <= i < s
      ensures !OccursAt(part, front, i)
    {
      OccursInPrefix(part, front, text, i);
    }
  }

  lemma {:induction false} OccursInPrefix(part: string, front: string, text: string, i: nat)
    requires front <= text && i + |part| <= |front|
    ensures OccursAt(part, text, i) <==> OccursAt(part, front, i)
  {
    OccursInside(part, front, text, 0, i);
  }

  lemma {:induction false} InnerStarts(p: Parts, m: Markers, lines: seq<string>)
    ensures m.start <= Inner(p, m, lines)
  {
  }

  /** The text t starts with the parts that precede the last line of a block. */
  ghost predicate Front(p: Parts, inner: string, t: string, s: nat, l: nat) {
    && s == |p.before| + |p.indent| && l == s + |inner| + 1 && l <= |t|
    && t[..|p.before|] == p.before && t[|p.before|..s] == p.indent
    && OccursAt(inner, t, s) && t[l - 1] == NL
  }

  /** From its last line on it consists of the indented end marker and the tail. */
  ghost predicate Back(p: Parts, m: Markers, tail: string, t: string, l: nat) {
    l <= |t| && t[l..] == p.indent + (m.end + tail)
  }

  lemma {:induction false} RenderIsLaid(p: Parts, m: Markers, lines: seq<string>, s: nat, l: nat)
    requires s == |p.before| + |p.indent| && l == s + |Inner(p, m, lines)| + 1
    ensures Front(p, Inner(p, m, lines), Render(p, m, lines), s, l)
    ensures Back(p, m, Tail(p.after), Render(p, m, lines), l)
  {
    var inner, back := Inner(p, m, lines), p.indent + (m.end + Tail(p.after));
    var t := p.before + (p.indent + (inner + ([NL] + back)));
    assert t == Render(p, m, lines);
    LaidOut(p.before, p.indent, inner, back, t);
  }

  lemma {:induction false} LaidOut(a: string, b: string, c: string, d: string, t: string)
    requires t == a + (b + (c + ([NL] + d)))
    ensures |t| == |a| + |b| + |c| + 1 + |d|
    ensures t[..|a|] == a && t[|a|..|a| + |b|] == b && OccursAt(c, t, |a| + |b|)
    ensures t[|a| + |b| + |c|] == NL && t[|a| + |b| + |c| + 1..] == d
  {
    var ab := a + b;
    assert t == ab + (c + ([NL] + d));
    assert t == (ab + c) + ([NL] + d);
    assert t == (ab + c + [NL]) + d;
    forall k | 0 <= k < |c|
      ensures t[|a| + |b| + k] == c[k]
    {
      assert t[|ab| + k] == (c + ([NL] + d))[k];
    }
  }

  lemma {:induction false} StartIsFound(p: Parts, m: Markers, inner: string, t: string, s: nat, l: nat)
    requires SingleLine(m) && WellPlaced(p, m) && Front(p, inner, t, s, l) && m.start <= inner
    ensures IndexOf(t, m.start, 0) == s
    ensures s < |t| && LastNewline(t, s) + 1 == |p.before|
  {
    var front := p.before + p.indent + m.start;
    OccursInside(m.start, inner, t, s, 0);
    CharOf(m.start, t, s, 0);
    SliceOf(m.start, t, s);
    assert front == t[..s + |m.start|];
    forall i | 0 <= i < s
      ensures !OccursAt(m.start, t, i)
    {
      OccursInPrefix(m.start, front, t, i);
    }
    assert forall i :: |p.before| <= i < s ==> t[i] in t[|p.before|..s];
    assert p.before != "" ==> t[|p.before| - 1] == p.before[|p.before| - 1];
  }

  /** Before the last line, the end marker occurs only if it occurs in the text of
      the block. */
  lemma {:induction false} EarlyEnd(p: Parts, m: Markers, inner: string, t: string, s: nat, l: nat)
    requires SingleLine(m) && Front(p, inner, t, s, l)
    ensures (exists i :: s <= i < l && OccursAt(m.end, t, i)) <==> Occurs(m.end, inner)
  {
    forall i | s <= i < l && OccursAt(m.end, t, i)
      ensures OccursAt(m.end, inner, i - s)
    {
      BesideNewline(m.end, t, i, l - 1);
      OccursInside(m.end, inner, t, s, i - s);
    }
    forall j | OccursAt(m.end, inner, j)
      ensures OccursAt(m.end, t, s + j)
    {
      OccursInside(m.end, inner, t, s, j);
    }
  }

  /** In the last line the end marker occurs after the indent, if not earlier, and
      the next newline is the one in front of the rest. */
  lemma {:induction false} LastLine(p: Parts, m: Markers, tail: string, t: string, l: nat)
    requires SingleLine(m) && NL !in p.indent && Back(p, m, tail, t, l) && (tail == "" || tail[0] == NL)
    ensures OccursAt(m.end, t, l + |p.indent|)
    ensures forall e :: l <= e <= l + |p.indent| ==>
              IndexOf(t, [NL], e) == if tail == "" then -1 else l + |p.indent| + |m.end|
    ensures |t| == l + |p.indent| + |m.end| + |tail| && t[l + |p.indent| + |m.end|..] == tail
  {
    var line, z := p.indent + m.end, l + |p.indent| + |m.end|;
    assert t[l..] == line + tail;
    assert forall i :: l <= i < z ==> t[i] == t[l..][i - l] == line[i - l];
    forall k | 0 <= k < |m.end|
      ensures t[l + |p.indent| + k] == m.end[k]
    {
      assert line[|p.indent| + k] == m.end[k];
    }
    assert t[z..] == t[l..][|line|..] == tail;
    forall e | l <= e <= l + |p.indent|
      ensures IndexOf(t, [NL], e) == if tail == "" then -1 else z
    {
      NextNewline(t, e, z);
    }
  }

  lemma {:induction false} NextNewline(t: string, e: nat, z: nat)
    requires e <= z <= |t| && (forall i :: e <= i < z ==> t[i] != NL) && (z < |t| ==> t[z] == NL)
    ensures IndexOf(t, [NL], e) == if z == |t| then -1 else z
  {
    OneChar(NL, t, IndexOf(t, [NL], e));
    OneChar(NL, t, z);
  }

  lemma {:induction false} LocateFrom(t: string, m: Markers, s: nat, e: nat, n: int, l: nat)
    requires SingleLine(m) && IndexOf(t, m.start, 0) == s && IndexOf(t, m.end, s) == e && IndexOf(t, [NL], e) == n
    requires s < |t| && LastNewline(t, s) + 1 == l <= s
    ensures Locate(t, m) == Ok(Parts(t[..l], t[l..s], if n == -1 then "" else t[n + 1..]))
  {
    SliceIs(t, l, s);
  }

  lemma SliceIs(t: string, l: nat, s: nat)
    requires l <= s <= |t|
    ensures Slice(t, l, s) == t[l..s] && t[|t|..] == ""
  {
  }

  lemma {:induction false} ReadsBack(p: Parts, m: Markers, inner: string, t: string, s: nat, l: nat)
    requires SingleLine(m) && WellPlaced(p, m) && m.start <= inner && !Occurs(m.end, inner)
    requires Front(p, inner, t, s, l) && Back(p, m, Tail(p.after), t, l)
    ensures Locate(t, m) == Ok(p)
  {
    var e, z := IndexOf(t, m.end, s), l + |p.indent| + |m.end|;
    EndIsFound(p, m, inner, t, s, l);
    RestIsFound(p, m, t, l, e);
    StartIsFound(p, m, inner, t, s, l);
    LocateParts(p, m, t, s, e, if p.after == "" then -1 else z, p.after);
  }

  /** The first end marker is on the last line, at or before its place after the indent. */
  lemma {:induction false} EndIsFound(p: Parts, m: Markers, inner: string, t: string, s: nat, l: nat)
    requires SingleLine(m) && NL !in p.indent && !Occurs(m.end, inner)
    requires Front(p, inner, t, s, l) && Back(p, m, Tail(p.after), t, l)
    ensures l <= IndexOf(t, m.end, s) <= l + |p.indent|
  {
    EarlyEnd(p, m, inner, t, s, l);
    LastLine(p, m, Tail(p.after), t, l);
  }

  lemma {:induction false} RestIsFound(p: Parts, m: Markers, t: string, l: nat, e: nat)
    requires SingleLine(m) && NL !in p.indent && Back(p, m, Tail(p.after), t, l) && l <= e <= l + |p.indent|
    ensures var z := l + |p.indent| + |m.end|;
            if p.after == "" then IndexOf(t, [NL], e) == -1
            else IndexOf(t, [NL], e) == z < |t| && t[z + 1..] == p.after
  {
    var z := l + |p.indent| + |m.end|;
    LastLine(p, m, Tail(p.after), t, l);
    if p.after == "" {
    } else {
      assert t[z + 1..] == t[z..][1..];
      HeadAndTail(NL, p.after);
    }
  }

  /** The parts found between given indices. */
  lemma {:induction false} LocateParts(p: Parts, m: Markers, t: string, s: nat, e: nat, n: int, after: string)
    requires SingleLine(m) && IndexOf(t, m.start, 0) == s && IndexOf(t, m.end, s) == e && IndexOf(t, [NL], e) == n
    requires s < |t| && LastNewline(t, s) + 1 == |p.before| <= s
    requires t[..|p.before|] == p.before && t[|p.before|..s] == p.indent
    requires if n == -1 then after == "" else t[n + 1..] == after
    ensures Locate(t, m) == Ok(p.(after := after))
  {
    LocateFrom(t, m, s, e, n, |p.before|);
  }

  /** Otherwise the block is taken to end early, and its remaining lines, down to
      the end marker, are left behind. */
  lemma {:induction false} ReadsShort(p: Parts, m: Markers, inner: string, t: string, s: nat, l: nat)
    requires SingleLine(m) && WellPlaced(p, m) && m.start <= inner && Occurs(m.end, inner)
    requires Front(p, inner, t, s, l) && Back(p, m, Tail(p.after), t, l)
    ensures var r := Locate(t, m); r.Ok? && r.value == p.(after := r.value.after) && |r.value.after| > |p.after|
  {
    EndsEarly(p, m, inner, t, s, l);
    var e := IndexOf(t, m.end, s);
    var n := IndexOf(t, [NL], e);
    StartIsFound(p, m, inner, t, s, l);
    LocateParts(p, m, t, s, e, n, t[n + 1..]);
    MoreIsLeft(p, m, t, l, n);
  }

  lemma {:induction false} MoreIsLeft(p: Parts, m: Markers, t: string, l: nat, n: nat)
    requires m.end != "" && Back(p, m, Tail(p.after), t, l) && n < l
    ensures |t[n + 1..]| > |p.after|
  {
    TailIsLonger(p.after);
    assert |t[l..]| == |p.indent| + |m.end| + |Tail(p.after)|;
  }

  lemma {:induction false} EndsEarly(p: Parts, m: Markers, inner: string, t: string, s: nat, l: nat)
    requires SingleLine(m) && Front(p, inner, t, s, l) && Occurs(m.end, inner)
    ensures var e := IndexOf(t, m.end, s); s <= e && e <= IndexOf(t, [NL], e) < l
  {
    EarlyEnd(p, m, inner, t, s, l);
    OneChar(NL, t, l - 1);
  }

  lemma TailIsLonger(after: string)
    ensures |Tail(after)| >= |after|
  {
  }

  lemma {:induction false} WrittenReadsAs(p: Parts, m: Markers, lines: seq<string>)
    requires SingleLine(m) && WellPlaced(p, m)
    ensures Sealed(p, m, lines) ==> Locate(Render(p, m, lines), m) == Ok(p)
    ensures !Sealed(p, m, lines) ==>
              var r := Locate(Render(p, m, lines), m);
              r.Ok? && r.value == p.(after := r.value.after) && |r.value.after| > |p.after|
  {
    var t, inner, s := Render(p, m, lines), Inner(p, m, lines), |p.before| + |p.indent|;
    RenderIsLaid(p, m, lines, s, s + |inner| + 1);
    InnerStarts(p, m, lines);
    SealedIsNoOccurrence(p, m, lines);
    if Sealed(p, m, lines) {
      ReadsBack(p, m, inner, t, s, s + |inner| + 1);
    } else {
      ReadsShort(p, m, inner, t, s, s + |inner| + 1);
    }
  }

  // ------------------------------------------------------------------------------ the laws

  /** Rewriting a block fails exactly if there is no start marker, or no end marker
      at or after the first one. */
  lemma {:induction false} FailsIffMarkerMissing(text: string, m: Markers, lines: seq<string>)
    ensures ReplaceBlockLines(text, m, lines) == Err(MissingStart) <==> !Occurs(m.start, text)
    ensures ReplaceBlockLines(text, m, lines) == Err(MissingEnd) <==>
            Occurs(m.start, text) && forall j :: IndexOf(text, m.start, 0) <= j ==> !OccursAt(m.end, text, j)
  {
    assert Occurs(m.start, text) <==> IndexOf(text, m.start, 0) != -1;
  }

  /** There is no newline from i to j. */
  ghost predicate NoNewline(text: string, i: nat, j: nat) {
    forall k :: i <= k < j && k < |text| ==> text[k] != NL
  }

  /** The line of index i begins at l. */
  ghost predicate BeginsLine(text: string, i: nat, l: nat) {
    l <= i + 1 && l <= |text| && (l == 0 || text[l - 1] == NL) && NoNewline(text, l, i + 1)
  }

  /** The line of index i is over at n, its newline included. */
  ghost predicate EndsLine(text: string, i: nat, n: nat) {
    && n <= |text|
    && ((i < n && text[n - 1] == NL && NoNewline(text, i, n - 1)) || (n == |text| && NoNewline(text, i, n)))
  }

  /** Where the first start marker stands, and the first end marker from there on. */
  ghost function StartAt(text: string, m: Markers): (s: nat)
    requires Locate(text, m).Ok?
    ensures OccursAt(m.start, text, s) && forall i :: 0 <= i < s ==> !OccursAt(m.start, text, i)
  {
    IndexOf(text, m.start, 0)
  }

  ghost function EndAt(text: string, m: Markers): (e: nat)
    requires Locate(text, m).Ok?
    ensures StartAt(text, m) <= e && OccursAt(m.end, text, e)
    ensures forall i :: StartAt(text, m) <= i < e ==> !OccursAt(m.end, text, i)
  {
    IndexOf(text, m.end, StartAt(text, m))
  }

  /** Otherwise it keeps all text before the line of the first start marker, and all
      text after the line of the first end marker from there on. */
  lemma {:induction false} ReplaceKeepsSurroundings(text: string, m: Markers, lines: seq<string>)
    requires Locate(text, m).Ok?
    ensures var p, r := Locate(text, m).value, ReplaceBlockLines(text, m, lines).value;
            && p.before <= text && BeginsLine(text, StartAt(text, m), |p.before|)
            && EndsWith(text, p.after) && EndsLine(text, EndAt(text, m), |text| - |p.after|)
            && p.before <= r && EndsWith(r, p.after)
  {
    PartsAreLines(text, m);
    RenderKeepsParts(Locate(text, m).value, m, lines);
  }

  lemma {:induction false} PartsAreLines(text: string, m: Markers)
    requires Locate(text, m).Ok?
    ensures var p := Locate(text, m).value;
            && p.before <= text && BeginsLine(text, StartAt(text, m), |p.before|)
            && EndsWith(text, p.after) && EndsLine(text, EndAt(text, m), |text| - |p.after|)
  {
    var e := EndAt(text, m);
    LineIsOver(text, e, IndexOf(text, [NL], e));
  }

  lemma {:induction false} RenderKeepsParts(p: Parts, m: Markers, lines: seq<string>)
    ensures p.before <= Render(p, m, lines) && EndsWith(Render(p, m, lines), p.after)
  {
    EndOfRender(p, m, lines);
  }

  lemma {:induction false} LineIsOver(text: string, i: nat, n: int)
    requires i <= |text| && n == IndexOf(text, [NL], i)
    ensures n < |text| && NoNewline(text, i, if n == -1 then |text| else n) && (n >= 0 ==> text[n] == NL)
  {
    OneChar(NL, text, n);
    forall k | i <= k < |text| && (n == -1 || k < n)
      ensures text[k] != NL
    {
      OneChar(NL, text, k);
    }
  }

  /** Between them stand the indented markers around the indented lines, and nothing else. */
  lemma {:induction false} BlockHoldsLines(text: string, m: Markers, lines: seq<string>)
    requires SingleLine(m) && Locate(text, m).Ok? && forall i :: 0 <= i < |lines| ==> NL !in lines[i]
    ensures var p := Locate(text, m).value;
            exists block :: ReplaceBlockLines(text, m, lines) == Ok(p.before + (block + Tail(p.after)))
                            && LinesOf(block) == Indented(p.indent, [m.start] + lines + [m.end])
  {
    var p := Locate(text, m).value;
    LocatedIsWellPlaced(text, m);
    var all := Indented(p.indent, [m.start] + lines + [m.end]);
    LinesOfJoin(all);
    RenderJoins(p, m, lines);
    assert ReplaceBlockLines(text, m, lines) == Ok(p.before + (JoinLines(all) + Tail(p.after)));
  }

  lemma {:induction false} RenderJoins(p: Parts, m: Markers, lines: seq<string>)
    ensures Render(p, m, lines) == p.before + (JoinLines(Indented(p.indent, [m.start] + lines + [m.end])) + Tail(p.after))
  {
    var rest, last := Indented(p.indent, lines), p.indent + m.end;
    var inner := [m.start] + rest;
    assert Indented(p.indent, [m.start] + lines + [m.end]) == [p.indent + m.start] + rest + [last];
    assert JoinLines([p.indent + m.start] + rest) == p.indent + JoinLines(inner) by {
      assert inner[0] == m.start && inner[1..] == rest;
      JoinIndentFirst(p.indent, inner);
    }
    JoinSnoc([p.indent + m.start] + rest, last);
    Reassociate(p.before, p.indent, JoinLines(inner), p.indent, m.end, Tail(p.after));
  }

  lemma Reassociate(a: string, b: string, c: string, d: string, e: string, f: string)
    ensures a + (b + (c + ([NL] + (d + (e + f))))) == a + (b + c + ([NL] + (d + e)) + f)
  {
    assert d + (e + f) == d + e + f;
    assert [NL] + (d + e + f) == [NL] + (d + e) + f;
    var g := [NL] + (d + e);
    assert c + (g + f) == c + g + f;
    assert b + (c + g + f) == b + c + g + f;
  }

  lemma {:induction false} LinesOfPair(a: string, b: string)
    requires NL !in a
    ensures LinesOf(a) == [a]
    ensures LinesOf(a + ([NL] + b)) == [a] + LinesOf(b)
    decreases |a|
  {
    if a == "" {
      assert a + ([NL] + b) == [NL] + b;
    } else {
      LinesOfPair(a[1..], b);
      assert (a + ([NL] + b))[1..] == a[1..] + ([NL] + b);
      assert [a[0]] + a[1..] == a;
    }
  }

  lemma {:induction false} LinesOfJoin(lines: seq<string>)
    requires lines != [] && forall i :: 0 <= i < |lines| ==> NL !in lines[i]
    ensures LinesOf(JoinLines(lines)) == lines
    decreases |lines|
  {
    if |lines| == 1 {
      LinesOfPair(lines[0], "");
    } else {
      LinesOfJoin(lines[1..]);
      LinesOfPair(lines[0], JoinLines(lines[1..]));
    }
  }

  lemma {:induction false} JoinSnoc(lines: seq<string>, last: string)
    requires lines != []
    ensures JoinLines(lines + [last]) == JoinLines(lines) + ([NL] + last)
    decreases |lines|
  {
    assert (lines + [last])[1..] == lines[1..] + [last];
    if |lines| > 1 {
      JoinSnoc(lines[1..], last);
    }
  }

  lemma JoinIndentFirst(indent: string, lines: seq<string>)
    requires lines != []
    ensures JoinLines([indent + lines[0]] + lines[1..]) == indent + JoinLines(lines)
  {
    assert ([indent + lines[0]] + lines[1..])[1..] == lines[1..];
  }

  ghost predicate EndsWith(s: string, part: string) {
    |part| <= |s| && s[|s| - |part|..] == part
  }

  lemma {:induction false} EndOfRender(p: Parts, m: Markers, lines: seq<string>)
    ensures EndsWith(Render(p, m, lines), p.after)
  {
    if p.after != "" {
      var x := p.before + (p.indent + (Inner(p, m, lines) + ([NL] + (p.indent + m.end)))) + [NL];
      assert Render(p, m, lines) == x + p.after;
    }
  }

  /** Writing L1 and then L2 is the same as writing L2, if and only if the end
      marker occurs neither in the start marker nor in an indented line of L1. */
  lemma {:induction false} PutPut(text: string, m: Markers, first: seq<string>, second: seq<string>)
    requires SingleLine(m) && Locate(text, m).Ok?
    ensures ReplaceBlockLines(ReplaceBlockLines(text, m, first).value, m, second) == ReplaceBlockLines(text, m, second)
            <==> Sealed(Locate(text, m).value, m, first)
  {
    var p := Locate(text, m).value;
    LocatedIsWellPlaced(text, m);
    WrittenReadsAs(p, m, first);
    var p' := Locate(Render(p, m, first), m).value;
    assert |Render(p', m, second)| - |Tail(p'.after)| == |Render(p, m, second)| - |Tail(p.after)|;
  }

  /** A repeat is a no-op under the same condition. */
  lemma Idempotent(text: string, m: Markers, lines: seq<string>)
    requires SingleLine(m) && Locate(text, m).Ok?
    ensures ReplaceBlockLines(ReplaceBlockLines(text, m, lines).value, m, lines) == ReplaceBlockLines(text, m, lines)
            <==> Sealed(Locate(text, m).value, m, lines)
  {
    PutPut(text, m, lines, lines);
  }

  /** It is not one when a line holds the end marker: the block then ends early, and
      each repeat leaves one more line behind. */
  lemma {:induction false} RepeatCounterexample()
    ensures var text, m, lines := "<\n>", Markers("<", ">"), [">"];
            var once := ReplaceBlockLines(text, m, lines);
            once.Ok? && ReplaceBlockLines(once.value, m, lines) != once
  {
    var text, m, lines := "<\n>", Markers("<", ">"), [">"];
    OneChar('<', text, 0);
    OneChar('>', text, 2);
    var p := Locate(text, m).value;
    assert !Sealed(p, m, lines) by {
      OneChar('>', p.indent + lines[0], |p.indent|);
    }
    Idempotent(text, m, lines);
  }

  /** Under a blank indent and an end marker that starts with ink, it is enough that
      the lines themselves are free of the end marker. */
  lemma {:induction false} BlankIndentIsSealed(p: Parts, m: Markers, lines: seq<string>)
    requires SingleLine(m) && Blank(p.indent) && !IsSpace(m.end[0]) && !Occurs(m.end, m.start)
    requires forall i :: 0 <= i < |lines| ==> !Occurs(m.end, lines[i])
    ensures Sealed(p, m, lines)
  {
    forall i | 0 <= i < |lines|
      ensures !Occurs(m.end, p.indent + lines[i])
    {
      var s, n := p.indent + lines[i], |p.indent|;
      assert forall q :: 0 <= q < n ==> IsSpace(s[q]);
      assert OccursAt(lines[i], s, n);
      forall j | OccursAt(m.end, s, j)
        ensures OccursAt(m.end, lines[i], j - n)
      {
        CharOf(m.end, s, j, 0);
        OccursInside(m.end, lines[i], s, n, j - n);
      }
    }
  }
}
