/**
 The line buffers of a child's two output streams (scripts/bench-gateway-restart.ts):
 chunks arrive cut anywhere and interleaved, lines leave whole.
 */
module OutputLines {
  import opened Common

  const CR: char := '\r'

  // ---------------------------------------------------------------------------- splitting

  /** `text.split(/\r?\n/u)`. */
  function Split(s: string): (r: seq<string>)
    ensures |r| > 0
    decreases |s|
  {
    if s == "" then [""]
    else if s[0] == NL then [""] + Split(s[1..])
    else if |s| > 1 && s[0] == CR && s[1] == NL then [""] + Split(s[2..])
    else Prepend(s[0], Split(s[1..]))
  }

  function Last(lines: seq<string>): string
    requires lines != []
  {
    lines[|lines| - 1]
  }

  function Init(lines: seq<string>): seq<string>
    requires lines != []
  {
    lines[..|lines| - 1]
  }

  datatype Collected = Collected(carry: string, lines: seq<string>)

  /** `collectOutputLines`. */
  function CollectOutputLines(carry: string, chunk: string): Collected {
    var parts := Split(carry + chunk);
    Collected(Last(parts), Init(parts))
  }

  /** A text is one piece exactly if it holds no newline, and the piece is the text. */
  lemma {:induction false} OnePiece(s: string)
    ensures |Split(s)| == 1 <==> NL !in s
    ensures |Split(s)| == 1 ==> Split(s) == [s]
    decreases |s|
  {
    if s == "" {
    } else {
      OnePiece(s[1..]);
      assert s == [s[0]] + s[1..];
    }
  }

  /** Splitting what has arrived, and later only the unfinished piece with what
      follows, is splitting everything at once. */
  lemma {:induction false} SplitResumes(x: string, y: string)
    ensures Split(x + y) == Init(Split(x)) + Split(Last(Split(x)) + y)
    decreases |x|
  {
    if |Split(x)| == 1 {
      OnePiece(x);
    } else {
      ResumesLater(x, y);
    }
  }

  lemma {:induction false} ResumesLater(x: string, y: string)
    requires |Split(x)| > 1
    ensures Split(x + y) == Init(Split(x)) + Split(Last(Split(x)) + y)
    decreases |x|, 0
  {
    if x[0] == NL || (|x| > 1 && x[0] == CR && x[1] == NL) {
      var n := if x[0] == NL then 1 else 2;
      assert (x + y)[n..] == x[n..] + y;
      SplitResumes(x[n..], y);
      AfterEmptyLine(Split(x[n..]), Split(Last(Split(x[n..])) + y));
    } else {
      OnePiece(x[1..]);
      assert (x + y)[1..] == x[1..] + y;
      assert (x + y)[1] == x[1];
      ResumesLater(x[1..], y);
      PrependKeepsLast(x[0], Split(x[1..]), Split(Last(Split(x[1..])) + y));
    }
  }

  lemma {:induction false} AfterEmptyLine(r: seq<string>, rest: seq<string>)
    requires r != []
    ensures Last([""] + r) == Last(r)
    ensures [""] + (Init(r) + rest) == Init([""] + r) + rest
  {
  }

  lemma {:induction false} PrependKeepsLast(c: char, r: seq<string>, rest: seq<string>)
    requires |r| > 1
    ensures Last(Prepend(c, r)) == Last(r)
    ensures Prepend(c, Init(r) + rest) == Init(Prepend(c, r)) + rest
  {
  }

  /** An independent reading of the separator: cut at every newline, then drop one
      carriage return from the end of each piece but the last. */
  function WithoutReturn(line: string): string {
    if line != "" && line[|line| - 1] == CR then line[..|line| - 1] else line
  }

  ghost predicate Stripped(raw: seq<string>, lines: seq<string>) {
    && |raw| == |lines| > 0
    && (forall i :: 0 <= i < |raw| - 1 ==> lines[i] == WithoutReturn(raw[i]))
    && lines[|lines| - 1] == raw[|raw| - 1]
  }

  lemma {:induction false} SplitStripsReturns(s: string)
    ensures Stripped(LinesOf(s), Split(s))
    decreases |s|
  {
    if s == "" {
    } else if |s| > 1 && s[0] == CR && s[1] == NL {
      SplitStripsReturns(s[2..]);
      assert s[1..][1..] == s[2..];
      assert LinesOf(s[1..]) == [""] + LinesOf(s[2..]);
      StripEmpty(LinesOf(s[2..]), Split(s[2..]));
    } else if s[0] == NL {
      SplitStripsReturns(s[1..]);
      StripEmpty(LinesOf(s[1..]), Split(s[1..]));
    } else {
      SplitStripsReturns(s[1..]);
      FirstPiece(s[1..]);
      StripPrepend(s[0], LinesOf(s[1..]), Split(s[1..]));
    }
  }

  lemma {:induction false} StripEmpty(raw: seq<string>, lines: seq<string>)
    requires Stripped(raw, lines)
    ensures Stripped([""] + raw, [""] + lines)
    ensures Stripped(Prepend(CR, [""] + raw), [""] + lines)
  {
    OnlyReturn();
    StripFirst("", "", raw, lines, [""] + raw);
    StripFirst([CR], "", raw, lines, Prepend(CR, [""] + raw));
  }

  lemma OnlyReturn()
    ensures [CR] + "" == [CR] && WithoutReturn([CR]) == "" && WithoutReturn("") == ""
  {
    assert [CR][..0] == "";
  }

  lemma {:induction false} StripFirst(first: string, line: string, raw: seq<string>, lines: seq<string>, all: seq<string>)
    requires Stripped(raw, lines) && WithoutReturn(first) == line
    requires |all| == |raw| + 1 && all[0] == first && forall i :: 0 < i < |all| ==> all[i] == raw[i - 1]
    ensures Stripped(all, [line] + lines)
  {
  }

  lemma {:induction false} StripPrepend(c: char, raw: seq<string>, lines: seq<string>)
    requires Stripped(raw, lines) && (|raw| > 1 && raw[0] == "" ==> c != CR)
    ensures Stripped(Prepend(c, raw), Prepend(c, lines))
  {
    assert |raw| > 1 ==> WithoutReturn([c] + raw[0]) == [c] + WithoutReturn(raw[0]);
  }

  lemma {:induction false} FirstPiece(s: string)
    ensures |LinesOf(s)| > 1 && LinesOf(s)[0] == "" ==> s[0] == NL
  {
  }

  // -------------------------------------------------------------------------- two streams

  datatype Stream = Stdout | Stderr

  datatype Piece = Piece(stream: Stream, text: string)

  /** The texts of one stream, in order. */
  function On(stream: Stream, pieces: seq<Piece>): seq<string>
    decreases |pieces|
  {
    if pieces == [] then []
    else
      var n := |pieces| - 1;
      On(stream, pieces[..n]) + if pieces[n].stream == stream then [pieces[n].text] else []
  }

  lemma {:induction false} OnSnoc(stream: Stream, pieces: seq<Piece>, piece: Piece)
    ensures On(stream, pieces + [piece]) == On(stream, pieces) + if piece.stream == stream then [piece.text] else []
  {
    assert (pieces + [piece])[..|pieces|] == pieces;
  }

  /** Everything one stream has sent. */
  function TextOn(stream: Stream, chunks: seq<Piece>): string {
    Concat(On(stream, chunks))
  }

  lemma {:induction false} TextOnSnoc(stream: Stream, chunks: seq<Piece>, chunk: Piece)
    ensures TextOn(stream, chunks + [chunk]) == TextOn(stream, chunks) + if chunk.stream == stream then chunk.text else ""
  {
    OnSnoc(stream, chunks, chunk);
    if chunk.stream == stream {
      ConcatAppend(On(stream, chunks), [chunk.text]);
      assert Concat([chunk.text]) == chunk.text + Concat<char>([]) == chunk.text;
    } else {
      assert On(stream, chunks) + [] == On(stream, chunks);
    }
  }

  /** For one stream the lines handed over are all but the last piece of its whole
      text, and the carry is that last piece: how the text was cut into chunks, and
      what the other stream did, leave no trace. */
  ghost predicate Faithful(stream: Stream, chunks: seq<Piece>, delivered: seq<Piece>, carry: string) {
    var pieces := Split(TextOn(stream, chunks));
    On(stream, delivered) == Init(pieces) && carry == Last(pieces)
  }

  function Marked(stream: Stream, lines: seq<string>): (r: seq<Piece>)
    ensures |r| == |lines| && forall i :: 0 <= i < |lines| ==> r[i] == Piece(stream, lines[i])
    decreases |lines|
  {
    if lines == [] then [] else Marked(stream, lines[..|lines| - 1]) + [Piece(stream, lines[|lines| - 1])]
  }

  lemma {:induction false} OnMarked(st: Stream, delivered: seq<Piece>, stream: Stream, lines: seq<string>)
    ensures On(st, delivered + Marked(stream, lines)) == On(st, delivered) + if st == stream then lines else []
    decreases |lines|
  {
    if lines == [] {
      assert delivered + Marked(stream, lines) == delivered;
    } else {
      var n := |lines| - 1;
      OnMarked(st, delivered, stream, lines[..n]);
      var before := delivered + Marked(stream, lines[..n]);
      LastApart(delivered, Marked(stream, lines[..n]), Piece(stream, lines[n]));
      OnSnoc(st, before, Piece(stream, lines[n]));
      LastApart(On(st, delivered), lines[..n], lines[n]);
      assert lines[..n] + [lines[n]] == lines;
    }
  }

  lemma LastApart<T>(a: seq<T>, b: seq<T>, x: T)
    ensures a + (b + [x]) == (a + b) + [x]
  {
  }

  lemma {:induction false} ChunkKeepsFaithful(st: Stream, chunks: seq<Piece>, delivered: seq<Piece>, carry: string, chunk: Piece, r: Collected)
    requires Faithful(st, chunks, delivered, carry)
    requires st == chunk.stream ==> r == CollectOutputLines(carry, chunk.text)
    ensures Faithful(st, chunks + [chunk], delivered + Marked(chunk.stream, r.lines), if st == chunk.stream then r.carry else carry)
  {
    OnMarked(st, delivered, chunk.stream, r.lines);
    TextOnSnoc(st, chunks, chunk);
    var whole := TextOn(st, chunks);
    if st == chunk.stream {
      SplitResumes(whole, chunk.text);
      InitOfSum(Init(Split(whole)), Split(carry + chunk.text));
    } else {
      assert whole + "" == whole;
      assert On(st, delivered) + [] == On(st, delivered);
    }
  }

  ghost predicate BothFaithful(chunks: seq<Piece>, delivered: seq<Piece>, out: string, err: string) {
    Faithful(Stdout, chunks, delivered, out) && Faithful(Stderr, chunks, delivered, err)
  }

  lemma {:induction false} ChunkKeepsBoth(chunks: seq<Piece>, delivered: seq<Piece>, out: string, err: string, chunk: Piece, r: Collected)
    requires BothFaithful(chunks, delivered, out, err)
    requires r == CollectOutputLines(if chunk.stream == Stdout then out else err, chunk.text)
    ensures BothFaithful(chunks + [chunk], delivered + Marked(chunk.stream, r.lines),
                         if chunk.stream == Stdout then r.carry else out,
                         if chunk.stream == Stderr then r.carry else err)
  {
    ChunkKeepsFaithful(Stdout, chunks, delivered, out, chunk, r);
    ChunkKeepsFaithful(Stderr, chunks, delivered, err, chunk, r);
  }

  lemma InitOfSum(a: seq<string>, b: seq<string>)
    requires b != []
    ensures Init(a + b) == a + Init(b) && Last(a + b) == Last(b)
  {
  }

  /** A flush at the end of the run hands over an unfinished line unless it is empty. */
  function Flushed(lines: seq<string>): seq<string>
    requires lines != []
  {
    if Last(lines) == "" then Init(lines) else lines
  }

  /** The two carries and the calls of `onLine`, each marked with its stream. */
  class OutputBuffers {
    var stdout: string
    var stderr: string
    var delivered: seq<Piece>
    ghost var chunks: seq<Piece>

    function Buffer(stream: Stream): string
      reads this
    {
      if stream == Stdout then stdout else stderr
    }

    ghost predicate Valid()
      reads this
    {
      BothFaithful(chunks, delivered, stdout, stderr)
    }

    constructor ()
      ensures Valid() && chunks == [] && delivered == []
    {
      stdout, stderr, delivered, chunks := "", "", [], [];
    }

    method OnLine(stream: Stream, line: string)
      modifies this`delivered
      ensures delivered == old(delivered) + [Piece(stream, line)]
    {
      delivered := delivered + [Piece(stream, line)];
    }

    method OnChunk(stream: Stream, text: string)
      requires Valid()
      modifies this
      ensures Valid() && chunks == old(chunks) + [Piece(stream, text)]
      ensures old(delivered) <= delivered
    {
      var parsed := CollectOutputLines(Buffer(stream), text);
      if stream == Stdout {
        stdout := parsed.carry;
      } else {
        stderr := parsed.carry;
      }
      OnLines(stream, parsed.lines);
      chunks := chunks + [Piece(stream, text)];
      assert Valid() by {
        ChunkKeepsBoth(old(chunks), old(delivered), old(stdout), old(stderr), Piece(stream, text), parsed);
      }
    }

    method OnLines(stream: Stream, lines: seq<string>)
      modifies this`delivered
      ensures delivered == old(delivered) + Marked(stream, lines)
    {
      var i := 0;
      while i < |lines|
        invariant 0 <= i <= |lines|
        invariant delivered == old(delivered) + Marked(stream, lines)[..i]
      {
        OnLine(stream, lines[i]);
        i := i + 1;
      }
    }

    /** The flush after the child has ended: on either stream exactly the lines of its
        whole text have then been handed over. */
    method FlushOutputLineBuffers(flushPartial: bool)
      requires Valid()
      modifies this
      ensures chunks == old(chunks) && old(delivered) <= delivered
      ensures !flushPartial ==> Valid() && delivered == old(delivered)
      ensures flushPartial ==> stdout == stderr == ""
      ensures flushPartial ==> AllLines(Stdout, chunks, delivered) && AllLines(Stderr, chunks, delivered)
    {
      if !flushPartial {
        return;
      }
      FlushSteps(chunks, delivered, stdout, stderr);
      FlushStream(Stdout);
      FlushStream(Stderr);
    }

    method FlushStream(stream: Stream)
      modifies this`stdout, this`stderr, this`delivered
      ensures delivered == old(delivered) + Carried(stream, old(Buffer(stream)))
      ensures stdout == (if stream == Stdout then "" else old(stdout)) && stderr == if stream == Stderr then "" else old(stderr)
    {
      var line := Buffer(stream);
      if line == "" {
        return;
      }
      if stream == Stdout {
        stdout := "";
      } else {
        stderr := "";
      }
      OnLine(stream, line);
    }
  }

  /** The lines handed over for a stream are those of its whole text. */
  ghost predicate AllLines(stream: Stream, chunks: seq<Piece>, delivered: seq<Piece>) {
    On(stream, delivered) == Flushed(Split(TextOn(stream, chunks)))
  }

  function Carried(stream: Stream, carry: string): seq<Piece> {
    if carry == "" then [] else [Piece(stream, carry)]
  }

  lemma {:induction false} FlushSteps(chunks: seq<Piece>, delivered: seq<Piece>, out: string, err: string)
    requires Faithful(Stdout, chunks, delivered, out) && Faithful(Stderr, chunks, delivered, err)
    ensures var all := delivered + Carried(Stdout, out) + Carried(Stderr, err);
            AllLines(Stdout, chunks, all) && AllLines(Stderr, chunks, all)
  {
    var one := delivered + Carried(Stdout, out);
    OnCarried(Stdout, delivered, Stdout, out);
    OnCarried(Stderr, delivered, Stdout, out);
    OnCarried(Stdout, one, Stderr, err);
    OnCarried(Stderr, one, Stderr, err);
    FlushedIs(Split(TextOn(Stdout, chunks)));
    FlushedIs(Split(TextOn(Stderr, chunks)));
  }

  lemma {:induction false} OnCarried(st: Stream, delivered: seq<Piece>, stream: Stream, carry: string)
    ensures On(st, delivered + Carried(stream, carry)) ==
            if st == stream && carry != "" then On(st, delivered) + [carry] else On(st, delivered)
  {
    if carry == "" {
      assert delivered + Carried(stream, carry) == delivered;
    } else {
      OnSnoc(st, delivered, Piece(stream, carry));
    }
  }

  lemma FlushedIs(lines: seq<string>)
    requires lines != []
    ensures Flushed(lines) == if Last(lines) == "" then Init(lines) else Init(lines) + [Last(lines)]
  {
  }

  // --------------------------------------------------------------------- chunk invariance

  /** Folding `collectOutputLines` over one stream's chunks. */
  function Fold(chunks: seq<string>): Collected
    decreases |chunks|
  {
    if chunks == [] then Collected("", [])
    else
      var n := |chunks| - 1;
      var before := Fold(chunks[..n]);
      var c := CollectOutputLines(before.carry, chunks[n]);
      Collected(c.carry, before.lines + c.lines)
  }

  lemma {:induction false} FoldSplitsOnce(chunks: seq<string>)
    ensures Fold(chunks) == CollectOutputLines("", Concat(chunks))
    decreases |chunks|
  {
    if chunks != [] {
      var n := |chunks| - 1;
      var x := Concat(chunks[..n]);
      FoldSplitsOnce(chunks[..n]);
      assert "" + x == x;
      SplitResumes(x, chunks[n]);
      assert chunks == chunks[..n] + [chunks[n]];
      ConcatAppend(chunks[..n], [chunks[n]]);
      assert Concat([chunks[n]]) == chunks[n] + Concat<char>([]) == chunks[n];
      assert "" + Concat(chunks) == x + chunks[n];
      InitOfSum(Init(Split(x)), Split(Last(Split(x)) + chunks[n]));
    } else {
      assert "" + Concat(chunks) == "";
    }
  }

  /** Any two ways of cutting the same text give the same lines and the same carry. */
  lemma ChunkInvariance(a: seq<string>, b: seq<string>)
    requires Concat(a) == Concat(b)
    ensures Fold(a) == Fold(b)
  {
    FoldSplitsOnce(a);
    FoldSplitsOnce(b);
  }
}
