/** Datatypes and text helpers shared by the models. */
module Common {

  datatype Option<+T> = None | Some(value: T)

  /** A value, or the error the source throws. */
  datatype Result<+T, +E> = Ok(value: T) | Err(error: E) {
    predicate IsFailure() {
      Err?
    }

    function PropagateFailure<U>(): Result<U, E>
      requires Err?
    {
      Err(error)
    }

    function Extract(): T
      requires Ok?
    {
      value
    }
  }

  /** The characters that JavaScript's String.prototype.trim removes. */
  predicate IsSpace(c: char) {
    || '\t' <= c <= '\r'
    || c == ' '
    || c == 0xA0 as char
    || c == 0x1680 as char
    || 0x2000 as char <= c <= 0x200A as char
    || c == 0x2028 as char
    || c == 0x2029 as char
    || c == 0x202F as char
    || c == 0x205F as char
    || c == 0x3000 as char
    || c == 0xFEFF as char
  }

  /** `!text.trim()` in the source. */
  predicate Blank(s: string) {
    forall i :: 0 <= i < |s| ==> IsSpace(s[i])
  }

  function TrimStart(s: string): string {
    if s != "" && IsSpace(s[0]) then TrimStart(s[1..]) else s
  }

  function TrimEnd(s: string): string {
    if s != "" && IsSpace(s[|s| - 1]) then TrimEnd(s[..|s| - 1]) else s
  }

  /** `text.trim()`. */
  function Trim(s: string): string {
    TrimEnd(TrimStart(s))
  }

  /** Trimming takes blanks off both ends, and no more: what is left is empty, or begins
      and ends with ink. */
  lemma {:induction false} TrimIsExact(s: string) returns (a: string, b: string)
    ensures s == a + Trim(s) + b && Blank(a) && Blank(b)
    ensures Trim(s) != "" ==> !IsSpace(Trim(s)[0]) && !IsSpace(Trim(s)[|Trim(s)| - 1])
    ensures Trim(s) == "" <==> Blank(s)
  {
    a := TrimStartIsExact(s);
    b := TrimEndIsExact(TrimStart(s));
    var t := Trim(s);
    Assoc(a, t, b);
    if t != "" {
      assert t[0] == TrimStart(s)[0] && s[|a|] == t[0];
    }
    assert forall i :: 0 <= i < |s| && t == "" ==> s[i] == (a + b)[i];
  }

  lemma {:induction false} TrimStartIsExact(s: string) returns (a: string)
    ensures s == a + TrimStart(s) && Blank(a)
    ensures TrimStart(s) != "" ==> !IsSpace(TrimStart(s)[0])
    decreases |s|
  {
    if s != "" && IsSpace(s[0]) {
      var b := TrimStartIsExact(s[1..]);
      a := [s[0]] + b;
    } else {
      a := "";
    }
  }

  lemma {:induction false} TrimEndIsExact(s: string) returns (b: string)
    ensures s == TrimEnd(s) + b && Blank(b)
    ensures TrimEnd(s) != "" ==> !IsSpace(TrimEnd(s)[|TrimEnd(s)| - 1])
    decreases |s|
  {
    if s != "" && IsSpace(s[|s| - 1]) {
      var a := TrimEndIsExact(s[..|s| - 1]);
      b := a + [s[|s| - 1]];
    } else {
      b := "";
    }
  }

  /** The indexes of the true flags, in order. */
  ghost predicate Indexes(at: seq<nat>, flags: seq<bool>) {
    && (forall j, k :: 0 <= j < k < |at| ==> at[j] < at[k])
    && (forall i: nat :: i in at <==> i < |flags| && flags[i])
  }

  lemma {:induction false} IndexesSnoc(at: seq<nat>, flags: seq<bool>, f: bool)
    requires Indexes(at, flags)
    ensures Indexes(if f then at + [|flags|] else at, flags + [f])
  {
    assert forall j :: 0 <= j < |at| ==> at[j] in at;
  }

  lemma {:induction false} OneIndexes(a: seq<nat>, b: seq<nat>, flags: seq<bool>)
    requires Indexes(a, flags) && Indexes(b, flags)
    ensures a == b
    decreases |flags|
  {
    if flags == [] {
      NoIndexes(a);
      NoIndexes(b);
    } else {
      var n := |flags| - 1;
      var a' := IndexesInit(a, flags);
      var b' := IndexesInit(b, flags);
      OneIndexes(a', b', flags[..n]);
    }
  }

  lemma {:induction false} NoIndexes(at: seq<nat>)
    requires Indexes(at, [])
    ensures at == []
  {
    FirstIsIn(at);
  }

  lemma FirstIsIn<T>(s: seq<T>)
    ensures s == [] || s[0] in s
  {
  }

  lemma {:induction false} IndexesInit(at: seq<nat>, flags: seq<bool>) returns (init: seq<nat>)
    requires flags != [] && Indexes(at, flags)
    ensures Indexes(init, flags[..|flags| - 1])
    ensures at == if flags[|flags| - 1] then init + [|flags| - 1] else init
  {
    var n := |flags| - 1;
    if flags[n] {
      var j :| 0 <= j < |at| && at[j] == n;
      assert at[|at| - 1] in at;
      assert j == |at| - 1;
      InitAndLast(at);
      init := at[..j];
      assert forall i: nat :: i in at <==> i in init || i == n;
      assert n !in init;
    } else {
      init := at;
    }
  }

  /** The concatenation of a list of lists. */
  function Concat<T>(parts: seq<seq<T>>): seq<T> {
    if parts == [] then [] else parts[0] + Concat(parts[1..])
  }

  lemma ConcatAppend<T>(a: seq<seq<T>>, b: seq<seq<T>>)
    ensures Concat(a + b) == Concat(a) + Concat(b)
  {
    if a == [] {
      assert a + b == b;
    } else {
      assert (a + b)[1..] == a[1..] + b;
      ConcatAppend(a[1..], b);
    }
  }

  lemma TakeOneMore<T>(s: seq<T>, i: nat)
    requires i < |s|
    ensures s[..i + 1] == s[..i] + [s[i]] && s[..i + 1][..i] == s[..i]
  {
  }

  lemma Assoc<T>(a: seq<T>, b: seq<T>, c: seq<T>)
    ensures a + b + c == a + (b + c)
  {
  }

  lemma HeadAndTail<T>(x: T, rest: seq<T>)
    ensures ([x] + rest)[0] == x && ([x] + rest)[1..] == rest
  {
  }

  /** Taking the first of a list over to the end of another. */
  lemma MoveFirst<T>(a: seq<T>, b: seq<T>)
    requires b != []
    ensures a + [b[0]] + b[1..] == a + b
  {
  }

  lemma InitAndLast<T>(s: seq<T>)
    requires s != []
    ensures s == s[..|s| - 1] + [s[|s| - 1]]
  {
  }

  /** A slice around one of its elements. */
  lemma SliceAround<T>(s: seq<T>, i: nat, j: nat, k: nat)
    requires i <= j < k <= |s|
    ensures s[i..k] == s[i..j] + ([s[j]] + s[j + 1..k])
  {
  }

  lemma TakeAll<T>(s: seq<T>)
    ensures s[..|s|] == s
  {
  }

  lemma ConcatOne<T>(part: seq<T>)
    ensures Concat([part]) == part
  {
    assert [part][1..] == [];
  }

  lemma {:induction false} ConcatSnoc<T>(parts: seq<seq<T>>, k: nat)
    requires k < |parts|
    ensures Concat(parts[..k + 1]) == Concat(parts[..k]) + parts[k]
  {
    TakeOneMore(parts, k);
    ConcatAppend(parts[..k], [parts[k]]);
    ConcatOne(parts[k]);
  }

  /** One part among the others. */
  lemma {:induction false} ConcatAround<T>(parts: seq<seq<T>>, k: nat)
    requires k < |parts|
    ensures Concat(parts) == Concat(parts[..k]) + (parts[k] + Concat(parts[k + 1..]))
  {
    assert parts == parts[..k] + parts[k..] && parts[k..][0] == parts[k] && parts[k..][1..] == parts[k + 1..];
    ConcatAppend(parts[..k], parts[k..]);
  }

  lemma SliceOfSlice<T>(s: seq<T>, i: nat, j: nat, x: nat, y: nat)
    requires i <= j <= |s| && x <= y <= j - i
    ensures s[i..j][x..y] == s[i + x..i + y]
  {
    var t := s[i..j];
    forall k | 0 <= k < y - x
      ensures t[x..y][k] == s[i + x..i + y][k]
    {
      assert t[x..y][k] == t[x + k] == s[i + (x + k)];
    }
  }

  /** `text.includes(part)`. */
  predicate Occurs(part: string, s: string) {
    exists i :: 0 <= i <= |s| - |part| && OccursAt(part, s, i)
  }

  /** part stands in s from index i on. */
  predicate OccursAt(part: string, s: string, i: int) {
    0 <= i <= |s| - |part| && forall k :: 0 <= k < |part| ==> s[i + k] == part[k]
  }

  /** What occurs in a part of a text occurs in the text, and the other way round. */
  lemma OccursInside(part: string, x: string, s: string, o: int, j: int)
    requires OccursAt(x, s, o) && 0 <= j <= |x| - |part|
    ensures OccursAt(part, s, o + j) <==> OccursAt(part, x, j)
  {
    if OccursAt(part, s, o + j) {
      forall k | 0 <= k < |part|
        ensures x[j + k] == part[k]
      {
        assert s[o + j + k] == part[k];
        assert s[o + (j + k)] == x[j + k];
      }
    }
    if OccursAt(part, x, j) {
      forall k | 0 <= k < |part|
        ensures s[o + j + k] == part[k]
      {
        assert x[j + k] == part[k];
        assert s[o + (j + k)] == x[j + k];
      }
    }
  }

  lemma SliceOf(part: string, s: string, i: int)
    requires OccursAt(part, s, i)
    ensures s[i..i + |part|] == part
  {
  }

  lemma OneChar(c: char, s: string, i: int)
    ensures OccursAt([c], s, i) <==> 0 <= i < |s| && s[i] == c
  {
    if OccursAt([c], s, i) {
      assert s[i + 0] == [c][0];
    }
  }

  const NL: char := '\n'

  /** The pieces of a text between its newlines. */
  function LinesOf(s: string): (r: seq<string>)
    ensures |r| > 0
  {
    if s == "" then [""]
    else if s[0] == NL then [""] + LinesOf(s[1..])
    else Prepend(s[0], LinesOf(s[1..]))
  }

  /** The lines with c put in front of the first. */
  function Prepend(c: char, lines: seq<string>): (r: seq<string>)
    requires lines != []
    ensures |r| == |lines| && r[0] == [c] + lines[0] && forall i :: 1 <= i < |lines| ==> r[i] == lines[i]
  {
    [[c] + lines[0]] + lines[1..]
  }
}
