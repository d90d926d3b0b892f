/**
 The retry and split recursion `translateBatch` (scripts/control-ui-i18n.ts).

 What the provider does is a script: `script(n)` is how the run's attempt number
 n went, whatever the pattern of failures and timeouts.
 */
module BatchTranslation {
  import opened Common
  import opened BatchPlanner

  const TRANSLATE_MAX_ATTEMPTS: nat := 2

  datatype Json = Text(text: string) | NotText

  /** Either the parsed reply, or the message of what getClient, the prompt or
      JSON.parse threw. */
  datatype Attempt = Reply(fields: map<string, Json>) | Threw(message: string)

  type Translation = map<string, string>

  function Lower(c: char): char {
    if 'A' <= c <= 'Z' then (c as int + 32) as char else c
  }

  /** `isPromptTimeoutError`. */
  predicate TimedOut(message: string) {
    exists i :: 0 <= i <= |message| - 9 && SaysTimedOut(message, i)
  }

  predicate SaysTimedOut(message: string, i: nat)
    requires i <= |message| - 9
  {
    forall k :: 0 <= k < 9 ==> Lower(message[i + k]) == "timed out"[k]
  }

  predicate Usable(item: Item, fields: map<string, Json>) {
    item.key in fields && fields[item.key].Text? && !Blank(fields[item.key].text)
  }

  /** The first item that has no usable value, if any. */
  function FirstMissing(items: seq<Item>, fields: map<string, Json>): (i: nat)
    ensures i <= |items|
    ensures forall j :: 0 <= j < i ==> Usable(items[j], fields)
    ensures i < |items| ==> !Usable(items[i], fields)
  {
    if items == [] || !Usable(items[0], fields) then 0 else 1 + FirstMissing(items[1..], fields)
  }

  function Keys(items: seq<Item>): set<string> {
    set i | 0 <= i < |items| :: items[i].key
  }

  function Collect(items: seq<Item>, fields: map<string, Json>): Translation {
    map k | k in Keys(items) && k in fields && fields[k].Text? :: fields[k].text
  }

  /** What one attempt yields: a complete translation of the items, or an error. */
  function Judge(items: seq<Item>, a: Attempt): Result<Translation, string> {
    if a.Threw? then Err(a.message) else
    var i := FirstMissing(items, a.fields);
    if i < |items| then Err("missing translation for " + items[i].key) else Ok(Collect(items, a.fields))
  }

  function Midpoint(items: seq<Item>): nat {
    (|items| + 1) / 2
  }

  datatype Run = Run(result: Result<Translation, string>, next: nat)

  /** `translateBatch` from attempt number n of the run on. */
  function Translate(items: seq<Item>, script: nat -> Attempt, n: nat): Run
    decreases |items|, TRANSLATE_MAX_ATTEMPTS + 1
  {
    TranslateFrom(items, script, n, 0)
  }

  function TranslateFrom(items: seq<Item>, script: nat -> Attempt, n: nat, attempt: nat): Run
    requires attempt < TRANSLATE_MAX_ATTEMPTS
    decreases |items|, TRANSLATE_MAX_ATTEMPTS - attempt
  {
    var judged := Judge(items, script(n));
    if judged.Ok? then Run(judged, n + 1)
    else if TimedOut(judged.error) then
      if |items| > 1 then Split(items, script, n + 1) else Run(judged, n + 1)
    else if attempt + 1 < TRANSLATE_MAX_ATTEMPTS then TranslateFrom(items, script, n + 1, attempt + 1)
    else Run(judged, n + 1)
  }

  function Split(items: seq<Item>, script: nat -> Attempt, n: nat): Run
    requires |items| > 1
    decreases |items|, 0
  {
    var left := Translate(items[..Midpoint(items)], script, n);
    if left.result.Err? then left else
    var right := Translate(items[Midpoint(items)..], script, left.next);
    if right.result.Err? then right else
    Run(Ok(left.result.value + right.result.value), right.next)
  }

  /** For every script: at least one attempt, at most 4n - 2. */
  lemma {:induction false} AttemptBound(items: seq<Item>, script: nat -> Attempt, n: nat)
    requires items != []
    ensures n < Translate(items, script, n).next <= n + 4 * |items| - 2
    decreases |items|
  {
    assert Translate(items, script, n) == TranslateFrom(items, script, n, 0);
    if |items| > 1 {
      SplitBound(items, script, n + 1);
      SplitBound(items, script, n + 2);
    }
    if TranslateFrom(items, script, n, 0) == TranslateFrom(items, script, n + 1, 1) {
      assert TranslateFrom(items, script, n + 1, 1).next <= n + 4 * |items| - 2;
    }
  }

  lemma {:induction false} SplitBound(items: seq<Item>, script: nat -> Attempt, n: nat)
    requires |items| > 1
    ensures n < Split(items, script, n).next <= n + 4 * |items| - 4
    decreases |items|, 0
  {
    var m := Midpoint(items);
    var left := Translate(items[..m], script, n);
    AttemptBound(items[..m], script, n);
    AttemptBound(items[m..], script, left.next);
  }

  // ------------------------------------------------------------------ what one attempt is worth

  /** The reply has a non-blank text for every item. */
  ghost predicate CompleteReply(items: seq<Item>, a: Attempt) {
    a.Reply? && forall i :: 0 <= i < |items| ==> Usable(items[i], a.fields)
  }

  /** What a complete reply says about the items: their keys, with its own texts. */
  ghost predicate SaidBy(t: Translation, items: seq<Item>, a: Attempt) {
    t.Keys == Keys(items) && forall k :: k in t ==> Says(a, k, t[k])
  }

  /** The error of an attempt that is no complete reply: what was thrown, or the first item
      without a usable value. */
  ghost predicate FailsWith(items: seq<Item>, a: Attempt, message: string) {
    if a.Threw? then message == a.message
    else exists i :: 0 <= i < |items| && FirstUnusable(items, a, i) && message == "missing translation for " + items[i].key
  }

  ghost predicate FirstUnusable(items: seq<Item>, a: Attempt, i: nat)
    requires i < |items| && a.Reply?
  {
    !Usable(items[i], a.fields) && forall j :: 0 <= j < i ==> Usable(items[j], a.fields)
  }

  /** An attempt is accepted if and only if it is a complete reply. */
  lemma {:induction false} JudgeIsExact(items: seq<Item>, a: Attempt)
    ensures Judge(items, a).Ok? <==> CompleteReply(items, a)
    ensures Judge(items, a).Ok? ==> SaidBy(Judge(items, a).value, items, a)
    ensures Judge(items, a).Err? ==> FailsWith(items, a, Judge(items, a).error)
  {
    if CompleteReply(items, a) {
      forall k | k in Keys(items)
        ensures k in a.fields && a.fields[k].Text?
      {
        var i :| 0 <= i < |items| && items[i].key == k;
        assert Usable(items[i], a.fields);
      }
    } else if a.Reply? {
      assert FirstUnusable(items, a, FirstMissing(items, a.fields));
    }
  }

  lemma {:induction false} OneError(items: seq<Item>, a: Attempt, m: string, m': string)
    requires FailsWith(items, a, m) && FailsWith(items, a, m')
    ensures m == m'
  {
    if a.Reply? {
      var i :| 0 <= i < |items| && FirstUnusable(items, a, i) && m == "missing translation for " + items[i].key;
      var j :| 0 <= j < |items| && FirstUnusable(items, a, j) && m' == "missing translation for " + items[j].key;
      assert i == j;
    }
  }

  // ----------------------------------------------------------------- the course of a batch

  /** What an attempt is worth to some items: a complete reply, an error that speaks of a
      timeout, or any other error. */
  datatype Worth = Complete | TimingOut | Failing

  ghost function WorthOf(items: seq<Item>, a: Attempt): Worth {
    if CompleteReply(items, a) then Complete
    else if exists m :: FailsWith(items, a, m) && TimedOut(m) then TimingOut
    else Failing
  }

  /** Prompt number k, asked for items i up to j of a batch. */
  type Prompted = (nat, nat, nat) -> Worth

  ghost function WorthIn(items: seq<Item>, script: nat -> Attempt): Prompted {
    (i: nat, j: nat, k: nat) => if i <= j <= |items| then WorthOf(items[i..j], script(k)) else Failing
  }

  /** How a batch fares: its last prompt as a whole is number `at` of the run. With that
      it is answered, or given up, or halved at item `mid`, the right half being asked
      for only if the left half was answered. */
  datatype Course =
    | AnsweredBy(at: nat)
    | GivenUpAfter(at: nat)
    | LeftHalfFails(at: nat, mid: nat, left: Course)
    | Halved(at: nat, mid: nat, left: Course, right: Course)

  predicate Fulfilled(c: Course) {
    c.AnsweredBy? || (c.Halved? && Fulfilled(c.right))
  }

  /** The number of the last prompt of a course, and of the next one. */
  function Last(c: Course): nat {
    match c
    case AnsweredBy(at) => at
    case GivenUpAfter(at) => at
    case LeftHalfFails(_, _, left) => Last(left)
    case Halved(_, _, _, right) => Last(right)
  }

  function End(c: Course): nat {
    Last(c) + 1
  }

  /** The items asked for by the last prompt of a course: from, up to. */
  function LastAsked(c: Course, i: nat, j: nat): (nat, nat) {
    match c
    case AnsweredBy(_) => (i, j)
    case GivenUpAfter(_) => (i, j)
    case LeftHalfFails(_, mid, left) => LastAsked(left, i, mid)
    case Halved(_, mid, _, right) => LastAsked(right, mid, j)
  }

  /** More than one item, and the left half not the smaller one. */
  predicate HalvedAt(mid: nat, i: nat, j: nat) {
    i < mid < j && (mid - i == j - mid || mid - i == j - mid + 1)
  }

  /** The course of items i up to j from prompt n on. A second prompt follows a first one that
      failed without a timeout; a timeout halves what is more than one item. */
  ghost predicate Takes(c: Course, w: Prompted, i: nat, j: nat, n: nat)
    decreases c
  {
    && (if w(i, j, n) == Failing then c.at == n + 1 else c.at == n)
    && match w(i, j, c.at)
       case Complete => c.AnsweredBy?
       case Failing => c.GivenUpAfter?
       case TimingOut =>
         if j - i <= 1 then c.GivenUpAfter?
         else
           && (c.LeftHalfFails? || c.Halved?)
           && HalvedAt(c.mid, i, j) && Takes(c.left, w, i, c.mid, c.at + 1)
           && (c.Halved? <==> Fulfilled(c.left))
           && (c.Halved? ==> Takes(c.right, w, c.mid, j, End(c.left)))
  }

  /** A run with a course: it asks up to its end; it is a translation if and only if all
      was answered; and otherwise it is the error of the last prompt. */
  ghost predicate Follows(r: Run, c: Course, items: seq<Item>, script: nat -> Attempt, i: nat, j: nat) {
    && r.next == End(c)
    && (r.result.Ok? <==> Fulfilled(c))
    && (r.result.Err? ==> LastError(LastAsked(c, i, j), items, script(Last(c)), r.result.error))
  }

  ghost predicate LastError(part: (nat, nat), items: seq<Item>, a: Attempt, message: string) {
    part.0 <= part.1 <= |items| && FailsWith(items[part.0..part.1], a, message)
  }

  /** The judged attempt, in terms of its worth. */
  lemma {:induction false} JudgeIsWorth(items: seq<Item>, a: Attempt)
    ensures WorthOf(items, a) == match Judge(items, a)
                                 case Ok(_) => Complete
                                 case Err(m) => if TimedOut(m) then TimingOut else Failing
    ensures Judge(items, a).Err? ==> FailsWith(items, a, Judge(items, a).error)
  {
    JudgeIsExact(items, a);
    if Judge(items, a).Err? {
      var m := Judge(items, a).error;
      if m' :| FailsWith(items, a, m') && TimedOut(m') {
        OneError(items, a, m, m');
      }
    }
  }

  /** Every batch has a course under every script, and fares as it says. */
  lemma {:induction false} CourseOf(items: seq<Item>, script: nat -> Attempt, i: nat, j: nat, n: nat) returns (c: Course)
    requires i <= j <= |items|
    ensures Takes(c, WorthIn(items, script), i, j, n)
    ensures Follows(Translate(items[i..j], script, n), c, items, script, i, j)
    decreases j - i, 2
  {
    var w := WorthIn(items, script);
    FirstAttempt(items[i..j], script, n);
    if w(i, j, n) == Failing {
      c := CourseFrom(items, script, i, j, n + 1, 1);
    } else {
      c := CourseFrom(items, script, i, j, n, 0);
    }
  }

  /** A first prompt that fails without a timeout is asked again, and counts for nothing else. */
  lemma {:induction false} FirstAttempt(part: seq<Item>, script: nat -> Attempt, n: nat)
    ensures Translate(part, script, n)
            == if WorthOf(part, script(n)) == Failing then TranslateFrom(part, script, n + 1, 1) else TranslateFrom(part, script, n, 0)
  {
    JudgeIsWorth(part, script(n));
  }


  /** The course from the last prompt for the whole batch on. */
  lemma {:induction false} CourseFrom(items: seq<Item>, script: nat -> Attempt, i: nat, j: nat, at: nat, attempt: nat)
    returns (c: Course)
    requires i <= j <= |items| && attempt <= 1
    requires attempt == 0 ==> WorthIn(items, script)(i, j, at) != Failing
    ensures c.at == at && TakesAt(c, WorthIn(items, script), i, j)
    ensures Follows(TranslateFrom(items[i..j], script, at, attempt), c, items, script, i, j)
    decreases j - i, 1
  {
    var w, part := WorthIn(items, script), items[i..j];
    JudgeIsWorth(part, script(at));
    match w(i, j, at)
    case Complete => c := AnsweredBy(at);
    case Failing => c := GivenUpAfter(at);
    case TimingOut =>
      if j - i <= 1 {
        c := GivenUpAfter(at);
      } else {
        c := CourseOfHalves(items, script, i, j, at);
      }
  }

  lemma {:induction false} CourseOfHalves(items: seq<Item>, script: nat -> Attempt, i: nat, j: nat, at: nat) returns (c: Course)
    requires i + 1 < j <= |items| && WorthIn(items, script)(i, j, at) == TimingOut
    ensures c.at == at && TakesAt(c, WorthIn(items, script), i, j)
    ensures Follows(Split(items[i..j], script, at + 1), c, items, script, i, j)
    decreases j - i, 0
  {
    var mid := i + Midpoint(items[i..j]);
    SplitIs(items, script, i, mid, j, at + 1);
    var left := CourseOf(items, script, i, mid, at + 1);
    if Fulfilled(left) {
      var right := CourseOf(items, script, mid, j, End(left));
      c := Halved(at, mid, left, right);
    } else {
      c := LeftHalfFails(at, mid, left);
    }
    HalvesFollow(Split(items[i..j], script, at + 1), Translate(items[i..mid], script, at + 1),
                 Translate(items[mid..j], script, End(c.left)), c, items, script, i, j);
  }

  /** How runs of the halves make a run of the whole. */
  lemma {:induction false} HalvesFollow(whole: Run, left: Run, right: Run, c: Course, items: seq<Item>, script: nat -> Attempt, i: nat, j: nat)
    requires (c.LeftHalfFails? && !Fulfilled(c.left)) || (c.Halved? && Fulfilled(c.left))
    requires Follows(left, c.left, items, script, i, c.mid) && (c.Halved? ==> Follows(right, c.right, items, script, c.mid, j))
    requires if left.result.Err? then whole == left
             else whole.next == right.next && (whole.result.Ok? <==> right.result.Ok?) && (right.result.Err? ==> whole.result == right.result)
    ensures Follows(whole, c, items, script, i, j)
  {
  }

  /** The part of Takes that follows the last prompt for the whole batch. */
  ghost predicate TakesAt(c: Course, w: Prompted, i: nat, j: nat) {
    match w(i, j, c.at)
    case Complete => c.AnsweredBy?
    case Failing => c.GivenUpAfter?
    case TimingOut =>
      if j - i <= 1 then c.GivenUpAfter?
      else
        && (c.LeftHalfFails? || c.Halved?)
        && HalvedAt(c.mid, i, j) && Takes(c.left, w, i, c.mid, c.at + 1)
        && (c.Halved? <==> Fulfilled(c.left))
        && (c.Halved? ==> Takes(c.right, w, c.mid, j, End(c.left)))
  }

  /** How the two halves make the whole. */
  lemma {:induction false} SplitIs(items: seq<Item>, script: nat -> Attempt, i: nat, mid: nat, j: nat, n: nat)
    requires i + 1 < j <= |items| && mid == i + Midpoint(items[i..j])
    ensures HalvedAt(mid, i, j)
    ensures var left := Translate(items[i..mid], script, n);
            var whole := Split(items[i..j], script, n);
            if left.result.Err? then whole == left
            else
              var right := Translate(items[mid..j], script, left.next);
              && whole.next == right.next && (whole.result.Ok? <==> right.result.Ok?)
              && (right.result.Err? ==> whole.result == right.result)
  {
    var part := items[i..j];
    SliceOfSlice(items, i, j, 0, Midpoint(part));
    SliceOfSlice(items, i, j, Midpoint(part), j - i);
    assert part[0..Midpoint(part)] == part[..Midpoint(part)] && part[Midpoint(part)..j - i] == part[Midpoint(part)..];
  }

  /** A batch has only one course. */
  lemma {:induction false} OneCourse(c: Course, d: Course, w: Prompted, i: nat, j: nat, n: nat)
    requires Takes(c, w, i, j, n) && Takes(d, w, i, j, n)
    ensures c == d
    decreases c
  {
    assert c.at == d.at;
    if c.LeftHalfFails? || c.Halved? {
      SameMiddle(c.mid, d.mid, i, j);
      OneCourse(c.left, d.left, w, i, c.mid, c.at + 1);
      if c.Halved? {
        OneCourse(c.right, d.right, w, c.mid, j, End(c.left));
      }
    }
  }

  lemma SameMiddle(m: nat, m': nat, i: nat, j: nat)
    requires HalvedAt(m, i, j) && HalvedAt(m', i, j)
    ensures m == m'
  {
  }

  /** What is said of a batch in terms of the script. */
  ghost predicate Fares(r: Run, items: seq<Item>, script: nat -> Attempt, n: nat) {
    && (exists c :: Takes(c, WorthIn(items, script), 0, |items|, n) && Follows(r, c, items, script, 0, |items|))
    && (CompleteReply(items, script(n)) ==> r.next == n + 1 && r.result.Ok? && SaidBy(r.result.value, items, script(n)))
  }

  lemma {:induction false} TranslateFares(items: seq<Item>, script: nat -> Attempt, n: nat)
    ensures Fares(Translate(items, script, n), items, script, n)
  {
    var c := CourseOf(items, script, 0, |items|, n);
    assert items[0..|items|] == items;
    JudgeIsExact(items, script(n));
  }

  /** One batch after the other is answered, each from the prompt after the one before. */
  ghost predicate BatchesServed(batches: seq<seq<Item>>, script: nat -> Attempt, n: nat)
    decreases |batches|
  {
    batches == [] || exists c :: BatchServed(batches[0], c, script, n) && BatchesServed(batches[1..], script, End(c))
  }

  ghost predicate BatchServed(batch: seq<Item>, c: Course, script: nat -> Attempt, n: nat) {
    Takes(c, WorthIn(batch, script), 0, |batch|, n) && Fulfilled(c)
  }

  /** So it depends on the run of the first of them. */
  lemma {:induction false} ServedByRun(batches: seq<seq<Item>>, b: nat, script: nat -> Attempt, n: nat, r: Run)
    requires b < |batches| && Fares(r, batches[b], script, n)
    ensures BatchesServed(batches[b..], script, n) <==> r.result.Ok? && BatchesServed(batches[b + 1..], script, r.next)
  {
    var batch, rest := batches[b], batches[b..];
    assert rest[0] == batch && rest[1..] == batches[b + 1..];
    var c :| Takes(c, WorthIn(batch, script), 0, |batch|, n) && Follows(r, c, batch, script, 0, |batch|);
    if BatchesServed(rest, script, n) {
      var d :| BatchServed(batch, d, script, n) && BatchesServed(batches[b + 1..], script, End(d));
      OneCourse(c, d, WorthIn(batch, script), 0, |batch|, n);
    }
    if r.result.Ok? && BatchesServed(batches[b + 1..], script, r.next) {
      assert BatchServed(batch, c, script, n);
    }
  }

  /** A provider that answers every prompt in full serves all batches, one prompt each. */
  lemma {:induction false} AnswersServe(batches: seq<seq<Item>>, script: nat -> Attempt, n: nat)
    requires forall k: nat, b: nat :: n <= k && b < |batches| ==> CompleteReply(batches[b], script(k))
    ensures BatchesServed(batches, script, n)
    decreases |batches|
  {
    if batches == [] {
    } else {
      var c := AnsweredBy(n);
      assert CompleteReply(batches[0], script(n)) && batches[0][0..|batches[0]|] == batches[0];
      assert BatchServed(batches[0], c, script, n);
      AnswersServe(batches[1..], script, n + 1);
    }
  }

  /** Value v for key k was the provider's text in one of the attempts from a to b. */
  ghost predicate Answered(script: nat -> Attempt, a: nat, b: nat, k: string, v: string) {
    exists j :: a <= j < b && Says(script(j), k, v)
  }

  predicate Says(a: Attempt, k: string, v: string) {
    a.Reply? && k in a.fields && a.fields[k] == Text(v)
  }

  /** A complete translation of the items, every value of which is non-blank and
      was given by the provider during attempts a to b. */
  ghost predicate IsComplete(t: Translation, items: seq<Item>, script: nat -> Attempt, a: nat, b: nat) {
    && t.Keys == Keys(items)
    && forall k :: k in t ==> !Blank(t[k]) && Answered(script, a, b, k, t[k])
  }

  lemma {:induction false} JudgeComplete(items: seq<Item>, script: nat -> Attempt, n: nat)
    requires Judge(items, script(n)).Ok?
    ensures IsComplete(Judge(items, script(n)).value, items, script, n, n + 1)
  {
    var t := Judge(items, script(n)).value;
    assert forall i :: 0 <= i < |items| ==> Usable(items[i], script(n).fields);
    forall k | k in t
      ensures !Blank(t[k]) && Answered(script, n, n + 1, k, t[k])
    {
      var i :| 0 <= i < |items| && items[i].key == k;
      assert Usable(items[i], script(n).fields);
      assert Says(script(n), k, t[k]);
    }
  }

  lemma CompleteWidens(t: Translation, items: seq<Item>, script: nat -> Attempt, a: nat, b: nat, a': nat, b': nat)
    requires IsComplete(t, items, script, a, b) && a' <= a && b <= b'
    ensures IsComplete(t, items, script, a', b')
  {
    forall k | k in t
      ensures Answered(script, a', b', k, t[k])
    {
      assert Answered(script, a, b, k, t[k]);
    }
  }

  /** For every script: if translateBatch returns, it returns a value for
      exactly the batch's keys. */
  lemma {:induction false} TranslateComplete(items: seq<Item>, script: nat -> Attempt, n: nat, attempt: nat)
    requires attempt < TRANSLATE_MAX_ATTEMPTS
    ensures var r := TranslateFrom(items, script, n, attempt);
            n < r.next && (r.result.Ok? ==> IsComplete(r.result.value, items, script, n, r.next))
    decreases |items|, TRANSLATE_MAX_ATTEMPTS - attempt
  {
    var judged := Judge(items, script(n));
    var r := TranslateFrom(items, script, n, attempt);
    if judged.Ok? {
      JudgeComplete(items, script, n);
    } else if TimedOut(judged.error) {
      if |items| > 1 {
        SplitComplete(items, script, n + 1);
        if r.result.Ok? {
          CompleteWidens(r.result.value, items, script, n + 1, r.next, n, r.next);
        }
      }
    } else if attempt + 1 < TRANSLATE_MAX_ATTEMPTS {
      TranslateComplete(items, script, n + 1, attempt + 1);
      if r.result.Ok? {
        CompleteWidens(r.result.value, items, script, n + 1, r.next, n, r.next);
      }
    }
  }

  lemma {:induction false} SplitComplete(items: seq<Item>, script: nat -> Attempt, n: nat)
    requires |items| > 1
    ensures var r := Split(items, script, n);
            n < r.next && (r.result.Ok? ==> IsComplete(r.result.value, items, script, n, r.next))
    decreases |items|, 0
  {
    var m := Midpoint(items);
    var left := Translate(items[..m], script, n);
    TranslateComplete(items[..m], script, n, 0);
    if left.result.Ok? {
      var right := Translate(items[m..], script, left.next);
      TranslateComplete(items[m..], script, left.next, 0);
      if right.result.Ok? {
        CompleteWidens(left.result.value, items[..m], script, n, left.next, n, right.next);
        CompleteWidens(right.result.value, items[m..], script, left.next, right.next, n, right.next);
        KeysSplit(items, m);
      }
    }
  }

  lemma KeysSplit(items: seq<Item>, m: nat)
    requires m <= |items|
    ensures Keys(items) == Keys(items[..m]) + Keys(items[m..])
  {
    forall k | k in Keys(items)
      ensures k in Keys(items[..m]) + Keys(items[m..])
    {
      var i :| 0 <= i < |items| && items[i].key == k;
      if i < m {
        assert items[..m][i].key == k;
      } else {
        assert items[m..][i - m].key == k;
      }
    }
  }

  /** A script that makes every batch fail and then time out, down to the single
      items, which fail once. */
  function Worst(items: seq<Item>): (s: seq<Attempt>)
    requires items != []
    ensures |s| == 4 * |items| - 2
    decreases |items|
  {
    if |items| == 1 then [Threw("busy"), Reply(map[items[0].key := Text("ok")])]
    else [Threw("busy"), Threw("timed out")] + Worst(items[..Midpoint(items)]) + Worst(items[Midpoint(items)..])
  }

  /** The script reads w from attempt n on. */
  ghost predicate Reads(script: nat -> Attempt, n: nat, w: seq<Attempt>) {
    forall j :: 0 <= j < |w| ==> script(n + j) == w[j]
  }

  lemma {:induction false} ReadsParts(script: nat -> Attempt, n: nat, a: seq<Attempt>, b: seq<Attempt>, c: seq<Attempt>)
    requires Reads(script, n, a + b + c)
    ensures Reads(script, n, a) && Reads(script, n + |a|, b) && Reads(script, n + |a| + |b|, c)
  {
    var w := a + b + c;
    assert forall j :: 0 <= j < |a| ==> w[j] == a[j];
    forall j | 0 <= j < |b|
      ensures script(n + |a| + j) == b[j]
    {
      assert script(n + (|a| + j)) == w[|a| + j];
    }
    forall j | 0 <= j < |c|
      ensures script(n + |a| + |b| + j) == c[j]
    {
      assert script(n + (|a| + |b| + j)) == w[|a| + |b| + j];
    }
  }

  lemma {:induction false} FailsThenTimesOut(items: seq<Item>, script: nat -> Attempt, n: nat)
    requires |items| > 1
    requires Reads(script, n, [Threw("busy"), Threw("timed out")])
    ensures Translate(items, script, n) == Split(items, script, n + 2)
  {
    var w := [Threw("busy"), Threw("timed out")];
    assert script(n + 0) == w[0] && script(n + 1) == w[1];
    assert !TimedOut("busy");
    var m := "timed out";
    assert SaysTimedOut(m, 0);
    assert TimedOut(m);
    assert TranslateFrom(items, script, n + 1, 1) == Split(items, script, n + 2);
  }

  lemma {:induction false} FailsThenAnswers(items: seq<Item>, script: nat -> Attempt, n: nat)
    requires |items| == 1
    requires Reads(script, n, [Threw("busy"), Reply(map[items[0].key := Text("ok")])])
    ensures Translate(items, script, n).result.Ok? && Translate(items, script, n).next == n + 2
  {
    var w := [Threw("busy"), Reply(map[items[0].key := Text("ok")])];
    assert script(n + 0) == w[0] && script(n + 1) == w[1];
    assert !TimedOut("busy");
    assert !IsSpace("ok"[0]);
    assert Usable(items[0], script(n + 1).fields);
    assert Judge(items, script(n + 1)).Ok?;
    assert TranslateFrom(items, script, n + 1, 1).next == n + 2;
  }

  /** The bound is reached, for every batch. */
  lemma {:induction false} BoundIsReached(items: seq<Item>, script: nat -> Attempt, n: nat)
    requires items != [] && Reads(script, n, Worst(items))
    ensures Translate(items, script, n).result.Ok?
    ensures Translate(items, script, n).next == n + 4 * |items| - 2
    decreases |items|
  {
    if |items| == 1 {
      FailsThenAnswers(items, script, n);
    } else {
      var left, right := items[..Midpoint(items)], items[Midpoint(items)..];
      WorstIsFollowed(items, script, n);
      BoundIsReached(left, script, n + 2);
      BoundIsReached(right, script, n + 4 * |left|);
      SplitOfParts(items, script, n + 2, n + 4 * |left|, n + 4 * |items| - 2);
    }
  }

  lemma {:induction false} WorstIsFollowed(items: seq<Item>, script: nat -> Attempt, n: nat)
    requires |items| > 1 && Reads(script, n, Worst(items))
    ensures Translate(items, script, n) == Split(items, script, n + 2)
    ensures var left, right := items[..Midpoint(items)], items[Midpoint(items)..];
            Reads(script, n + 2, Worst(left)) && Reads(script, n + 4 * |left|, Worst(right))
  {
    var left, right := items[..Midpoint(items)], items[Midpoint(items)..];
    ReadsParts(script, n, [Threw("busy"), Threw("timed out")], Worst(left), Worst(right));
    FailsThenTimesOut(items, script, n);
  }

  lemma {:induction false} SplitOfParts(items: seq<Item>, script: nat -> Attempt, n: nat, mid: nat, end: nat)
    requires |items| > 1
    requires var left := Translate(items[..Midpoint(items)], script, n); left.result.Ok? && left.next == mid
    requires var right := Translate(items[Midpoint(items)..], script, mid); right.result.Ok? && right.next == end
    ensures Split(items, script, n).result.Ok? && Split(items, script, n).next == end
  {
  }

  /** The client access of syncLocale: the attempts made so far and the client in
      use. A client is tainted once an attempt on it threw; asking a tainted
      client is not allowed. */
  class Provider {
    const script: nat -> Attempt
    var asked: nat
    var hasClient: bool
    var tainted: bool

    constructor (script: nat -> Attempt)
      ensures this.script == script && asked == 0 && !hasClient && !tainted
    {
      this.script := script;
      asked, hasClient, tainted := 0, false, false;
    }

    /** getClient followed by prompt and JSON.parse. */
    method Ask() returns (a: Attempt)
      requires !tainted
      modifies this
      ensures asked == old(asked) + 1 && a == script(old(asked))
      ensures hasClient && tainted == a.Threw?
    {
      a := script(asked);
      asked := asked + 1;
      hasClient := true;
      tainted := a.Threw?;
    }

    method ResetClient()
      modifies this
      ensures asked == old(asked) && !hasClient && !tainted
    {
      hasClient := false;
      tainted := false;
    }
  }

  /** The loop that copies a reply into a Map and throws at the first item
      without a usable value. */
  lemma {:induction false} KeysOneMore(items: seq<Item>, i: nat)
    requires i < |items|
    ensures Keys(items[..i + 1]) == Keys(items[..i]) + {items[i].key}
  {
    KeysSplit(items[..i + 1], i);
    TakeOneMore(items, i);
    assert items[..i + 1][i..] == [items[i]];
    assert Keys([items[i]]) == {items[i].key} by { assert [items[i]][0].key == items[i].key; }
  }

  method ReadReply(items: seq<Item>, a: Attempt) returns (r: Result<Translation, string>)
    ensures r == Judge(items, a)
    ensures r.Ok? <==> CompleteReply(items, a)
    ensures r.Ok? ==> SaidBy(r.value, items, a)
    ensures r.Err? ==> FailsWith(items, a, r.error)
  {
    JudgeIsExact(items, a);
    if a.Threw? {
      return Err(a.message);
    }
    var translated: Translation := map[];
    for i := 0 to |items|
      invariant forall j :: 0 <= j < i ==> Usable(items[j], a.fields)
      invariant translated.Keys == Keys(items[..i])
      invariant forall k :: k in translated ==> k in a.fields && a.fields[k] == Text(translated[k])
    {
      var item := items[i];
      if !Usable(item, a.fields) {
        assert FirstMissing(items, a.fields) == i;
        return Err("missing translation for " + item.key);
      }
      KeysOneMore(items, i);
      translated := translated[item.key := a.fields[item.key].text];
    }
    TakeAll(items);
    assert translated == Collect(items, a.fields);
    r := Ok(translated);
  }

  /** `translateBatch`: terminates for every script, asks at most 4n - 2 times,
      never asks a client after an attempt on it threw, and leaves none in use
      when it fails. */
  method TranslateBatch(provider: Provider, items: seq<Item>) returns (r: Result<Translation, string>)
    requires !provider.tainted
    modifies provider
    ensures Run(r, provider.asked) == Translate(items, provider.script, old(provider.asked))
    ensures !provider.tainted && (r.Err? ==> !provider.hasClient)
    ensures r.Ok? ==> IsComplete(r.value, items, provider.script, old(provider.asked), provider.asked)
    ensures items != [] ==> provider.asked - old(provider.asked) <= 4 * |items| - 2
    ensures Fares(Run(r, provider.asked), items, provider.script, old(provider.asked))
    decreases |items|, 2
  {
    ghost var start := provider.asked;
    TranslateComplete(items, provider.script, start, 0);
    if items != [] {
      AttemptBound(items, provider.script, start);
    }
    TranslateFares(items, provider.script, start);
    r := TryBatch(provider, items);
  }

  /** The loop over the attempts. */
  method TryBatch(provider: Provider, items: seq<Item>) returns (r: Result<Translation, string>)
    requires !provider.tainted
    modifies provider
    ensures Run(r, provider.asked) == Translate(items, provider.script, old(provider.asked))
    ensures !provider.tainted && (r.Err? ==> !provider.hasClient)
    decreases |items|, 1
  {
    ghost var start := provider.asked;
    var lastError := "translation failed";
    for attempt := 0 to TRANSLATE_MAX_ATTEMPTS
      invariant !provider.tainted
      invariant attempt > 0 ==> !provider.hasClient
      invariant attempt < TRANSLATE_MAX_ATTEMPTS ==>
                  Translate(items, provider.script, start) == TranslateFrom(items, provider.script, provider.asked, attempt)
      invariant attempt == TRANSLATE_MAX_ATTEMPTS ==>
                  Translate(items, provider.script, start) == Run(Err(lastError), provider.asked)
    {
      var a := provider.Ask();
      var judged := ReadReply(items, a);
      if judged.Ok? {
        return judged;
      }
      lastError := judged.error;
      provider.ResetClient();
      if TimedOut(lastError) {
        if |items| > 1 {
          r := TranslateHalves(provider, items);
          return;
        }
        return Err(lastError);
      }
    }
    r := Err(lastError);
  }

  /** The split of a batch that timed out. */
  method TranslateHalves(provider: Provider, items: seq<Item>) returns (r: Result<Translation, string>)
    requires !provider.tainted && |items| > 1
    modifies provider
    ensures Run(r, provider.asked) == Split(items, provider.script, old(provider.asked))
    ensures !provider.tainted && (r.Err? ==> !provider.hasClient)
    decreases |items|, 0
  {
    var midpoint := (|items| + 1) / 2;
    var left := TranslateBatch(provider, items[..midpoint]);
    if left.Err? {
      return left;
    }
    var right := TranslateBatch(provider, items[midpoint..]);
    if right.Err? {
      return right;
    }
    r := Ok(left.value + right.value);
  }
}
