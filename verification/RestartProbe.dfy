/**
 The probe that watches a gateway through a restart (`waitForRestartProbe` in
 scripts/bench-gateway-restart.ts), over a trace of timed attempts.
 */
module RestartProbe {
  import opened Common

  /** One request: its HTTP status and kind of error, and when it was answered,
      in milliseconds after the restart signal. */
  datatype Attempt = Attempt(status: Option<int>, errorKind: Option<string>, ms: real)

  /** One round of the loop: what `isProcessDone` and `isDone` say at its start, and
      the attempt made if the loop goes on. The trace ends with the deadline. */
  datatype Tick = Tick(processDone: bool, done: bool, attempt: Attempt)

  datatype Transition = Transition(ms: real, status: Option<int>, errorKind: Option<string>)

  datatype ProbeResult = ProbeResult(
    downtimeMs: Option<real>,
    firstErrorKind: Option<string>,
    firstRecoveryMs: Option<real>,
    ms: Option<real>,
    status: Option<int>,
    transitions: seq<Transition>,
    unavailableMs: Option<real>)

  predicate Ready(a: Attempt) {
    a.status == Some(200)
  }

  /** A non-empty string is truthy. */
  predicate HasError(a: Attempt) {
    a.errorKind.Some? && a.errorKind.value != ""
  }

  /** The two halves of `stateKey`; the status half holds no colon, so the joined
      string tells the same states apart. */
  function StateKey(a: Attempt): (Option<int>, string) {
    (a.status, if a.errorKind.Some? then a.errorKind.value else "ok")
  }

  function TransitionOf(a: Attempt): Transition {
    Transition(a.ms, a.status, if HasError(a) then a.errorKind else None)
  }

  // --------------------------------------------------------------- what a trace amounts to

  ghost predicate AllReady(a: seq<Attempt>) {
    forall k :: 0 <= k < |a| ==> Ready(a[k])
  }

  /** Attempt i is the first that was not answered with 200. */
  ghost predicate FirstDown(a: seq<Attempt>, i: nat) {
    i < |a| && !Ready(a[i]) && forall k :: 0 <= k < i ==> Ready(a[k])
  }

  /** The trace is 200* then one or more non-200, starting at i, then 200. */
  ghost predicate Outage(a: seq<Attempt>, i: nat) {
    && i + 1 < |a| && Ready(a[|a| - 1])
    && (forall k :: 0 <= k < i ==> Ready(a[k]))
    && (forall k :: i <= k < |a| - 1 ==> !Ready(a[k]))
  }

  ghost predicate FirstError(a: seq<Attempt>, i: nat) {
    i < |a| && HasError(a[i]) && forall k :: 0 <= k < i ==> !HasError(a[k])
  }

  /** The maximal runs of attempts with the same state key. */
  function Runs(a: seq<Attempt>): (r: seq<seq<Attempt>>)
    ensures (r == [] <==> a == []) && forall i :: 0 <= i < |r| ==> r[i] != []
    decreases |a|
  {
    if a == [] then []
    else
      var n := |a| - 1;
      var r := Runs(a[..n]);
      if n > 0 && StateKey(a[n]) == StateKey(a[n - 1]) then r[|r| - 1 := r[|r| - 1] + [a[n]]]
      else r + [[a[n]]]
  }

  /** The transition that opens each run. */
  function Openings(runs: seq<seq<Attempt>>): (r: seq<Transition>)
    requires forall i :: 0 <= i < |runs| ==> runs[i] != []
    ensures |r| == |runs| && forall i :: 0 <= i < |r| ==> r[i] == TransitionOf(runs[i][0])
  {
    seq(|runs|, i requires 0 <= i < |runs| => TransitionOf(runs[i][0]))
  }

  /** The result that a trace of attempts deserves. */
  ghost predicate Classified(a: seq<Attempt>, r: ProbeResult) {
    && r.transitions == Openings(Runs(a))
    && r.status == (if a == [] then None else a[|a| - 1].status)
    && ErrorNamed(a, r) && DownNamed(a, r) && OutageNamed(a, r)
  }

  ghost predicate ErrorNamed(a: seq<Attempt>, r: ProbeResult) {
    && (r.firstErrorKind.None? <==> forall k :: 0 <= k < |a| ==> !HasError(a[k]))
    && forall i: nat :: FirstError(a, i) ==> r.firstErrorKind == a[i].errorKind
  }

  ghost predicate DownNamed(a: seq<Attempt>, r: ProbeResult) {
    && (r.unavailableMs.None? <==> AllReady(a))
    && forall i: nat :: FirstDown(a, i) ==> r.unavailableMs == Some(a[i].ms)
  }

  ghost predicate OutageNamed(a: seq<Attempt>, r: ProbeResult) {
    && (r.downtimeMs.Some? <==> exists i: nat :: Outage(a, i))
    && r.firstRecoveryMs == (if r.downtimeMs.Some? then Some(a[|a| - 1].ms) else None)
    && (forall i: nat :: Outage(a, i) ==> r.downtimeMs.Some? && r.downtimeMs.value == a[|a| - 1].ms - a[i].ms)
    && r.ms == if a != [] && (r.downtimeMs.Some? || AllReady(a)) then Some(a[|a| - 1].ms) else None
  }

  /** There is one such result for each trace. */
  lemma {:induction false} ClassifiedIsUnique(a: seq<Attempt>, r: ProbeResult, r': ProbeResult)
    ensures Classified(a, r) && Classified(a, r') ==> r == r'
  {
    if !AllReady(a) {
      var i := LeastDown(a);
      assert FirstDown(a, i);
    }
    if k :| 0 <= k < |a| && HasError(a[k]) {
      var i := LeastError(a);
      assert FirstError(a, i);
    }
  }

  lemma {:induction false} LeastDown(a: seq<Attempt>) returns (i: nat)
    requires !AllReady(a)
    ensures FirstDown(a, i)
  {
    i := 0;
    while Ready(a[i])
      invariant i < |a| && forall k :: 0 <= k < i ==> Ready(a[k])
      decreases |a| - i
    {
      i := i + 1;
    }
  }

  lemma {:induction false} LeastError(a: seq<Attempt>) returns (i: nat)
    requires exists k :: 0 <= k < |a| && HasError(a[k])
    ensures FirstError(a, i)
  {
    i := 0;
    while !HasError(a[i])
      invariant i < |a| && forall k :: 0 <= k < i ==> !HasError(a[k])
      decreases |a| - i
    {
      i := i + 1;
    }
  }

  /** On a clock that never runs backwards a downtime is not negative. */
  lemma {:induction false} DowntimeIsNotNegative(a: seq<Attempt>, r: ProbeResult)
    ensures Classified(a, r) && r.downtimeMs.Some? && RunsForward(a) ==> r.downtimeMs.value >= 0.0
  {
    if Classified(a, r) && r.downtimeMs.Some? {
      var i: nat :| Outage(a, i);
    }
  }

  ghost predicate RunsForward(a: seq<Attempt>) {
    forall i, j :: 0 <= i <= j < |a| ==> a[i].ms <= a[j].ms
  }

  // ------------------------------------------------------------------------- maximal runs

  /** A cutting of a into non-empty runs of one state key each, where neighbours differ. */
  ghost predicate MaximalRuns(runs: seq<seq<Attempt>>, a: seq<Attempt>) {
    && Concat(runs) == a
    && (forall i :: 0 <= i < |runs| ==> OneState(runs[i]))
    && (forall i :: 0 < i < |runs| ==> StateKey(runs[i][0]) != StateKey(runs[i - 1][0]))
  }

  ghost predicate OneState(run: seq<Attempt>) {
    run != [] && forall k :: 0 <= k < |run| ==> StateKey(run[k]) == StateKey(run[0])
  }

  lemma {:induction false} RunsAreMaximal(a: seq<Attempt>)
    ensures MaximalRuns(Runs(a), a)
    decreases |a|
  {
    if a == [] {
    } else {
      var n := |a| - 1;
      RunsAreMaximal(a[..n]);
      assert a == a[..n] + [a[n]];
      var r := Runs(a[..n]);
      if n > 0 {
        LastOfRuns(r, a[..n]);
        GrowOrAdd(r, a[..n], a[n]);
      }
    }
  }

  /** The last run ends where the trace ends. */
  lemma {:induction false} LastOfRuns(r: seq<seq<Attempt>>, a: seq<Attempt>)
    requires MaximalRuns(r, a) && a != []
    ensures r != [] && StateKey(r[|r| - 1][0]) == StateKey(a[|a| - 1])
  {
    var m := |r| - 1;
    assert r != [];
    assert r == r[..m] + [r[m]];
    ConcatAppend(r[..m], [r[m]]);
    assert Concat([r[m]]) == r[m] + Concat<Attempt>([]) == r[m];
    assert a[|a| - 1] == r[m][|r[m]| - 1];
  }

  lemma {:induction false} GrowOrAdd(r: seq<seq<Attempt>>, a: seq<Attempt>, x: Attempt)
    requires MaximalRuns(r, a) && r != []
    ensures StateKey(x) == StateKey(r[|r| - 1][0]) ==> MaximalRuns(r[|r| - 1 := r[|r| - 1] + [x]], a + [x])
    ensures StateKey(x) != StateKey(r[|r| - 1][0]) ==> MaximalRuns(r + [[x]], a + [x])
  {
    var m := |r| - 1;
    assert Concat([[x]]) == [x] + Concat<Attempt>([]) == [x];
    ConcatAppend(r, [[x]]);
    var grown := r[m := r[m] + [x]];
    assert r == r[..m] + [r[m]] && grown == r[..m] + [r[m] + [x]];
    ConcatAppend(r[..m], [r[m]]);
    ConcatAppend(r[..m], [r[m] + [x]]);
    assert Concat([r[m]]) == r[m] + Concat<Attempt>([]) == r[m];
    assert Concat([r[m] + [x]]) == (r[m] + [x]) + Concat<Attempt>([]) == r[m] + [x];
    if StateKey(x) == StateKey(r[m][0]) {
      assert OneState(r[m] + [x]);
    } else {
      assert OneState([x]);
    }
  }

  /** No other cutting is maximal. */
  lemma {:induction false} OnlyRunsAreMaximal(runs: seq<seq<Attempt>>, a: seq<Attempt>)
    requires MaximalRuns(runs, a)
    ensures runs == Runs(a)
    decreases |a|
  {
    if runs == [] {
    } else {
      var m, n := |runs| - 1, |a| - 1;
      var front, last := runs[..m], runs[m];
      SplitLast(runs, a);
      if |last| == 1 {
        OnlyRunsAreMaximal(front, a[..n]);
        if m > 0 {
          FrontNotEmpty(front);
          LastOfRuns(front, a[..n]);
        }
        RunsOpen(front, a);
        assert last == [a[n]];
      } else {
        OnlyRunsAreMaximal(front + [last[..|last| - 1]], a[..n]);
        RunsGrow(front, last, a);
      }
    }
  }

  lemma {:induction false} RunsOpen(front: seq<seq<Attempt>>, a: seq<Attempt>)
    requires a != [] && Runs(a[..|a| - 1]) == front
    requires |a| > 1 ==> StateKey(a[|a| - 1]) != StateKey(a[|a| - 2])
    ensures Runs(a) == front + [[a[|a| - 1]]]
  {
  }

  lemma {:induction false} RunsGrow(front: seq<seq<Attempt>>, last: seq<Attempt>, a: seq<Attempt>)
    requires |a| > 1 && |last| > 1 && Runs(a[..|a| - 1]) == front + [last[..|last| - 1]]
    requires a[|a| - 1] == last[|last| - 1] && StateKey(a[|a| - 1]) == StateKey(a[|a| - 2])
    ensures Runs(a) == front + [last]
  {
    assert last[..|last| - 1] + [last[|last| - 1]] == last;
  }

  /** Dropping the last attempt of a maximal cutting leaves one. */
  lemma {:induction false} SplitLast(runs: seq<seq<Attempt>>, a: seq<Attempt>)
    requires MaximalRuns(runs, a) && runs != []
    ensures var m, n := |runs| - 1, |a| - 1;
            var front, last := runs[..m], runs[m];
            && runs == front + [last] && n >= 0 && a[n] == last[|last| - 1]
            && (|last| == 1 ==> MaximalRuns(front, a[..n]))
            && (|last| > 1 ==> MaximalRuns(front + [last[..|last| - 1]], a[..n]) && a[n - 1] == last[|last| - 2])
  {
    var m, n := |runs| - 1, |a| - 1;
    var front, last := runs[..m], runs[m];
    var cut := last[..|last| - 1];
    InitAndLast(runs);
    assert OneState(last);
    ConcatLast(front, last, a);
    if |last| > 1 {
      ConcatAppend(front, [cut]);
      ConcatOne(cut);
      assert OneState(cut);
    } else {
      assert Concat(front) + cut == Concat(front);
    }
  }

  lemma {:induction false} ConcatLast(front: seq<seq<Attempt>>, last: seq<Attempt>, a: seq<Attempt>)
    requires Concat(front + [last]) == a && last != []
    ensures a == Concat(front) + last && a[|a| - 1] == last[|last| - 1]
    ensures a[..|a| - 1] == Concat(front) + last[..|last| - 1]
    ensures |last| > 1 ==> a[|a| - 2] == last[|last| - 2]
  {
    ConcatAppend(front, [last]);
    ConcatOne(last);
  }

  lemma FrontNotEmpty(runs: seq<seq<Attempt>>)
    requires runs != [] && runs[0] != []
    ensures Concat(runs) != []
  {
  }

  // ------------------------------------------------------------ transitions on the trace

  /** Two attempts in the same state: the same status, and the same kind of error, where
      none counts as the kind "ok". */
  predicate SameState(x: Attempt, y: Attempt) {
    && x.status == y.status
    && (x.errorKind == y.errorKind || (x.errorKind in {None, Some("ok")} && y.errorKind in {None, Some("ok")}))
  }

  /** Where a state begins. */
  function Changes(a: seq<Attempt>): (r: seq<bool>)
    ensures |r| == |a| && forall i :: 0 <= i < |r| ==> r[i] == ChangesAt(a, i)
  {
    seq(|a|, i requires 0 <= i < |a| => ChangesAt(a, i))
  }

  predicate ChangesAt(a: seq<Attempt>, i: nat)
    requires i < |a|
  {
    i == 0 || !SameState(a[i - 1], a[i])
  }

  /** The transition tells what the attempt says; an empty kind of error is none. */
  predicate Tells(t: Transition, x: Attempt) {
    t.ms == x.ms && t.status == x.status && t.errorKind == if x.errorKind == Some("") then None else x.errorKind
  }

  ghost predicate TellsAll(ts: seq<Transition>, a: seq<Attempt>, at: seq<nat>) {
    |ts| == |at| && forall j :: 0 <= j < |at| ==> at[j] < |a| && Tells(ts[j], a[at[j]])
  }

  lemma {:induction false} ChangesSnoc(a: seq<Attempt>)
    requires a != []
    ensures Changes(a) == Changes(a[..|a| - 1]) + [ChangesAt(a, |a| - 1)]
  {
  }

  lemma {:induction false} TellsSnoc(ts: seq<Transition>, a: seq<Attempt>, at: seq<nat>)
    requires a != [] && TellsAll(ts, a[..|a| - 1], at)
    ensures TellsAll(ts, a, at)
    ensures TellsAll(ts + [TransitionOf(a[|a| - 1])], a, at + [|a| - 1])
  {
  }

  /** The transitions of a trace are its attempts where a state begins, in order. */
  lemma {:induction false} TransitionsAreExact(a: seq<Attempt>) returns (at: seq<nat>)
    ensures Indexes(at, Changes(a))
    ensures TellsAll(Openings(Runs(a)), a, at)
    decreases |a|
  {
    if a == [] {
      at := [];
    } else {
      var n := |a| - 1;
      at := TransitionsAreExact(a[..n]);
      ChangesSnoc(a);
      IndexesSnoc(at, Changes(a[..n]), ChangesAt(a, n));
      OpeningsStep(a);
      TellsSnoc(Openings(Runs(a[..n])), a, at);
      if ChangesAt(a, n) {
        at := at + [n];
      }
    }
  }

  lemma {:induction false} OpeningsStep(a: seq<Attempt>)
    requires a != []
    ensures var n := |a| - 1;
            Openings(Runs(a)) == Openings(Runs(a[..n])) + if ChangesAt(a, n) then [TransitionOf(a[n])] else []
  {
    var n := |a| - 1;
    assert n > 0 ==> (StateKey(a[n]) == StateKey(a[n - 1]) <==> SameState(a[n - 1], a[n]));
  }

  // ----------------------------------------------------------------------------- the loop

  function Attempts(ticks: seq<Tick>): (r: seq<Attempt>)
    ensures |r| == |ticks| && forall i :: 0 <= i < |r| ==> r[i] == ticks[i].attempt
  {
    seq(|ticks|, i requires 0 <= i < |ticks| => ticks[i].attempt)
  }

  /** After n attempts there is a reason to stop: the deadline, a recovery, the end of the
      process, or the end of the restart while nothing has gone wrong yet. */
  ghost predicate Halts(ticks: seq<Tick>, n: nat)
    requires n <= |ticks|
  {
    var a := Attempts(ticks)[..n];
    || n == |ticks|
    || (exists i: nat :: Outage(a, i))
    || ticks[n].processDone
    || (ticks[n].done && a != [] && AllReady(a))
  }

  /** The loop's variables. */
  datatype Vars = Vars(
    firstErrorKind: Option<string>,
    lastStatus: Option<int>,
    lastStateKey: Option<(Option<int>, string)>,
    lastSuccessMs: Option<real>,
    unavailableMs: Option<real>,
    transitions: seq<Transition>)

  /** Where the trace stands: `down` is the index of the first attempt that was not
      ready, `err` of the first with an error, and |a| if there is none. */
  datatype Place = Place(down: nat, err: nat)

  ghost predicate Tracks(v: Vars, a: seq<Attempt>, p: Place) {
    Scanned(v, a, p) && Listed(v, a)
  }

  ghost predicate Scanned(v: Vars, a: seq<Attempt>, p: Place) {
    && p.down <= |a| && p.err <= |a|
    && (forall k :: 0 <= k < p.down ==> Ready(a[k])) && (forall k :: p.down <= k < |a| ==> !Ready(a[k]))
    && (forall k :: 0 <= k < p.err ==> !HasError(a[k])) && (p.err < |a| ==> HasError(a[p.err]))
    && v.firstErrorKind == (if p.err < |a| then a[p.err].errorKind else None)
    && v.lastSuccessMs == (if p.down > 0 then Some(a[p.down - 1].ms) else None)
    && v.unavailableMs == (if p.down < |a| then Some(a[p.down].ms) else None)
  }

  ghost predicate Listed(v: Vars, a: seq<Attempt>) {
    && v.lastStatus == (if a == [] then None else a[|a| - 1].status)
    && v.lastStateKey == (if a == [] then None else Some(StateKey(a[|a| - 1])))
    && v.transitions == Openings(Runs(a))
  }

  /** The variables after one more attempt. */
  function After(v: Vars, x: Attempt): Vars {
    Vars(if v.firstErrorKind == None && HasError(x) then x.errorKind else v.firstErrorKind,
         x.status,
         Some(StateKey(x)),
         if Ready(x) then Some(x.ms) else v.lastSuccessMs,
         if !Ready(x) && v.unavailableMs == None then Some(x.ms) else v.unavailableMs,
         if v.lastStateKey == Some(StateKey(x)) then v.transitions else v.transitions + [TransitionOf(x)])
  }

  ghost function NextPlace(v: Vars, p: Place, x: Attempt): Place {
    Place(if Ready(x) then p.down + 1 else p.down, if v.firstErrorKind == None && !HasError(x) then p.err + 1 else p.err)
  }

  lemma {:induction false} ListedStep(v: Vars, a: seq<Attempt>, x: Attempt)
    requires Listed(v, a)
    ensures Listed(After(v, x), a + [x])
  {
    assert (a + [x])[..|a|] == a;
  }

  lemma {:induction false} TracksStep(v: Vars, a: seq<Attempt>, p: Place, x: Attempt)
    requires Tracks(v, a, p) && (Ready(x) ==> v.unavailableMs == None)
    ensures Tracks(After(v, x), a + [x], NextPlace(v, p, x))
  {
    ScannedStep(v, a, p, x, a + [x]);
    ListedStep(v, a, x);
  }

  lemma {:induction false} ScannedStep(v: Vars, a: seq<Attempt>, p: Place, x: Attempt, b: seq<Attempt>)
    requires Scanned(v, a, p) && (Ready(x) ==> v.unavailableMs == None)
    requires |b| == |a| + 1 && b[|a|] == x && forall k :: 0 <= k < |a| ==> b[k] == a[k]
    ensures Scanned(After(v, x), b, NextPlace(v, p, x))
  {
  }

  lemma {:induction false} StillRunning(v: Vars, a: seq<Attempt>, p: Place)
    requires Scanned(v, a, p)
    ensures !exists i: nat :: Outage(a, i)
    ensures AllReady(a) <==> p.down == |a|
    ensures p.down < |a| ==> FirstDown(a, p.down)
  {
    forall i: nat
      ensures !Outage(a, i)
    {
      if i + 1 < |a| {
        assert Ready(a[i]) <==> i < p.down;
        assert Ready(a[|a| - 1]) <==> |a| - 1 < p.down;
      }
    }
  }

  lemma {:induction false} ErrorIsNamed(a: seq<Attempt>, err: nat, r: ProbeResult)
    requires err <= |a| && (forall k :: 0 <= k < err ==> !HasError(a[k])) && (err < |a| ==> HasError(a[err]))
    requires r.firstErrorKind == if err < |a| then a[err].errorKind else None
    ensures ErrorNamed(a, r)
  {
  }

  /** The result when the loop ends without having seen a recovery. */
  function Unrecovered(v: Vars): ProbeResult {
    ProbeResult(None, v.firstErrorKind, None, if v.unavailableMs == None then v.lastSuccessMs else None, v.lastStatus, v.transitions, v.unavailableMs)
  }

  lemma {:induction false} UnrecoveredIsRight(v: Vars, a: seq<Attempt>, p: Place)
    requires Tracks(v, a, p)
    ensures Classified(a, Unrecovered(v))
    ensures v.unavailableMs == None && v.lastSuccessMs != None ==> v.lastStatus == Some(200)
  {
    StillRunning(v, a, p);
    ErrorIsNamed(a, p.err, Unrecovered(v));
  }

  /** The result when attempt x is the recovery. */
  function Recovery(w: Vars, x: Attempt): ProbeResult
    requires w.unavailableMs.Some?
  {
    ProbeResult(Some(x.ms - w.unavailableMs.value), w.firstErrorKind, Some(x.ms), Some(x.ms), x.status, w.transitions, w.unavailableMs)
  }

  lemma {:induction false} RecoveryIsRight(v: Vars, a: seq<Attempt>, p: Place, x: Attempt)
    requires Tracks(v, a, p) && v.unavailableMs.Some? && Ready(x)
    ensures Classified(a + [x], Recovery(After(v, x), x)) && Outage(a + [x], p.down)
  {
    var b, w := a + [x], After(v, x);
    OutageEnds(v, a, p, x, b);
    ErrorStaysNamed(v, a, p, x, b, Recovery(w, x));
    ListedStep(v, a, x);
    RecoveryOf(w, b, p.down, x);
  }

  /** The result for a trace that ends its outage with x. */
  lemma {:induction false} RecoveryOf(w: Vars, b: seq<Attempt>, i: nat, x: Attempt)
    requires Outage(b, i) && w.unavailableMs == Some(b[i].ms) && b[|b| - 1] == x
    requires Listed(w, b) && ErrorNamed(b, Recovery(w, x))
    ensures Classified(b, Recovery(w, x))
  {
    var r := Recovery(w, x);
    assert r.transitions == Openings(Runs(b)) && r.status == b[|b| - 1].status;
    assert OutageNamed(b, r) && DownNamed(b, r) by {
      OutageIsNamed(b, i, r);
    }
  }

  lemma {:induction false} ErrorStaysNamed(v: Vars, a: seq<Attempt>, p: Place, x: Attempt, b: seq<Attempt>, r: ProbeResult)
    requires Scanned(v, a, p) && r.firstErrorKind == After(v, x).firstErrorKind
    requires |b| == |a| + 1 && b[|a|] == x && forall k :: 0 <= k < |a| ==> b[k] == a[k]
    ensures ErrorNamed(b, r)
  {
    ErrorIsNamed(b, if p.err == |a| && !HasError(x) then |b| else p.err, r);
  }

  lemma {:induction false} OutageEnds(v: Vars, a: seq<Attempt>, p: Place, x: Attempt, b: seq<Attempt>)
    requires Scanned(v, a, p) && v.unavailableMs.Some? && Ready(x)
    requires |b| == |a| + 1 && b[|a|] == x && forall k :: 0 <= k < |a| ==> b[k] == a[k]
    ensures Outage(b, p.down) && v.unavailableMs == After(v, x).unavailableMs == Some(b[p.down].ms)
  {
  }

  lemma {:induction false} OutageIsNamed(a: seq<Attempt>, i: nat, r: ProbeResult)
    requires Outage(a, i) && r.unavailableMs == Some(a[i].ms)
    requires r.downtimeMs.Some? && r.downtimeMs.value == a[|a| - 1].ms - a[i].ms
    requires r.firstRecoveryMs == r.ms == Some(a[|a| - 1].ms)
    ensures OutageNamed(a, r) && DownNamed(a, r)
  {
    assert !Ready(a[i]);
    forall j: nat | Outage(a, j) || FirstDown(a, j)
      ensures j == i
    {
      assert !Ready(a[j]) && (j < |a| - 1 || Ready(a[|a| - 1]));
    }
  }

  /** Nothing stops the loop before it has made n attempts. */
  ghost predicate GoesOn(ticks: seq<Tick>, n: nat)
    requires n <= |ticks|
  {
    forall m: nat :: m < n ==> !Halts(ticks, m)
  }

  /** The loop stops after n attempts with the result they deserve. */
  ghost predicate Stops(ticks: seq<Tick>, n: nat, r: ProbeResult) {
    n <= |ticks| && Halts(ticks, n) && GoesOn(ticks, n) && Classified(Attempts(ticks)[..n], r)
  }

  ghost predicate LoopInv(ticks: seq<Tick>, n: nat, v: Vars, p: Place) {
    n <= |ticks| && GoesOn(ticks, n) && Tracks(v, Attempts(ticks)[..n], p)
  }

  predicate LeavesEarly(v: Vars, t: Tick) {
    t.processDone || (t.done && v.unavailableMs == None && v.lastSuccessMs != None)
  }

  lemma {:induction false} GoesOnOrHalts(ticks: seq<Tick>, n: nat, v: Vars, p: Place)
    requires n < |ticks| && LoopInv(ticks, n, v, p)
    ensures if LeavesEarly(v, ticks[n]) then Halts(ticks, n) else GoesOn(ticks, n + 1)
  {
    StillRunning(v, Attempts(ticks)[..n], p);
  }

  lemma {:induction false} LoopLeaves(ticks: seq<Tick>, n: nat, v: Vars, p: Place)
    requires LoopInv(ticks, n, v, p) && (n < |ticks| ==> LeavesEarly(v, ticks[n]))
    ensures Stops(ticks, n, Unrecovered(v))
    ensures v.unavailableMs == None && v.lastSuccessMs != None ==> v.lastStatus == Some(200)
  {
    UnrecoveredIsRight(v, Attempts(ticks)[..n], p);
    if n < |ticks| {
      GoesOnOrHalts(ticks, n, v, p);
    }
  }

  lemma {:induction false} LoopRecovers(ticks: seq<Tick>, n: nat, v: Vars, p: Place)
    requires n < |ticks| && LoopInv(ticks, n, v, p) && !LeavesEarly(v, ticks[n])
    requires v.unavailableMs.Some? && Ready(ticks[n].attempt)
    ensures Stops(ticks, n + 1, Recovery(After(v, ticks[n].attempt), ticks[n].attempt))
  {
    var a, x := Attempts(ticks), ticks[n].attempt;
    assert a[..n + 1] == a[..n] + [x];
    assert GoesOn(ticks, n + 1) by {
      GoesOnOrHalts(ticks, n, v, p);
    }
    assert Halts(ticks, n + 1) && Classified(a[..n + 1], Recovery(After(v, x), x)) by {
      RecoveryIsRight(v, a[..n], p, x);
    }
  }

  lemma {:induction false} LoopStart(ticks: seq<Tick>)
    ensures LoopInv(ticks, 0, Vars(None, None, None, None, None, []), Place(0, 0))
  {
  }

  lemma {:induction false} LoopStep(ticks: seq<Tick>, n: nat, v: Vars, p: Place)
    requires n < |ticks| && LoopInv(ticks, n, v, p) && !LeavesEarly(v, ticks[n])
    requires Ready(ticks[n].attempt) ==> v.unavailableMs == None
    ensures LoopInv(ticks, n + 1, After(v, ticks[n].attempt), NextPlace(v, p, ticks[n].attempt))
  {
    GoesOnOrHalts(ticks, n, v, p);
    var a := Attempts(ticks);
    TracksStep(v, a[..n], p, ticks[n].attempt);
    assert a[..n + 1] == a[..n] + [ticks[n].attempt];
  }

  /** The loop has made n attempts and its variables are v. */
  ghost predicate Underway(ticks: seq<Tick>, n: nat, v: Vars) {
    exists p :: LoopInv(ticks, n, v, p)
  }

  /** r is the result of the loop. */
  ghost predicate Answers(ticks: seq<Tick>, r: ProbeResult) {
    exists n: nat :: Stops(ticks, n, r)
  }

  lemma {:induction false} Begins(ticks: seq<Tick>)
    ensures Underway(ticks, 0, Vars(None, None, None, None, None, []))
  {
    LoopStart(ticks);
  }

  lemma {:induction false} Leaves(ticks: seq<Tick>, n: nat, v: Vars)
    requires Underway(ticks, n, v) && n <= |ticks| && (n < |ticks| ==> LeavesEarly(v, ticks[n]))
    ensures Answers(ticks, Unrecovered(v))
    ensures v.unavailableMs == None && v.lastSuccessMs != None ==> v.lastStatus == Some(200)
  {
    var p :| LoopInv(ticks, n, v, p);
    LoopLeaves(ticks, n, v, p);
  }

  lemma {:induction false} Goes(ticks: seq<Tick>, n: nat, v: Vars, w: Vars)
    requires n < |ticks| && Underway(ticks, n, v) && !LeavesEarly(v, ticks[n]) && w == After(v, ticks[n].attempt)
    ensures if Ready(ticks[n].attempt) && w.unavailableMs.Some? then Answers(ticks, Recovery(w, ticks[n].attempt))
            else Underway(ticks, n + 1, w)
  {
    var p :| LoopInv(ticks, n, v, p);
    if Ready(ticks[n].attempt) && w.unavailableMs.Some? {
      LoopRecovers(ticks, n, v, p);
    } else {
      LoopStep(ticks, n, v, p);
    }
  }

  /** There is at most one place to stop. */
  lemma {:induction false} StopsOnce(ticks: seq<Tick>, n: nat, n': nat, r: ProbeResult, r': ProbeResult)
    ensures Stops(ticks, n, r) && Stops(ticks, n', r') ==> n == n' && r == r'
  {
    if Stops(ticks, n, r) && Stops(ticks, n', r') {
      ClassifiedIsUnique(Attempts(ticks)[..n], r, r');
    }
  }

  // ------------------------------------------------------------------- the shared events

  /** Which probe an event is from; `lead` is the time from the start of the sample to
      the restart signal. */
  datatype Probe = Probe(iteration: nat, path: string, lead: real)

  datatype BenchmarkEvent = BenchmarkEvent(iteration: nat, ms: real, status: Option<int>, kind: string, errorKind: Option<string>)

  function EventOf(p: Probe, t: Transition): BenchmarkEvent {
    BenchmarkEvent(p.iteration, t.ms + p.lead, t.status, p.path + ":transition", t.errorKind)
  }

  /** One event for each transition. */
  function EventsOf(p: Probe, ts: seq<Transition>): (r: seq<BenchmarkEvent>)
    ensures |r| == |ts| && forall i :: 0 <= i < |ts| ==> r[i] == EventOf(p, ts[i])
  {
    seq(|ts|, i requires 0 <= i < |ts| => EventOf(p, ts[i]))
  }

  lemma {:induction false} EventsOfSnoc(p: Probe, events: seq<BenchmarkEvent>, ts: seq<Transition>, t: Transition)
    ensures events + EventsOf(p, ts + [t]) == events + EventsOf(p, ts) + [EventOf(p, t)]
  {
  }

  /** The body of the loop up to the check for a recovery: a transition is listed, and an
      event pushed, exactly if the state differs from the one before. */
  method Observe(probe: Probe, v: Vars, attempt: Attempt, events: seq<BenchmarkEvent>, ghost before: seq<BenchmarkEvent>)
    returns (w: Vars, events': seq<BenchmarkEvent>)
    requires events == before + EventsOf(probe, v.transitions)
    ensures w == After(v, attempt) && events' == before + EventsOf(probe, w.transitions)
  {
    w, events' := v.(lastStatus := attempt.status), events;
    if w.lastStateKey != Some(StateKey(attempt)) {
      EventsOfSnoc(probe, before, v.transitions, TransitionOf(attempt));
      var errorKind := if HasError(attempt) then attempt.errorKind else None;
      w := w.(transitions := w.transitions + [Transition(attempt.ms, attempt.status, errorKind)]);
      events' := events' + [BenchmarkEvent(probe.iteration, attempt.ms + probe.lead, attempt.status, probe.path + ":transition", errorKind)];
      w := w.(lastStateKey := Some(StateKey(attempt)));
    }
    if HasError(attempt) && w.firstErrorKind == None {
      w := w.(firstErrorKind := attempt.errorKind);
    }
    if attempt.status != Some(200) && w.unavailableMs == None {
      w := w.(unavailableMs := Some(attempt.ms));
    }
    if attempt.status == Some(200) {
      w := w.(lastSuccessMs := Some(attempt.ms));
    }
  }

  /** The loop makes the attempts that come before the first reason to stop, returns the
      one result they deserve, and pushes one event for each transition. */
  method WaitForRestartProbe(probe: Probe, ticks: seq<Tick>, events: seq<BenchmarkEvent>)
    returns (r: ProbeResult, events': seq<BenchmarkEvent>)
    ensures Answers(ticks, r)
    ensures events' == events + EventsOf(probe, r.transitions)
  {
    var v, i := Vars(None, None, None, None, None, []), 0;
    events' := events;
    Begins(ticks);
    while i < |ticks|
      invariant 0 <= i <= |ticks| && Underway(ticks, i, v)
      invariant events' == events + EventsOf(probe, v.transitions)
    {
      if ticks[i].processDone {
        break;
      }
      if ticks[i].done && v.unavailableMs == None && v.lastSuccessMs != None {
        Leaves(ticks, i, v);
        r := Unrecovered(v.(lastStatus := Some(200)));
        return;
      }
      var attempt, w := ticks[i].attempt, v;
      w, events' := Observe(probe, v, attempt, events', events);
      Goes(ticks, i, v, w);
      if attempt.status == Some(200) && w.unavailableMs != None {
        r := Recovery(w, attempt);
        return;
      }
      v, i := w, i + 1;
    }
    Leaves(ticks, i, v);
    r := Unrecovered(v);
  }
}
