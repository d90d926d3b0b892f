/**
 The concurrent file reader `readRuntimeSourceFiles`
 (scripts/check-temp-path-guardrails.ts): workers that share `nextIndex` and write
 to slots of `output`. A worker runs without interruption up to its `await`, so a
 step is either claiming an index or finishing a read; steps of different workers
 interleave in any order.
 */
module ReaderPool {
  import opened Common

  const FILE_READ_CONCURRENCY: nat := 24

  datatype File = File(path: string, source: string)

  /** Ready to claim, waiting for a read, or returned. */
  datatype Worker = Ready | Reading(index: nat) | Finished

  /** The paths to read, and what each read gives (None: it throws). */
  datatype Job = Job(paths: seq<string>, contents: seq<Option<string>>) {
    ghost predicate Valid() {
      |paths| == |contents|
    }
  }

  datatype Claim = Claim(index: nat, worker: nat)

  /** `claims` records, in order, which worker took which value of `nextIndex`. */
  datatype Pool = Pool(nextIndex: nat, claims: seq<Claim>, workers: seq<Worker>, output: seq<Option<File>>)

  function WorkerCount(n: nat): nat {
    var wanted := if n > 1 then n else 1;
    if wanted < FILE_READ_CONCURRENCY then wanted else FILE_READ_CONCURRENCY
  }

  function Start(job: Job): Pool {
    Pool(0, [], seq(WorkerCount(|job.paths|), _ => Ready), seq(|job.paths|, _ => None))
  }

  predicate CanStep(s: Pool, w: nat) {
    w < |s.workers| && !s.workers[w].Finished?
  }

  function Step(job: Job, s: Pool, w: nat): Pool
    requires job.Valid() && CanStep(s, w) && |s.output| == |job.paths|
    requires s.workers[w].Reading? ==> s.workers[w].index < |job.paths|
  {
    match s.workers[w]
    case Ready =>
      var index := s.nextIndex;
      var s' := s.(nextIndex := index + 1, claims := s.claims + [Claim(index, w)]);
      if index >= |job.paths| then s'.(workers := s.workers[w := Finished])
      else if job.paths[index] == "" then s'
      else s'.(workers := s.workers[w := Reading(index)])
    case Reading(index) =>
      var s' := s.(workers := s.workers[w := Ready]);
      if job.contents[index].None? then s'
      else s'.(output := s.output[index := Some(File(job.paths[index], job.contents[index].value))])
  }

  /** What slot i holds once its read is over. */
  function Slot(job: Job, i: nat): Option<File>
    requires job.Valid() && i < |job.paths|
  {
    if job.paths[i] == "" || job.contents[i].None? then None else Some(File(job.paths[i], job.contents[i].value))
  }

  ghost predicate InFlight(s: Pool, i: nat) {
    exists w :: 0 <= w < |s.workers| && s.workers[w] == Reading(i)
  }

  /** Exactly one claim in the record is for index i. */
  ghost predicate ClaimedOnce(s: Pool, i: nat) {
    exists k :: IsClaim(s, k, i) && forall j :: IsClaim(s, j, i) ==> j == k
  }

  ghost predicate IsClaim(s: Pool, k: int, i: nat) {
    0 <= k < |s.claims| && s.claims[k].index == i
  }

  /** Claims are numbered as they come; a reading worker holds the claim to its index;
      a slot is settled exactly when its index was claimed and is not in flight; a
      worker returns only when all indices are claimed. */
  ghost predicate Inv(job: Job, s: Pool) {
    && job.Valid() && |s.output| == |job.paths|
    && |s.claims| == s.nextIndex
    && (forall k :: 0 <= k < |s.claims| ==> s.claims[k].index == k && s.claims[k].worker < |s.workers|)
    && (forall w :: 0 <= w < |s.workers| && s.workers[w].Reading? ==>
          var i := s.workers[w].index;
          i < s.nextIndex && i < |job.paths| && job.paths[i] != "" && s.claims[i].worker == w)
    && (forall w :: 0 <= w < |s.workers| && s.workers[w].Finished? ==> s.nextIndex >= |job.paths|)
    && (forall i :: 0 <= i < |job.paths| ==>
          s.output[i] == if i < s.nextIndex && !InFlight(s, i) then Slot(job, i) else None)
  }

  lemma {:induction false} EachIndexOnce(job: Job, s: Pool, i: nat)
    requires Inv(job, s)
    ensures i < s.nextIndex <==> ClaimedOnce(s, i)
    ensures forall k :: IsClaim(s, k, i) ==> i < s.nextIndex
  {
    if i < s.nextIndex {
      assert IsClaim(s, i, i);
    }
  }

  lemma {:induction false} StartInv(job: Job)
    requires job.Valid()
    ensures Inv(job, Start(job))
  {
  }

  lemma {:induction false} ClaimKeepsInv(job: Job, s: Pool, w: nat)
    requires Inv(job, s) && CanStep(s, w) && s.workers[w].Ready?
    ensures Inv(job, Step(job, s, w))
  {
    var s', n := Step(job, s, w), s.nextIndex;
    forall i: nat
      ensures InFlight(s', i) <==> InFlight(s, i) || (i == n && s'.workers[w] == Reading(n))
    {
      if InFlight(s, i) {
        var x :| 0 <= x < |s.workers| && s.workers[x] == Reading(i);
        assert s'.workers[x] == Reading(i);
      }
      if i == n && s'.workers[w] == Reading(n) {
        assert InFlight(s', i);
      }
    }
    assert !InFlight(s, n);
  }

  lemma {:induction false} ReadKeepsInv(job: Job, s: Pool, w: nat)
    requires Inv(job, s) && CanStep(s, w) && s.workers[w].Reading?
    ensures Inv(job, Step(job, s, w))
  {
    var s', k := Step(job, s, w), s.workers[w].index;
    forall i: nat
      ensures InFlight(s', i) <==> InFlight(s, i) && i != k
    {
      if InFlight(s, i) && i != k {
        var x :| 0 <= x < |s.workers| && s.workers[x] == Reading(i);
        assert s'.workers[x] == Reading(i);
      }
      if InFlight(s', i) {
        var x :| 0 <= x < |s'.workers| && s'.workers[x] == Reading(i);
        assert s.workers[x] == Reading(i) && s.claims[i].worker == x;
      }
    }
    assert InFlight(s, k);
  }

  /** Steps left at most: two for every unclaimed index, and what the workers owe. */
  function Weight(ws: seq<Worker>): nat {
    if ws == [] then 0 else Weight(ws[1..]) + Due(ws[0])
  }

  function Due(w: Worker): nat {
    if w.Reading? then 2 else if w.Ready? then 1 else 0
  }

  lemma {:induction false} WeightUpdate(ws: seq<Worker>, w: nat, x: Worker)
    requires w < |ws|
    ensures Weight(ws[w := x]) == Weight(ws) - Due(ws[w]) + Due(x)
    decreases |ws|
  {
    if w == 0 {
    } else {
      assert ws[w := x][1..] == ws[1..][w - 1 := x];
      WeightUpdate(ws[1..], w - 1, x);
    }
  }

  function Remaining(job: Job, s: Pool): nat {
    Weight(s.workers) + (if s.nextIndex < |job.paths| then 2 * (|job.paths| - s.nextIndex) else 0)
  }

  lemma {:induction false} StepKeepsInv(job: Job, s: Pool, w: nat)
    requires Inv(job, s) && CanStep(s, w)
    ensures Inv(job, Step(job, s, w))
    ensures Remaining(job, Step(job, s, w)) < Remaining(job, s)
    ensures s.claims <= Step(job, s, w).claims && |Step(job, s, w).workers| == |s.workers|
  {
    var s' := Step(job, s, w);
    WeightUpdate(s.workers, w, s'.workers[w]);
    assert s.workers[w := s'.workers[w]] == s'.workers;
    if s.workers[w].Ready? {
      ClaimKeepsInv(job, s, w);
    } else {
      ReadKeepsInv(job, s, w);
    }
  }

  // ------------------------------------------------------------------------ whole runs

  /** A schedule names the worker that takes each step. */
  ghost predicate Possible(job: Job, s: Pool, schedule: seq<nat>)
    requires Inv(job, s)
    decreases |schedule|
  {
    schedule == [] ||
    (CanStep(s, schedule[0]) &&
     (StepKeepsInv(job, s, schedule[0]);
      Possible(job, Step(job, s, schedule[0]), schedule[1..])))
  }

  ghost function Run(job: Job, s: Pool, schedule: seq<nat>): (s': Pool)
    requires Inv(job, s) && Possible(job, s, schedule)
    decreases |schedule|
  {
    if schedule == [] then s
    else
      StepKeepsInv(job, s, schedule[0]);
      Run(job, Step(job, s, schedule[0]), schedule[1..])
  }

  lemma {:induction false} RunKeepsInv(job: Job, s: Pool, schedule: seq<nat>)
    requires Inv(job, s) && Possible(job, s, schedule)
    ensures var s' := Run(job, s, schedule);
            Inv(job, s') && |schedule| + Remaining(job, s') <= Remaining(job, s) && |s'.workers| == |s.workers|
    decreases |schedule|
  {
    if schedule == [] {
    } else {
      StepKeepsInv(job, s, schedule[0]);
      RunKeepsInv(job, Step(job, s, schedule[0]), schedule[1..]);
    }
  }

  predicate AllDone(s: Pool) {
    forall w :: 0 <= w < |s.workers| ==> s.workers[w].Finished?
  }

  /** `output.filter(entry => entry !== undefined)`. */
  function Present(slots: seq<Option<File>>): seq<File> {
    if slots == [] then [] else (if slots[0].Some? then [slots[0].value] else []) + Present(slots[1..])
  }

  /** The readable files with a path, in input order. */
  function Expected(job: Job): seq<File>
    requires job.Valid()
    decreases |job.paths|
  {
    if job.paths == [] then []
    else (if Slot(job, 0).Some? then [Slot(job, 0).value] else []) + Expected(Job(job.paths[1..], job.contents[1..]))
  }

  lemma {:induction false} PresentIsExpected(job: Job, slots: seq<Option<File>>)
    requires job.Valid() && |slots| == |job.paths| && forall i :: 0 <= i < |slots| ==> slots[i] == Slot(job, i)
    ensures Present(slots) == Expected(job)
    decreases |slots|
  {
    if slots == [] {
    } else {
      var rest := Job(job.paths[1..], job.contents[1..]);
      forall i | 0 <= i < |slots| - 1
        ensures slots[1..][i] == Slot(rest, i)
      {
        assert slots[i + 1] == Slot(job, i + 1);
      }
      PresentIsExpected(rest, slots[1..]);
    }
  }

  lemma {:induction false} StartWeight(n: nat)
    ensures Weight(seq(n, _ => Ready)) == n
    decreases n
  {
    if n == 0 {
    } else {
      assert seq(n, _ => Ready)[1..] == seq(n - 1, _ => Ready);
      StartWeight(n - 1);
    }
  }

  /** For every interleaving: it takes a bounded number of steps; at every point each
      index taken so far was claimed by exactly one worker, and no other was; and once
      all workers have returned, every index of the input was claimed by exactly one,
      and the result is the input order with exactly the unreadable and the empty
      paths removed. */
  lemma {:induction false} EveryInterleaving(job: Job, schedule: seq<nat>)
    requires job.Valid()
    ensures Inv(job, Start(job))
    ensures Possible(job, Start(job), schedule) ==>
              var s := Run(job, Start(job), schedule);
              && |schedule| <= 2 * |job.paths| + WorkerCount(|job.paths|)
              && (forall i: nat :: ClaimedOnce(s, i) <==> i < s.nextIndex)
              && (forall k :: 0 <= k < |s.claims| ==> s.claims[k].index < s.nextIndex)
              && (AllDone(s) ==>
                    && (forall i: nat :: i < |job.paths| ==> ClaimedOnce(s, i))
                    && Present(s.output) == Expected(job))
  {
    StartInv(job);
    if Possible(job, Start(job), schedule) {
      var s := Run(job, Start(job), schedule);
      RunKeepsInv(job, Start(job), schedule);
      StartWeight(WorkerCount(|job.paths|));
      forall i: nat
        ensures ClaimedOnce(s, i) <==> i < s.nextIndex
      {
        EachIndexOnce(job, s, i);
      }
      if AllDone(s) {
        DoneIsComplete(job, s);
      }
    }
  }

  lemma {:induction false} DoneIsComplete(job: Job, s: Pool)
    requires Inv(job, s) && AllDone(s) && s.workers != []
    ensures s.nextIndex >= |job.paths| && Present(s.output) == Expected(job)
  {
    assert s.workers[0].Finished?;
    PresentIsExpected(job, s.output);
  }

  /** No run gets stuck: until all workers have returned, one can step. */
  lemma NeverStuck(s: Pool)
    requires !AllDone(s)
    ensures exists w :: CanStep(s, w)
  {
    var w :| 0 <= w < |s.workers| && !s.workers[w].Finished?;
    assert CanStep(s, w);
  }
}
