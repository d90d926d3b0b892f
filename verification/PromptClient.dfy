/**
 The single-slot RPC client `PiRpcClient` (scripts/control-ui-i18n.ts).

 `State` is what the client's fields, its live timers and the promises it has
 handed out amount to; `Step` is the effect of one event on it. `PiRpcClient`
 is the client itself, every handler of which is proved to perform its `Step`.
 */
module PromptClient {
  import opened Common

  /** How the promise of one request settled. */
  datatype Outcome = Resolved(text: string) | Rejected(reason: string)

  datatype Pending = Pending(id: nat, responseReceived: bool)

  /** One line of the child's standard output, after parsing. Blank lines,
      lines that are not JSON, other message types and responses with an id
      that no request has are all Noise. An AgentEnd carries no request id. */
  datatype Line =
    | Noise
    | Response(id: nat, success: bool, error: string)
    | AgentEnd(result: Result<string, string>)

  datatype Event =
    | Call                                 // prompt() is called and queues behind this.sequence
    | Start                                // the head of this.sequence runs its body
    | Stdout(line: Line)
    | Timeout(id: nat)
    | WriteFailed(id: nat, reason: string)
    | ProcessError(reason: string)
    | ProcessClose
    | Close

  /** Requests are numbered 1..requestCount (`req-1`, `req-2`, ...). A started
      request is settled once it has an entry in `outcomes`. */
  datatype State = State(
    closed: bool,
    pending: Option<Pending>,
    requestCount: nat,
    queued: nat,
    refused: nat,
    timers: set<nat>,
    heartbeats: set<nat>,
    outcomes: map<nat, Outcome>)

  const INITIAL := State(false, None, 0, 0, 0, {}, {}, map[])

  predicate Started(s: State, id: nat) {
    1 <= id <= s.requestCount
  }

  ghost predicate Unsettled(s: State, id: nat) {
    Started(s, id) && id !in s.outcomes
  }

  ghost predicate AllSettled(s: State) {
    forall id :: !Unsettled(s, id)
  }

  function PendingIds(s: State): set<nat> {
    if s.pending.Some? then {s.pending.value.id} else {}
  }

  /** Settling a promise a second time has no effect. */
  function Settle(m: map<nat, Outcome>, id: nat, o: Outcome): map<nat, Outcome> {
    if id in m then m else m[id := o]
  }

  /** When an event can happen at all: the chain of promises runs the next body
      only after the previous one settled, a timer fires only while live, and a
      write reports only for a request that was written. */
  ghost predicate Enabled(s: State, e: Event) {
    match e
    case Start => s.queued > 0 && AllSettled(s)
    case Timeout(id) => id in s.timers
    case WriteFailed(id, _) => Started(s, id)
    case _ => true
  }

  /** Calling the pending entry's resolve or reject: both clear the request's
      timers, and the caller has cleared `pending` first. */
  function Finish(s: State, id: nat, o: Outcome): State {
    s.(pending := None, timers := s.timers - {id}, heartbeats := s.heartbeats - {id},
       outcomes := Settle(s.outcomes, id, o))
  }

  function RejectPending(s: State, reason: string): State {
    if s.pending.None? then s else Finish(s, s.pending.value.id, Rejected(reason))
  }

  function HandleLine(s: State, line: Line): State {
    if s.pending.None? then s else
    var p := s.pending.value;
    match line
    case Noise => s
    case Response(id, success, error) =>
      if id != p.id then s
      else if !success then Finish(s, p.id, Rejected(error))
      else s.(pending := Some(p.(responseReceived := true)))
    case AgentEnd(Ok(text)) => Finish(s, p.id, Resolved(text))
    case AgentEnd(Err(reason)) => Finish(s, p.id, Rejected(reason))
  }

  function StartNext(s: State): State
    requires s.queued > 0
  {
    var s0 := s.(queued := s.queued - 1);
    if s.closed then s0.(refused := s.refused + 1) else
    var id := s.requestCount + 1;
    s0.(requestCount := id, timers := s.timers + {id}, heartbeats := s.heartbeats + {id},
        pending := Some(Pending(id, false)))
  }

  function FailWrite(s: State, id: nat, reason: string): State {
    s.(timers := s.timers - {id}, heartbeats := s.heartbeats - {id},
       pending := if PendingIds(s) == {id} then None else s.pending,
       outcomes := Settle(s.outcomes, id, Rejected(reason)))
  }

  function FireTimeout(s: State, id: nat): State {
    var s0 := s.(timers := s.timers - {id});
    if PendingIds(s) != {id} then s0
    else s0.(pending := None, heartbeats := s.heartbeats - {id}, closed := true,
             outcomes := Settle(s.outcomes, id, Rejected("translation prompt timed out")))
  }

  ghost function Step(s: State, e: Event): State
    requires Enabled(s, e)
  {
    match e
    case Call => s.(queued := s.queued + 1)
    case Start => StartNext(s)
    case Stdout(line) => HandleLine(s, line)
    case Timeout(id) => FireTimeout(s, id)
    case WriteFailed(id, reason) => FailWrite(s, id, reason)
    case ProcessError(reason) => RejectPending(s, reason)
    case ProcessClose => RejectPending(s.(closed := true), "pi process closed")
    case Close => s.(closed := true)
  }

  /** `pending` holds exactly the one unsettled request, and exactly that
      request has a live timeout and a live heartbeat. */
  ghost predicate Inv(s: State) {
    && (forall id :: id in s.outcomes ==> Started(s, id))
    && (forall id :: Unsettled(s, id) <==> id in PendingIds(s))
    && s.timers == PendingIds(s)
    && s.heartbeats == PendingIds(s)
  }

  lemma StepKeepsInv(s: State, e: Event)
    requires Inv(s) && Enabled(s, e)
    ensures Inv(Step(s, e))
    ensures forall id :: id in s.outcomes ==> id in Step(s, e).outcomes && Step(s, e).outcomes[id] == s.outcomes[id]
    ensures s.requestCount <= Step(s, e).requestCount && (s.closed ==> Step(s, e).closed)
  {
    var t := Step(s, e);
    forall id: nat
      ensures Unsettled(t, id) <==> id in PendingIds(t)
    {
      assert Unsettled(s, id) <==> id in PendingIds(s);
      assert e.Start? ==> PendingIds(s) == {};
    }
  }

  /** Every event of `es` is enabled when its turn comes. */
  ghost predicate Legal(s: State, es: seq<Event>)
    decreases |es|
  {
    es == [] || (Enabled(s, es[0]) && Legal(Step(s, es[0]), es[1..]))
  }

  ghost function Run(s: State, es: seq<Event>): State
    requires Legal(s, es)
    decreases |es|
  {
    if es == [] then s else Run(Step(s, es[0]), es[1..])
  }

  /** Over every run, however its events interleave: the invariant holds at the
      end, and a promise that settled keeps its outcome. */
  lemma {:induction false} RunKeepsInv(s: State, es: seq<Event>)
    requires Inv(s) && Legal(s, es)
    ensures Inv(Run(s, es))
    ensures forall id :: id in s.outcomes ==>
                           id in Run(s, es).outcomes && Run(s, es).outcomes[id] == s.outcomes[id]
    decreases |es|
  {
    if es == [] {
    } else {
      StepKeepsInv(s, es[0]);
      RunKeepsInv(Step(s, es[0]), es[1..]);
    }
  }

  /** In every reachable state at most one request is unsettled, it is the one
      in `pending`, and no timer outlives it. */
  lemma ReachableSlot(es: seq<Event>)
    requires Legal(INITIAL, es)
    ensures var s := Run(INITIAL, es);
            && (s.pending.None? ==> AllSettled(s) && s.timers == {} && s.heartbeats == {})
            && (s.pending.Some? ==> (forall id :: Unsettled(s, id) <==> id == s.pending.value.id)
                                    && s.timers == s.heartbeats == {s.pending.value.id})
  {
    assert Inv(INITIAL);
    RunKeepsInv(INITIAL, es);
  }

  /** Some run leads from s to t. */
  ghost predicate Leads(s: State, t: State) {
    exists es :: Legal(s, es) && Run(s, es) == t
  }

  lemma {:induction false} LeadsToItself(s: State)
    ensures Leads(s, s)
  {
    assert Legal(s, []) && Run(s, []) == s;
  }

  lemma {:induction false} LeadsFirst(s: State, e: Event, t: State, u: State)
    requires Enabled(s, e) && Step(s, e) == t && Leads(t, u)
    ensures Leads(s, u)
  {
    var es :| Legal(t, es) && Run(t, es) == u;
    var all := [e] + es;
    assert all[0] == e && all[1..] == es;
    assert Legal(s, all) && Run(s, all) == u;
  }

  /** The first prompt is queued, then sent; a second is queued behind it. */
  const ASKED := INITIAL.(queued := 1)
  const SENT := State(false, Some(Pending(1, false)), 1, 0, 0, {1}, {1}, map[])
  const BEHIND := SENT.(queued := 1)

  /** The first is rejected, and the same client sends the second. */
  const FAILED := State(false, None, 1, 1, 0, {}, {}, map[1 := Rejected("overloaded")])
  const RESENT := State(false, Some(Pending(2, false)), 2, 0, 0, {2}, {2}, FAILED.outcomes)

  function Misplaced(late: string): State {
    State(false, None, 2, 0, 0, {}, {}, FAILED.outcomes[2 := Resolved(late)])
  }

  lemma {:induction false} FirstIsAsked(u: State)
    requires Leads(ASKED, u)
    ensures Leads(INITIAL, u)
  {
    LeadsFirst(INITIAL, Call, ASKED, u);
  }

  lemma {:induction false} FirstIsSent(u: State)
    requires Leads(SENT, u)
    ensures Leads(ASKED, u)
  {
    assert Enabled(ASKED, Start) && Step(ASKED, Start) == SENT by {
      assert AllSettled(ASKED);
      assert ASKED.timers + {1} == SENT.timers && ASKED.heartbeats + {1} == SENT.heartbeats;
    }
    LeadsFirst(ASKED, Start, SENT, u);
  }

  lemma {:induction false} SecondIsAsked(u: State)
    requires Leads(BEHIND, u)
    ensures Leads(SENT, u)
  {
    LeadsFirst(SENT, Call, BEHIND, u);
  }

  lemma {:induction false} FirstFails(u: State)
    requires Leads(FAILED, u)
    ensures Leads(BEHIND, u)
  {
    LeadsFirst(BEHIND, Stdout(Response(1, false, "overloaded")), FAILED, u);
  }

  lemma {:induction false} SecondIsSent(u: State)
    requires Leads(RESENT, u)
    ensures Leads(FAILED, u)
  {
    assert Enabled(FAILED, Start) && Step(FAILED, Start) == RESENT by {
      assert AllSettled(FAILED);
      assert FAILED.timers + {2} == RESENT.timers && FAILED.heartbeats + {2} == RESENT.heartbeats;
    }
    LeadsFirst(FAILED, Start, RESENT, u);
  }

  lemma {:induction false} LateAnswer(late: string)
    ensures Leads(RESENT, Misplaced(late))
  {
    LeadsToItself(Misplaced(late));
    LeadsFirst(RESENT, Stdout(AgentEnd(Ok(late))), Misplaced(late), Misplaced(late));
  }

  /** The client alone does not match answers to requests: if a caller queues a
      second prompt behind one that fails, and the client is not retired, the
      late answer to the first settles the second. */
  lemma {:induction false} LateAnswerSettlesNextRequest(late: string)
    ensures exists es ::
              && Legal(INITIAL, es)
              && Run(INITIAL, es).outcomes == map[1 := Rejected("overloaded"), 2 := Resolved(late)]
  {
    LateAnswer(late);
    SecondIsSent(Misplaced(late));
    FirstFails(Misplaced(late));
    SecondIsAsked(Misplaced(late));
    FirstIsSent(Misplaced(late));
    FirstIsAsked(Misplaced(late));
    var es :| Legal(INITIAL, es) && Run(INITIAL, es) == Misplaced(late);
  }

  /** The client as an object: its private fields, plus the timers that are live
      and the promises that have settled. */
  class PiRpcClient {
    var closed: bool
    var pending: Option<Pending>
    var requestCount: nat
    var queued: nat
    var refused: nat
    var timers: set<nat>
    var heartbeats: set<nat>
    var outcomes: map<nat, Outcome>

    ghost function Now(): State
      reads this
    {
      State(closed, pending, requestCount, queued, refused, timers, heartbeats, outcomes)
    }

    constructor ()
      ensures Now() == INITIAL && Inv(Now())
    {
      closed, pending, requestCount, queued, refused := false, None, 0, 0, 0;
      timers, heartbeats, outcomes := {}, {}, map[];
    }

    /** The resolve and reject closures stored in `pending`. */
    method SettleRequest(id: nat, o: Outcome)
      modifies this
      ensures Now() == old(Now()).(timers := old(timers) - {id}, heartbeats := old(heartbeats) - {id},
                                   outcomes := Settle(old(outcomes), id, o))
    {
      timers := timers - {id};
      heartbeats := heartbeats - {id};
      if id !in outcomes {
        outcomes := outcomes[id := o];
      }
    }

    method RejectPendingRequest(reason: string)
      requires Inv(Now())
      modifies this
      ensures Now() == Step(old(Now()), ProcessError(reason)) && Inv(Now())
    {
      StepKeepsInv(Now(), ProcessError(reason));
      var p := pending;
      pending := None;
      if p.Some? {
        SettleRequest(p.value.id, Rejected(reason));
      }
    }

    method OnProcessClose()
      requires Inv(Now())
      modifies this
      ensures Now() == Step(old(Now()), ProcessClose) && Inv(Now())
    {
      closed := true;
      RejectPendingRequest("pi process closed");
    }

    method HandleStdoutLine(line: Line)
      requires Inv(Now())
      modifies this
      ensures Now() == Step(old(Now()), Stdout(line)) && Inv(Now())
      ensures old(pending).None? || line.Noise? || (line.Response? && line.id != old(pending).value.id) ==> Now() == old(Now())
      ensures old(pending).Some? && line.Response? && line.id == old(pending).value.id && line.success ==>
                Now() == old(Now()).(pending := Some(Pending(line.id, true)))
      ensures old(pending).Some? && line.Response? && line.id == old(pending).value.id && !line.success ==>
                pending.None? && timers == {} && outcomes == old(outcomes)[line.id := Rejected(line.error)]
      ensures old(pending).Some? && line.AgentEnd? ==>
                pending.None? && timers == {}
                && outcomes == old(outcomes)[old(pending).value.id :=
                                 match line.result case Ok(text) => Resolved(text) case Err(reason) => Rejected(reason)]
    {
      StepKeepsInv(Now(), Stdout(line));
      if pending.None? || line.Noise? {
        return;
      }
      var p := pending.value;
      match line
      case Response(id, success, error) =>
        if id != p.id {
          return;
        }
        if !success {
          pending := None;
          SettleRequest(p.id, Rejected(error));
          return;
        }
        pending := Some(p.(responseReceived := true));
      case AgentEnd(Ok(text)) =>
        pending := None;
        SettleRequest(p.id, Resolved(text));
      case AgentEnd(Err(reason)) =>
        pending := None;
        SettleRequest(p.id, Rejected(reason));
    }

    method Prompt()
      requires Inv(Now())
      modifies this
      ensures Now() == Step(old(Now()), Call) && Inv(Now())
    {
      StepKeepsInv(Now(), Call);
      queued := queued + 1;
    }

    /** The body that prompt() chains onto this.sequence. */
    method RunNext()
      requires Inv(Now()) && Enabled(Now(), Start)
      modifies this
      ensures Now() == Step(old(Now()), Start) && Inv(Now())
    {
      StepKeepsInv(Now(), Start);
      queued := queued - 1;
      if closed {
        refused := refused + 1;
        return;
      }
      requestCount := requestCount + 1;
      heartbeats := heartbeats + {requestCount};
      timers := timers + {requestCount};
      pending := Some(Pending(requestCount, false));
    }

    method OnTimeout(id: nat)
      requires Inv(Now()) && Enabled(Now(), Timeout(id))
      modifies this
      ensures Now() == Step(old(Now()), Timeout(id)) && Inv(Now())
    {
      StepKeepsInv(Now(), Timeout(id));
      timers := timers - {id};
      if pending.Some? && pending.value.id == id {
        pending := None;
        heartbeats := heartbeats - {id};
        closed := true;
        if id !in outcomes {
          outcomes := outcomes[id := Rejected("translation prompt timed out")];
        }
      }
    }

    method OnWriteFailed(id: nat, reason: string)
      requires Inv(Now()) && Enabled(Now(), WriteFailed(id, reason))
      modifies this
      ensures Now() == Step(old(Now()), WriteFailed(id, reason)) && Inv(Now())
    {
      StepKeepsInv(Now(), WriteFailed(id, reason));
      if pending.Some? && pending.value.id == id {
        pending := None;
      }
      SettleRequest(id, Rejected(reason));
    }

    method CloseClient()
      requires Inv(Now())
      modifies this
      ensures Now() == Step(old(Now()), Close) && Inv(Now())
    {
      StepKeepsInv(Now(), Close);
      closed := true;
    }
  }
}
