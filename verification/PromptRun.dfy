/**
 Whole translation runs: the driver (`translateBatch` with the `clientAccess` of
 `syncLocale`), every client it creates, and every child process behind them.

 An `agent_end` line names no request, so the client settles whatever request
 is pending. What makes that safe is the driver: it has one prompt outstanding
 at a time and retires the client after any failure. The only assumption about
 a child is that it emits at most one `agent_end` for a request it was sent.
 */
module PromptRun {
  import opened Common
  import opened PromptClient

  /** A line on its way from a child to its client. `cause` is the request an
      AgentEnd answers; the client never sees it. */
  datatype Sent = Sent(line: Line, cause: nat)

  /** A client with its child: `owed` are the requests the child was sent and
      has not ended, `said` is what it emitted for the others, and `wire` are
      the lines not yet delivered. */
  datatype Endpoint = Endpoint(client: State, owed: set<nat>, said: map<nat, Result<string, string>>, wire: seq<Sent>)

  /** Failed: the last attempt threw and resetClient has not run yet. */
  datatype Driver = Idle | Waiting(id: nat) | Failed

  datatype System = System(ends: seq<Endpoint>, current: Option<nat>, driver: Driver)

  datatype Action =
    | Acquire                                     // getClient creates a client
    | Prompt                                      // client.prompt on the current client
    | Resume(valid: bool)                         // the awaited promise settled; valid: the reply passed the checks
    | Reset                                       // resetClient after a failure, or in `finally`
    | ChildEnds(i: nat, id: nat, result: Result<string, string>)
    | ChildSays(i: nat, line: Line)
    | Deliver(i: nat)
    | ClientEvent(i: nat, event: Event)

  const BEGIN := System([], None, Idle)

  /** Events that reach a client from outside the driver. */
  predicate External(e: Event) {
    e.Timeout? || e.WriteFailed? || e.ProcessError? || e.ProcessClose?
  }

  ghost predicate Can(s: System, a: Action) {
    match a
    case Acquire => s.driver.Idle? && s.current.None?
    case Prompt =>
      && s.driver.Idle? && s.current.Some? && s.current.value < |s.ends|
      && AllSettled(s.ends[s.current.value].client)
    case Resume(_) =>
      && s.driver.Waiting? && s.current.Some? && s.current.value < |s.ends|
      && s.driver.id in s.ends[s.current.value].client.outcomes
    case Reset => !s.driver.Waiting? && s.current.Some? && s.current.value < |s.ends|
    case ChildEnds(i, id, _) => i < |s.ends| && id in s.ends[i].owed
    case ChildSays(i, line) => i < |s.ends| && !line.AgentEnd?
    case Deliver(i) => i < |s.ends| && s.ends[i].wire != []
    case ClientEvent(i, e) => i < |s.ends| && External(e) && Enabled(s.ends[i].client, e)
  }

  ghost function Do(s: System, a: Action): System
    requires Can(s, a)
  {
    match a
    case Acquire => s.(ends := s.ends + [Endpoint(INITIAL, {}, map[], [])], current := Some(|s.ends|))
    case Prompt =>
      var c := s.current.value;
      var e := s.ends[c];
      var called := Step(e.client, Call);
      assert AllSettled(called) by { assert forall id :: Unsettled(called, id) ==> Unsettled(e.client, id); }
      var client := Step(called, Start);
      if e.client.closed then s.(ends := s.ends[c := e.(client := client)], driver := Failed)
      else s.(ends := s.ends[c := e.(client := client, owed := e.owed + {client.requestCount})],
              driver := Waiting(client.requestCount))
    case Resume(valid) =>
      var o := s.ends[s.current.value].client.outcomes[s.driver.id];
      s.(driver := if o.Resolved? && valid then Idle else Failed)
    case Reset =>
      var c := s.current.value;
      s.(ends := s.ends[c := s.ends[c].(client := Step(s.ends[c].client, Close))], current := None, driver := Idle)
    case ChildEnds(i, id, result) =>
      var e := s.ends[i];
      s.(ends := s.ends[i := e.(owed := e.owed - {id}, said := e.said[id := result],
                                wire := e.wire + [Sent(AgentEnd(result), id)])])
    case ChildSays(i, line) =>
      s.(ends := s.ends[i := s.ends[i].(wire := s.ends[i].wire + [Sent(line, 0)])])
    case Deliver(i) =>
      var e := s.ends[i];
      s.(ends := s.ends[i := e.(client := Step(e.client, Stdout(e.wire[0].line)), wire := e.wire[1..])])
    case ClientEvent(i, ev) =>
      s.(ends := s.ends[i := s.ends[i].(client := Step(s.ends[i].client, ev))])
  }

  // ---------------------------------------------------------------- invariant

  /** Request `id` may still produce an agent_end at this endpoint. */
  ghost predicate Outstanding(e: Endpoint, id: nat) {
    || id in e.owed
    || exists k :: 0 <= k < |e.wire| && e.wire[k].line.AgentEnd? && e.wire[k].cause == id
  }

  /** Each request ends at most once, what is on the wire is what was said, and
      a resolved promise carries what the child said for that very request. */
  ghost predicate EndpointInv(e: Endpoint) {
    && Inv(e.client) && e.client.queued == 0
    && (forall id :: id in e.owed ==> Started(e.client, id) && id !in e.said)
    && (forall id :: id in e.said ==> Started(e.client, id))
    && (forall k :: 0 <= k < |e.wire| && e.wire[k].line.AgentEnd? ==>
                      var id := e.wire[k].cause; id in e.said && e.said[id] == e.wire[k].line.result)
    && (forall j, k :: 0 <= j < k < |e.wire| && e.wire[j].line.AgentEnd? && e.wire[k].line.AgentEnd? ==>
                         e.wire[j].cause != e.wire[k].cause)
    && (forall id :: id in e.client.outcomes && e.client.outcomes[id].Resolved? ==>
                       id in e.said && e.said[id] == Ok(e.client.outcomes[id].text))
  }

  /** What the driver's state says about the client in use. */
  ghost predicate CurrentInv(e: Endpoint, d: Driver) {
    match d
    case Idle => e.client.pending.None? && forall id :: !Outstanding(e, id)
    case Waiting(id) =>
      && Started(e.client, id)
      && (forall x :: Unsettled(e.client, x) ==> x == id)
      && (id !in e.client.outcomes ==> forall x :: Outstanding(e, x) ==> x == id)
      && (id in e.client.outcomes && e.client.outcomes[id].Resolved? ==> forall x :: !Outstanding(e, x))
    case Failed => e.client.pending.None?
  }

  ghost predicate SystemInv(s: System) {
    && (s.current.Some? ==> s.current.value < |s.ends|)
    && (s.current.None? ==> s.driver.Idle?)
    && forall i :: 0 <= i < |s.ends| ==>
         && EndpointInv(s.ends[i])
         && (if s.current == Some(i) then CurrentInv(s.ends[i], s.driver)
             else s.ends[i].client.closed && s.ends[i].client.pending.None?)
  }

  /** One external event at one endpoint. */
  lemma ClientEventKeeps(e: Endpoint, ev: Event, d: Driver)
    requires EndpointInv(e) && External(ev) && Enabled(e.client, ev)
    ensures var e' := e.(client := Step(e.client, ev));
            && EndpointInv(e')
            && (CurrentInv(e, d) ==> CurrentInv(e', d))
            && (e.client.pending.None? ==> e'.client.pending.None?)
            && (e.client.closed ==> e'.client.closed)
  {
    StepKeepsInv(e.client, ev);
    var e' := e.(client := Step(e.client, ev));
    assert forall x :: Outstanding(e', x) <==> Outstanding(e, x);
    assert forall x :: Unsettled(e'.client, x) ==> Unsettled(e.client, x);
  }

  /** Delivering one line: if it is an agent_end and a request is pending, then
      it answers that request. */
  lemma DeliverKeeps(e: Endpoint, d: Driver)
    requires EndpointInv(e) && e.wire != []
    requires e.client.pending.Some? ==> CurrentInv(e, d)
    ensures var e' := e.(client := Step(e.client, Stdout(e.wire[0].line)), wire := e.wire[1..]);
            && EndpointInv(e')
            && (CurrentInv(e, d) ==> CurrentInv(e', d))
            && (e.client.pending.None? ==> e'.client.pending.None?)
            && (e.client.closed ==> e'.client.closed)
    ensures e.wire[0].line.AgentEnd? && e.client.pending.Some? ==> e.wire[0].cause == e.client.pending.value.id
  {
    var line := e.wire[0].line;
    var e' := e.(client := Step(e.client, Stdout(line)), wire := e.wire[1..]);
    StepKeepsInv(e.client, Stdout(line));
    forall x | Outstanding(e', x)
      ensures Outstanding(e, x) && (line.AgentEnd? ==> x != e.wire[0].cause)
    {
      if x !in e.owed {
        var k :| 0 <= k < |e'.wire| && e'.wire[k].line.AgentEnd? && e'.wire[k].cause == x;
        assert e.wire[k + 1] == e'.wire[k];
      }
    }
    assert forall k :: 0 <= k < |e'.wire| ==> e'.wire[k] == e.wire[k + 1];
    if line.AgentEnd? && e.client.pending.Some? {
      assert Unsettled(e.client, e.client.pending.value.id);
      assert Outstanding(e, e.wire[0].cause);
      assert d.Waiting? && d.id == e.client.pending.value.id;
    }
    assert forall x :: Unsettled(e'.client, x) ==> Unsettled(e.client, x);
  }

  lemma ChildEndsKeeps(e: Endpoint, id: nat, result: Result<string, string>, d: Driver)
    requires EndpointInv(e) && id in e.owed
    ensures var e' := e.(owed := e.owed - {id}, said := e.said[id := result],
                         wire := e.wire + [Sent(AgentEnd(result), id)]);
            EndpointInv(e') && (CurrentInv(e, d) ==> CurrentInv(e', d))
  {
    var e' := e.(owed := e.owed - {id}, said := e.said[id := result], wire := e.wire + [Sent(AgentEnd(result), id)]);
    forall x | Outstanding(e', x)
      ensures Outstanding(e, x)
    {
      if x !in e'.owed {
        var k :| 0 <= k < |e'.wire| && e'.wire[k].line.AgentEnd? && e'.wire[k].cause == x;
        assert k < |e.wire| ==> e.wire[k] == e'.wire[k];
      }
    }
  }

  lemma ChildSaysKeeps(e: Endpoint, line: Line, d: Driver)
    requires EndpointInv(e) && !line.AgentEnd?
    ensures var e' := e.(wire := e.wire + [Sent(line, 0)]);
            EndpointInv(e') && (CurrentInv(e, d) ==> CurrentInv(e', d))
  {
    var e' := e.(wire := e.wire + [Sent(line, 0)]);
    forall x | Outstanding(e', x)
      ensures Outstanding(e, x)
    {
      if x !in e'.owed {
        var k :| 0 <= k < |e'.wire| && e'.wire[k].line.AgentEnd? && e'.wire[k].cause == x;
        assert e.wire[k] == e'.wire[k];
      }
    }
  }

  lemma PromptKeeps(s: System)
    requires SystemInv(s) && Can(s, Prompt)
    ensures SystemInv(Do(s, Prompt))
  {
    var c := s.current.value;
    var e := s.ends[c];
    var called := Step(e.client, Call);
    StepKeepsInv(e.client, Call);
    assert forall id :: Unsettled(called, id) ==> Unsettled(e.client, id);
    StepKeepsInv(called, Start);
    var t := Do(s, Prompt);
    var e' := t.ends[c];
    forall x | Outstanding(e', x)
      ensures !e.client.closed && x == e'.client.requestCount
    {
      assert !Outstanding(e, x);
    }
  }

  /** Changing one endpoint keeps the invariant if that endpoint keeps its own. */
  lemma ReplaceKeeps(s: System, i: nat, e: Endpoint)
    requires SystemInv(s) && i < |s.ends| && EndpointInv(e)
    requires s.current == Some(i) ==> CurrentInv(e, s.driver)
    requires s.ends[i].client.closed ==> e.client.closed
    requires s.ends[i].client.pending.None? ==> e.client.pending.None?
    ensures SystemInv(s.(ends := s.ends[i := e]))
  {
  }

  lemma {:induction false} AcquireKeeps(s: System)
    requires SystemInv(s) && Can(s, Acquire)
    ensures SystemInv(Do(s, Acquire))
  {
    assert forall id :: !Unsettled(INITIAL, id);
  }

  lemma {:induction false} ResumeKeeps(s: System, valid: bool)
    requires SystemInv(s) && Can(s, Resume(valid))
    ensures SystemInv(Do(s, Resume(valid)))
  {
  }

  lemma {:induction false} ResetKeeps(s: System)
    requires SystemInv(s) && Can(s, Reset)
    ensures SystemInv(Do(s, Reset))
  {
    StepKeepsInv(s.ends[s.current.value].client, Close);
  }

  lemma ActionKeeps(s: System, a: Action)
    requires SystemInv(s) && Can(s, a)
    ensures SystemInv(Do(s, a))
  {
    match a
    case Acquire => AcquireKeeps(s);
    case Prompt => PromptKeeps(s);
    case Resume(valid) => ResumeKeeps(s, valid);
    case Reset => ResetKeeps(s);
    case ChildEnds(i, id, result) =>
      ChildEndsKeeps(s.ends[i], id, result, s.driver);
      ReplaceKeeps(s, i, Do(s, a).ends[i]);
    case ChildSays(i, line) =>
      ChildSaysKeeps(s.ends[i], line, s.driver);
      ReplaceKeeps(s, i, Do(s, a).ends[i]);
    case Deliver(i) =>
      DeliverKeeps(s.ends[i], s.driver);
      ReplaceKeeps(s, i, Do(s, a).ends[i]);
    case ClientEvent(i, ev) =>
      ClientEventKeeps(s.ends[i], ev, s.driver);
      ReplaceKeeps(s, i, Do(s, a).ends[i]);
  }

  // ------------------------------------------------------------- whole runs

  ghost predicate Feasible(s: System, run: seq<Action>)
    decreases |run|
  {
    run == [] || (Can(s, run[0]) && Feasible(Do(s, run[0]), run[1..]))
  }

  ghost function After(s: System, run: seq<Action>): System
    requires Feasible(s, run)
    decreases |run|
  {
    if run == [] then s else After(Do(s, run[0]), run[1..])
  }

  lemma {:induction false} RunKeeps(s: System, run: seq<Action>)
    requires SystemInv(s) && Feasible(s, run)
    ensures SystemInv(After(s, run))
    decreases |run|
  {
    if run == [] {
    } else {
      ActionKeeps(s, run[0]);
      RunKeeps(Do(s, run[0]), run[1..]);
    }
  }

  /** For every run, over every client it used: a prompt that resolved got the
      text its child produced for that prompt and for no other. */
  lemma ResolvedWithItsOwnAnswer(run: seq<Action>, i: nat, id: nat)
    requires Feasible(BEGIN, run)
    requires i < |After(BEGIN, run).ends|
    requires var c := After(BEGIN, run).ends[i].client; id in c.outcomes && c.outcomes[id].Resolved?
    ensures var e := After(BEGIN, run).ends[i];
            id in e.said && e.said[id] == Ok(e.client.outcomes[id].text)
  {
    RunKeeps(BEGIN, run);
  }

  /** For every run: an agent_end that is delivered while a request is pending
      was caused by that request. */
  lemma AgentEndMeetsItsRequest(run: seq<Action>, i: nat)
    requires Feasible(BEGIN, run)
    requires Can(After(BEGIN, run), Deliver(i))
    requires var e := After(BEGIN, run).ends[i]; e.wire[0].line.AgentEnd? && e.client.pending.Some?
    ensures var e := After(BEGIN, run).ends[i]; e.wire[0].cause == e.client.pending.value.id
  {
    RunKeeps(BEGIN, run);
    DeliverKeeps(After(BEGIN, run).ends[i], After(BEGIN, run).driver);
  }

  /** For every run: only the client in use can have a pending request, and only
      while the driver waits for it; every other client is closed, with no live
      timer. */
  lemma RetiredClientsAreQuiet(run: seq<Action>, i: nat)
    requires Feasible(BEGIN, run)
    requires i < |After(BEGIN, run).ends|
    ensures var s := After(BEGIN, run);
            var c := s.ends[i].client;
            && (c.pending.Some? ==> s.current == Some(i) && s.driver == Waiting(c.pending.value.id))
            && (s.current != Some(i) ==> c.closed && c.timers == {} && c.heartbeats == {})
  {
    RunKeeps(BEGIN, run);
    var c := After(BEGIN, run).ends[i].client;
    assert c.pending.Some? ==> Unsettled(c, c.pending.value.id);
  }
}
