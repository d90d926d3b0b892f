/**
 One `PiRpcClient` with its child, whatever its callers do: exactly when a request can
 be given the answer to another one (scripts/control-ui-i18n.ts). The child is only
 assumed to end a request at most once, and to answer no request before it is sent.
 */
module PromptAlone {
  import opened Common
  import opened PromptClient
  import opened PromptRun

  datatype Act =
    | Ends(id: nat, result: Result<string, string>)   // the child ends a request
    | Says(line: Line)                                // it writes any other line
    | Delivers                                        // the client reads the next line
    | Happens(event: Event)                           // calls, the queue, timers, the process

  const ALONE := Endpoint(INITIAL, {}, map[], [])

  ghost predicate CanAct(e: Endpoint, a: Act) {
    match a
    case Ends(id, _) => id in e.owed
    case Says(line) => !line.AgentEnd? && (line.Response? ==> Started(e.client, line.id))
    case Delivers => e.wire != []
    case Happens(event) => !event.Stdout? && Enabled(e.client, event)
  }

  /** A request is owed an end from when it is sent. */
  ghost function DoAct(e: Endpoint, a: Act): Endpoint
    requires CanAct(e, a)
  {
    match a
    case Ends(id, result) =>
      e.(owed := e.owed - {id}, said := e.said[id := result], wire := e.wire + [Sent(AgentEnd(result), id)])
    case Says(line) => e.(wire := e.wire + [Sent(line, 0)])
    case Delivers => e.(client := Step(e.client, Stdout(e.wire[0].line)), wire := e.wire[1..])
    case Happens(event) =>
      var c := Step(e.client, event);
      e.(client := c, owed := if c.requestCount > e.client.requestCount then e.owed + {c.requestCount} else e.owed)
  }

  ghost predicate CanRun(e: Endpoint, acts: seq<Act>)
    decreases |acts|
  {
    acts == [] || (CanAct(e, acts[0]) && CanRun(DoAct(e, acts[0]), acts[1..]))
  }

  ghost function RunOf(e: Endpoint, acts: seq<Act>): Endpoint
    requires CanRun(e, acts)
    decreases |acts|
  {
    if acts == [] then e else RunOf(DoAct(e, acts[0]), acts[1..])
  }

  // -------------------------------------------------------------------------- invariant

  /** A line speaks only of requests that were sent. */
  ghost predicate SpeaksOf(c: State, sent: Sent) {
    && (sent.line.AgentEnd? ==> Started(c, sent.cause))
    && (sent.line.Response? ==> Started(c, sent.line.id))
  }

  ghost predicate AloneInv(e: Endpoint) {
    && Inv(e.client)
    && (forall id :: id in e.owed ==> Started(e.client, id))
    && (forall k :: 0 <= k < |e.wire| ==> SpeaksOf(e.client, e.wire[k]))
  }

  lemma {:induction false} ActKeepsInv(e: Endpoint, a: Act)
    requires AloneInv(e) && CanAct(e, a)
    ensures AloneInv(DoAct(e, a)) && e.client.requestCount <= DoAct(e, a).client.requestCount
  {
    var e' := DoAct(e, a);
    if a.Delivers? {
      StepKeepsInv(e.client, Stdout(e.wire[0].line));
      assert forall k :: 0 <= k < |e'.wire| ==> e'.wire[k] == e.wire[k + 1];
    } else if a.Happens? {
      StepKeepsInv(e.client, a.event);
    }
  }

  lemma {:induction false} RunKeepsAlone(e: Endpoint, acts: seq<Act>)
    requires AloneInv(e) && CanRun(e, acts)
    ensures AloneInv(RunOf(e, acts))
    decreases |acts|
  {
    if acts == [] {
    } else {
      ActKeepsInv(e, acts[0]);
      RunKeepsAlone(DoAct(e, acts[0]), acts[1..]);
    }
  }

  // ----------------------------------------------------------- answers to another request

  /** The next line is the end of another request, and the client will settle id with it. */
  ghost predicate Misled(e: Endpoint, id: nat) {
    && e.wire != [] && e.wire[0].line.AgentEnd? && e.wire[0].cause != id
    && e.client.pending.Some? && e.client.pending.value.id == id
  }

  lemma {:induction false} MisledSettles(e: Endpoint, id: nat)
    requires AloneInv(e) && Misled(e, id)
    ensures var outcomes := DoAct(e, Delivers).client.outcomes;
            id in outcomes && outcomes[id] == match e.wire[0].line.result
                                              case Ok(text) => Resolved(text)
                                              case Err(reason) => Rejected(reason)
  {
    assert Unsettled(e.client, id);
  }

  /** Request id has just been sent: nothing on the wire is about it. */
  ghost predicate JustSent(e: Endpoint, id: nat) {
    && AloneInv(e) && e.client.requestCount == id
    && e.client.pending.Some? && e.client.pending.value.id == id
    && forall k :: 0 <= k < |e.wire| ==> NotAbout(e.wire[k], id)
  }

  predicate NotAbout(sent: Sent, id: nat) {
    && (sent.line.AgentEnd? ==> sent.cause != id)
    && (sent.line.Response? ==> sent.line.id != id)
  }

  lemma {:induction false} StartSends(e: Endpoint)
    requires AloneInv(e) && CanAct(e, Happens(Start)) && !e.client.closed
    ensures var e', id := DoAct(e, Happens(Start)), e.client.requestCount + 1;
            JustSent(e', id) && forall x :: x != id ==> (Outstanding(e', x) <==> Outstanding(e, x))
    ensures !Outstanding(e, e.client.requestCount + 1)
  {
    ActKeepsInv(e, Happens(Start));
    var id := e.client.requestCount + 1;
    assert forall k :: 0 <= k < |e.wire| ==> SpeaksOf(e.client, e.wire[k]) && NotAbout(e.wire[k], id);
  }

  // From the start of request id on, as long as it is the last one sent, nothing new
  // becomes outstanding; and once another is sent, id is no longer pending.

  ghost predicate SinceSent(start: Endpoint, e: Endpoint, id: nat) {
    && AloneInv(e) && id <= e.client.requestCount
    && (e.client.requestCount == id ==> forall x :: Outstanding(e, x) ==> Outstanding(start, x))
    && (e.client.requestCount > id && e.client.pending.Some? ==> e.client.pending.value.id > id)
  }

  lemma {:induction false} ActAddsNothing(e: Endpoint, a: Act, x: nat)
    requires CanAct(e, a) && Outstanding(DoAct(e, a), x)
    ensures Outstanding(e, x) || DoAct(e, a).client.requestCount > e.client.requestCount
  {
    var e' := DoAct(e, a);
    if x !in e'.owed {
      var k :| 0 <= k < |e'.wire| && e'.wire[k].line.AgentEnd? && e'.wire[k].cause == x;
      if a.Delivers? {
        assert e'.wire[k] == e.wire[k + 1];
      } else if k < |e.wire| {
        assert e'.wire[k] == e.wire[k];
      }
    }
  }

  lemma {:induction false} PendingAfter(s: State, event: Event)
    requires Enabled(s, event)
    ensures var t := Step(s, event);
            t.pending.Some? ==>
              || (t.pending.value.id == t.requestCount && t.requestCount == s.requestCount + 1)
              || (t.requestCount == s.requestCount && s.pending.Some? && t.pending.value.id == s.pending.value.id)
    ensures Step(s, event).requestCount > s.requestCount ==> Step(s, event).pending.Some?
  {
  }

  lemma {:induction false} ActKeepsSince(start: Endpoint, e: Endpoint, a: Act, id: nat)
    requires SinceSent(start, e, id) && CanAct(e, a)
    ensures SinceSent(start, DoAct(e, a), id)
  {
    ActKeepsInv(e, a);
    if a.Happens? {
      PendingAfter(e.client, a.event);
    } else if a.Delivers? {
      PendingAfter(e.client, Stdout(e.wire[0].line));
    }
    forall x | Outstanding(DoAct(e, a), x) && DoAct(e, a).client.requestCount == id
      ensures Outstanding(start, x)
    {
      ActAddsNothing(e, a, x);
    }
  }

  lemma {:induction false} MisledNeedsOutstanding(start: Endpoint, e: Endpoint, acts: seq<Act>, id: nat)
    requires SinceSent(start, e, id) && CanRun(e, acts) && Misled(RunOf(e, acts), id)
    ensures exists x :: x != id && Outstanding(start, x)
    decreases |acts|
  {
    if acts == [] {
      assert Outstanding(e, e.wire[0].cause);
    } else {
      ActKeepsSince(start, e, acts[0], id);
      MisledNeedsOutstanding(start, DoAct(e, acts[0]), acts[1..], id);
    }
  }

  /** Reading on up to the first end on the wire. */
  lemma {:induction false} ReadToEnd(e: Endpoint, id: nat, k: nat) returns (acts: seq<Act>)
    requires JustSent(e, id) && k < |e.wire| && e.wire[k].line.AgentEnd?
    ensures CanRun(e, acts) && Misled(RunOf(e, acts), id)
    decreases |e.wire|
  {
    if e.wire[0].line.AgentEnd? {
      acts := [];
    } else {
      var e' := DoAct(e, Delivers);
      assert e'.client == e.client;
      assert forall j :: 0 <= j < |e'.wire| ==> e'.wire[j] == e.wire[j + 1];
      var rest := ReadToEnd(e', id, k - 1);
      acts := [Delivers] + rest;
      assert acts[1..] == rest;
    }
  }

  lemma {:induction false} OutstandingMisleads(e: Endpoint, id: nat, x: nat) returns (acts: seq<Act>)
    requires JustSent(e, id) && x != id && Outstanding(e, x)
    ensures CanRun(e, acts) && Misled(RunOf(e, acts), id)
  {
    if k :| 0 <= k < |e.wire| && e.wire[k].line.AgentEnd? && e.wire[k].cause == x {
      acts := ReadToEnd(e, id, k);
    } else {
      var end := Ends(x, Ok("late"));
      ActKeepsInv(e, end);
      var rest := ReadToEnd(DoAct(e, end), id, |e.wire|);
      acts := [end] + rest;
      assert acts[1..] == rest;
    }
  }

  ghost predicate CanBeMisled(e: Endpoint, id: nat) {
    exists acts :: CanRun(e, acts) && Misled(RunOf(e, acts), id)
  }

  ghost predicate SomeOutstanding(e: Endpoint) {
    exists x :: Outstanding(e, x)
  }

  /** The request that is sent next can be given another's answer if and only if an
      earlier request is still outstanding. */
  ghost predicate MisledExactlyIfOutstanding(e: Endpoint) {
    CanAct(e, Happens(Start)) && !e.client.closed ==>
      (CanBeMisled(DoAct(e, Happens(Start)), e.client.requestCount + 1) <==> SomeOutstanding(e))
  }

  /** So it is after every run of one client. */
  lemma {:induction false} MisledIffOutstanding(acts: seq<Act>)
    requires CanRun(ALONE, acts)
    ensures MisledExactlyIfOutstanding(RunOf(ALONE, acts))
  {
    StartsWell();
    RunKeepsAlone(ALONE, acts);
    MisledIff(RunOf(ALONE, acts));
  }

  lemma {:induction false} StartsWell()
    ensures AloneInv(ALONE)
  {
  }

  lemma {:induction false} MisledIff(e: Endpoint)
    requires AloneInv(e)
    ensures MisledExactlyIfOutstanding(e)
  {
    if CanAct(e, Happens(Start)) && !e.client.closed {
      var e', id := DoAct(e, Happens(Start)), e.client.requestCount + 1;
      StartSends(e);
      if CanBeMisled(e', id) {
        var acts :| CanRun(e', acts) && Misled(RunOf(e', acts), id);
        MisledNeedsOutstanding(e', e', acts, id);
      }
      if x :| Outstanding(e, x) {
        var acts := OutstandingMisleads(e', id, x);
      }
    }
  }
}
