/**
 What becomes of every prompt of a `PiRpcClient` (scripts/control-ui-i18n.ts), read off
 the events alone: which of them start a request, and which is the first to settle it.
 */
module PromptVerdict {
  import opened Common
  import opened PromptClient

  /** The client is closed by its process closing, by a timeout, and by being told to. */
  predicate Closing(e: Event) {
    e.Timeout? || e.ProcessClose? || e.Close?
  }

  ghost predicate HasClosing(es: seq<Event>) {
    exists j :: 0 <= j < |es| && Closing(es[j])
  }

  /** The number of prompts sent: of starts with no closing event before them. */
  ghost function Sent(es: seq<Event>): nat
    decreases |es|
  {
    if es == [] then 0
    else
      var n := |es| - 1;
      Sent(es[..n]) + if es[n].Start? && !HasClosing(es[..n]) then 1 else 0
  }

  /** Event k sends request id. */
  ghost predicate Sends(es: seq<Event>, k: nat, id: nat) {
    k < |es| && es[k].Start? && !HasClosing(es[..k]) && id == Sent(es[..k]) + 1
  }

  /** The events that settle request id, if it is not settled yet. A successful response
      is not among them, nor is a response to another request. */
  predicate Settling(e: Event, id: nat) {
    match e
    case Stdout(Response(i, success, _)) => i == id && !success
    case Stdout(AgentEnd(_)) => true
    case Timeout(i) => i == id
    case WriteFailed(i, _) => i == id
    case ProcessError(_) => true
    case ProcessClose => true
    case _ => false
  }

  /** What such an event makes of the request. */
  function Named(e: Event): Outcome {
    match e
    case Stdout(Response(_, _, error)) => Rejected(error)
    case Stdout(AgentEnd(Ok(text))) => Resolved(text)
    case Stdout(AgentEnd(Err(reason))) => Rejected(reason)
    case WriteFailed(_, reason) => Rejected(reason)
    case ProcessError(reason) => Rejected(reason)
    case Timeout(_) => Rejected("translation prompt timed out")
    case _ => Rejected("pi process closed")
  }

  ghost predicate NoneSettling(es: seq<Event>, k: nat, id: nat) {
    forall j :: k < j < |es| ==> !Settling(es[j], id)
  }

  /** Event j is the first after event k that settles request id. */
  ghost predicate FirstSettling(es: seq<Event>, k: nat, id: nat, j: nat) {
    k < j < |es| && Settling(es[j], id) && forall i :: k < i < j ==> !Settling(es[i], id)
  }

  /** Exactly the requests sent have been started; one of them is unsettled if and only
      if no settling event came after it was sent, and otherwise has the outcome
      that the first such event names. */
  ghost predicate Verdict(es: seq<Event>, s: State, k: nat, id: nat) {
    && Started(s, id)
    && (id !in s.outcomes <==> NoneSettling(es, k, id))
    && forall j: nat :: FirstSettling(es, k, id, j) ==> id in s.outcomes && s.outcomes[id] == Named(es[j])
  }

  // ------------------------------------------------------------------------ one more event

  lemma {:induction false} RunSnoc(s: State, es: seq<Event>, e: Event)
    ensures Legal(s, es + [e]) <==> Legal(s, es) && Enabled(Run(s, es), e)
    ensures Legal(s, es + [e]) ==> Run(s, es + [e]) == Step(Run(s, es), e)
    decreases |es|
  {
    if es == [] {
      assert [] + [e] == [e] && [e][1..] == [];
    } else {
      assert (es + [e])[1..] == es[1..] + [e] && (es + [e])[0] == es[0];
      if Enabled(s, es[0]) {
        RunSnoc(Step(s, es[0]), es[1..], e);
      }
    }
  }

  /** A legal run without its last event. */
  lemma {:induction false} LastEvent(es: seq<Event>)
    requires es != [] && Legal(INITIAL, es)
    ensures var n := |es| - 1;
            && Legal(INITIAL, es[..n]) && Enabled(Run(INITIAL, es[..n]), es[n])
            && Run(INITIAL, es) == Step(Run(INITIAL, es[..n]), es[n])
            && Inv(Run(INITIAL, es[..n]))
  {
    InitAndLast(es);
    RunSnoc(INITIAL, es[..|es| - 1], es[|es| - 1]);
    assert Inv(INITIAL);
    RunKeepsInv(INITIAL, es[..|es| - 1]);
  }

  lemma {:induction false} ClosingSnoc(es: seq<Event>)
    requires es != []
    ensures HasClosing(es) <==> HasClosing(es[..|es| - 1]) || Closing(es[|es| - 1])
  {
    var n := |es| - 1;
    if j :| 0 <= j < n && Closing(es[..n][j]) {
      assert Closing(es[j]);
    }
    if j :| 0 <= j < |es| && Closing(es[j]) {
      assert j < n ==> Closing(es[..n][j]);
    }
  }

  /** In every legal run the client has sent as many requests as were started before a
      closing event, and is closed exactly if there was one. */
  lemma {:induction false} SentIsCounted(es: seq<Event>)
    requires Legal(INITIAL, es)
    ensures Run(INITIAL, es).requestCount == Sent(es)
    ensures Run(INITIAL, es).closed <==> HasClosing(es)
    decreases |es|
  {
    if es == [] {
    } else {
      LastEvent(es);
      SentIsCounted(es[..|es| - 1]);
      ClosingSnoc(es);
      CountStep(Run(INITIAL, es[..|es| - 1]), es[|es| - 1]);
    }
  }

  lemma {:induction false} CountStep(s: State, e: Event)
    requires Inv(s) && Enabled(s, e)
    ensures Step(s, e).requestCount == s.requestCount + if e.Start? && !s.closed then 1 else 0
    ensures Step(s, e).closed <==> s.closed || Closing(e)
  {
  }

  /** The pending request is settled by exactly the settling events, as named. */
  lemma {:induction false} PendingStep(s: State, e: Event, id: nat)
    requires Inv(s) && Enabled(s, e) && Unsettled(s, id)
    ensures id in Step(s, e).outcomes <==> Settling(e, id)
    ensures Settling(e, id) ==> Step(s, e).outcomes[id] == Named(e)
  {
    assert id in PendingIds(s);
  }

  lemma {:induction false} NewIsUnsettled(s: State, e: Event)
    requires Inv(s) && Enabled(s, e) && e.Start? && !s.closed
    ensures Unsettled(Step(s, e), s.requestCount + 1)
  {
  }

  // --------------------------------------------------------------------------- the verdict

  /** Over every legal run, for every request: an exact verdict. */
  lemma {:induction false} VerdictIsExact(es: seq<Event>, k: nat, id: nat)
    requires Legal(INITIAL, es) && Sends(es, k, id)
    ensures Verdict(es, Run(INITIAL, es), k, id)
    decreases |es|
  {
    var n := |es| - 1;
    var past, e := es[..n], es[n];
    LastEvent(es);
    SentIsCounted(past);
    if k == n {
      NewIsUnsettled(Run(INITIAL, past), e);
    } else {
      TakeOfTake(es, n, k);
      VerdictIsExact(past, k, id);
      VerdictStep(es, Run(INITIAL, past), k, id);
    }
  }

  lemma TakeOfTake<T>(s: seq<T>, n: nat, k: nat)
    requires k <= n <= |s|
    ensures s[..n][..k] == s[..k]
  {
  }

  lemma {:induction false} VerdictStep(es: seq<Event>, s: State, k: nat, id: nat)
    requires k < |es| - 1 && Inv(s) && Enabled(s, es[|es| - 1]) && Verdict(es[..|es| - 1], s, k, id)
    ensures Verdict(es, Step(s, es[|es| - 1]), k, id)
  {
    var n := |es| - 1;
    var past, e, t := es[..n], es[n], Step(s, es[n]);
    StepKeepsInv(s, e);
    assert forall j :: 0 <= j < n ==> past[j] == es[j];
    if id !in s.outcomes {
      PendingStep(s, e, id);
    }
    forall j: nat | FirstSettling(es, k, id, j)
      ensures id in t.outcomes && t.outcomes[id] == Named(es[j])
    {
      if j < n {
        assert FirstSettling(past, k, id, j);
      }
    }
    if id in s.outcomes {
      var j :| k < j < |past| && Settling(past[j], id);
      assert Settling(es[j], id);
    }
  }

  /** Every request that was started was sent by some event. */
  lemma {:induction false} SentBySomeEvent(es: seq<Event>, id: nat) returns (k: nat)
    requires 1 <= id <= Sent(es)
    ensures Sends(es, k, id)
    decreases |es|
  {
    var n := |es| - 1;
    if id <= Sent(es[..n]) {
      k := SentBySomeEvent(es[..n], id);
      TakeOfTake(es, n, k);
    } else {
      k := n;
    }
  }

  /** So the events decide: after a legal run the requests with an outcome are those that
      were sent and then met a settling event, and the first such event names it. */
  lemma {:induction false} OutcomesAreNamed(es: seq<Event>, id: nat)
    requires Legal(INITIAL, es)
    ensures id in Run(INITIAL, es).outcomes <==> exists k: nat, j: nat :: Sends(es, k, id) && FirstSettling(es, k, id, j)
    ensures forall k: nat, j: nat :: Sends(es, k, id) && FirstSettling(es, k, id, j) ==>
              id in Run(INITIAL, es).outcomes && Run(INITIAL, es).outcomes[id] == Named(es[j])
  {
    forall k: nat, j: nat | Sends(es, k, id) && FirstSettling(es, k, id, j)
      ensures id in Run(INITIAL, es).outcomes && Run(INITIAL, es).outcomes[id] == Named(es[j])
    {
      VerdictIsExact(es, k, id);
    }
    if id in Run(INITIAL, es).outcomes {
      assert Inv(INITIAL);
      RunKeepsInv(INITIAL, es);
      SentIsCounted(es);
      var k := SentBySomeEvent(es, id);
      VerdictIsExact(es, k, id);
      var j := EarliestSettling(es, k, id);
      assert Sends(es, k, id) && FirstSettling(es, k, id, j);
    }
  }

  lemma {:induction false} EarliestSettling(es: seq<Event>, k: nat, id: nat) returns (j: nat)
    requires !NoneSettling(es, k, id)
    ensures FirstSettling(es, k, id, j)
  {
    j := k + 1;
    while !Settling(es[j], id)
      invariant k < j < |es| && forall i :: k < i < j ==> !Settling(es[i], id)
      decreases |es| - j
    {
      j := j + 1;
    }
  }
}
