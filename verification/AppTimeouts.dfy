/** Request timeouts of the CHPP app layer: a cached next deadline over all outstanding requests. */
module AppTimeouts {
  import opened Util

  /** Nanoseconds. */
  type Time = uint64

  const TIME_NONE: Time := 0
  const NEVER: Time := 0xFFFF_FFFF_FFFF_FFFF

  datatype RequestState = NoRequest | RequestSent | ResponseReceived | ResponseTimeout

  datatype Request = Request(state: RequestState, transaction: nat, requestTimeNs: Time, responseTimeNs: Time)

  datatype EndpointType = Client | Service

  /** The outgoing requests of every registered endpoint of one type, by endpoint and command. */
  type Requests = seq<seq<Request>>


  predicate Outstanding(reqs: Requests, e: nat, c: nat) {
    e < |reqs| && c < |reqs[e]| && reqs[e][c].state.RequestSent?
  }

  /** No outstanding request is due before `next`. */
  ghost predicate LowerBound(reqs: Requests, next: Time) {
    forall e: nat, c: nat :: Outstanding(reqs, e, c) ==> next <= reqs[e][c].responseTimeNs
  }

  /** `next` is the earliest deadline, or `NEVER` when nothing has one. */
  ghost predicate Exact(reqs: Requests, next: Time) {
    && LowerBound(reqs, next)
    && (next == NEVER
        || exists e: nat, c: nat :: Outstanding(reqs, e, c) && reqs[e][c].responseTimeNs == next)
  }

  // ----------------------------------------------------------------------------------------
  // The scan

  function Deadline(r: Request): Time { if r.state.RequestSent? then r.responseTimeNs else NEVER }

  function EndpointMin(reqs: seq<Request>): Time {
    if reqs == [] then NEVER else Min(EndpointMin(reqs[..|reqs| - 1]), Deadline(reqs[|reqs| - 1]))
  }

  function MinDeadline(reqs: Requests): Time {
    if reqs == [] then NEVER else Min(MinDeadline(reqs[..|reqs| - 1]), EndpointMin(reqs[|reqs| - 1]))
  }

  lemma {:induction false} EndpointMinBounds(reqs: seq<Request>)
    ensures forall c :: 0 <= c < |reqs| ==> EndpointMin(reqs) <= Deadline(reqs[c])
    ensures EndpointMin(reqs) == NEVER
         || exists c :: 0 <= c < |reqs| && reqs[c].state.RequestSent? && reqs[c].responseTimeNs == EndpointMin(reqs)
  {
    if reqs != [] {
      var front := reqs[..|reqs| - 1];
      EndpointMinBounds(front);
      assert forall c :: 0 <= c < |front| ==> front[c] == reqs[c];
    }
  }

  lemma {:induction false} MinDeadlineExact(reqs: Requests)
    ensures Exact(reqs, MinDeadline(reqs))
  {
    if reqs != [] {
      var n := |reqs| - 1;
      var front := reqs[..n];
      MinDeadlineExact(front);
      EndpointMinBounds(reqs[n]);
      forall e: nat, c: nat | Outstanding(reqs, e, c) ensures MinDeadline(reqs) <= reqs[e][c].responseTimeNs {
        assert e < n ==> Outstanding(front, e, c);
      }
      var m := MinDeadline(reqs);
      if m != NEVER {
        if m == MinDeadline(front) {
          var e: nat, c: nat :| Outstanding(front, e, c) && front[e][c].responseTimeNs == m;
          assert Outstanding(reqs, e, c);
        } else {
          var c: nat :| c < |reqs[n]| && reqs[n][c].state.RequestSent? && reqs[n][c].responseTimeNs == m;
          assert Outstanding(reqs, n, c);
        }
      }
    }
  }

  lemma ExactUnique(reqs: Requests, m: Time, m': Time)
    requires Exact(reqs, m) && Exact(reqs, m')
    ensures m == m'
  {
  }

  // ----------------------------------------------------------------------------------------
  // Operations on the requests of one type and their cached deadline

  datatype Table = Table(reqs: Requests, next: Time)

  predicate At(t: Table, e: nat, c: nat) { e < |t.reqs| && c < |t.reqs[e]| }

  function Set(t: Table, e: nat, c: nat, r: Request): Table
    requires At(t, e, c)
  {
    t.(reqs := t.reqs[e := t.reqs[e][c := r]])
  }

  function Recalculate(t: Table): Table { t.(next := MinDeadline(t.reqs)) }

  /** `chppTimestampOutgoingRequest`. */
  function TimestampOutgoing(t: Table, e: nat, c: nat, transaction: nat, timeoutNs: Time, now: Time): Table
    requires At(t, e, c)
  {
    var r := t.reqs[e][c];
    var t1 := if r.state.RequestSent? then Recalculate(Set(t, e, c, r.(responseTimeNs := NEVER))) else t;
    var due := if timeoutNs == NEVER then NEVER else Add64(timeoutNs, now);
    Set(t1, e, c, Request(RequestSent, transaction, now, due))
      .(next := if timeoutNs == NEVER then t1.next else Min(t1.next, due))
  }

  /** `chppTimestampIncomingResponse`; true if the response answers the request. */
  function TimestampIncoming(t: Table, e: nat, c: nat, transaction: nat, now: Time): (Table, bool)
    requires At(t, e, c)
  {
    var r := t.reqs[e][c];
    if !r.state.RequestSent? || transaction != r.transaction then (t, false)
    else
      var t1 := Set(t, e, c, r.(state := if now > r.responseTimeNs then ResponseTimeout else ResponseReceived));
      var t2 := if r.responseTimeNs == t1.next then Recalculate(t1) else t1;
      (Set(t2, e, c, t2.reqs[e][c].(responseTimeNs := now)), true)
  }

  /** The failure branch of `chppSendTimestampedRequestOrFail`. */
  function ForgetUnsent(t: Table, e: nat, c: nat): Table
    requires At(t, e, c)
  {
    Set(t, e, c, t.reqs[e][c].(state := NoRequest))
  }

  /** The timeout branch of `chppWaitForResponseWithTimeout`. */
  function WaitTimedOut(t: Table, e: nat, c: nat): Table
    requires At(t, e, c)
  {
    Set(t, e, c, t.reqs[e][c].(state := ResponseTimeout))
  }

  /** One request of `chppCloseOpenRequests`; `mem` says whether a response could be made up. */
  function CloseOne(t: Table, e: nat, c: nat, clearOnly: bool, mem: bool, now: Time): (r: Table)
    requires At(t, e, c)
    ensures |r.reqs| == |t.reqs| && |r.reqs[e]| == |t.reqs[e]|
  {
    if !t.reqs[e][c].state.RequestSent? then t
    else if clearOnly then WaitTimedOut(t, e, c)
    else if mem then TimestampIncoming(t, e, c, t.reqs[e][c].transaction, now).0
    else t
  }

  function CloseUpTo(t: Table, e: nat, n: nat, clearOnly: bool, mem: nat -> bool, now: Time): (r: Table)
    requires e < |t.reqs| && n <= |t.reqs[e]|
    ensures |r.reqs| == |t.reqs| && |r.reqs[e]| == |t.reqs[e]|
  {
    if n == 0 then t
    else CloseOne(CloseUpTo(t, e, n - 1, clearOnly, mem, now), e, n - 1, clearOnly, mem(n - 1), now)
  }

  predicate HasOpen(reqs: seq<Request>, n: nat)
    requires n <= |reqs|
  {
    exists c :: 0 <= c < n && reqs[c].state.RequestSent?
  }

  /** `chppCloseOpenRequests`. */
  function CloseOpen(t: Table, e: nat, clearOnly: bool, mem: nat -> bool, now: Time): Table
    requires e < |t.reqs|
  {
    var t1 := CloseUpTo(t, e, |t.reqs[e]|, clearOnly, mem, now);
    if HasOpen(t.reqs[e], |t.reqs[e]|) then Recalculate(t1) else t1
  }

  // ----------------------------------------------------------------------------------------
  // What each operation keeps

  lemma OutstandingAfterSet(t: Table, e: nat, c: nat, r: Request)
    requires At(t, e, c)
    ensures forall e': nat, c': nat :: Outstanding(Set(t, e, c, r).reqs, e', c') <==>
              if e' == e && c' == c then r.state.RequestSent? else Outstanding(t.reqs, e', c')
    ensures forall e': nat, c': nat :: At(t, e', c') ==>
              Set(t, e, c, r).reqs[e'][c'] == if e' == e && c' == c then r else t.reqs[e'][c']
  {
  }

  ghost predicate Ok(t: Table, exact: bool) {
    LowerBound(t.reqs, t.next) && (exact ==> Exact(t.reqs, t.next))
  }

  lemma RecalculateOk(t: Table)
    ensures Ok(Recalculate(t), true)
  {
    MinDeadlineExact(t.reqs);
  }

  /** Adding a request: the smaller of the old cache and the new deadline is right again. */
  lemma AddRequestOk(t: Table, e: nat, c: nat, r: Request, exact: bool)
    requires At(t, e, c) && Ok(t, exact) && r.state.RequestSent?
    requires Outstanding(t.reqs, e, c) ==> t.reqs[e][c].responseTimeNs == NEVER
    ensures Ok(Set(t, e, c, r).(next := Min(t.next, r.responseTimeNs)), exact)
  {
    OutstandingAfterSet(t, e, c, r);
    var t' := Set(t, e, c, r).(next := Min(t.next, r.responseTimeNs));
    if exact && t'.next != NEVER {
      if t'.next == t.next {
        var e0: nat, c0: nat :| Outstanding(t.reqs, e0, c0) && t.reqs[e0][c0].responseTimeNs == t.next;
        assert Outstanding(t'.reqs, e0, c0) && t'.reqs[e0][c0].responseTimeNs == t'.next;
      } else {
        assert Outstanding(t'.reqs, e, c) && t'.reqs[e][c].responseTimeNs == t'.next;
      }
    }
  }

  /** Dropping a request keeps the bound, and its exactness if the cache was not that request's. */
  lemma DropRequestOk(t: Table, e: nat, c: nat, r: Request, exact: bool)
    requires At(t, e, c) && Ok(t, exact) && !r.state.RequestSent?
    requires exact ==> !t.reqs[e][c].state.RequestSent? || t.reqs[e][c].responseTimeNs != t.next
    ensures Ok(Set(t, e, c, r), exact)
  {
    OutstandingAfterSet(t, e, c, r);
    var t' := Set(t, e, c, r);
    if exact && t.next != NEVER {
      var e0: nat, c0: nat :| Outstanding(t.reqs, e0, c0) && t.reqs[e0][c0].responseTimeNs == t.next;
      assert Outstanding(t'.reqs, e0, c0) && t'.reqs[e0][c0].responseTimeNs == t'.next;
    }
  }

  lemma TimestampOutgoingOk(t: Table, e: nat, c: nat, transaction: nat, timeoutNs: Time, now: Time, exact: bool)
    requires At(t, e, c) && Ok(t, exact)
    ensures Ok(TimestampOutgoing(t, e, c, transaction, timeoutNs, now), exact)
  {
    hide MinDeadline;
    var r := t.reqs[e][c];
    var cleared := Set(t, e, c, r.(responseTimeNs := NEVER));
    var t1 := if r.state.RequestSent? then Recalculate(cleared) else t;
    if r.state.RequestSent? {
      RecalculateOk(cleared);
    }
    var due := if timeoutNs == NEVER then NEVER else Add64(timeoutNs, now);
    var sent := Request(RequestSent, transaction, now, due);
    AddRequestOk(t1, e, c, sent, exact);
  }

  lemma TimestampIncomingOk(t: Table, e: nat, c: nat, transaction: nat, now: Time, exact: bool)
    requires At(t, e, c) && Ok(t, exact)
    ensures Ok(TimestampIncoming(t, e, c, transaction, now).0, exact)
  {
    hide MinDeadline;
    var r := t.reqs[e][c];
    if r.state.RequestSent? && transaction == r.transaction {
      var answered := r.(state := if now > r.responseTimeNs then ResponseTimeout else ResponseReceived);
      var t1 := Set(t, e, c, answered);
      if r.responseTimeNs == t.next {
        RecalculateOk(t1);
        DropRequestOk(Recalculate(t1), e, c, answered.(responseTimeNs := now), exact);
      } else {
        DropRequestOk(t, e, c, answered, exact);
        DropRequestOk(t1, e, c, answered.(responseTimeNs := now), exact);
      }
    }
  }

  lemma {:induction false} CloseUpToOk(t: Table, e: nat, n: nat, clearOnly: bool, mem: nat -> bool, now: Time)
    requires e < |t.reqs| && n <= |t.reqs[e]| && Ok(t, false)
    ensures Ok(CloseUpTo(t, e, n, clearOnly, mem, now), false)
  {
    hide TimestampIncoming;
    if n > 0 {
      CloseUpToOk(t, e, n - 1, clearOnly, mem, now);
      var t1 := CloseUpTo(t, e, n - 1, clearOnly, mem, now);
      var r := t1.reqs[e][n - 1];
      TimestampIncomingOk(t1, e, n - 1, r.transaction, now, false);
      DropRequestOk(t1, e, n - 1, r.(state := ResponseTimeout), false);
    }
  }

  lemma {:induction false} CloseUpToNothing(t: Table, e: nat, n: nat, clearOnly: bool, mem: nat -> bool, now: Time)
    requires e < |t.reqs| && n <= |t.reqs[e]| && !HasOpen(t.reqs[e], |t.reqs[e]|)
    ensures CloseUpTo(t, e, n, clearOnly, mem, now) == t
  {
    if n > 0 {
      CloseUpToNothing(t, e, n - 1, clearOnly, mem, now);
    }
  }

  lemma CloseOpenOk(t: Table, e: nat, clearOnly: bool, mem: nat -> bool, now: Time, exact: bool)
    requires e < |t.reqs| && Ok(t, exact)
    ensures Ok(CloseOpen(t, e, clearOnly, mem, now), exact)
  {
    hide MinDeadline, CloseUpTo;
    CloseUpToOk(t, e, |t.reqs[e]|, clearOnly, mem, now);
    RecalculateOk(CloseUpTo(t, e, |t.reqs[e]|, clearOnly, mem, now));
    if !HasOpen(t.reqs[e], |t.reqs[e]|) {
      CloseUpToNothing(t, e, |t.reqs[e]|, clearOnly, mem, now);
    }
  }

  // ----------------------------------------------------------------------------------------
  // What a request goes through, from being sent to being answered or closed

  ghost predicate OnlyChanges(t: Table, t': Table, e: nat, c: nat) {
    && |t'.reqs| == |t.reqs|
    && (forall e': nat :: e' < |t.reqs| ==> |t'.reqs[e']| == |t.reqs[e']|)
    && forall e': nat, c': nat :: At(t, e', c') && (e' != e || c' != c) ==> t'.reqs[e'][c'] == t.reqs[e'][c']
  }

  /** A request is answered exactly once, by the response that carries its transaction, and no
      other request is touched. */
  lemma AnsweredOnce(t: Table, e: nat, c: nat, transaction: nat, now: Time, transaction': nat, now': Time)
    requires At(t, e, c)
    ensures TimestampIncoming(t, e, c, transaction, now).1 <==>
              Outstanding(t.reqs, e, c) && t.reqs[e][c].transaction == transaction
    ensures !TimestampIncoming(t, e, c, transaction, now).1 ==> TimestampIncoming(t, e, c, transaction, now).0 == t
    ensures TimestampIncoming(t, e, c, transaction, now).1 ==>
              var t' := TimestampIncoming(t, e, c, transaction, now).0;
              At(t', e, c) && !TimestampIncoming(t', e, c, transaction', now').1
    ensures OnlyChanges(t, TimestampIncoming(t, e, c, transaction, now).0, e, c)
  {
    hide MinDeadline;
    var r := t.reqs[e][c];
    if Outstanding(t.reqs, e, c) && r.transaction == transaction {
      var answered := r.(state := if now > r.responseTimeNs then ResponseTimeout else ResponseReceived);
      OutstandingAfterSet(t, e, c, answered);
      OutstandingAfterSet(Set(t, e, c, answered), e, c, answered.(responseTimeNs := now));
    }
  }

  /** Request then response: the response is taken exactly if it carries the request's transaction,
      and it counts as a timeout exactly if it comes after the deadline the request was given. */
  lemma RequestThenResponse(t: Table, e: nat, c: nat, transaction: nat, timeoutNs: Time, sentAt: Time,
                            transaction': nat, now: Time)
    requires At(t, e, c)
    ensures var t1 := TimestampOutgoing(t, e, c, transaction, timeoutNs, sentAt);
            && OnlyChanges(t, t1, e, c)
            && At(t1, e, c)
            && var (t2, taken) := TimestampIncoming(t1, e, c, transaction', now);
            && At(t2, e, c)
            && (taken <==> transaction' == transaction)
            && (taken ==>
                && (t2.reqs[e][c].state.ResponseTimeout? <==>
                    timeoutNs != NEVER && now > (timeoutNs + sentAt) % 0x1_0000_0000_0000_0000)
                && (t2.reqs[e][c].state.ResponseReceived? <==> !t2.reqs[e][c].state.ResponseTimeout?)
                && t2.reqs[e][c].requestTimeNs == sentAt && t2.reqs[e][c].responseTimeNs == now)
  {
    hide MinDeadline;
    var r := t.reqs[e][c];
    OutstandingAfterSet(t, e, c, r.(responseTimeNs := NEVER));
    var t1 := TimestampOutgoing(t, e, c, transaction, timeoutNs, sentAt);
    assert t1.reqs[e][c].state.RequestSent? && t1.reqs[e][c].transaction == transaction;
    AnsweredOnce(t1, e, c, transaction', now, 0, 0);
  }

  /** What closing makes of one request: cleared, answered by a made-up response, or, when there
      is no memory for that response, left open. */
  predicate ClosedAs(r: Request, r': Request, clearOnly: bool, mem: bool, now: Time) {
    if !r.state.RequestSent? || (!clearOnly && !mem) then r' == r
    else
      && !r'.state.RequestSent? && r'.transaction == r.transaction && r'.requestTimeNs == r.requestTimeNs
      && r'.responseTimeNs == (if clearOnly then r.responseTimeNs else now)
      && (r'.state.ResponseReceived? <==> !clearOnly && now <= r.responseTimeNs)
      && (r'.state.ResponseTimeout? <==> clearOnly || now > r.responseTimeNs)
  }

  lemma {:induction false} CloseUpToEach(t: Table, e: nat, n: nat, clearOnly: bool, mem: nat -> bool, now: Time)
    requires e < |t.reqs| && n <= |t.reqs[e]|
    ensures var t' := CloseUpTo(t, e, n, clearOnly, mem, now);
            && (forall e' :: 0 <= e' < |t.reqs| && e' != e ==> t'.reqs[e'] == t.reqs[e'])
            && (forall c :: 0 <= c < n ==> ClosedAs(t.reqs[e][c], t'.reqs[e][c], clearOnly, mem(c), now))
            && (forall c :: n <= c < |t.reqs[e]| ==> t'.reqs[e][c] == t.reqs[e][c])
  {
    hide MinDeadline;
    if n > 0 {
      CloseUpToEach(t, e, n - 1, clearOnly, mem, now);
    }
  }

  /** `chppCloseOpenRequests` closes every open request of the endpoint it can, and touches no
      request of any other endpoint. */
  lemma CloseOpenEach(t: Table, e: nat, clearOnly: bool, mem: nat -> bool, now: Time)
    requires e < |t.reqs|
    ensures var t' := CloseOpen(t, e, clearOnly, mem, now);
            && |t'.reqs| == |t.reqs| && |t'.reqs[e]| == |t.reqs[e]|
            && (forall e' :: 0 <= e' < |t.reqs| && e' != e ==> t'.reqs[e'] == t.reqs[e'])
            && (forall c :: 0 <= c < |t.reqs[e]| ==> ClosedAs(t.reqs[e][c], t'.reqs[e][c], clearOnly, mem(c), now))
            && (clearOnly ==> forall c: nat :: !Outstanding(t'.reqs, e, c))
  {
    hide MinDeadline, CloseUpTo;
    CloseUpToEach(t, e, |t.reqs[e]|, clearOnly, mem, now);
  }

  // ----------------------------------------------------------------------------------------
  // Runs

  datatype Op =
    | Send(e: nat, c: nat, transaction: nat, timeoutNs: Time, now: Time, enqueued: bool)
    | Response(e: nat, c: nat, transaction: nat, now: Time)
    | GiveUpWaiting(e: nat, c: nat)
    | Close(e: nat, clearOnly: bool, mem: nat -> bool, now: Time)
    | Refresh

  predicate Possible(t: Table, op: Op) {
    match op
    case Close(e, _, _, _) => e < |t.reqs|
    case Refresh => true
    case _ => At(t, op.e, op.c)
  }

  function Apply(t: Table, op: Op): Table
    requires Possible(t, op)
  {
    match op
    case Send(e, c, transaction, timeoutNs, now, enqueued) =>
      var t1 := TimestampOutgoing(t, e, c, transaction, timeoutNs, now);
      if enqueued then t1 else ForgetUnsent(t1, e, c)
    case Response(e, c, transaction, now) => TimestampIncoming(t, e, c, transaction, now).0
    case GiveUpWaiting(e, c) => WaitTimedOut(t, e, c)
    case Close(e, clearOnly, mem, now) => CloseOpen(t, e, clearOnly, mem, now)
    case Refresh => Recalculate(t)
  }

  /** Operations that do not change a request's state behind the cache's back. */
  predicate Tidy(op: Op) { !op.GiveUpWaiting? && (op.Send? ==> op.enqueued) }

  lemma ApplyOk(t: Table, op: Op, exact: bool)
    requires Possible(t, op) && Ok(t, exact)
    requires exact ==> Tidy(op)
    ensures Ok(Apply(t, op), exact)
  {
    hide TimestampOutgoing, TimestampIncoming, CloseOpen, Recalculate;
    match op
    case Send(e, c, transaction, timeoutNs, now, enqueued) =>
      TimestampOutgoingOk(t, e, c, transaction, timeoutNs, now, exact);
      if !enqueued {
        var t1 := TimestampOutgoing(t, e, c, transaction, timeoutNs, now);
        SameShape(t, e, c, transaction, timeoutNs, now);
        DropRequestOk(t1, e, c, t1.reqs[e][c].(state := NoRequest), false);
      }
    case Response(e, c, transaction, now) =>
      TimestampIncomingOk(t, e, c, transaction, now, exact);
    case GiveUpWaiting(e, c) =>
      DropRequestOk(t, e, c, t.reqs[e][c].(state := ResponseTimeout), false);
    case Close(e, clearOnly, mem, now) =>
      CloseOpenOk(t, e, clearOnly, mem, now, exact);
    case Refresh =>
      RecalculateOk(t);
  }

  lemma SameShape(t: Table, e: nat, c: nat, transaction: nat, timeoutNs: Time, now: Time)
    requires At(t, e, c)
    ensures At(TimestampOutgoing(t, e, c, transaction, timeoutNs, now), e, c)
  {
  }

  predicate RunPossible(t: Table, ops: seq<Op>)
    decreases |ops|
  {
    ops == [] || (Possible(t, ops[0]) && RunPossible(Apply(t, ops[0]), ops[1..]))
  }

  function Run(t: Table, ops: seq<Op>): Table
    requires RunPossible(t, ops)
    decreases |ops|
  {
    if ops == [] then t else Run(Apply(t, ops[0]), ops[1..])
  }

  /**
   * In every run the cached deadline is no later than any outstanding one, and it is the earliest
   * of them in every run without failed sends and abandoned waits.
   */
  lemma {:induction false} CacheSound(t: Table, ops: seq<Op>, exact: bool)
    requires Ok(t, exact) && RunPossible(t, ops)
    requires exact ==> forall i :: 0 <= i < |ops| ==> Tidy(ops[i])
    ensures Ok(Run(t, ops), exact)
    decreases |ops|
  {
    hide Apply;
    if ops != [] {
      ApplyOk(t, ops[0], exact);
      CacheSound(Apply(t, ops[0]), ops[1..], exact);
    }
  }

  /** A cache is exact if and only if a scan would find the same. */
  lemma ExactIsMin(t: Table)
    ensures Exact(t.reqs, t.next) <==> t.next == MinDeadline(t.reqs)
  {
    MinDeadlineExact(t.reqs);
    if Exact(t.reqs, t.next) {
      ExactUnique(t.reqs, t.next, MinDeadline(t.reqs));
    }
  }

  /** Without the request at `e`, `c` the earliest deadline is that of the others. */
  lemma MinWithout(t: Table, e: nat, c: nat, r: Request)
    requires At(t, e, c) && !r.state.RequestSent?
    ensures MinDeadline(t.reqs) == Min(MinDeadline(Set(t, e, c, r).reqs), Deadline(t.reqs[e][c]))
  {
    hide MinDeadline;
    var others := Set(t, e, c, r);
    OutstandingAfterSet(t, e, c, r);
    MinDeadlineExact(t.reqs);
    MinDeadlineExact(others.reqs);
    var m := Min(MinDeadline(others.reqs), Deadline(t.reqs[e][c]));
    forall e': nat, c': nat | Outstanding(t.reqs, e', c')
      ensures m <= t.reqs[e'][c'].responseTimeNs
    {
      assert (e', c') != (e, c) ==> Outstanding(others.reqs, e', c');
    }
    if m != NEVER {
      if m == Deadline(t.reqs[e][c]) {
        assert Outstanding(t.reqs, e, c);
      } else {
        var e0: nat, c0: nat :| Outstanding(others.reqs, e0, c0) && others.reqs[e0][c0].responseTimeNs == m;
        assert Outstanding(t.reqs, e0, c0);
      }
    }
    ExactUnique(t.reqs, MinDeadline(t.reqs), m);
  }

  /** When changing a request's state behind the cache's back does no harm: its deadline is not the earliest. */
  predicate Harmless(t: Table, op: Op)
    requires Possible(t, op)
  {
    match op
    case Send(e, c, _, timeoutNs, now, enqueued) =>
      !enqueued && timeoutNs != NEVER ==> MinDeadline(ForgetUnsent(t, e, c).reqs) <= Add64(timeoutNs, now)
    case GiveUpWaiting(e, c) =>
      MinDeadline(WaitTimedOut(t, e, c).reqs) <= Deadline(t.reqs[e][c])
    case _ => true
  }

  lemma GiveUpExact(t: Table, e: nat, c: nat)
    requires At(t, e, c) && Exact(t.reqs, t.next)
    ensures Exact(WaitTimedOut(t, e, c).reqs, t.next) <==>
            MinDeadline(WaitTimedOut(t, e, c).reqs) <= Deadline(t.reqs[e][c])
  {
    hide MinDeadline, Exact;
    ExactIsMin(t);
    ExactIsMin(WaitTimedOut(t, e, c));
    MinWithout(t, e, c, t.reqs[e][c].(state := ResponseTimeout));
  }

  /** The scan looks only at outstanding requests. */
  lemma SameMin(t: Table, e: nat, c: nat, r: Request, r': Request)
    requires At(t, e, c) && !r.state.RequestSent? && !r'.state.RequestSent?
    ensures MinDeadline(Set(t, e, c, r).reqs) == MinDeadline(Set(t, e, c, r').reqs)
  {
    hide MinDeadline;
    var (t1, t2) := (Set(t, e, c, r), Set(t, e, c, r'));
    OutstandingAfterSet(t, e, c, r);
    OutstandingAfterSet(t, e, c, r');
    MinDeadlineExact(t1.reqs);
    MinDeadlineExact(t2.reqs);
    var m := MinDeadline(t1.reqs);
    if m != NEVER {
      var e0: nat, c0: nat :| Outstanding(t1.reqs, e0, c0) && t1.reqs[e0][c0].responseTimeNs == m;
      assert Outstanding(t2.reqs, e0, c0);
    }
    ExactUnique(t2.reqs, m, MinDeadline(t2.reqs));
  }

  lemma FailedSendExact(t: Table, e: nat, c: nat, transaction: nat, timeoutNs: Time, now: Time)
    requires At(t, e, c) && Exact(t.reqs, t.next)
    ensures var op := Send(e, c, transaction, timeoutNs, now, false);
            Exact(Apply(t, op).reqs, Apply(t, op).next) <==> Harmless(t, op)
  {
    hide MinDeadline, Exact;
    var r := t.reqs[e][c];
    var gone := r.(state := NoRequest);
    var others := ForgetUnsent(t, e, c);
    var cleared := Set(t, e, c, r.(responseTimeNs := NEVER));
    var t1 := if r.state.RequestSent? then Recalculate(cleared) else t;
    ExactIsMin(t);
    assert t1.next == MinDeadline(others.reqs) by {
      MinWithout(t1, e, c, gone);
      assert Set(t1, e, c, gone).reqs[e] == others.reqs[e];
      assert Set(t1, e, c, gone).reqs == others.reqs;
    }
    var due := if timeoutNs == NEVER then NEVER else Add64(timeoutNs, now);
    var unsent := Request(NoRequest, transaction, now, due);
    var t' := Apply(t, Send(e, c, transaction, timeoutNs, now, false));
    assert t'.reqs[e] == t.reqs[e][c := unsent];
    assert t'.reqs == Set(t, e, c, unsent).reqs;
    SameMin(t, e, c, unsent, gone);
    ExactIsMin(t');
  }

  /** From an exact cache, an operation leaves an exact one if and only if it is harmless. */
  lemma ExactAfter(t: Table, op: Op)
    requires Possible(t, op) && Exact(t.reqs, t.next)
    ensures Exact(Apply(t, op).reqs, Apply(t, op).next) <==> Harmless(t, op)
  {
    assert Ok(t, true);
    hide MinDeadline, Exact, TimestampOutgoing, TimestampIncoming, CloseOpen, Recalculate;
    match op
    case Send(e, c, transaction, timeoutNs, now, enqueued) =>
      if enqueued {
        ApplyOk(t, op, true);
      } else {
        FailedSendExact(t, e, c, transaction, timeoutNs, now);
      }
    case GiveUpWaiting(e, c) =>
      GiveUpExact(t, e, c);
    case _ => ApplyOk(t, op, true);
  }

  ghost predicate StaysExact(t: Table, ops: seq<Op>)
    requires RunPossible(t, ops)
    decreases |ops|
  {
    Exact(t.reqs, t.next) && (ops != [] ==> StaysExact(Apply(t, ops[0]), ops[1..]))
  }

  predicate AllHarmless(t: Table, ops: seq<Op>)
    requires RunPossible(t, ops)
    decreases |ops|
  {
    ops != [] ==> Harmless(t, ops[0]) && AllHarmless(Apply(t, ops[0]), ops[1..])
  }

  /** So the cache stays exact exactly in the runs whose failed sends and abandoned waits are harmless. */
  lemma {:induction false} ExactInHarmlessRuns(t: Table, ops: seq<Op>)
    requires Exact(t.reqs, t.next) && RunPossible(t, ops)
    ensures StaysExact(t, ops) <==> AllHarmless(t, ops)
    decreases |ops|
  {
    hide Apply, Exact, Harmless;
    if ops != [] {
      ExactAfter(t, ops[0]);
      if Harmless(t, ops[0]) {
        ExactInHarmlessRuns(Apply(t, ops[0]), ops[1..]);
      }
    }
  }

  // ----------------------------------------------------------------------------------------
  // Finding the request that timed out

  predicate Candidate(r: Request) { r.state.RequestSent? && r.responseTimeNs != TIME_NONE && r.responseTimeNs < NEVER }

  /** The scan of `chppTransportGetRequestTimeoutResponse` found the earliest candidate, if any. */
  ghost predicate IsFirst(reqs: Requests, found: Option<(nat, nat)>) {
    match found
    case None => forall e: nat, c: nat :: Outstanding(reqs, e, c) ==> !Candidate(reqs[e][c])
    case Some((e, c)) =>
      && Outstanding(reqs, e, c) && Candidate(reqs[e][c])
      && forall e': nat, c': nat :: Outstanding(reqs, e', c') && Candidate(reqs[e'][c']) ==>
           reqs[e][c].responseTimeNs <= reqs[e'][c'].responseTimeNs
  }

  /**
   * A request picked as timed out really is due if the cache was exact when it came due; otherwise
   * one is picked early exactly when no deadline has passed.
   */
  lemma PickedRequestIsDue(t: Table, now: Time, e: nat, c: nat)
    requires t.next <= now && IsFirst(t.reqs, Some((e, c)))
    ensures Exact(t.reqs, t.next) && t.next != TIME_NONE ==> t.reqs[e][c].responseTimeNs == t.next
    ensures t.reqs[e][c].responseTimeNs <= now <==>
            exists e': nat, c': nat :: Outstanding(t.reqs, e', c') && Candidate(t.reqs[e'][c'])
                                       && t.reqs[e'][c'].responseTimeNs <= now
  {
  }

  /** After a failed send the cache is stale, and another request is then reported before it is due. */
  lemma StaleCacheReportsEarly()
    ensures var idle := Request(NoRequest, 0, 0, 0);
            var t := Table([[idle, idle]], NEVER);
            var ops := [Send(0, 0, 1, 1000, 0, true), Send(0, 1, 2, 10, 0, false)];
            && RunPossible(t, ops)
            && var t' := Run(t, ops);
               && t'.next == 10 && IsFirst(t'.reqs, Some((0, 0)))
               && t'.reqs[0][0].responseTimeNs == 1000
  {
    var idle := Request(NoRequest, 0, 0, 0);
    var t := Table([[idle, idle]], NEVER);
    var first, second := Send(0, 0, 1, 1000, 0, true), Send(0, 1, 2, 10, 0, false);
    var t1 := Apply(t, first);
    assert t1.reqs[0] == [Request(RequestSent, 1, 0, 1000), idle];
    assert t1 == Table([[Request(RequestSent, 1, 0, 1000), idle]], 1000);
    var t2 := Apply(t1, second);
    assert t2.reqs[0] == [Request(RequestSent, 1, 0, 1000), Request(NoRequest, 2, 0, 10)];
    assert t2 == Table([[Request(RequestSent, 1, 0, 1000), Request(NoRequest, 2, 0, 10)]], 10);
    assert [first, second][1..] == [second];
    assert [second][1..] == [];
    assert Outstanding(t2.reqs, 0, 0);
  }

  // ----------------------------------------------------------------------------------------
  // The app state as the C code updates it

  class AppState {
    var clientReqs: Requests
    var serviceReqs: Requests
    var nextClientRequestTimeoutNs: Time
    var nextServiceRequestTimeoutNs: Time
    var clientTimers: seq<Time>
    var serviceTimers: seq<Time>

    function TableOf(ep: EndpointType): Table
      reads this
    {
      if ep.Client? then Table(clientReqs, nextClientRequestTimeoutNs)
      else Table(serviceReqs, nextServiceRequestTimeoutNs)
    }

    /** The other type's requests, which an operation on one type never touches. */
    function OtherTable(ep: EndpointType): Table
      reads this
    {
      TableOf(if ep.Client? then Service else Client)
    }

    constructor (clientReqs: Requests, serviceReqs: Requests)
      requires forall e: nat, c: nat :: !Outstanding(clientReqs, e, c) && !Outstanding(serviceReqs, e, c)
      ensures this.clientReqs == clientReqs && this.serviceReqs == serviceReqs
      ensures forall ep :: Ok(TableOf(ep), true)
      ensures |clientTimers| == |clientReqs| && |serviceTimers| == |serviceReqs|
      ensures forall i :: 0 <= i < |clientTimers| ==> clientTimers[i] == NEVER
      ensures forall i :: 0 <= i < |serviceTimers| ==> serviceTimers[i] == NEVER
    {
      this.clientReqs, this.serviceReqs := clientReqs, serviceReqs;
      nextClientRequestTimeoutNs, nextServiceRequestTimeoutNs := NEVER, NEVER;
      clientTimers := seq(|clientReqs|, _ => NEVER);
      serviceTimers := seq(|serviceReqs|, _ => NEVER);
    }

    method SetRequest(ep: EndpointType, e: nat, c: nat, r: Request)
      requires At(TableOf(ep), e, c)
      modifies this`clientReqs, this`serviceReqs
      ensures TableOf(ep) == Set(old(TableOf(ep)), e, c, r) && OtherTable(ep) == old(OtherTable(ep))
    {
      if ep.Client? {
        clientReqs := clientReqs[e := clientReqs[e][c := r]];
      } else {
        serviceReqs := serviceReqs[e := serviceReqs[e][c := r]];
      }
    }

    method SetNext(ep: EndpointType, next: Time)
      modifies this`nextClientRequestTimeoutNs, this`nextServiceRequestTimeoutNs
      ensures TableOf(ep) == old(TableOf(ep)).(next := next) && OtherTable(ep) == old(OtherTable(ep))
    {
      if ep.Client? {
        nextClientRequestTimeoutNs := next;
      } else {
        nextServiceRequestTimeoutNs := next;
      }
    }

    /** `chppRecalculateNextTimeout`. */
    method RecalculateNextTimeout(ep: EndpointType)
      modifies this`nextClientRequestTimeoutNs, this`nextServiceRequestTimeoutNs
      ensures TableOf(ep) == Recalculate(old(TableOf(ep))) && OtherTable(ep) == old(OtherTable(ep))
    {
      var reqs := TableOf(ep).reqs;
      var timeoutNs := NEVER;
      for e := 0 to |reqs|
        invariant timeoutNs == MinDeadline(reqs[..e])
      {
        ghost var before := timeoutNs;
        for c := 0 to |reqs[e]|
          invariant timeoutNs == Min(before, EndpointMin(reqs[e][..c]))
        {
          assert reqs[e][..c + 1][..c] == reqs[e][..c];
          if reqs[e][c].state.RequestSent? {
            timeoutNs := Min(timeoutNs, reqs[e][c].responseTimeNs);
          }
        }
        assert reqs[e][..|reqs[e]|] == reqs[e];
        assert reqs[..e + 1][..e] == reqs[..e];
      }
      assert reqs[..|reqs|] == reqs;
      SetNext(ep, timeoutNs);
    }

    /** `chppTimestampOutgoingRequest`. */
    method TimestampOutgoingRequest(ep: EndpointType, e: nat, c: nat, transaction: nat, timeoutNs: Time, now: Time)
      requires At(TableOf(ep), e, c)
      modifies this
      ensures TableOf(ep) == TimestampOutgoing(old(TableOf(ep)), e, c, transaction, timeoutNs, now)
      ensures OtherTable(ep) == old(OtherTable(ep))
      ensures clientTimers == old(clientTimers) && serviceTimers == old(serviceTimers)
    {
      hide MinDeadline;
      var r := TableOf(ep).reqs[e][c];
      if r.state.RequestSent? {
        SetRequest(ep, e, c, r.(responseTimeNs := NEVER));
        RecalculateNextTimeout(ep);
      }
      var due := if timeoutNs == NEVER then NEVER else Add64(timeoutNs, now);
      SetRequest(ep, e, c, Request(RequestSent, transaction, now, due));
      if timeoutNs != NEVER {
        SetNext(ep, Min(TableOf(ep).next, due));
      }
    }

    /** `chppTimestampIncomingResponse`. */
    method TimestampIncomingResponse(ep: EndpointType, e: nat, c: nat, transaction: nat, now: Time)
      returns (success: bool)
      requires At(TableOf(ep), e, c)
      modifies this
      ensures (TableOf(ep), success) == TimestampIncoming(old(TableOf(ep)), e, c, transaction, now)
      ensures OtherTable(ep) == old(OtherTable(ep))
      ensures clientTimers == old(clientTimers) && serviceTimers == old(serviceTimers)
    {
      hide MinDeadline;
      success := false;
      var r := TableOf(ep).reqs[e][c];
      match r.state {
        case NoRequest =>
        case ResponseReceived =>
        case ResponseTimeout =>
        case RequestSent =>
          if transaction == r.transaction {
            SetRequest(ep, e, c, r.(state := if now > r.responseTimeNs then ResponseTimeout else ResponseReceived));
            success := true;
          }
      }
      if success {
        if r.responseTimeNs == TableOf(ep).next {
          RecalculateNextTimeout(ep);
        }
        SetRequest(ep, e, c, TableOf(ep).reqs[e][c].(responseTimeNs := now));
      }
    }

    /** `chppSendTimestampedRequestOrFail`; `enqueued` is the transport's answer. */
    method SendTimestampedRequestOrFail(ep: EndpointType, e: nat, c: nat, transaction: nat, timeoutNs: Time,
                                        now: Time, enqueued: bool) returns (success: bool)
      requires At(TableOf(ep), e, c)
      modifies this
      ensures TableOf(ep) == Apply(old(TableOf(ep)), Send(e, c, transaction, timeoutNs, now, enqueued))
      ensures OtherTable(ep) == old(OtherTable(ep)) && success == enqueued
    {
      hide MinDeadline, TimestampOutgoing;
      SameShape(TableOf(ep), e, c, transaction, timeoutNs, now);
      TimestampOutgoingRequest(ep, e, c, transaction, timeoutNs, now);
      success := enqueued;
      if !success {
        SetRequest(ep, e, c, TableOf(ep).reqs[e][c].(state := NoRequest));
      }
    }

    /** `chppCloseOpenRequests`. */
    method CloseOpenRequests(ep: EndpointType, e: nat, clearOnly: bool, mem: nat -> bool, now: Time)
      requires e < |TableOf(ep).reqs|
      modifies this
      ensures TableOf(ep) == CloseOpen(old(TableOf(ep)), e, clearOnly, mem, now)
      ensures OtherTable(ep) == old(OtherTable(ep))
    {
      hide MinDeadline, TimestampIncoming;
      var recalcNeeded := false;
      ghost var t := TableOf(ep);
      var n := |TableOf(ep).reqs[e]|;
      for c := 0 to n
        invariant TableOf(ep) == CloseUpTo(t, e, c, clearOnly, mem, now)
        invariant OtherTable(ep) == old(OtherTable(ep))
        invariant forall k :: c <= k < n ==> TableOf(ep).reqs[e][k] == t.reqs[e][k]
        invariant recalcNeeded == HasOpen(t.reqs[e], c)
      {
        CloseOneFrame(TableOf(ep), e, c, clearOnly, mem(c), now);
        var r := TableOf(ep).reqs[e][c];
        if r.state.RequestSent? {
          recalcNeeded := true;
          if clearOnly {
            SetRequest(ep, e, c, r.(state := ResponseTimeout));
          } else if mem(c) {
            var _ := TimestampIncomingResponse(ep, e, c, r.transaction, now);
          }
        }
      }
      if recalcNeeded {
        RecalculateNextTimeout(ep);
      }
    }

    /** The scan of `chppTransportGetRequestTimeoutResponse`, including its recalculation. */
    method GetRequestTimeout(ep: EndpointType, now: Time) returns (found: Option<(nat, nat)>)
      modifies this`nextClientRequestTimeoutNs, this`nextServiceRequestTimeoutNs
      ensures old(TableOf(ep)).next > now ==> found.None? && forall any :: TableOf(any) == old(TableOf(any))
      ensures old(TableOf(ep)).next <= now ==> IsFirst(old(TableOf(ep)).reqs, found)
      ensures found.Some? ==> forall any :: TableOf(any) == old(TableOf(any))
      ensures old(TableOf(ep)).next <= now && found.None? ==>
                && TableOf(Client) == Recalculate(old(TableOf(Client)))
                && TableOf(Service) == old(TableOf(Service))
    {
      found := None;
      if TableOf(ep).next > now {
        return;
      }
      var reqs := TableOf(ep).reqs;
      var firstTimeout := NEVER;
      for e := 0 to |reqs|
        invariant ScanInv(reqs, e, 0, found, firstTimeout)
      {
        for c := 0 to |reqs[e]|
          invariant ScanInv(reqs, e, c, found, firstTimeout)
        {
          var r := reqs[e][c];
          if r.state.RequestSent? && r.responseTimeNs != TIME_NONE && r.responseTimeNs < firstTimeout {
            firstTimeout := r.responseTimeNs;
            found := Some((e, c));
          }
        }
      }
      if found.None? {
        RecalculateNextTimeout(Client);
      }
    }

    /** `chppAppGetNextTimerTimeoutNs`. */
    method GetNextTimerTimeoutNs() returns (timeoutNs: Time)
      ensures forall i :: 0 <= i < |clientTimers| ==> timeoutNs <= clientTimers[i]
      ensures forall i :: 0 <= i < |serviceTimers| ==> timeoutNs <= serviceTimers[i]
      ensures timeoutNs == NEVER || timeoutNs in clientTimers || timeoutNs in serviceTimers
    {
      timeoutNs := NEVER;
      for i := 0 to |clientTimers|
        invariant forall k :: 0 <= k < i ==> timeoutNs <= clientTimers[k]
        invariant timeoutNs == NEVER || timeoutNs in clientTimers
      {
        timeoutNs := Min(timeoutNs, clientTimers[i]);
      }
      for i := 0 to |serviceTimers|
        invariant forall k :: 0 <= k < |clientTimers| ==> timeoutNs <= clientTimers[k]
        invariant forall k :: 0 <= k < i ==> timeoutNs <= serviceTimers[k]
        invariant timeoutNs == NEVER || timeoutNs in clientTimers || timeoutNs in serviceTimers
      {
        timeoutNs := Min(timeoutNs, serviceTimers[i]);
      }
    }

    /** What the worker may have to wake up for: a timer, a cached request deadline, or the transport itself. */
    predicate IsDeadline(t: Time, transportDue: Time)
      reads this
    {
      || t in clientTimers || t in serviceTimers
      || t == nextClientRequestTimeoutNs || t == nextServiceRequestTimeoutNs || t == transportDue
    }

    /**
     * `chppTransportGetTimeUntilNextDoWorkNs`: the worker never sleeps past the deadline of an
     * outstanding request or of an endpoint timer, sleeps for ever exactly if there is no deadline at all,
     * and otherwise exactly until the earliest.
     * `transportDue` is the earliest TX, RX or reset timeout of the transport itself.
     */
    method GetTimeUntilNextDoWorkNs(now: Time, transportDue: Time) returns (sleep: Time)
      requires forall ep :: LowerBound(TableOf(ep).reqs, TableOf(ep).next)
      ensures forall ep, e: nat, c: nat :: Outstanding(TableOf(ep).reqs, e, c) ==>
                WakesBy(now, sleep, TableOf(ep).reqs[e][c].responseTimeNs)
      ensures forall i :: 0 <= i < |clientTimers| ==> WakesBy(now, sleep, clientTimers[i])
      ensures forall i :: 0 <= i < |serviceTimers| ==> WakesBy(now, sleep, serviceTimers[i])
      ensures WakesBy(now, sleep, transportDue)
      ensures forall ep :: TableOf(ep).next <= now && TableOf(ep).next != NEVER ==> sleep == 0
      ensures sleep == NEVER <==> forall t: Time :: IsDeadline(t, transportDue) ==> t == NEVER
      ensures sleep != NEVER ==>
                exists t: Time :: && IsDeadline(t, transportDue) && now + sleep == (if t > now then t else now)
                                  && forall u: Time :: IsDeadline(u, transportDue) ==> t <= u
    {
      var nextDoWorkTime := GetNextTimerTimeoutNs();
      ghost var timers := nextDoWorkTime;
      nextDoWorkTime := Min(nextDoWorkTime, nextClientRequestTimeoutNs);
      nextDoWorkTime := Min(nextDoWorkTime, nextServiceRequestTimeoutNs);
      nextDoWorkTime := Min(nextDoWorkTime, transportDue);
      assert TableOf(Client).next == nextClientRequestTimeoutNs;
      assert TableOf(Service).next == nextServiceRequestTimeoutNs;
      assert timers == NEVER || IsDeadline(timers, transportDue);
      assert IsDeadline(nextClientRequestTimeoutNs, transportDue);
      assert IsDeadline(nextServiceRequestTimeoutNs, transportDue);
      assert IsDeadline(transportDue, transportDue);
      assert forall u: Time :: IsDeadline(u, transportDue) ==> nextDoWorkTime <= u;
      if nextDoWorkTime == NEVER {
        sleep := NEVER;
      } else if nextDoWorkTime <= now {
        sleep := 0;
      } else {
        sleep := nextDoWorkTime - now;
      }
    }
  }

  /** Having slept for `sleep` from `now`, the worker is awake when `due` comes. */
  predicate WakesBy(now: Time, sleep: Time, due: Time) {
    if sleep == NEVER then due == NEVER else now + sleep <= (if due > now then due else now)
  }

  /** `CloseOne` leaves the later requests of the endpoint alone. */
  lemma CloseOneFrame(t: Table, e: nat, c: nat, clearOnly: bool, mem: bool, now: Time)
    requires At(t, e, c)
    ensures forall k :: 0 <= k < |t.reqs[e]| && k != c ==>
              CloseOne(t, e, c, clearOnly, mem, now).reqs[e][k] == t.reqs[e][k]
  {
  }

  predicate Before(e: nat, c: nat, e': nat, c': nat) { e < e' || (e == e' && c < c') }

  ghost predicate ScanInv(reqs: Requests, e: nat, c: nat, found: Option<(nat, nat)>, firstTimeout: Time) {
    && (forall e': nat, c': nat :: Outstanding(reqs, e', c') && Before(e', c', e, c) && Candidate(reqs[e'][c']) ==>
          firstTimeout <= reqs[e'][c'].responseTimeNs)
    && match found
       case None => firstTimeout == NEVER
       case Some((fe, fc)) =>
         && Outstanding(reqs, fe, fc) && Candidate(reqs[fe][fc])
         && reqs[fe][fc].responseTimeNs == firstTimeout
  }

  /**
   * Running out of service requests never refreshes the service cache, because it is the clients'
   * cache that is recalculated; a stale service deadline therefore keeps the worker awake.
   */
  method StaleServiceDeadlinePersists(app: AppState, now: Time) returns (sleep: Time)
    requires forall ep :: LowerBound(app.TableOf(ep).reqs, app.TableOf(ep).next)
    requires app.nextServiceRequestTimeoutNs <= now && app.nextServiceRequestTimeoutNs != NEVER
    requires forall e: nat, c: nat :: !Outstanding(app.serviceReqs, e, c)
    modifies app`nextClientRequestTimeoutNs, app`nextServiceRequestTimeoutNs
    ensures app.nextServiceRequestTimeoutNs == old(app.nextServiceRequestTimeoutNs)
    ensures sleep == 0
  {
    var found := app.GetRequestTimeout(Service, now);
    MinDeadlineExact(app.clientReqs);
    assert app.TableOf(Service).next == app.nextServiceRequestTimeoutNs;
    assert app.TableOf(Client).next == app.nextClientRequestTimeoutNs;
    sleep := app.GetTimeUntilNextDoWorkNs(now, NEVER);
    assert app.TableOf(Service).next <= now;
  }
}
