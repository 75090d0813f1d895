/**
 * The timer pool: one system timer multiplexed over all the timers of nanoapps and of the system.
 */
module TimerPool {
  import opened Heap
  import opened Util

  type TimerHandle = h: int | 0 <= h < 0x1_0000_0000

  datatype TimerRequest = TimerRequest(
    instanceId: nat, timerHandle: TimerHandle, expirationTime: uint64, duration: uint64, cookie: nat, isOneShot: bool)

  type Requests = seq<TimerRequest>

  /** `operator>` of the requests compares this. */
  function Expiry(r: TimerRequest): int { r.expirationTime }

  const TIMER_INVALID: TimerHandle := 0xFFFF_FFFF
  const ALREADY_FIRED: uint64 := 0xFFFF_FFFF_FFFF_FFFF
  const MAX_TIMER_REQUESTS: nat := 64
  const NUM_RESERVED_NANOAPP_TIMERS: nat := 32
  const MAX_NANOAPP_TIMERS: nat := 32

  /** Callbacks waiting in the event loops. */
  datatype Callback =
    | Tick                            // the system timer has fired
    | Expired(handle: TimerHandle)    // a nanoapp timer has expired
    | System(cookie: nat)             // a system timer has expired

  datatype TimerEvent = TimerEvent(instanceId: nat, cookie: nat)

  /** What became of the timer that a handle was last given to. */
  datatype Life = Life(
    instanceId: nat, cookie: nat, isOneShot: bool, start: nat, duration: nat,
    expiries: nat, deliveries: nat, dropped: nat, cancelled: bool)

  type Lives = map<TimerHandle, Life>

  function Rescheduled(r: TimerRequest): TimerRequest {
    r.(expirationTime := if r.isOneShot then ALREADY_FIRED else Add64(r.expirationTime, r.duration))
  }

  function CallbackFor(r: TimerRequest): Callback {
    if r.instanceId == SYSTEM_INSTANCE_ID then System(r.cookie) else Expired(r.timerHandle)
  }

  predicate RemovedOnExpiry(r: TimerRequest) { r.isOneShot && r.instanceId == SYSTEM_INSTANCE_ID }

  function NanoappWeight(r: TimerRequest): nat { if r.instanceId != SYSTEM_INSTANCE_ID then 1 else 0 }

  function OwnedBy(instanceId: nat): TimerRequest -> nat {
    (r: TimerRequest) => if r.instanceId == instanceId then 1 else 0
  }

  function Nanoapps(s: Requests): nat { Total(s, NanoappWeight) }

  /** How far the clock can still go past the expiry. */
  function RemainingWithin(horizon: nat): TimerRequest -> nat {
    (r: TimerRequest) => if r.expirationTime <= horizon then horizon - r.expirationTime + 1 else 0
  }

  predicate HasHandle(s: Requests, h: TimerHandle) {
    exists r :: r in s && r.timerHandle == h
  }

  predicate Holds(s: Requests, h: TimerHandle, instanceId: nat) {
    exists r :: r in s && r.timerHandle == h && r.instanceId == instanceId
  }

  // ----------------------------------------------------------------------------------------
  // Invariants

  /** A request is where its timer's history says it must be: the k-th expiry is at `start + k * duration`. */
  predicate RequestOk(r: TimerRequest, l: Life, horizon: nat) {
    && r.instanceId == l.instanceId && r.cookie == l.cookie
    && r.isOneShot == l.isOneShot && r.duration == l.duration
    && horizon + r.duration < ALREADY_FIRED
    && !l.cancelled
    && (r.instanceId == SYSTEM_INSTANCE_ID ==> r.isOneShot)
    && if r.isOneShot then
         if l.expiries == 0 then r.expirationTime == l.start + r.duration
         else r.expirationTime == ALREADY_FIRED && r.instanceId != SYSTEM_INSTANCE_ID
       else
         r.duration > 0 && r.expirationTime == l.start + Times(l.expiries + 1, r.duration) < ALREADY_FIRED
  }

  ghost predicate RequestsOk(s: Requests, lives: Lives, horizon: nat) {
    forall r :: r in s ==> r.timerHandle in lives && RequestOk(r, lives[r.timerHandle], horizon)
  }

  ghost predicate Distinct(s: Requests) {
    && (forall r :: r in s ==> multiset(s)[r] == 1)
    && (forall a, b :: a in s && b in s && a.timerHandle == b.timerHandle ==> a == b)
  }

  /** No expiry is early, and a one-shot timer expires at most once. */
  ghost predicate Punctual(lives: Lives, clock: nat) {
    forall h :: h in lives ==>
      var l := lives[h];
      && l.start <= clock
      && (l.expiries > 0 ==> l.start + Times(l.expiries, l.duration) <= clock)
      && (l.isOneShot ==> l.expiries <= 1)
  }

  /** Every expiry has been delivered, or its callback is in flight, or it was dropped: refused by the event loop, or
    for a timer that was gone when the callback ran. */
  ghost predicate Accounted(lives: Lives, callbacks: multiset<Callback>) {
    && (forall h :: h in lives ==> lives[h].deliveries + callbacks[Expired(h)] + lives[h].dropped == lives[h].expiries)
    && (forall h: TimerHandle :: h !in lives ==> callbacks[Expired(h)] == 0)
  }

  /** Until the handles have wrapped around, they are given out in increasing order. */
  ghost predicate HandlesOk(s: Requests, last: TimerHandle, mustCheckUniqueness: bool) {
    && (forall r :: r in s ==> r.timerHandle != TIMER_INVALID)
    && (!mustCheckUniqueness ==> forall r :: r in s ==> last != TIMER_INVALID && r.timerHandle <= last)
  }

  predicate QuotaOk(s: Requests) {
    Nanoapps(s) <= MAX_NANOAPP_TIMERS
    && |s| - Nanoapps(s) <= MAX_TIMER_REQUESTS - NUM_RESERVED_NANOAPP_TIMERS
  }

  /** Nanoapps may have 32 timers, and the system 32. */
  predicate HasRoom(s: Requests, isNanoappTimer: bool) {
    if isNanoappTimer then Nanoapps(s) < 32 else |s| - Nanoapps(s) < 32
  }

  /** The system timer is set no later than the first expiry. */
  ghost predicate ArmedFor(s: Requests, armed: Option<nat>) {
    forall r :: r in s && r.expirationTime < ALREADY_FIRED ==> armed.Some? && armed.value <= r.expirationTime
  }

  /** Nor is it set before the first expiry, if there is one to come. */
  ghost predicate NotEarly(s: Requests, armed: Option<nat>) {
    armed.Some? && (exists r :: r in s && r.expirationTime < ALREADY_FIRED) ==>
      exists r :: r in s && r.expirationTime <= armed.value && r.expirationTime < ALREADY_FIRED
  }

  /** Together: it is set for the first expiry, if there is one to come. */
  ghost predicate ArmedExactly(s: Requests, armed: Option<nat>) {
    (exists r :: r in s && r.expirationTime < ALREADY_FIRED) ==>
      && armed.Some? && (exists r :: r in s && r.expirationTime == armed.value)
      && forall r :: r in s ==> armed.value <= r.expirationTime
  }

  ghost predicate NothingToCome(s: Requests) { forall r :: r in s ==> r.expirationTime == ALREADY_FIRED }

  /** Histories change only by expiries. */
  ghost predicate Advances(before: Lives, after: Lives) {
    && after.Keys == before.Keys
    && forall h :: h in before ==>
         && after[h] == before[h].(expiries := after[h].expiries, deliveries := after[h].deliveries,
                                   dropped := after[h].dropped)
         && before[h].expiries <= after[h].expiries
         && (before[h].instanceId != SYSTEM_INSTANCE_ID ==> after[h].deliveries == before[h].deliveries)
  }

  // ----------------------------------------------------------------------------------------
  // Lemmas

  function After1(s: Requests, r: TimerRequest): multiset<TimerRequest>
    requires r in s
  {
    multiset(s) - multiset{r} + (if RemovedOnExpiry(r) then multiset{} else multiset{Rescheduled(r)})
  }

  /** One expiry, whose callback the event loop took or not; that of a system timer then needs nothing more. */
  function Expire(lives: Lives, r: TimerRequest, taken: bool): Lives
    requires r.timerHandle in lives
  {
    var l := lives[r.timerHandle];
    lives[r.timerHandle := l.(expiries := l.expiries + 1,
                              deliveries := if taken && r.instanceId == SYSTEM_INSTANCE_ID then l.deliveries + 1
                                            else l.deliveries,
                              dropped := if taken then l.dropped else l.dropped + 1)]
  }

  lemma RescheduledOk(r: TimerRequest, l: Life, clock: nat, horizon: nat)
    requires RequestOk(r, l, horizon) && r.expirationTime <= clock <= horizon < ALREADY_FIRED
    ensures !RemovedOnExpiry(r) ==> RequestOk(Rescheduled(r), l.(expiries := l.expiries + 1), horizon)
    ensures l.start + Times(l.expiries + 1, l.duration) <= clock
    ensures r.isOneShot ==> l.expiries == 0
    ensures !RemovedOnExpiry(r) ==> r.expirationTime < Rescheduled(r).expirationTime
  {
    if !r.isOneShot {
      assert Times(l.expiries + 2, r.duration) == Times(l.expiries + 1, r.duration) + r.duration;
    } else {
      assert Times(1, l.duration) == Times(0, l.duration) + l.duration;
    }
  }

  lemma ExpiryMembers(s: Requests, r: TimerRequest, t: Requests)
    requires r in s && Distinct(s) && multiset(t) == After1(s, r)
    ensures forall q :: q in t ==>
            (q in s && q.timerHandle != r.timerHandle) || (q == Rescheduled(r) && !RemovedOnExpiry(r))
    ensures forall q :: q in s && q != r ==> q in t
    ensures !RemovedOnExpiry(r) ==> Rescheduled(r) in t
  {
    hide Rescheduled;
    forall q
      ensures q in t <==> q in After1(s, r)
      ensures q in s <==> q in multiset(s)
    {
      assert q in t <==> q in multiset(t);
    }
    forall q | q in t
      ensures (q in s && q.timerHandle != r.timerHandle) || (q == Rescheduled(r) && !RemovedOnExpiry(r))
    {
      assert q in s && q != r ==> q.timerHandle != r.timerHandle;
    }
  }

  lemma ExpiryDistinct(s: Requests, r: TimerRequest, t: Requests)
    requires r in s && Distinct(s) && multiset(t) == After1(s, r)
    ensures Distinct(t)
  {
    ExpiryMembers(s, r, t);
    forall q | q in t
      ensures multiset(t)[q] == 1
    {
      assert q in multiset(t);
      assert q in s ==> multiset(s)[q] == 1;
      assert q !in s ==> multiset(s)[q] == 0;
    }
  }

  lemma ExpiryKeeps(s: Requests, r: TimerRequest, t: Requests, lives: Lives, taken: bool, clock: nat, horizon: nat)
    requires r in s && r.expirationTime <= clock <= horizon < ALREADY_FIRED
    requires RequestsOk(s, lives, horizon) && Distinct(s) && Punctual(lives, clock)
    requires multiset(t) == After1(s, r)
    ensures var lives' := Expire(lives, r, taken);
      RequestsOk(t, lives', horizon) && Distinct(t) && Punctual(lives', clock)
    ensures forall q :: q in t ==>
            (q in s && q.timerHandle != r.timerHandle) || (q == Rescheduled(r) && !RemovedOnExpiry(r))
    ensures forall q :: q in s && q != r ==> q in t
    ensures !RemovedOnExpiry(r) ==> Rescheduled(r) in t
  {
    hide After1, Distinct, RequestOk;
    RescheduledOk(r, lives[r.timerHandle], clock, horizon);
    ExpiryMembers(s, r, t);
    ExpiryDistinct(s, r, t);
    assert RequestOk(r, lives[r.timerHandle], horizon);
    SameLife(r, lives[r.timerHandle], horizon);
    if !RemovedOnExpiry(r) {
      CountsApart(Rescheduled(r), lives[r.timerHandle].(expiries := lives[r.timerHandle].expiries + 1), horizon,
        Expire(lives, r, taken)[r.timerHandle]);
    }
  }

  /** How the expiries were taken makes no difference to where the request must be. */
  lemma CountsApart(r: TimerRequest, l: Life, horizon: nat, k: Life)
    requires RequestOk(r, l, horizon) && k == l.(deliveries := k.deliveries, dropped := k.dropped)
    ensures RequestOk(r, k, horizon)
  {}

  lemma SameLife(r: TimerRequest, l: Life, horizon: nat)
    requires RequestOk(r, l, horizon)
    ensures r.isOneShot == l.isOneShot && r.duration == l.duration && r.instanceId == l.instanceId
  {}

  /** What handling expired timers does to the requests and the histories: no request of a nanoapp goes away, none
    appears, and only histories of pending timers change. */
  ghost predicate Progress(s: Requests, lives: Lives, t: Requests, lives': Lives) {
    && Advances(lives, lives')
    && (forall r :: r in t ==> HasHandle(s, r.timerHandle))
    && (forall r :: r in s && r.instanceId != SYSTEM_INSTANCE_ID ==> Holds(t, r.timerHandle, r.instanceId))
    && (forall h :: h in lives && !HasHandle(s, h) ==> lives'[h] == lives[h])
    && SameOwners(s, t)
  }

  ghost predicate SameOwners(s: Requests, t: Requests) {
    forall id: nat :: id != SYSTEM_INSTANCE_ID ==> Total(s, OwnedBy(id)) == Total(t, OwnedBy(id))
  }

  lemma AllButOne(s: Requests, i: nat)
    requires i < |s|
    ensures multiset(s[..i] + s[i + 1..]) == multiset(s) - multiset{s[i]}
  {
    assert s == s[..i] + [s[i]] + s[i + 1..];
  }

  lemma ExpiryKeepsTotal(s: Requests, i: nat, t: Requests, weight: TimerRequest -> nat)
    requires i < |s| && multiset(t) == After1(s, s[i])
    ensures Total(t, weight) + weight(s[i])
         == Total(s, weight) + (if RemovedOnExpiry(s[i]) then 0 else weight(Rescheduled(s[i])))
  {
    hide Total, Rescheduled;
    var rest := s[..i] + s[i + 1..];
    TotalRemove(s, weight, i);
    AllButOne(s, i);
    if RemovedOnExpiry(s[i]) {
      TotalPermuted(t, rest, weight);
    } else {
      var x := Rescheduled(s[i]);
      assert multiset(rest + [x]) == multiset(rest) + multiset{x};
      TotalPermuted(t, rest + [x], weight);
      TotalSnoc(rest, x, weight);
    }
  }

  lemma TotalSnoc(s: Requests, x: TimerRequest, weight: TimerRequest -> nat)
    ensures Total(s + [x], weight) == Total(s, weight) + weight(x)
  {
    assert (s + [x])[..|s|] == s;
  }

  lemma ExpiryKeepsOwners(s: Requests, i: nat, t: Requests)
    requires i < |s| && multiset(t) == After1(s, s[i])
    ensures SameOwners(s, t)
  {
    forall id: nat | id != SYSTEM_INSTANCE_ID
      ensures Total(s, OwnedBy(id)) == Total(t, OwnedBy(id))
    {
      ExpiryKeepsTotal(s, i, t, OwnedBy(id));
    }
  }

  lemma ExpiryProgress(s0: Requests, lives0: Lives, s: Requests, lives: Lives, t: Requests, taken: bool,
      clock: nat, horizon: nat)
    requires Progress(s0, lives0, s, lives) && s != []
    requires s[0].expirationTime <= clock <= horizon < ALREADY_FIRED
    requires RequestsOk(s, lives, horizon) && Distinct(s) && Punctual(lives, clock)
    requires multiset(t) == After1(s, s[0])
    ensures Progress(s0, lives0, t, Expire(lives, s[0], taken))
  {
    hide Total, Punctual, Distinct, After1;
    var r := s[0];
    ExpiryKeeps(s, r, t, lives, taken, clock, horizon);
    SameLife(r, lives[r.timerHandle], horizon);
    ExpiryKeepsOwners(s, 0, t);
    assert HasHandle(s0, r.timerHandle);
    forall q | q in s0 && q.instanceId != SYSTEM_INSTANCE_ID
      ensures Holds(t, q.timerHandle, q.instanceId)
    {
      assert Holds(s, q.timerHandle, q.instanceId);
      var p :| p in s && p.timerHandle == q.timerHandle && p.instanceId == q.instanceId;
      if p == r {
        assert !RemovedOnExpiry(r);
        assert Rescheduled(r) in t;
      }
    }
  }

  // ----------------------------------------------------------------------------------------
  // The pool

  class TimerPool {
    const timerRequests: PriorityQueue<TimerRequest>
    const horizon: nat                     // the clock does not go past this
    var clock: nat                         // the last reading of the monotonic clock
    var numNanoappTimers: nat
    var lastTimerHandle: TimerHandle
    var mustCheckUniqueness: bool
    var armed: Option<nat>                 // when the system timer fires
    var callbacks: multiset<Callback>
    ghost var lives: Lives
    ghost var reissued: bool               // a handle was given out while a callback for it was in flight

    ghost predicate QueueOk()
      reads this, timerRequests
    {
      && timerRequests.key == Expiry
      && IsHeap(Expiry, timerRequests.data, |timerRequests.data|)
      && numNanoappTimers == Nanoapps(timerRequests.data)
      && QuotaOk(timerRequests.data)
    }

    ghost predicate TimersOk()
      reads this, timerRequests
    {
      && RequestsOk(timerRequests.data, lives, horizon)
      && Distinct(timerRequests.data)
      && Punctual(lives, clock)
      && (!reissued ==> Accounted(lives, callbacks))
      && clock <= horizon < ALREADY_FIRED
    }

    ghost predicate Valid()
      reads this, timerRequests
    {
      QueueOk() && TimersOk() && HandlesOk(timerRequests.data, lastTimerHandle, mustCheckUniqueness)
    }

    /** No timer is missed: the system timer is set for the first expiry or sooner, or has fired and is about to be
      handled. */
    ghost predicate OnTime()
      reads this, timerRequests
    {
      ArmedFor(timerRequests.data, armed) || Tick in callbacks
    }

    /** The system timer is not set before there is anything to do. */
    ghost predicate Unhurried()
      reads this, timerRequests
    {
      NotEarly(timerRequests.data, armed)
    }

    constructor (horizon: nat)
      requires horizon < ALREADY_FIRED
      ensures Valid() && OnTime() && Unhurried() && fresh(timerRequests)
      ensures this.horizon == horizon && timerRequests.data == [] && lives == map[] && !reissued
      ensures clock == 0 && lastTimerHandle == TIMER_INVALID && !mustCheckUniqueness && armed.None?
      ensures callbacks == multiset{} && numNanoappTimers == 0
    {
      timerRequests := new PriorityQueue(Expiry);
      this.horizon := horizon;
      clock := 0;
      numNanoappTimers := 0;
      lastTimerHandle := TIMER_INVALID;
      mustCheckUniqueness := false;
      armed := None;
      callbacks := multiset{};
      lives := map[];
      reissued := false;
    }

    method GetMonotonicTime() returns (now: nat)
      requires clock <= horizon
      modifies this`clock
      ensures old(clock) <= now == clock <= horizon
    {
      now :| clock <= now <= horizon;
      clock := now;
    }

    predicate IsNewTimerAllowed(isNanoappTimer: bool)
      reads this, timerRequests
      requires numNanoappTimers <= |timerRequests.data|
      ensures numNanoappTimers == Nanoapps(timerRequests.data) ==>
              (IsNewTimerAllowed(isNanoappTimer) <==> HasRoom(timerRequests.data, isNanoappTimer))
    {
      if isNanoappTimer then numNanoappTimers < MAX_NANOAPP_TIMERS
      else |timerRequests.data| - numNanoappTimers < MAX_TIMER_REQUESTS - NUM_RESERVED_NANOAPP_TIMERS
    }

    method InsertTimerRequest(r: TimerRequest, memory: bool) returns (success: bool)
      requires QueueOk()
      modifies timerRequests, this`numNanoappTimers
      ensures QueueOk()
      ensures success <==> HasRoom(old(timerRequests.data), r.instanceId != SYSTEM_INSTANCE_ID) && memory
      ensures timerRequests.data == if success then Pushed(Expiry, old(timerRequests.data), r)
                                    else old(timerRequests.data)
    {
      hide Pushed, IsHeap, Total;
      NanoappsAtMost(timerRequests.data);
      var isNanoappTimer := r.instanceId != SYSTEM_INSTANCE_ID;
      success := IsNewTimerAllowed(isNanoappTimer);
      if success {
        ghost var s := timerRequests.data;
        success := timerRequests.Push(r, memory);
        PushKeepsHeap(Expiry, s, r);
        TotalPushed(Expiry, s, r, NanoappWeight);
        PushedLength(s, r);
      }
      if success && isNanoappTimer {
        numNanoappTimers := numNanoappTimers + 1;
      }
    }

    method PopTimerRequest()
      requires QueueOk() && timerRequests.data != []
      modifies timerRequests, this`numNanoappTimers
      ensures QueueOk()
      ensures timerRequests.data == Removed(Expiry, old(timerRequests.data), 0)
    {
      hide IsHeap, Total, RemovedHeap;
      ghost var s := timerRequests.data;
      RemoveKeepsHeap(Expiry, s, 0);
      TotalRemoved(Expiry, s, 0, NanoappWeight);
      var isNanoappTimer := timerRequests.data[0].instanceId != SYSTEM_INSTANCE_ID;
      timerRequests.Pop();
      if isNanoappTimer {
        numNanoappTimers := numNanoappTimers - 1;
      }
    }

    /** The re-insertion that the source asserts to succeed does. */
    method RescheduleAndRemoveExpiredTimers(request: TimerRequest)
      requires QueueOk() && timerRequests.data != [] && request == timerRequests.data[0]
      modifies timerRequests, this`numNanoappTimers
      ensures QueueOk()
      ensures multiset(timerRequests.data) == After1(old(timerRequests.data), request)
    {
      hide IsHeap, Removed, Pushed, Total;
      ghost var s := timerRequests.data;
      RemoveKeepsHeap(Expiry, s, 0);
      TotalRemoved(Expiry, s, 0, NanoappWeight);
      assert multiset(Removed(Expiry, s, 0)) == multiset(s) - multiset{request};
      if request.isOneShot && request.instanceId == SYSTEM_INSTANCE_ID {
        PopTimerRequest();
      } else {
        var copyRequest := request.(expirationTime :=
          if request.isOneShot then ALREADY_FIRED else Add64(request.expirationTime, request.duration));
        PopTimerRequest();
        NanoappsAtMost(timerRequests.data);
        PushKeepsHeap(Expiry, timerRequests.data, copyRequest);
        var success := InsertTimerRequest(copyRequest, true);
        assert success;
      }
    }

    method DeferCallback(callback: Callback) returns (success: bool)
      modifies this`callbacks
      ensures callbacks == old(callbacks) + (if success then multiset{callback} else multiset{})
    {
      success := *;
      if success {
        callbacks := callbacks + multiset{callback};
      }
    }

    /** Afterwards no timer has an expiry that has passed, and the system timer is set for the next one. */
    method HandleExpiredTimersAndScheduleNext() returns (handledExpiredTimer: bool)
      requires Valid()
      modifies timerRequests, this`clock, this`numNanoappTimers, this`armed, this`callbacks, this`lives
      ensures Valid()
      ensures ArmedFor(timerRequests.data, armed) && NotEarly(timerRequests.data, armed)
      ensures ArmedExactly(timerRequests.data, armed) && (NothingToCome(timerRequests.data) ==> armed == old(armed))
      ensures forall r :: r in timerRequests.data ==> clock < r.expirationTime
      ensures Progress(old(timerRequests.data), old(lives), timerRequests.data, lives)
      ensures callbacks[Tick] == old(callbacks)[Tick] && old(clock) <= clock
      ensures handledExpiredTimer <==> lives != old(lives)
      ensures !handledExpiredTimer ==> timerRequests.data == old(timerRequests.data) && callbacks == old(callbacks)
    {
      hide Total, Distinct, Punctual, After1, IsHeap, QuotaOk, Accounted, RequestsOk, HandlesOk, Progress, ArmedFor,
           NotEarly, ArmedExactly;
      handledExpiredTimer := false;
      ghost var s0, lives0 := timerRequests.data, lives;
      ghost var moved: TimerHandle := TIMER_INVALID;
      NoProgress(s0, lives0);
      while timerRequests.data != []
        invariant Valid()
        invariant !handledExpiredTimer ==> timerRequests.data == s0 && lives == lives0 && callbacks == old(callbacks)
        invariant handledExpiredTimer ==> HasExpired(lives0, lives, moved)
        invariant Progress(s0, lives0, timerRequests.data, lives)
        invariant callbacks[Tick] == old(callbacks)[Tick] && old(clock) <= clock && armed == old(armed)
        decreases Total(timerRequests.data, RemainingWithin(horizon))
      {
        PunctualLater(lives, clock, horizon);
        var currentTime := GetMonotonicTime();
        var top := timerRequests.data[0];
        if currentTime >= top.expirationTime {
          handledExpiredTimer := true;
          ghost var s, l := timerRequests.data, lives;
          var taken := ExpireTop(top);
          ExpiryProgress(s0, lives0, s, l, timerRequests.data, taken, clock, horizon);
          moved := top.timerHandle;
          ExpiredSince(s0, lives0, s, l, horizon, taken);
        } else {
          if top.expirationTime < ALREADY_FIRED {
            var duration := top.expirationTime - currentTime;
            armed := Some(currentTime + duration);
          }
          ScheduledNext(timerRequests.data, currentTime, armed);
          break;
        }
      }
      NothingToArm(armed);
    }

    /** One expiry: a callback for the timer, if the event loop takes it, and the request rescheduled. */
    method ExpireTop(top: TimerRequest) returns (success: bool)
      requires Valid() && timerRequests.data != [] && top == timerRequests.data[0] && top.expirationTime <= clock
      modifies timerRequests, this`numNanoappTimers, this`callbacks, this`lives
      ensures Valid()
      ensures lives == Expire(old(lives), top, success)
      ensures callbacks == old(callbacks) + (if success then multiset{CallbackFor(top)} else multiset{})
      ensures multiset(timerRequests.data) == After1(old(timerRequests.data), top)
      ensures Total(timerRequests.data, RemainingWithin(horizon))
            < Total(old(timerRequests.data), RemainingWithin(horizon))
      ensures callbacks[Tick] == old(callbacks)[Tick]
    {
      hide Total, Distinct, Punctual, After1, IsHeap, QuotaOk, Accounted, RequestsOk;
      ghost var s := timerRequests.data;
      assert top.timerHandle in lives by {
        NextToExpire(s, lives, horizon);
      }
      ghost var callbacks0 := callbacks;
      if top.instanceId == SYSTEM_INSTANCE_ID {
        success := DeferCallback(System(top.cookie));
      } else {
        success := DeferCallback(Expired(top.timerHandle));
      }
      ExpiryAccounted(lives, top, success, callbacks0, callbacks);
      RescheduleAndRemoveExpiredTimers(top);
      ExpiryKeeps(s, top, timerRequests.data, lives, success, clock, horizon);
      ExpiryShortens(s, timerRequests.data, lives, clock, horizon);
      lives := Expire(lives, top, success);
    }

    // --------------------------------------------------------------------------------------
    // Handles

    method GetTimerRequestByTimerHandle(timerHandle: TimerHandle) returns (index: Option<nat>)
      ensures index.None? ==> !HasHandle(timerRequests.data, timerHandle)
      ensures index.Some? ==>
              index.value < |timerRequests.data| && timerRequests.data[index.value].timerHandle == timerHandle
    {
      var i := 0;
      while i < |timerRequests.data|
        invariant i <= |timerRequests.data|
        invariant forall k :: 0 <= k < i ==> timerRequests.data[k].timerHandle != timerHandle
      {
        if timerRequests.data[i].timerHandle == timerHandle {
          return Some(i);
        }
        i := i + 1;
      }
      index := None;
    }

    /** The search ends: it can only pass over handles that are in use, and there are more handles than requests. */
    method GenerateUniqueTimerHandle() returns (timerHandle: TimerHandle)
      requires |timerRequests.data| <= MAX_TIMER_REQUESTS
      ensures timerHandle != TIMER_INVALID && !HasHandle(timerRequests.data, timerHandle)
    {
      timerHandle := lastTimerHandle;
      ghost var passed: set<TimerHandle> := {};
      while true
        invariant passed == {} ==> timerHandle == lastTimerHandle
        invariant passed != {} ==> Offset(lastTimerHandle, timerHandle) == |passed|
        invariant forall h :: h in passed ==> Offset(lastTimerHandle, h) <= |passed|
        invariant forall h :: h in passed ==> h == TIMER_INVALID || HasHandle(timerRequests.data, h)
        decreases |timerRequests.data| + 2 - |passed|
      {
        FewPassed(timerRequests.data, passed);
        timerHandle := if timerHandle == 0xFFFF_FFFF then 0 else timerHandle + 1;
        if timerHandle != TIMER_INVALID {
          var timerRequest := GetTimerRequestByTimerHandle(timerHandle);
          if timerRequest.None? {
            return;
          }
        }
        passed := passed + {timerHandle};
        FewPassed(timerRequests.data, passed);
      }
    }

    method GenerateTimerHandle() returns (timerHandle: TimerHandle)
      requires QueueOk() && HandlesOk(timerRequests.data, lastTimerHandle, mustCheckUniqueness)
      modifies this`lastTimerHandle, this`mustCheckUniqueness
      ensures timerHandle == lastTimerHandle != TIMER_INVALID && !HasHandle(timerRequests.data, timerHandle)
      ensures HandlesOk(timerRequests.data, lastTimerHandle, mustCheckUniqueness)
    {
      hide Total, IsHeap;
      if mustCheckUniqueness {
        timerHandle := GenerateUniqueTimerHandle();
      } else {
        timerHandle := if lastTimerHandle == 0xFFFF_FFFF then 0 else lastTimerHandle + 1;
        if timerHandle == TIMER_INVALID {
          mustCheckUniqueness := true;
          timerHandle := GenerateUniqueTimerHandle();
        }
      }
      lastTimerHandle := timerHandle;
    }

    // --------------------------------------------------------------------------------------
    // Setting a timer

    /** The history of a request that was just pushed onto `s`. */
    ghost method RecordNew(r: TimerRequest, now: uint64, s: Requests)
      requires QueueOk() && IsHeap(Expiry, s, |s|) && timerRequests.data == Pushed(Expiry, s, r)
      requires clock == now <= horizon && horizon + r.duration < ALREADY_FIRED
      requires r.expirationTime == Add64(now, r.duration)
      requires r.instanceId == SYSTEM_INSTANCE_ID ==> r.isOneShot
      requires !r.isOneShot ==> r.duration > 0
      requires RequestsOk(s, lives, horizon) && Distinct(s) && Punctual(lives, now)
      requires !reissued ==> Accounted(lives, callbacks)
      requires r.timerHandle == lastTimerHandle != TIMER_INVALID && !HasHandle(s, r.timerHandle)
      requires HandlesOk(s, lastTimerHandle, mustCheckUniqueness)
      modifies this`lives, this`reissued
      ensures Valid()
      ensures lives == old(lives)[r.timerHandle :=
                                    Life(r.instanceId, r.cookie, r.isOneShot, now, r.duration, 0, 0, 0, false)]
      ensures reissued == (old(reissued) || Expired(r.timerHandle) in callbacks)
      ensures r in timerRequests.data && |timerRequests.data| == |s| + 1
      ensures timerRequests.data[0].timerHandle == r.timerHandle ==> timerRequests.data[0] == r
      ensures Holds(timerRequests.data, r.timerHandle, r.instanceId)
    {
      hide Total, IsHeap, Pushed, Distinct, Punctual, Accounted, RequestsOk, QuotaOk, HandlesOk;
      InsertKeeps(s, r, lives, now, horizon, callbacks);
      InsertHandles(s, r, lastTimerHandle, mustCheckUniqueness);
      lives := lives[r.timerHandle := Life(r.instanceId, r.cookie, r.isOneShot, now, r.duration, 0, 0, 0, false)];
      reissued := reissued || Expired(r.timerHandle) in callbacks;
    }

    /** The end of `setTimer`: the request was pushed onto `s`. */
    method ScheduleNew(r: TimerRequest, now: nat, ghost s: Requests)
      requires Valid() && clock == now && r.expirationTime == now + r.duration < ALREADY_FIRED
      requires IsHeap(Expiry, s, |s|) && timerRequests.data == Pushed(Expiry, s, r) && |timerRequests.data| == |s| + 1
      requires !HasHandle(s, r.timerHandle)
      requires timerRequests.data[0].timerHandle == r.timerHandle ==> timerRequests.data[0] == r
      modifies timerRequests, this`clock, this`numNanoappTimers, this`armed, this`callbacks, this`lives
      ensures Valid() && (ArmedFor(s, old(armed)) || Tick in old(callbacks) ==> OnTime())
      ensures NotEarly(s, old(armed)) ==> NotEarly(timerRequests.data, armed)
      ensures old(clock) <= clock
      ensures s == [] ==> Progress(old(timerRequests.data), old(lives), timerRequests.data, lives)
      ensures s != [] ==> timerRequests.data == old(timerRequests.data) && lives == old(lives)
    {
      hide Total, IsHeap, Pushed, Distinct, Punctual, Accounted, RequestsOk, ArmedFor, NotEarly, QuotaOk, Progress,
           HandlesOk;
      if |timerRequests.data| == 1 {
        var _ := HandleExpiredTimersAndScheduleNext();
      } else {
        if timerRequests.data[0].timerHandle == r.timerHandle {
          armed := Some(now + r.duration);
        }
        InsertOnTime(s, r, old(armed), armed);
        if NotEarly(s, old(armed)) {
          NotEarlyInsert(s, r, old(armed), armed);
        }
      }
    }

    /** `setNanoappTimer` and, for the system instance, `setSystemTimer`. */
    method SetTimer(instanceId: nat, duration: uint64, cookie: nat, isOneShot: bool, memory: bool)
      returns (timerHandle: TimerHandle)
      requires Valid() && horizon + duration < ALREADY_FIRED
      requires instanceId == SYSTEM_INSTANCE_ID ==> isOneShot
      requires !isOneShot ==> duration > 0
      modifies this, timerRequests
      ensures Valid() && (old(OnTime()) ==> OnTime()) && (old(Unhurried()) ==> Unhurried())
      ensures timerHandle == TIMER_INVALID <==>
              !memory || !HasRoom(old(timerRequests.data), instanceId != SYSTEM_INSTANCE_ID)
      ensures timerHandle == TIMER_INVALID ==>
              timerRequests.data == old(timerRequests.data) && lives == old(lives) && reissued == old(reissued)
      ensures timerHandle != TIMER_INVALID ==>
              && !HasHandle(old(timerRequests.data), timerHandle)
              && NewLife(old(lives), lives, timerHandle, instanceId, cookie, isOneShot, duration, old(clock), clock)
              && reissued == (old(reissued) || Expired(timerHandle) in old(callbacks))
              && (instanceId != SYSTEM_INSTANCE_ID ==> Holds(timerRequests.data, timerHandle, instanceId))
    {
      hide Total, IsHeap, Pushed, Distinct, Punctual, Accounted, RequestsOk, ArmedFor, NotEarly, QuotaOk, Progress,
           HandlesOk, HasHandle, Holds;
      timerHandle := GenerateTimerHandle();
      PunctualLater(lives, clock, horizon);
      var now := GetMonotonicTime();
      var timerRequest := TimerRequest(instanceId, timerHandle, Add64(now, duration), duration, cookie, isOneShot);
      ghost var s, lives0 := timerRequests.data, lives;
      var success := InsertTimerRequest(timerRequest, memory);
      if success {
        ghost var t := timerRequests.data;
        RecordNew(timerRequest, now, s);
        ScheduleNew(timerRequest, now, s);
        if s == [] {
          FirstTimer(t, timerRequest, lives0, now, timerRequests.data, lives);
        }
      } else {
        timerHandle := TIMER_INVALID;
      }
    }

    // --------------------------------------------------------------------------------------
    // Removing timers

    method RemoveTimerRequest(index: nat)
      requires Valid() && index < |timerRequests.data|
      modifies timerRequests, this`clock, this`numNanoappTimers, this`armed, this`callbacks, this`lives
      ensures Valid() && (old(OnTime()) ==> OnTime()) && (old(Unhurried()) ==> Unhurried())
      ensures Progress(Removed(Expiry, old(timerRequests.data), index), old(lives), timerRequests.data, lives)
      ensures index > 0 ==> timerRequests.data == Removed(Expiry, old(timerRequests.data), index) && lives == old(lives)
      ensures !HasHandle(timerRequests.data, old(timerRequests.data)[index].timerHandle)
      ensures if index > 0 then armed == old(armed) && callbacks == old(callbacks) && clock == old(clock)
              else ArmedExactly(timerRequests.data, armed) && (NothingToCome(timerRequests.data) ==> armed.None?)
      ensures callbacks[Tick] == old(callbacks)[Tick] && old(clock) <= clock
    {
      hide Total, IsHeap, RemovedHeap, Distinct, Punctual, Accounted, RequestsOk, ArmedFor, NotEarly, QuotaOk, Progress,
           HandlesOk;
      ghost var s := timerRequests.data;
      RemoveKeepsHeap(Expiry, s, index);
      TotalRemoved(Expiry, s, index, NanoappWeight);
      NanoappsAtMost(Removed(Expiry, s, index));
      RemoveKeepsQuota(s, index);
      var isNanoappTimer := timerRequests.data[index].instanceId != SYSTEM_INSTANCE_ID;
      timerRequests.Remove(index);
      if isNanoappTimer {
        numNanoappTimers := numNanoappTimers - 1;
      }
      RemoveKeeps(s, index, lives, horizon, lastTimerHandle, mustCheckUniqueness, armed);
      if index > 0 && NotEarly(s, armed) {
        NotEarlyRemove(s, index, armed);
      }
      NoProgress(timerRequests.data, lives);
      if index == 0 {
        armed := None;
        var _ := HandleExpiredTimersAndScheduleNext();
        NotBack(Removed(Expiry, s, index), old(lives), timerRequests.data, lives, s[index].timerHandle);
      }
    }

    /** `cancelNanoappTimer` and `cancelSystemTimer`. */
    method CancelTimer(instanceId: nat, timerHandle: TimerHandle) returns (success: bool)
      requires Valid()
      modifies timerRequests, this`clock, this`numNanoappTimers, this`armed, this`callbacks, this`lives
      ensures Valid() && (old(OnTime()) ==> OnTime()) && (old(Unhurried()) ==> Unhurried())
      ensures success <==> Holds(old(timerRequests.data), timerHandle, instanceId)
      ensures success ==> !HasHandle(timerRequests.data, timerHandle)
      ensures success ==> timerHandle in lives && lives[timerHandle] == old(lives)[timerHandle].(cancelled := true)
      ensures !success ==>
              timerRequests.data == old(timerRequests.data) && lives == old(lives) && callbacks == old(callbacks)
    {
      hide Total, IsHeap, RemovedHeap, Removed, Punctual, Accounted, ArmedFor, NotEarly, QuotaOk, Progress, HandlesOk;
      success := false;
      var timerRequest := GetTimerRequestByTimerHandle(timerHandle);
      if timerRequest.Some? {
        var index := timerRequest.value;
        ghost var s := timerRequests.data;
        OneHolder(s, index, instanceId);
        if timerRequests.data[index].instanceId == instanceId {
          RemoveTimerRequest(index);
          success := true;
          Untouched(s, index, old(lives), timerRequests.data, lives);
          Cancelled(timerRequests.data, lives, timerHandle, callbacks, clock, horizon);
          lives := lives[timerHandle := lives[timerHandle].(cancelled := true)];
        }
      }
    }

    /** An expiry callback runs.  The event goes to the nanoapp exactly if the timer is still pending, and not after it
      was cancelled. */
    method HandleTimerExpiredCallback(timerHandle: TimerHandle) returns (event: Option<TimerEvent>)
      requires Valid() && Expired(timerHandle) in callbacks
      modifies timerRequests, this`clock, this`numNanoappTimers, this`armed, this`callbacks, this`lives
      ensures Valid() && (old(OnTime()) ==> OnTime()) && (old(Unhurried()) ==> Unhurried())
      ensures event.Some? <==> HasHandle(old(timerRequests.data), timerHandle)
      ensures event.Some? ==>
              var l := old(lives)[timerHandle];
              && event.value == TimerEvent(l.instanceId, l.cookie) && !l.cancelled
              && timerHandle in lives && lives[timerHandle] == l.(deliveries := l.deliveries + 1)
              && (HasHandle(timerRequests.data, timerHandle) <==> !l.isOneShot)
      ensures event.None? ==>
              && timerRequests.data == old(timerRequests.data)
              && lives == if timerHandle in old(lives) then Drop(old(lives), timerHandle) else old(lives)
    {
      hide Total, IsHeap, RemovedHeap, Removed, Punctual, Accounted, ArmedFor, NotEarly, QuotaOk, Progress, HandlesOk,
           Distinct, RequestsOk, HasHandle;
      event := None;
      ghost var callbacks0 := callbacks;
      ghost var s := timerRequests.data;
      callbacks := callbacks - multiset{Expired(timerHandle)};
      Delivered(lives, callbacks0, callbacks, timerHandle);
      var timerRequest := GetTimerRequestByTimerHandle(timerHandle);
      if timerRequest.None? {
        if timerHandle in lives {
          DroppedKeeps(s, lives, timerHandle, callbacks0, callbacks, clock, horizon);
          lives := Drop(lives, timerHandle);
        }
        return;
      }
      var index := timerRequest.value;
      var currentTimerRequest := timerRequests.data[index];
      PendingTimer(s, lives, horizon, index);
      lives := lives[timerHandle := lives[timerHandle].(deliveries := lives[timerHandle].deliveries + 1)];
      CountDelivery(s, old(lives), timerHandle, clock, horizon);
      if currentTimerRequest.isOneShot {
        ghost var counted := lives;
        RemoveTimerRequest(index);
        Untouched(s, index, counted, timerRequests.data, lives);
      }
      event := Some(TimerEvent(currentTimerRequest.instanceId, currentTimerRequest.cookie));
    }

    // --------------------------------------------------------------------------------------
    // The system timer

    /** If the event loop does not take the tick, nothing is left to handle the timers that are pending. */
    method HandleSystemTimerCallback() returns (taken: bool)
      requires Valid() && armed.Some? && armed.value <= clock
      modifies this`armed, this`callbacks
      ensures Valid() && armed == None && Unhurried()
      ensures callbacks == old(callbacks) + (if taken then multiset{Tick} else multiset{})
      ensures OnTime() <==>
              || taken || Tick in old(callbacks)
              || forall r :: r in timerRequests.data ==> r.expirationTime == ALREADY_FIRED
    {
      armed := None;
      taken := DeferCallback(Tick);
    }

    /** The deferred tick. */
    method HandleTick()
      requires Valid() && Tick in callbacks
      modifies timerRequests, this`clock, this`numNanoappTimers, this`armed, this`callbacks, this`lives
      ensures Valid() && OnTime() && Unhurried()
      ensures ArmedFor(timerRequests.data, armed) && ArmedExactly(timerRequests.data, armed)
      ensures NothingToCome(timerRequests.data) ==> armed == old(armed)
      ensures callbacks[Tick] == old(callbacks)[Tick] - 1
      ensures forall r :: r in timerRequests.data ==> clock < r.expirationTime
      ensures Progress(old(timerRequests.data), old(lives), timerRequests.data, lives)
    {
      callbacks := callbacks - multiset{Tick};
      var _ := HandleExpiredTimersAndScheduleNext();
    }

    // --------------------------------------------------------------------------------------

    /** As many timers go as are counted, which are those that `CancelScan` comes across. */
    method CancelAllNanoappTimers(instanceId: nat) returns (numTimersCancelled: nat)
      requires Valid() && instanceId != SYSTEM_INSTANCE_ID
      modifies timerRequests, this`clock, this`numNanoappTimers, this`armed, this`callbacks, this`lives
      ensures Valid() && (old(OnTime()) ==> OnTime()) && (old(Unhurried()) ==> Unhurried())
      ensures numTimersCancelled + Total(timerRequests.data, OwnedBy(instanceId))
           == Total(old(timerRequests.data), OwnedBy(instanceId))
      ensures Total(timerRequests.data, OwnedBy(instanceId))
           == Total(CancelScan(old(timerRequests.data), instanceId, |old(timerRequests.data)|), OwnedBy(instanceId))
      ensures CancelsOnly(old(lives), lives, instanceId)
      ensures CancelledOrKept(old(timerRequests.data), timerRequests.data, lives, instanceId)
    {
      hide Total, IsHeap, RemovedHeap, Removed, Distinct, Punctual, Accounted, ArmedFor, NotEarly, QuotaOk, Progress,
           HandlesOk, ArmedExactly, NothingToCome, CancelsOnly, CancelledOrKept;
      AllKept(timerRequests.data, lives, instanceId);
      numTimersCancelled := 0;
      var i: nat := |timerRequests.data|;
      while i > 0
        invariant Valid() && (old(OnTime()) ==> OnTime()) && (old(Unhurried()) ==> Unhurried())
        invariant i <= |timerRequests.data|
        invariant numTimersCancelled + Total(timerRequests.data, OwnedBy(instanceId))
               == Total(old(timerRequests.data), OwnedBy(instanceId))
        invariant Total(CancelScan(timerRequests.data, instanceId, i), OwnedBy(instanceId))
               == Total(CancelScan(old(timerRequests.data), instanceId, |old(timerRequests.data)|), OwnedBy(instanceId))
        invariant CancelsOnly(old(lives), lives, instanceId)
        invariant CancelledOrKept(old(timerRequests.data), timerRequests.data, lives, instanceId)
      {
        i := i - 1;
        var request := timerRequests.data[i];
        if request.instanceId == instanceId {
          numTimersCancelled := numTimersCancelled + 1;
          ghost var s, l := timerRequests.data, lives;
          TotalRemoved(Expiry, s, i, OwnedBy(instanceId));
          RemoveTimerRequest(i);
          OwnersKept(Removed(Expiry, s, i), l, timerRequests.data, lives, instanceId);
          Untouched(s, i, l, timerRequests.data, lives);
          Cancelled(timerRequests.data, lives, request.timerHandle, callbacks, clock, horizon);
          CancelledNext(old(timerRequests.data), old(lives), s, l, i, timerRequests.data, lives, instanceId);
          lives := lives[request.timerHandle := lives[request.timerHandle].(cancelled := true)];
        }
      }
    }
  }

  /** No timer but the nanoapp's is marked as cancelled that was not before. */
  ghost predicate CancelsOnly(before: Lives, after: Lives, id: nat) {
    && after.Keys == before.Keys
    && forall h :: h in before ==>
         && after[h].instanceId == before[h].instanceId
         && (before[h].cancelled ==> after[h].cancelled)
         && (before[h].instanceId != id ==> after[h].cancelled == before[h].cancelled)
  }

  /** Each of the nanoapp's timers is marked as cancelled, or still there. */
  ghost predicate CancelledOrKept(s: Requests, t: Requests, lives: Lives, id: nat) {
    forall r :: r in s && r.instanceId == id ==>
      (r.timerHandle in lives && lives[r.timerHandle].cancelled) || Holds(t, r.timerHandle, id)
  }

  lemma AllKept(s: Requests, lives: Lives, id: nat)
    ensures CancelsOnly(lives, lives, id) && CancelledOrKept(s, s, lives, id)
  {}

  lemma CancelledNext(s0: Requests, lives0: Lives, s: Requests, l: Lives, i: nat, t: Requests, l': Lives, id: nat)
    requires i < |s| && IsHeap(Expiry, s, |s|) && Distinct(s) && s[i].timerHandle in l && s[i].instanceId == id
    requires l[s[i].timerHandle].instanceId == id && id != SYSTEM_INSTANCE_ID
    requires CancelsOnly(lives0, l, id) && CancelledOrKept(s0, s, l, id)
    requires Progress(Removed(Expiry, s, i), l, t, l') && s[i].timerHandle in l'
    ensures var lives := l'[s[i].timerHandle := l'[s[i].timerHandle].(cancelled := true)];
      CancelsOnly(lives0, lives, id) && CancelledOrKept(s0, t, lives, id)
  {
    hide IsHeap, Removed, SameOwners;
    RemovedMembers(s, i);
    var lives := l'[s[i].timerHandle := l'[s[i].timerHandle].(cancelled := true)];
    forall r | r in s0 && r.instanceId == id
      ensures (r.timerHandle in lives && lives[r.timerHandle].cancelled) || Holds(t, r.timerHandle, id)
    {
      if r.timerHandle != s[i].timerHandle && Holds(s, r.timerHandle, id) {
        var q :| q in s && q.timerHandle == r.timerHandle && q.instanceId == id;
        assert q in Removed(Expiry, s, i);
      }
    }
  }

  lemma RemoveKeepsQuota(s: Requests, index: nat)
    requires index < |s| && IsHeap(Expiry, s, |s|) && QuotaOk(s)
    ensures QuotaOk(Removed(Expiry, s, index))
    ensures Nanoapps(Removed(Expiry, s, index)) == Nanoapps(s) - NanoappWeight(s[index])
  {
    hide Removed, IsHeap;
    TotalRemoved(Expiry, s, index, NanoappWeight);
  }

  lemma RemovedMembers(s: Requests, index: nat)
    requires index < |s| && IsHeap(Expiry, s, |s|) && Distinct(s)
    ensures forall q :: q in Removed(Expiry, s, index) <==> q in s && q.timerHandle != s[index].timerHandle
    ensures forall q :: q in Removed(Expiry, s, index) ==> multiset(Removed(Expiry, s, index))[q] == 1
  {
    hide IsHeap, Removed;
    var t := Removed(Expiry, s, index);
    var x := s[index];
    RemoveKeepsHeap(Expiry, s, index);
    assert x in s;
    forall q
      ensures q in t <==> q in s && q.timerHandle != x.timerHandle
      ensures q in t ==> multiset(t)[q] == 1
    {
      assert q in t <==> q in multiset(t);
      assert q in s <==> q in multiset(s);
      assert multiset(s)[q] == multiset(t)[q] + (if q == x then 1 else 0);
    }
  }

  lemma RemoveKeeps(s: Requests, index: nat, lives: Lives, horizon: nat,
      last: TimerHandle, mustCheckUniqueness: bool, armed: Option<nat>)
    requires index < |s| && IsHeap(Expiry, s, |s|)
    requires RequestsOk(s, lives, horizon) && Distinct(s) && HandlesOk(s, last, mustCheckUniqueness)
    ensures RequestsOk(Removed(Expiry, s, index), lives, horizon) && Distinct(Removed(Expiry, s, index))
    ensures HandlesOk(Removed(Expiry, s, index), last, mustCheckUniqueness)
    ensures ArmedFor(s, armed) ==> ArmedFor(Removed(Expiry, s, index), armed)
    ensures !HasHandle(Removed(Expiry, s, index), s[index].timerHandle)
  {
    hide IsHeap, Removed;
    RemovedMembers(s, index);
  }

  lemma NotBack(s: Requests, lives: Lives, t: Requests, lives': Lives, h: TimerHandle)
    requires Progress(s, lives, t, lives') && !HasHandle(s, h)
    ensures !HasHandle(t, h)
  {}

  lemma OneHolder(s: Requests, index: nat, instanceId: nat)
    requires index < |s| && Distinct(s)
    ensures Holds(s, s[index].timerHandle, instanceId) <==> s[index].instanceId == instanceId
  {
    assert s[index] in s;
  }

  /** The history of a timer that was just removed has not changed. */
  lemma Untouched(s: Requests, index: nat, lives: Lives, t: Requests, lives': Lives)
    requires index < |s| && IsHeap(Expiry, s, |s|) && Distinct(s) && s[index].timerHandle in lives
    requires Progress(Removed(Expiry, s, index), lives, t, lives')
    ensures s[index].timerHandle in lives' && lives'[s[index].timerHandle] == lives[s[index].timerHandle]
  {
    hide IsHeap, Removed;
    RemovedMembers(s, index);
    assert !HasHandle(Removed(Expiry, s, index), s[index].timerHandle);
  }

  lemma Cancelled(s: Requests, lives: Lives, h: TimerHandle, callbacks: multiset<Callback>, clock: nat, horizon: nat)
    requires h in lives && !HasHandle(s, h) && RequestsOk(s, lives, horizon) && Punctual(lives, clock)
    ensures var lives' := lives[h := lives[h].(cancelled := true)];
      && RequestsOk(s, lives', horizon) && Punctual(lives', clock)
      && (Accounted(lives, callbacks) ==> Accounted(lives', callbacks))
  {}

  lemma Delivered(lives: Lives, before: multiset<Callback>, after: multiset<Callback>, h: TimerHandle)
    requires Expired(h) in before && after == before - multiset{Expired(h)}
    ensures after[Tick] == before[Tick]
    ensures Accounted(lives, before) ==>
      h in lives && Accounted(lives[h := lives[h].(deliveries := lives[h].deliveries + 1)], after)
  {}

  function Drop(lives: Lives, h: TimerHandle): Lives
    requires h in lives
  {
    lives[h := lives[h].(dropped := lives[h].dropped + 1)]
  }

  lemma DroppedKeeps(s: Requests, lives: Lives, h: TimerHandle, before: multiset<Callback>, after: multiset<Callback>,
      clock: nat, horizon: nat)
    requires h in lives && !HasHandle(s, h) && RequestsOk(s, lives, horizon) && Punctual(lives, clock)
    requires Expired(h) in before && after == before - multiset{Expired(h)}
    ensures RequestsOk(s, Drop(lives, h), horizon) && Punctual(Drop(lives, h), clock)
    ensures Accounted(lives, before) ==> Accounted(Drop(lives, h), after)
  {}

  lemma PendingTimer(s: Requests, lives: Lives, horizon: nat, index: nat)
    requires RequestsOk(s, lives, horizon) && index < |s|
    ensures HasHandle(s, s[index].timerHandle) && s[index].timerHandle in lives
    ensures var (r, l) := (s[index], lives[s[index].timerHandle]);
      r.instanceId == l.instanceId && r.cookie == l.cookie && r.isOneShot == l.isOneShot && !l.cancelled
  {
    assert s[index] in s;
  }

  lemma CountDelivery(s: Requests, lives: Lives, h: TimerHandle, clock: nat, horizon: nat)
    requires h in lives && RequestsOk(s, lives, horizon) && Punctual(lives, clock)
    ensures var lives' := lives[h := lives[h].(deliveries := lives[h].deliveries + 1)];
      RequestsOk(s, lives', horizon) && Punctual(lives', clock)
  {}

  /** The handle has a new history, and no other handle is affected. */
  ghost predicate NewLife(before: Lives, after: Lives, h: TimerHandle,
      instanceId: nat, cookie: nat, isOneShot: bool, duration: nat, from: nat, to: nat)
  {
    && h in after
    && after[h] == Life(instanceId, cookie, isOneShot, after[h].start, duration,
                        after[h].expiries, after[h].deliveries, after[h].dropped, false)
    && (instanceId != SYSTEM_INSTANCE_ID ==> after[h].deliveries == 0)
    && from <= after[h].start <= to
    && after == before[h := after[h]]
  }

  lemma InsertKeeps(s: Requests, r: TimerRequest, lives: Lives, now: uint64, horizon: nat,
                    callbacks: multiset<Callback>)
    requires IsHeap(Expiry, s, |s|) && now <= horizon && horizon + r.duration < ALREADY_FIRED
    requires !HasHandle(s, r.timerHandle)
    requires r.expirationTime == Add64(now, r.duration)
    requires r.instanceId == SYSTEM_INSTANCE_ID ==> r.isOneShot
    requires !r.isOneShot ==> r.duration > 0
    requires RequestsOk(s, lives, horizon) && Distinct(s) && Punctual(lives, now)
    ensures var lives' :=
        lives[r.timerHandle := Life(r.instanceId, r.cookie, r.isOneShot, now, r.duration, 0, 0, 0, false)];
      && RequestsOk(Pushed(Expiry, s, r), lives', horizon)
      && Distinct(Pushed(Expiry, s, r))
      && Punctual(lives', now)
      && (Accounted(lives, callbacks) && Expired(r.timerHandle) !in callbacks ==> Accounted(lives', callbacks))
    ensures Holds(Pushed(Expiry, s, r), r.timerHandle, r.instanceId)
    ensures |Pushed(Expiry, s, r)| == |s| + 1 && r in Pushed(Expiry, s, r)
    ensures Pushed(Expiry, s, r)[0].timerHandle == r.timerHandle ==> Pushed(Expiry, s, r)[0] == r
  {
    hide IsHeap, Pushed;
    var t := Pushed(Expiry, s, r);
    PushKeepsHeap(Expiry, s, r);
    PushedLength(s, r);
    assert Times(1, r.duration) == Times(0, r.duration) + r.duration;
    forall q
      ensures q in t <==> q in s || q == r
      ensures multiset(t)[q] == multiset(s)[q] + (if q == r then 1 else 0)
    {
      assert q in t <==> q in multiset(t);
      assert q in s <==> q in multiset(s);
    }
    assert r !in s;
  }

  lemma InsertHandles(s: Requests, r: TimerRequest, last: TimerHandle, mustCheckUniqueness: bool)
    requires HandlesOk(s, last, mustCheckUniqueness) && r.timerHandle == last != TIMER_INVALID && IsHeap(Expiry, s, |s|)
    ensures HandlesOk(Pushed(Expiry, s, r), last, mustCheckUniqueness)
  {
    hide IsHeap, Pushed;
    PushKeepsHeap(Expiry, s, r);
    forall q | q in Pushed(Expiry, s, r)
      ensures q in s || q == r
    {
      assert q in multiset(Pushed(Expiry, s, r));
    }
  }

  lemma InsertOnTime(s: Requests, r: TimerRequest, armed: Option<nat>, armed': Option<nat>)
    requires IsHeap(Expiry, s, |s|) && !HasHandle(s, r.timerHandle)
    requires var t := Pushed(Expiry, s, r);
      |t| == |s| + 1
      && (t[0].timerHandle == r.timerHandle ==> t[0] == r)
      && armed' == if t[0].timerHandle == r.timerHandle then Some(r.expirationTime) else armed
    ensures ArmedFor(s, armed) ==> ArmedFor(Pushed(Expiry, s, r), armed')
  {
    hide IsHeap, Pushed;
    var t := Pushed(Expiry, s, r);
    PushKeepsHeap(Expiry, s, r);
    EarliestOnTop(t);
    forall q | q in t
      ensures q in s || q == r
    {
      assert q in multiset(t);
    }
    assert t[0] in t;
  }

  lemma FirstTimer(t: Requests, r: TimerRequest, lives0: Lives, now: nat, t': Requests, lives': Lives)
    requires |t| == 1 && r in t
    requires var life := Life(r.instanceId, r.cookie, r.isOneShot, now, r.duration, 0, 0, 0, false);
      Progress(t, lives0[r.timerHandle := life], t', lives')
    ensures r.timerHandle in lives' && lives' == lives0[r.timerHandle := lives'[r.timerHandle]]
    ensures var l := lives'[r.timerHandle];
      && l == Life(r.instanceId, r.cookie, r.isOneShot, now, r.duration, l.expiries, l.deliveries, l.dropped, false)
      && (r.instanceId != SYSTEM_INSTANCE_ID ==> l.deliveries == 0)
    ensures r.instanceId != SYSTEM_INSTANCE_ID ==> Holds(t', r.timerHandle, r.instanceId)
  {
    var h := r.timerHandle;
    forall k | k in lives0 && k != h
      ensures lives'[k] == lives0[k]
    {
      assert !HasHandle(t, k);
    }
    assert lives'.Keys == lives0.Keys + {h};
  }

  /** How many handles on from `last` the handle `h` is, counting the wrap-around. */
  function Offset(last: TimerHandle, h: TimerHandle): nat {
    if h > last then h - last else h + 0x1_0000_0000 - last
  }

  function HandlesOf(s: Requests): set<TimerHandle> {
    if s == [] then {} else HandlesOf(s[..|s| - 1]) + {s[|s| - 1].timerHandle}
  }

  lemma {:induction false} HandlesOfHas(s: Requests)
    ensures |HandlesOf(s)| <= |s|
    ensures forall r :: r in s ==> r.timerHandle in HandlesOf(s)
  {
    if s != [] {
      HandlesOfHas(s[..|s| - 1]);
      assert s == s[..|s| - 1] + [s[|s| - 1]];
    }
  }

  lemma FewPassed(s: Requests, passed: set<TimerHandle>)
    requires forall h :: h in passed ==> h == TIMER_INVALID || HasHandle(s, h)
    ensures |passed| <= |s| + 1
  {
    HandlesOfHas(s);
    SubsetSize(passed, HandlesOf(s) + {TIMER_INVALID});
  }

  lemma NextToExpire(s: Requests, lives: Lives, horizon: nat)
    requires s != [] && RequestsOk(s, lives, horizon)
    ensures s[0].timerHandle in lives && RequestOk(s[0], lives[s[0].timerHandle], horizon)
  {}

  lemma ExpiryAccounted(lives: Lives, r: TimerRequest, taken: bool, before: multiset<Callback>,
                        after: multiset<Callback>)
    requires r.timerHandle in lives
    requires after == before + (if taken then multiset{CallbackFor(r)} else multiset{})
    ensures Accounted(lives, before) ==> Accounted(Expire(lives, r, taken), after)
    ensures after[Tick] == before[Tick]
  {}

  lemma ExpiryShortens(s: Requests, t: Requests, lives: Lives, clock: nat, horizon: nat)
    requires s != [] && RequestsOk(s, lives, horizon) && s[0].expirationTime <= clock <= horizon < ALREADY_FIRED
    requires multiset(t) == After1(s, s[0])
    ensures Total(t, RemainingWithin(horizon)) < Total(s, RemainingWithin(horizon))
  {
    RescheduledOk(s[0], lives[s[0].timerHandle], clock, horizon);
    ExpiryKeepsTotal(s, 0, t, RemainingWithin(horizon));
  }

  lemma EarliestOnTop(s: Requests)
    requires s != [] && IsHeap(Expiry, s, |s|)
    ensures forall r :: r in s ==> s[0].expirationTime <= r.expirationTime
  {
    forall r | r in s
      ensures s[0].expirationTime <= r.expirationTime
    {
      var i :| 0 <= i < |s| && s[i] == r;
      TopIsFirst(Expiry, s, |s|, i);
    }
  }

  /** A new first request sets the system timer for its duration.  That covers the queue exactly if the deadline does
    not wrap around; if it does, the request is overdue already. */
  lemma ExpiryWraps(s: Requests, now: uint64, duration: uint64)
    requires s != [] && IsHeap(Expiry, s, |s|) && s[0].expirationTime == Add64(now, duration) < ALREADY_FIRED
    ensures ArmedFor(s, Some(now + duration)) <==> now + duration < ALREADY_FIRED
    ensures now + duration >= ALREADY_FIRED ==> s[0].expirationTime < now
  {
    EarliestOnTop(s);
    assert s[0] in s;
  }

  /** A round of the expiry loop: the request on top has expired and been rescheduled or removed. */
  ghost predicate ExpiryRound(s: Requests, t: Requests) {
    && s != [] && IsHeap(Expiry, s, |s|) && IsHeap(Expiry, t, |t|)
    && multiset(t) == After1(s, s[0])
  }

  predicate ZeroPeriod(r: TimerRequest) { !r.isOneShot && r.duration == 0 }

  lemma ZeroPeriodStays(s: Requests, t: Requests, r: TimerRequest)
    requires ExpiryRound(s, t) && r in s && ZeroPeriod(r)
    ensures r in t && t[0].expirationTime <= r.expirationTime
  {
    hide IsHeap;
    assert r in multiset(s);
    assert r in multiset(t);
    EarliestOnTop(t);
  }

  /** With an expired periodic timer of period zero in the queue, the expiry loop never ends: however many rounds it
    makes, the queue still holds that timer and its first request has expired. */
  lemma {:induction false} ZeroPeriodNeverAdvances(rounds: seq<Requests>, r: TimerRequest, now: nat, i: nat)
    requires i < |rounds| && r in rounds[0] && ZeroPeriod(r) && r.expirationTime <= now
    requires IsHeap(Expiry, rounds[0], |rounds[0]|)
    requires forall k :: 0 < k < |rounds| ==> ExpiryRound(rounds[k - 1], rounds[k])
    ensures r in rounds[i] && rounds[i] != [] && rounds[i][0].expirationTime <= now
  {
    hide IsHeap;
    if i == 0 {
      EarliestOnTop(rounds[0]);
    } else {
      ZeroPeriodNeverAdvances(rounds, r, now, i - 1);
      assert ExpiryRound(rounds[i - 1], rounds[i]);
      ZeroPeriodStays(rounds[i - 1], rounds[i], r);
    }
  }

  /** Only a period of zero does that: a round with any other request on top brings the end nearer. */
  lemma RoundAdvances(s: Requests, t: Requests, horizon: nat)
    requires ExpiryRound(s, t) && s[0].expirationTime <= horizon < ALREADY_FIRED && !ZeroPeriod(s[0])
    requires !s[0].isOneShot ==> s[0].expirationTime + s[0].duration < ALREADY_FIRED
    ensures Total(t, RemainingWithin(horizon)) < Total(s, RemainingWithin(horizon))
  {
    ExpiryKeepsTotal(s, 0, t, RemainingWithin(horizon));
  }

  lemma NoProgress(s: Requests, lives: Lives)
    ensures Progress(s, lives, s, lives)
  {
    forall r | r in s
      ensures HasHandle(s, r.timerHandle) && Holds(s, r.timerHandle, r.instanceId)
    {}
  }

  lemma NothingToArm(armed: Option<nat>)
    ensures ArmedFor([], armed) && NotEarly([], armed) && ArmedExactly([], armed)
  {}

  lemma PunctualLater(lives: Lives, clock: nat, horizon: nat)
    requires Punctual(lives, clock)
    ensures forall now: nat :: clock <= now <= horizon ==> Punctual(lives, now)
  {}

  lemma ScheduledNext(s: Requests, now: nat, armed: Option<nat>)
    requires s != [] && IsHeap(Expiry, s, |s|) && now < s[0].expirationTime
    requires s[0].expirationTime < ALREADY_FIRED ==> armed == Some(s[0].expirationTime)
    ensures ArmedFor(s, armed) && NotEarly(s, armed) && ArmedExactly(s, armed)
    ensures forall r :: r in s ==> now < r.expirationTime
  {
    EarliestOnTop(s);
    assert s[0] in s;
  }

  /** The timer has expired since. */
  ghost predicate HasExpired(before: Lives, after: Lives, h: TimerHandle) {
    h in before && h in after && before[h].expiries < after[h].expiries
  }

  lemma ExpiredSince(s0: Requests, lives0: Lives, s: Requests, lives: Lives, horizon: nat, taken: bool)
    requires Progress(s0, lives0, s, lives) && s != [] && RequestsOk(s, lives, horizon)
    ensures s[0].timerHandle in lives && HasExpired(lives0, Expire(lives, s[0], taken), s[0].timerHandle)
  {
    assert s[0] in s;
  }

  lemma NotEarlyInsert(s: Requests, r: TimerRequest, armed: Option<nat>, armed': Option<nat>)
    requires IsHeap(Expiry, s, |s|) && !HasHandle(s, r.timerHandle) && r.expirationTime < ALREADY_FIRED
    requires var t := Pushed(Expiry, s, r);
      |t| == |s| + 1
      && (t[0].timerHandle == r.timerHandle ==> t[0] == r)
      && armed' == if t[0].timerHandle == r.timerHandle then Some(r.expirationTime) else armed
    requires NotEarly(s, armed)
    ensures NotEarly(Pushed(Expiry, s, r), armed')
  {
    hide IsHeap, Pushed;
    var t := Pushed(Expiry, s, r);
    PushKeepsHeap(Expiry, s, r);
    EarliestOnTop(t);
    forall q
      ensures q in t <==> q in s || q == r
    {
      assert q in t <==> q in multiset(t);
      assert q in s <==> q in multiset(s);
    }
    assert t[0] in t;
    if t[0].timerHandle != r.timerHandle && armed.Some? {
      assert t[0] in s && t[0].expirationTime < ALREADY_FIRED;
    }
  }

  lemma NotEarlyRemove(s: Requests, index: nat, armed: Option<nat>)
    requires 0 < index < |s| && IsHeap(Expiry, s, |s|) && Distinct(s) && NotEarly(s, armed)
    ensures NotEarly(Removed(Expiry, s, index), armed)
  {
    hide IsHeap, Removed;
    RemovedMembers(s, index);
    EarliestOnTop(s);
    assert s[0] in s && s[index] in s;
    assert s[0].timerHandle != s[index].timerHandle by {
      TwoPlaces(s, 0, index);
    }
  }

  lemma TwoPlaces(s: Requests, i: nat, j: nat)
    requires i < j < |s| && Distinct(s)
    ensures s[i].timerHandle != s[j].timerHandle
  {
    assert s[i] in s && s[j] in s;
    assert s == s[..j] + [s[j]] + s[j + 1..];
    assert multiset(s)[s[j]] == multiset(s[..j])[s[j]] + 1 + multiset(s[j + 1..])[s[j]];
    assert s[..j][i] in multiset(s[..j]);
  }

  lemma {:induction false} NanoappsAtMost(s: Requests)
    ensures Nanoapps(s) <= |s|
  {
    if s != [] {
      NanoappsAtMost(s[..|s| - 1]);
    }
  }

  lemma PushedLength(s: Requests, x: TimerRequest)
    ensures |Pushed(Expiry, s, x)| == |s| + 1
  {}

  lemma OwnersKept(s: Requests, lives: Lives, t: Requests, lives': Lives, id: nat)
    requires Progress(s, lives, t, lives') && id != SYSTEM_INSTANCE_ID
    ensures Total(s, OwnedBy(id)) == Total(t, OwnedBy(id))
  {}

  // ----------------------------------------------------------------------------------------
  // What the invariant means for one timer

  /** A one-shot timer is delivered at most once, counting the callback that may still be in flight. */
  lemma OneShotDeliveredOnce(lives: Lives, callbacks: multiset<Callback>, clock: nat, h: TimerHandle)
    requires Punctual(lives, clock) && Accounted(lives, callbacks) && h in lives && lives[h].isOneShot
    ensures lives[h].deliveries + callbacks[Expired(h)] <= 1
  {}

  /** A pending periodic timer that has been brought up to date has expired exactly as often as whole periods have
    passed since it was set, however late each expiry was noticed. */
  lemma PeriodicDoesNotDrift(s: Requests, lives: Lives, clock: nat, horizon: nat, r: TimerRequest)
    requires RequestsOk(s, lives, horizon) && Punctual(lives, clock) && r in s && !r.isOneShot
    requires clock < r.expirationTime
    ensures var l := lives[r.timerHandle];
      && l.expiries == (clock - l.start) / r.duration
      && r.expirationTime == l.start + (l.expiries + 1) * r.duration
  {
    var l := lives[r.timerHandle];
    TimesIsProduct(l.expiries, r.duration);
    TimesIsProduct(l.expiries + 1, r.duration);
    Quotient(clock - l.start, r.duration, l.expiries);
  }

  lemma {:induction false} TimesIsProduct(k: nat, d: nat)
    ensures Times(k, d) == k * d
  {
    if k > 0 {
      TimesIsProduct(k - 1, d);
    }
  }

  lemma Quotient(x: nat, d: nat, k: nat)
    requires d > 0 && k * d <= x < (k + 1) * d
    ensures x / d == k
  {
    var q := x / d;
    assert q * d <= x < (q + 1) * d;
    ProductMonotone(q + 1, k, d);
    ProductMonotone(k + 1, q, d);
  }

  lemma ProductMonotone(a: int, b: int, d: nat)
    ensures a <= b ==> a * d <= b * d
  {
    assert a <= b ==> (b - a) * d >= 0;
  }

  // ----------------------------------------------------------------------------------------
  // Cancelling all the timers of a nanoapp

  /** The scan of `cancelAllNanoappTimers` from position `i` down, each removal re-ordering the heap. */
  function CancelScan(s: Requests, instanceId: nat, i: nat): Requests
    requires i <= |s|
    decreases i
  {
    if i == 0 then s
    else if s[i - 1].instanceId == instanceId then CancelScan(Removed(Expiry, s, i - 1), instanceId, i - 1)
    else CancelScan(s, instanceId, i - 1)
  }

  /** A removal moves another of the nanoapp's timers down to the position just scanned: the parent's, when the last
    request of the queue takes its place. */
  predicate Skips(s: Requests, instanceId: nat, i: nat)
    requires i < |s|
  {
    0 < i < |s| - 1 && s[Parent(i)].instanceId == instanceId && After(Expiry, s[Parent(i)], s[|s| - 1])
  }

  /** What a removal at `i` changes in the number of the nanoapp's timers the scan has passed: the parent's may come
    down, and the last of the queue, if it is one of them, goes up. */
  function Drift(s: Requests, instanceId: nat, i: nat): int
    requires i < |s|
  {
    if 0 < i < |s| - 1 && After(Expiry, s[Parent(i)], s[|s| - 1]) then
      OwnedBy(instanceId)(s[Parent(i)]) - OwnedBy(instanceId)(s[|s| - 1])
    else 0
  }

  function Missed(s: Requests, instanceId: nat, i: nat): int
    requires i <= |s|
    decreases i
  {
    if i == 0 then 0
    else if s[i - 1].instanceId == instanceId then
      Drift(s, instanceId, i - 1) + Missed(Removed(Expiry, s, i - 1), instanceId, i - 1)
    else Missed(s, instanceId, i - 1)
  }

  predicate NoneFrom(s: Requests, instanceId: nat, i: nat)
    requires i <= |s|
  {
    forall k :: i <= k < |s| ==> s[k].instanceId != instanceId
  }

  lemma TotalFirst(s: Requests, weight: TimerRequest -> nat, i: nat)
    requires i < |s|
    ensures Total(s[i..], weight) == weight(s[i]) + Total(s[i + 1..], weight)
  {
    var t := s[i..];
    TotalRemove(t, weight, 0);
    assert t[..0] + t[0 + 1..] == s[i + 1..];
  }

  lemma TotalLast(s: Requests, weight: TimerRequest -> nat, i: nat)
    requires i < |s|
    ensures Total(s[i..], weight) == Total(s[i..|s| - 1], weight) + weight(s[|s| - 1])
  {
    var t := s[i..];
    assert t[..|t| - 1] == s[i..|s| - 1];
  }

  lemma InThree(r: Requests, i: nat, n: nat)
    requires i <= n <= |r|
    ensures multiset(r) == multiset(r[..i]) + multiset(r[i..n]) + multiset(r[n..])
  {
    assert r == r[..i] + r[i..n] + r[n..];
  }

  lemma MiddlePermuted(r: Requests, t: Requests, i: nat, n: nat)
    requires i <= n <= |r| == |t| && multiset(r) == multiset(t) && r[..i] == t[..i] && r[n..] == t[n..]
    ensures multiset(r[i..n]) == multiset(t[i..n])
  {
    InThree(r, i, n);
    InThree(t, i, n);
    forall x
      ensures multiset(r[i..n])[x] == multiset(t[i..n])[x]
    {
      assert multiset(r)[x] == multiset(r[..i])[x] + multiset(r[i..n])[x] + multiset(r[n..])[x];
      assert multiset(t)[x] == multiset(t[..i])[x] + multiset(t[i..n])[x] + multiset(t[n..])[x];
    }
  }

  /** A removal that sinks the last request only permutes what is from `i` on. */
  lemma RemovedBySinking(s: Requests, i: nat)
    requires i < |s| - 1
    requires i == 0 || !After(Expiry, s[Parent(i)], s[|s| - 1])
    ensures multiset(Removed(Expiry, s, i)[i..]) == multiset([s[|s| - 1]] + s[i + 1..|s| - 1])
  {
    hide SiftedUp, SiftedDown, Swap, After;
    var n := |s| - 1;
    var t := Swap(s, i, n);
    SwapAt(s, i, n);
    var r := SiftedDown(Expiry, t, n, i);
    assert r[..i] == t[..i] && r[n..] == t[n..];
    MiddlePermuted(r, t, i, n);
    assert t[i..n] == [s[n]] + s[i + 1..n];
    assert Removed(Expiry, s, i)[i..] == r[i..n];
  }

  lemma RemovedByRising(s: Requests, i: nat)
    requires 0 < i < |s| - 1 && After(Expiry, s[Parent(i)], s[|s| - 1])
    ensures Removed(Expiry, s, i)[i..] == [s[Parent(i)]] + s[i + 1..|s| - 1]
  {
    hide SiftedUp, SiftedDown, Swap, After;
    var t := Swap(s, i, |s| - 1);
    SwappedOut(s, i);
    SiftedUpFrom(t, i);
  }

  lemma TotalWithFirst(x: TimerRequest, s: Requests, weight: TimerRequest -> nat)
    ensures Total([x] + s, weight) == weight(x) + Total(s, weight)
  {
    var t := [x] + s;
    TotalRemove(t, weight, 0);
    assert t[..0] + t[0 + 1..] == s;
  }

  /** What is passed after a removal at `i`. */
  lemma RemovedDrift(s: Requests, instanceId: nat, i: nat)
    requires i < |s|
    ensures Total(Removed(Expiry, s, i)[i..], OwnedBy(instanceId))
         == Total(s[i + 1..], OwnedBy(instanceId)) + Drift(s, instanceId, i)
  {
    hide Removed, Total, After, OwnedBy;
    var (n, own) := (|s| - 1, OwnedBy(instanceId));
    var r := Removed(Expiry, s, i);
    if i == n {
      assert r[i..] == [] && s[i + 1..] == [];
    } else {
      TotalLast(s, own, i + 1);
      if i > 0 && After(Expiry, s[Parent(i)], s[n]) {
        RemovedByRising(s, i);
        TotalWithFirst(s[Parent(i)], s[i + 1..n], own);
      } else {
        RemovedBySinking(s, i);
        TotalPermuted(r[i..], [s[n]] + s[i + 1..n], own);
        TotalWithFirst(s[n], s[i + 1..n], own);
      }
    }
  }

  /** Exactly so many of the nanoapp's timers survive the scan from `i` down. */
  lemma {:induction false} CancelScanLeaves(s: Requests, instanceId: nat, i: nat)
    requires i <= |s|
    ensures Total(CancelScan(s, instanceId, i), OwnedBy(instanceId))
         == Total(s[i..], OwnedBy(instanceId)) + Missed(s, instanceId, i)
    decreases i
  {
    hide Removed, Total, Drift;
    if i == 0 {
      assert s[0..] == s;
    } else if s[i - 1].instanceId == instanceId {
      RemovedDrift(s, instanceId, i - 1);
      CancelScanLeaves(Removed(Expiry, s, i - 1), instanceId, i - 1);
    } else {
      TotalFirst(s, OwnedBy(instanceId), i - 1);
      CancelScanLeaves(s, instanceId, i - 1);
    }
  }

  /** All the timers go exactly when no more come down than go up. */
  lemma CancelScanComplete(s: Requests, instanceId: nat)
    ensures Total(CancelScan(s, instanceId, |s|), OwnedBy(instanceId)) == 0 <==> Missed(s, instanceId, |s|) == 0
  {
    hide CancelScan, Missed;
    CancelScanLeaves(s, instanceId, |s|);
    assert s[|s|..] == [];
  }

  /** Of the requests that sifting up moves down, only the parent's goes as far as the starting position. */
  lemma {:induction false} SiftedUpFrom(s: Requests, current: nat)
    requires current < |s|
    ensures SiftedUp(Expiry, s, current)[current]
         == if current > 0 && After(Expiry, s[Parent(current)], s[current]) then s[Parent(current)] else s[current]
  {
    if current > 0 && After(Expiry, s[Parent(current)], s[current]) {
      var t := Swap(s, Parent(current), current);
      assert SiftedUp(Expiry, t, Parent(current))[current] == t[current];
    }
  }

  lemma {:induction false} SiftedDownFrom(s: Requests, n: nat, current: nat, i: nat, instanceId: nat)
    requires i <= current < n <= |s|
    requires forall k :: i <= k < n ==> s[k].instanceId != instanceId
    ensures forall k :: i <= k < n ==> SiftedDown(Expiry, s, n, current)[k].instanceId != instanceId
    decreases n - current
  {
    if Sinks(Expiry, s, n, current) {
      var child := DominantChild(Expiry, s, n, current);
      SiftedDownFrom(Swap(s, current, child), n, child, i, instanceId);
    }
  }

  /** A removal leaves one of the nanoapp's timers behind the scan exactly when it skips one. */
  lemma RemovedNoneFrom(s: Requests, instanceId: nat, i: nat)
    requires i < |s| && NoneFrom(s, instanceId, i + 1)
    ensures NoneFrom(Removed(Expiry, s, i), instanceId, i) <==> !Skips(s, instanceId, i)
  {
    hide SiftedUp, SiftedDown, Swap;
    var n := |s| - 1;
    var t := Swap(s, i, n);
    SwappedOut(s, i);
    if i < n {
      if i > 0 && After(Expiry, t[Parent(i)], t[i]) {
        SiftedUpFrom(t, i);
        assert Removed(Expiry, s, i)[i] == s[Parent(i)];
        assert forall k :: i < k < n ==> SiftedUp(Expiry, t, i)[k] == t[k];
      } else {
        SiftedDownFrom(t, n, i, i, instanceId);
      }
    }
  }

  lemma SwappedOut(s: Requests, i: nat)
    requires i < |s|
    ensures var t := Swap(s, i, |s| - 1);
      t[i] == s[|s| - 1] && forall k :: 0 <= k < |s| - 1 && k != i ==> t[k] == s[k]
  {}

  // ----------------------------------------------------------------------------------------
  // Which queues lose all of a nanoapp's timers

  predicate Owns(r: TimerRequest, instanceId: nat) { r.instanceId == instanceId }

  lemma {:induction false} MissedPasses(s: Requests, instanceId: nat, i: nat, j: nat)
    requires i <= j <= |s| && forall k :: i <= k < j ==> !Owns(s[k], instanceId)
    ensures Missed(s, instanceId, j) == Missed(s, instanceId, i)
    decreases j
  {
    if i < j {
      assert !Owns(s[j - 1], instanceId);
      MissedPasses(s, instanceId, i, j - 1);
    }
  }

  lemma TotalOfTwo(s: Requests, instanceId: nat, i: nat, j: nat)
    requires i < j < |s| && Owns(s[i], instanceId) && Owns(s[j], instanceId)
    ensures Total(s, OwnedBy(instanceId)) >= 2
  {
    var own := OwnedBy(instanceId);
    TotalRemove(s, own, j);
    var rest := s[..j] + s[j + 1..];
    assert rest[i] == s[i];
    TotalRemove(rest, own, i);
  }

  lemma {:induction false} TotalWithin(s: Requests, instanceId: nat, i: nat, j: nat)
    requires i < j && forall k :: 0 <= k < |s| && Owns(s[k], instanceId) ==> k == i || k == j
    ensures Total(s, OwnedBy(instanceId)) <= (if |s| <= i then 0 else if |s| <= j then 1 else 2)
  {
    if s != [] {
      TotalWithin(s[..|s| - 1], instanceId, i, j);
    }
  }

  /** A nanoapp's only timer is not missed. */
  lemma {:induction false} MissedNoneOfOne(s: Requests, instanceId: nat, i: nat)
    requires i <= |s| && IsHeap(Expiry, s, |s|) && Total(s, OwnedBy(instanceId)) <= 1
    ensures Missed(s, instanceId, i) == 0
    decreases i
  {
    hide IsHeap, Removed, Total;
    if i > 0 {
      if Owns(s[i - 1], instanceId) {
        forall k | 0 <= k < |s| && k != i - 1
          ensures !Owns(s[k], instanceId)
        {
          if Owns(s[k], instanceId) {
            TotalOfTwo(s, instanceId, if k < i - 1 then k else i - 1, if k < i - 1 then i - 1 else k);
          }
        }
        TotalRemoved(Expiry, s, i - 1, OwnedBy(instanceId));
        RemovedIsHeap(Expiry, s, i - 1);
        MissedNoneOfOne(Removed(Expiry, s, i - 1), instanceId, i - 1);
      } else {
        MissedNoneOfOne(s, instanceId, i - 1);
      }
    }
  }

  /** Of a nanoapp's two timers one survives exactly when it is the other's parent and expires after the last request
    of the queue. */
  lemma CancelTwo(s: Requests, instanceId: nat, i: nat, j: nat)
    requires i < j < |s| && IsHeap(Expiry, s, |s|)
    requires forall k :: 0 <= k < |s| ==> (Owns(s[k], instanceId) <==> k == i || k == j)
    ensures Total(CancelScan(s, instanceId, |s|), OwnedBy(instanceId)) == (if Skips(s, instanceId, j) then 1 else 0)
  {
    hide IsHeap, Removed, Total, CancelScan;
    CancelScanLeaves(s, instanceId, |s|);
    assert s[|s|..] == [];
    assert Total(s[|s|..], OwnedBy(instanceId)) == 0 by { NothingOwned(instanceId); }
    MissedPasses(s, instanceId, j + 1, |s|);
    assert Owns(s[j], instanceId);
    TotalWithin(s, instanceId, i, j);
    TotalRemoved(Expiry, s, j, OwnedBy(instanceId));
    RemovedIsHeap(Expiry, s, j);
    MissedNoneOfOne(Removed(Expiry, s, j), instanceId, j);
    if j < |s| - 1 {
      assert !Owns(s[|s| - 1], instanceId);
      assert Owns(s[Parent(j)], instanceId) <==> Parent(j) == i;
    }
  }

  lemma NothingOwned(instanceId: nat)
    ensures Total([], OwnedBy(instanceId)) == 0
  {}

  /** `p` lies above `q` in the heap. */
  predicate Above(p: nat, q: nat)
    decreases q
  {
    q > 0 && (Parent(q) == p || Above(p, Parent(q)))
  }

  lemma {:induction false} SiftedUpOffPath(s: Requests, current: nat, k: nat)
    requires current < |s| && k < |s| && k != current && !Above(k, current)
    ensures SiftedUp(Expiry, s, current)[k] == s[k]
    decreases current
  {
    if current > 0 && After(Expiry, s[Parent(current)], s[current]) {
      var t := Swap(s, Parent(current), current);
      assert t[k] == s[k];
      SiftedUpOffPath(t, Parent(current), k);
    }
  }

  /** What rises from `current` meets only requests above it. */
  lemma {:induction false} SiftedUpOnPath(s: Requests, current: nat, k: nat, instanceId: nat)
    requires current < |s| && k < |s| && !Owns(s[current], instanceId)
    requires forall p :: 0 <= p < |s| && Above(p, current) ==> !Owns(s[p], instanceId)
    requires k == current || Above(k, current)
    ensures !Owns(SiftedUp(Expiry, s, current)[k], instanceId)
    decreases current
  {
    assert !Owns(s[k], instanceId);
    if current > 0 && After(Expiry, s[Parent(current)], s[current]) {
      var t := Swap(s, Parent(current), current);
      assert Above(Parent(current), current);
      forall p | 0 <= p < |t| && Above(p, Parent(current))
        ensures !Owns(t[p], instanceId)
      {
        assert Above(p, current);
        AboveIsSmaller(p, Parent(current));
      }
      if k == current {
        assert SiftedUp(Expiry, t, Parent(current))[k] == t[k];
      } else {
        SiftedUpOnPath(t, Parent(current), k, instanceId);
      }
    }
  }

  lemma {:induction false} AboveIsSmaller(p: nat, q: nat)
    requires Above(p, q)
    ensures p < q
    decreases q
  {
    if Parent(q) != p {
      AboveIsSmaller(p, Parent(q));
    }
  }

  /** None of the nanoapp's timers among the first `i` requests lies above another. */
  predicate Apart(s: Requests, instanceId: nat, i: nat)
    requires i <= |s|
  {
    forall p, q :: 0 <= p < q < i && Owns(s[p], instanceId) && Owns(s[q], instanceId) ==> !Above(p, q)
  }

  /** Removing the last of them leaves the others where they are. */
  lemma RemovedKeepsOwners(s: Requests, instanceId: nat, i: nat, k: nat)
    requires k < i < |s| && IsHeap(Expiry, s, |s|)
    requires NoneFrom(s, instanceId, i + 1) && Owns(s[i], instanceId) && Apart(s, instanceId, i + 1)
    ensures Owns(Removed(Expiry, s, i)[k], instanceId) <==> Owns(s[k], instanceId)
  {
    hide SiftedUp, SiftedDown, Swap, After;
    var n := |s| - 1;
    var t := Swap(s, i, n);
    SwappedOut(s, i);
    assert Ordered(Expiry, s, i);
    if i < n && After(Expiry, t[Parent(i)], t[i]) {
      if Above(k, i) {
        forall p | 0 <= p < |t| && Above(p, i)
          ensures !Owns(t[p], instanceId)
        {
          AboveIsSmaller(p, i);
        }
        SiftedUpOnPath(t, i, k, instanceId);
      } else {
        SiftedUpOffPath(t, i, k);
      }
    }
  }

  lemma {:induction false} ApartMissesNone(s: Requests, instanceId: nat, i: nat)
    requires i <= |s| && IsHeap(Expiry, s, |s|) && NoneFrom(s, instanceId, i) && Apart(s, instanceId, i)
    ensures Missed(s, instanceId, i) == 0
    decreases i
  {
    hide Removed;
    if i > 0 {
      if Owns(s[i - 1], instanceId) {
        var t := Removed(Expiry, s, i - 1);
        assert !Skips(s, instanceId, i - 1) && Drift(s, instanceId, i - 1) == 0 by {
          assert i - 1 > 0 ==> Above(Parent(i - 1), i - 1);
        }
        RemovedNoneFrom(s, instanceId, i - 1);
        RemovedIsHeap(Expiry, s, i - 1);
        forall k | 0 <= k < i - 1
          ensures Owns(t[k], instanceId) <==> Owns(s[k], instanceId)
        {
          RemovedKeepsOwners(s, instanceId, i - 1, k);
        }
        ApartMissesNone(t, instanceId, i - 1);
      } else {
        ApartMissesNone(s, instanceId, i - 1);
      }
    }
  }

  /** A nanoapp loses all its timers, however many, if none of them lies above another. */
  lemma CancelAllApart(s: Requests, instanceId: nat)
    requires IsHeap(Expiry, s, |s|) && Apart(s, instanceId, |s|)
    ensures Total(CancelScan(s, instanceId, |s|), OwnedBy(instanceId)) == 0
  {
    hide CancelScan, Missed;
    ApartMissesNone(s, instanceId, |s|);
    CancelScanComplete(s, instanceId);
  }

  lemma RemovedFourth(s: Requests)
    requires |s| == 6 && IsHeap(Expiry, s, 6) && After(Expiry, s[1], s[5])
    ensures Removed(Expiry, s, 3) == [s[0], s[5], s[2], s[1], s[4]]
  {
    hide IsHeap, Swap;
    HeapOrder(s);
    var t := Swap(s, 3, 5);
    SwapAt(s, 3, 5);
    var u := Swap(t, 1, 3);
    SwapAt(t, 1, 3);
    assert Parent(3) == 1 && Parent(1) == 0;
    assert SiftedUp(Expiry, u, 1) == u;
    assert SiftedUp(Expiry, t, 3) == u;
  }

  lemma SwapAt(s: Requests, i: nat, j: nat)
    requires i < j < |s|
    ensures var t := Swap(s, i, j);
      t[i] == s[j] && t[j] == s[i] && forall k :: 0 <= k < |s| && k != i && k != j ==> t[k] == s[k]
  {}

  /** One of the nanoapp's two timers, at the second and the fourth place, survives: removing the one at the fourth
    brings the last request of the queue there, which rises past the other and so moves that to where the scan has
    already been. */
  lemma CancelAllLeavesOne(s: Requests, id: nat)
    requires |s| == 6 && IsHeap(Expiry, s, 6) && After(Expiry, s[1], s[5])
    requires forall k :: 0 <= k < 6 ==> (s[k].instanceId == id <==> k == 1 || k == 3)
    ensures CancelScan(s, id, 6) == [s[0], s[5], s[2], s[1], s[4]]
  {
    hide IsHeap, Removed;
    RemovedFourth(s);
    var r := Removed(Expiry, s, 3);
    ScanPasses(r, id, 3);
    ScanPasses(s, id, 6);
    ScanPasses(s, id, 5);
    assert s[3].instanceId == id;
  }

  lemma HeapOrder(s: Requests)
    requires |s| == 6 && IsHeap(Expiry, s, 6)
    ensures !After(Expiry, s[0], s[5])
  {
    assert Ordered(Expiry, s, 5) && Ordered(Expiry, s, 2);
    assert Parent(5) == 2 && Parent(2) == 0;
  }

  lemma {:induction false} ScanPasses(s: Requests, id: nat, i: nat)
    requires 0 < i <= |s| && s[i - 1].instanceId != id
    ensures CancelScan(s, id, i) == CancelScan(s, id, i - 1)
    ensures (forall k :: 0 <= k < i ==> s[k].instanceId != id) ==> CancelScan(s, id, i) == s
  {
    if i > 1 && s[i - 2].instanceId != id {
      ScanPasses(s, id, i - 1);
    }
  }

  /** There is such a queue. */
  lemma CancelAllLeavesOneExample() returns (s: Requests, id: nat)
    ensures |s| == 6 && IsHeap(Expiry, s, 6) && After(Expiry, s[1], s[5]) && id != SYSTEM_INSTANCE_ID
    ensures Total(CancelScan(s, id, 6), OwnedBy(id)) > 0
  {
    id := 1;
    s := [Request(2, 0, 1), Request(1, 1, 10), Request(2, 2, 2),
          Request(1, 3, 11), Request(2, 4, 12), Request(2, 5, 3)];
    ExampleIsHeap(s);
    CancelAllLeavesOne(s, id);
    TotalRemove(CancelScan(s, id, 6), OwnedBy(1), 3);
  }

  lemma ExampleIsHeap(s: Requests)
    requires |s| == 6 && s[0].expirationTime == 1 && s[1].expirationTime == 10 && s[2].expirationTime == 2
    requires s[3].expirationTime == 11 && s[4].expirationTime == 12 && s[5].expirationTime == 3
    ensures IsHeap(Expiry, s, 6)
  {
    forall i | 0 <= i < 6
      ensures Ordered(Expiry, s, i)
    {
      assert i == 1 || i == 2 ==> Parent(i) == 0;
      assert i == 3 || i == 4 ==> Parent(i) == 1;
      assert i == 5 ==> Parent(i) == 2;
    }
  }

  function Request(instanceId: nat, timerHandle: TimerHandle, expirationTime: uint64): TimerRequest {
    TimerRequest(instanceId, timerHandle, expirationTime, expirationTime, 0, true)
  }
}
