/**
 * The queue of sensor flush requests: at most one flush per sensor is with the platform at a time.
 */
module SensorFlush {
  import opened Util

  const MAX_FLUSH_REQUESTS: nat := 16
  const FLUSH_COMPLETE_TIMEOUT_NS: nat := 5_000_000_000

  /** What a nanoapp asked for. */
  datatype Flush = Flush(sensorHandle: nat, nanoappInstanceId: nat, cookie: nat, deadlineTimestamp: nat)

  function FlushAt(sensorHandle: nat, nanoappInstanceId: nat, cookie: nat, now: nat): Flush {
    Flush(sensorHandle, nanoappInstanceId, cookie, now + FLUSH_COMPLETE_TIMEOUT_NS)
  }

  datatype FlushRequest = FlushRequest(flush: Flush, isActive: bool)

  /** `timer`: when the flush that is with the platform times out. */
  datatype Sensor = Sensor(enabled: bool, isOneShot: bool, flushPending: bool, timer: Option<nat>)

  /** A completion event; it is lost when there is no memory for it. */
  datatype Completion = Completion(flush: Flush, errorCode: ChreError, posted: bool)

  /** A flush that the platform was asked for, and whether it took it. */
  datatype Offer = Offer(flush: Flush, taken: bool)

  type Queue = seq<FlushRequest>

  predicate For(q: Queue, j: nat, h: nat)
    requires j < |q|
  {
    q[j].flush.sensorHandle == h
  }

  predicate Has(q: Queue, h: nat) {
    exists j :: 0 <= j < |q| && For(q, j, h)
  }

  predicate NoneBefore(q: Queue, h: nat, j: nat)
    requires j <= |q|
  {
    forall k :: 0 <= k < j ==> !For(q, k, h)
  }

  // ----------------------------------------------------------------------------------------
  // Invariants

  /** Of the sensor's requests exactly the first is active. */
  predicate FirstActive(q: Queue, h: nat) {
    forall j :: 0 <= j < |q| && For(q, j, h) ==> (q[j].isActive <==> NoneBefore(q, h, j))
  }

  /** None of the sensor's requests is active. */
  predicate Inactive(q: Queue, h: nat) {
    forall j :: 0 <= j < |q| && For(q, j, h) ==> !q[j].isActive
  }

  predicate SensorOk(q: Queue, pending: bool, h: nat) {
    (pending <==> Has(q, h)) && (pending ==> FirstActive(q, h))
  }

  /** The same while the next request is still to be dispatched. */
  predicate SensorOkOrIdle(q: Queue, pending: bool, h: nat) {
    if pending then Has(q, h) && FirstActive(q, h) else Inactive(q, h)
  }

  ghost predicate OthersOk(q: Queue, sensors: seq<Sensor>, h: nat) {
    forall k :: 0 <= k < |sensors| && k != h ==> SensorOk(q, sensors[k].flushPending, k)
  }

  ghost predicate AllOk(q: Queue, sensors: seq<Sensor>) {
    forall k :: 0 <= k < |sensors| ==> SensorOk(q, sensors[k].flushPending, k)
  }

  predicate HandlesOk(q: Queue, n: nat) {
    forall j :: 0 <= j < |q| ==> q[j].flush.sensorHandle < n
  }

  /** A flush with the platform is watched by a timer, or its completion is on its way, or that was refused. */
  ghost predicate Watched(sensors: seq<Sensor>, callbacks: multiset<nat>, lost: set<nat>) {
    forall k :: 0 <= k < |sensors| && sensors[k].flushPending ==>
      sensors[k].timer.Some? || k in callbacks || k in lost
  }

  function Flushes(q: Queue): seq<Flush> { seq(|q|, i requires 0 <= i < |q| => q[i].flush) }

  function Completed(c: seq<Completion>): seq<Flush> { seq(|c|, i requires 0 <= i < |c| => c[i].flush) }

  /** Every accepted flush is queued or completed, once. */
  ghost predicate Conserved(accepted: multiset<Flush>, q: Queue, c: seq<Completion>) {
    accepted == multiset(Flushes(q)) + multiset(Completed(c))
  }

  // ----------------------------------------------------------------------------------------
  // Erasing a request

  lemma EraseIndex(q: Queue, i: nat)
    requires i < |q|
    ensures forall j :: 0 <= j < |q| - 1 ==> Erase(q, i)[j] == q[if j < i then j else j + 1]
  {}

  lemma EraseNoneBefore(q: Queue, i: nat, h: nat, j: nat)
    requires i < |q| && j < |q| - 1 && (!For(q, i, h) || !NoneBefore(q, h, i))
    ensures NoneBefore(Erase(q, i), h, j) <==> NoneBefore(q, h, if j < i then j else j + 1)
  {
    EraseIndex(q, i);
    var e := Erase(q, i);
    var j' := if j < i then j else j + 1;
    if NoneBefore(q, h, j') {
      forall k | 0 <= k < j
        ensures !For(e, k, h)
      {
        assert !For(q, if k < i then k else k + 1, h);
      }
    }
    if NoneBefore(e, h, j) {
      forall k | 0 <= k < j' && k != i
        ensures !For(q, k, h)
      {
        assert !For(e, if k < i then k else k - 1, h);
      }
    }
  }

  /** Erasing a request that is not the sensor's first leaves the first in place. */
  lemma EraseLater(q: Queue, i: nat, h: nat)
    requires i < |q| && (!For(q, i, h) || !NoneBefore(q, h, i))
    ensures Has(q, h) <==> Has(Erase(q, i), h)
    ensures FirstActive(q, h) ==> FirstActive(Erase(q, i), h)
    ensures Inactive(q, h) ==> Inactive(Erase(q, i), h)
  {
    EraseIndex(q, i);
    var e := Erase(q, i);
    if Has(q, h) {
      var j :| 0 <= j < |q| && For(q, j, h) && j != i;
      assert For(e, if j < i then j else j - 1, h);
    }
    forall j | 0 <= j < |e| && For(e, j, h)
      ensures Has(q, h)
      ensures FirstActive(q, h) ==> (e[j].isActive <==> NoneBefore(e, h, j))
      ensures Inactive(q, h) ==> !e[j].isActive
    {
      var j' := if j < i then j else j + 1;
      assert For(q, j', h);
      EraseNoneBefore(q, i, h, j);
    }
  }

  /** Erasing the sensor's first request leaves no active one. */
  lemma EraseFirst(q: Queue, i: nat, h: nat)
    requires i < |q| && For(q, i, h) && NoneBefore(q, h, i)
    ensures FirstActive(q, h) || Inactive(q, h) ==> Inactive(Erase(q, i), h)
  {
    EraseIndex(q, i);
    var e := Erase(q, i);
    forall j | 0 <= j < |e| && For(e, j, h)
      ensures FirstActive(q, h) ==> !e[j].isActive
      ensures Inactive(q, h) ==> !e[j].isActive
    {
      assert j >= i ==> For(q, j + 1, h);
      assert j < i ==> For(q, j, h);
    }
  }

  lemma EraseOthers(q: Queue, i: nat, sensors: seq<Sensor>)
    requires i < |q| && HandlesOk(q, |sensors|)
    ensures OthersOk(q, sensors, q[i].flush.sensorHandle) ==> OthersOk(Erase(q, i), sensors, q[i].flush.sensorHandle)
    ensures HandlesOk(Erase(q, i), |sensors|)
  {
    EraseIndex(q, i);
    forall k | 0 <= k < |sensors| && k != q[i].flush.sensorHandle
      ensures SensorOk(q, sensors[k].flushPending, k) ==> SensorOk(Erase(q, i), sensors[k].flushPending, k)
    {
      EraseLater(q, i, k);
    }
  }

  lemma EraseConserves(accepted: multiset<Flush>, q: Queue, c: seq<Completion>, i: nat, done: Completion)
    requires i < |q| && done.flush == q[i].flush && Conserved(accepted, q, c)
    ensures Conserved(accepted, Erase(q, i), c + [done])
  {
    var f := Flushes(q);
    assert Flushes(Erase(q, i)) == Erase(f, i);
    assert Completed(c + [done]) == Completed(c) + [f[i]];
    assert f == f[..i] + [f[i]] + f[i + 1..];
  }

  // ----------------------------------------------------------------------------------------
  // Activating a request

  function Activate(q: Queue, i: nat): Queue
    requires i < |q|
  {
    q[i := q[i].(isActive := true)]
  }

  lemma ActivateFor(q: Queue, i: nat, h: nat)
    requires i < |q|
    ensures forall j :: 0 <= j < |q| ==> For(Activate(q, i), j, h) == For(q, j, h)
    ensures forall j :: 0 <= j <= |q| ==> NoneBefore(Activate(q, i), h, j) == NoneBefore(q, h, j)
  {
    forall j | 0 <= j <= |q|
      ensures NoneBefore(Activate(q, i), h, j) == NoneBefore(q, h, j)
    {
      forall k | 0 <= k < j
        ensures For(Activate(q, i), k, h) == For(q, k, h)
      {}
    }
  }

  lemma ActivateFirst(q: Queue, i: nat, h: nat)
    requires i < |q| && For(q, i, h) && NoneBefore(q, h, i) && Inactive(q, h)
    ensures SensorOk(Activate(q, i), true, h)
  {
    ActivateFor(q, i, h);
    var t := Activate(q, i);
    assert For(t, i, h);
    forall j | 0 <= j < |t| && For(t, j, h)
      ensures t[j].isActive <==> NoneBefore(t, h, j)
    {
      assert For(q, j, h);
      assert NoneBefore(q, h, j) <==> j <= i;
    }
  }

  lemma ActivateOther(q: Queue, i: nat, pending: bool, h: nat)
    requires i < |q| && !For(q, i, h) && SensorOk(q, pending, h)
    ensures SensorOk(Activate(q, i), pending, h)
  {
    ActivateFor(q, i, h);
    var t := Activate(q, i);
    assert forall j :: 0 <= j < |t| && For(t, j, h) ==> For(q, j, h) && t[j] == q[j];
    if Has(q, h) {
      var j :| 0 <= j < |q| && For(q, j, h);
      assert For(t, j, h);
    }
  }

  lemma ActivateOthers(q: Queue, i: nat, sensors: seq<Sensor>)
    requires i < |q| && HandlesOk(q, |sensors|) && OthersOk(q, sensors, q[i].flush.sensorHandle)
    ensures OthersOk(Activate(q, i), sensors, q[i].flush.sensorHandle) && HandlesOk(Activate(q, i), |sensors|)
  {
    forall k | 0 <= k < |sensors| && k != q[i].flush.sensorHandle
      ensures SensorOk(Activate(q, i), sensors[k].flushPending, k)
    {
      ActivateOther(q, i, sensors[k].flushPending, k);
    }
  }

  // ----------------------------------------------------------------------------------------
  // Queueing a request

  lemma AppendFor(q: Queue, x: FlushRequest, h: nat)
    ensures forall j :: 0 <= j < |q| ==> For(q + [x], j, h) == For(q, j, h)
    ensures forall j :: 0 <= j <= |q| ==> NoneBefore(q + [x], h, j) == NoneBefore(q, h, j)
    ensures NoneBefore(q, h, |q|) <==> !Has(q, h)
    ensures Has(q + [x], h) <==> Has(q, h) || x.flush.sensorHandle == h
  {
    var t := q + [x];
    assert forall j :: 0 <= j < |q| ==> For(t, j, h) == For(q, j, h);
    assert For(t, |q|, h) <==> x.flush.sensorHandle == h;
    forall j | 0 <= j <= |q|
      ensures NoneBefore(t, h, j) == NoneBefore(q, h, j)
    {
      forall k | 0 <= k < j
        ensures For(t, k, h) == For(q, k, h)
      {}
    }
    if Has(q, h) {
      var j :| 0 <= j < |q| && For(q, j, h);
      assert For(t, j, h);
    }
  }

  lemma AppendKeeps(q: Queue, x: FlushRequest, pending: bool, h: nat)
    requires SensorOk(q, pending, h) && !x.isActive
    ensures x.flush.sensorHandle != h || pending ==> SensorOk(q + [x], pending, h)
    ensures x.flush.sensorHandle == h && !pending ==> Inactive(q + [x], h) && NoneBefore(q + [x], h, |q|)
  {
    AppendFor(q, x, h);
    var t := q + [x];
    forall j | 0 <= j < |t| && For(t, j, h)
      ensures pending ==> (t[j].isActive <==> NoneBefore(t, h, j))
      ensures !pending ==> !t[j].isActive
    {
      assert j < |q| ==> For(q, j, h);
    }
  }

  lemma AppendAll(q: Queue, x: FlushRequest, sensors: seq<Sensor>)
    requires AllOk(q, sensors) && HandlesOk(q, |sensors|) && !x.isActive && x.flush.sensorHandle < |sensors|
    ensures OthersOk(q + [x], sensors, x.flush.sensorHandle) && HandlesOk(q + [x], |sensors|)
  {
    forall k | 0 <= k < |sensors| && k != x.flush.sensorHandle
      ensures SensorOk(q + [x], sensors[k].flushPending, k)
    {
      AppendKeeps(q, x, sensors[k].flushPending, k);
    }
  }

  lemma AppendConserves(accepted: multiset<Flush>, q: Queue, c: seq<Completion>, x: FlushRequest)
    requires Conserved(accepted, q, c)
    ensures Conserved(accepted + multiset{x.flush}, q + [x], c)
  {
    assert Flushes(q + [x]) == Flushes(q) + [x.flush];
  }

  lemma ActivateConserves(accepted: multiset<Flush>, q: Queue, c: seq<Completion>, i: nat)
    requires i < |q| && Conserved(accepted, q, c)
    ensures Conserved(accepted, Activate(q, i), c)
  {
    assert Flushes(Activate(q, i)) == Flushes(q);
  }

  // ----------------------------------------------------------------------------------------

  class SensorRequestManager {
    var sensors: seq<Sensor>
    var flushRequestQueue: seq<FlushRequest>
    var completions: seq<Completion>
    var callbacks: multiset<nat>            // completions reported by the platform and not yet handled
    var clock: nat
    var offered: seq<Offer>
    ghost var accepted: multiset<Flush>
    ghost var lost: set<nat>                // sensors with a reported completion the event loop did not take

    ghost predicate Base()
      reads this
    {
      && |flushRequestQueue| <= MAX_FLUSH_REQUESTS
      && HandlesOk(flushRequestQueue, |sensors|)
      && Conserved(accepted, flushRequestQueue, completions)
    }

    ghost predicate Valid()
      reads this
    {
      Base() && AllOk(flushRequestQueue, sensors) && Watched(sensors, callbacks, lost)
    }

    /** Between two steps for sensor `h`. */
    ghost predicate ValidBut(h: nat)
      reads this
      requires h < |sensors|
    {
      && Base()
      && OthersOk(flushRequestQueue, sensors, h)
      && SensorOkOrIdle(flushRequestQueue, sensors[h].flushPending, h)
    }

    constructor (n: nat, oneShot: set<nat>)
      ensures Valid() && |sensors| == n && accepted == multiset{} && completions == [] && lost == {}
      ensures forall i :: 0 <= i < n ==> sensors[i] == Sensor(false, i in oneShot, false, None)
      ensures flushRequestQueue == [] && callbacks == multiset{} && offered == [] && clock == 0
    {
      sensors := seq(n, i => Sensor(false, i in oneShot, false, None));
      flushRequestQueue := [];
      completions := [];
      callbacks := multiset{};
      clock := 0;
      offered := [];
      accepted := multiset{};
      lost := {};
    }

    method GetMonotonicTime() returns (now: nat)
      modifies this`clock
      ensures old(clock) <= now == clock
    {
      now :| clock <= now;
      clock := now;
    }

    method MakeFlushRequest(index: nat) returns (errorCode: ChreError)
      requires Base() && index < |flushRequestQueue|
      requires var h := flushRequestQueue[index].flush.sensorHandle;
        OthersOk(flushRequestQueue, sensors, h)
        && (!sensors[h].flushPending ==> Inactive(flushRequestQueue, h) && NoneBefore(flushRequestQueue, h, index))
      modifies this`sensors, this`flushRequestQueue, this`clock, this`offered
      ensures Base() && old(clock) <= clock
      ensures var h := old(flushRequestQueue)[index].flush.sensorHandle; var s := old(sensors)[h];
        && |sensors| == |old(sensors)| && sensors == old(sensors)[h := sensors[h]]
        && OthersOk(flushRequestQueue, sensors, h)
        && (errorCode == NoError ==> s.enabled)
        && (s.enabled && s.flushPending ==> errorCode == NoError)
        && (!s.enabled ==> errorCode == GenericError)
        && (errorCode == NoError && !s.flushPending ==>
             && flushRequestQueue == Activate(old(flushRequestQueue), index)
             && sensors[h] == s.(flushPending := true,
                                 timer := Some(old(flushRequestQueue)[index].flush.deadlineTimestamp))
             && SensorOk(flushRequestQueue, true, h))
        && (errorCode != NoError || s.flushPending ==>
             flushRequestQueue == old(flushRequestQueue) && sensors == old(sensors))
        && (s.enabled && !s.flushPending ==>
             (errorCode == Timeout <==> old(flushRequestQueue)[index].flush.deadlineTimestamp <= clock))
        && (errorCode == NoError || errorCode == Timeout || errorCode == GenericError)
        && offered == old(offered) + (
             if s.enabled && !s.flushPending && errorCode != Timeout
             then [Offer(old(flushRequestQueue)[index].flush, errorCode == NoError)] else [])
    {
      hide Inactive, NoneBefore, FirstActive, Has, Conserved;
      var h := flushRequestQueue[index].flush.sensorHandle;
      errorCode := GenericError;
      if !sensors[h].enabled {
      } else if !sensors[h].flushPending {
        var now := GetMonotonicTime();
        var deadline := flushRequestQueue[index].flush.deadlineTimestamp;
        if now >= deadline {
          errorCode := Timeout;
        } else {
          var success: bool := *;           // `doMakeFlushRequest`
          offered := offered + [Offer(flushRequestQueue[index].flush, success)];
          sensors := sensors[h := sensors[h].(flushPending := success)];
          if success {
            errorCode := NoError;
            ActivateFirst(flushRequestQueue, index, h);
            ActivateOthers(flushRequestQueue, index, sensors);
            ActivateConserves(accepted, flushRequestQueue, completions, index);
            flushRequestQueue := flushRequestQueue[index := flushRequestQueue[index].(isActive := true)];
            sensors := sensors[h := sensors[h].(timer := Some(now + (deadline - now)))];
          }
        }
      } else {
        errorCode := NoError;
      }
    }

    /** Posts the completion event of a request and takes it off the queue. */
    method CompleteFlushRequestAtIndex(index: nat, errorCode: ChreError)
      requires index < |flushRequestQueue| && Base() && ValidBut(flushRequestQueue[index].flush.sensorHandle)
      modifies this`sensors, this`flushRequestQueue, this`completions
      ensures |sensors| == |old(sensors)|
      ensures var r := old(flushRequestQueue)[index]; var h := r.flush.sensorHandle;
        && ValidBut(h)
        && sensors == old(sensors)[h :=
             if r.isActive then old(sensors)[h].(flushPending := false, timer := None) else old(sensors)[h]]
        && flushRequestQueue == Erase(old(flushRequestQueue), index)
        && |completions| == |old(completions)| + 1
        && completions == old(completions) + [Completion(r.flush, errorCode, completions[|old(completions)|].posted)]
    {
      hide Inactive, NoneBefore, FirstActive, Has, Conserved, Erase, For;
      var request := flushRequestQueue[index];
      var h := request.flush.sensorHandle;
      CompletedOk(flushRequestQueue, index, sensors[h].flushPending);
      EraseOthers(flushRequestQueue, index, sensors);
      if request.isActive {
        sensors := sensors[h := sensors[h].(flushPending := false, timer := None)];
      }
      var posted: bool := *;               // `postFlushCompleteEvent`
      EraseConserves(accepted, flushRequestQueue, completions, index, Completion(request.flush, errorCode, posted));
      completions := completions + [Completion(request.flush, errorCode, posted)];
      EraseShorter(flushRequestQueue, index);
      flushRequestQueue := Erase(flushRequestQueue, index);
    }

    /** Hands the sensor's next request to the platform, failing those that cannot be made. */
    method DispatchNextFlushRequest(h: nat)
      requires h < |sensors| && ValidBut(h) && !sensors[h].flushPending
      modifies this`sensors, this`flushRequestQueue, this`completions, this`clock, this`offered
      ensures Base() && AllOk(flushRequestQueue, sensors)
      ensures |sensors| == |old(sensors)| && sensors == old(sensors)[h := sensors[h]]
      ensures sensors[h].flushPending ==> sensors[h].timer.Some?
      ensures |old(completions)| <= |completions| && completions[..|old(completions)|] == old(completions)
      ensures Shrinks(old(flushRequestQueue), flushRequestQueue)
      ensures sensors[h].enabled == old(sensors)[h].enabled && old(clock) <= clock
      ensures old(offered) <= offered
      ensures FailedForCause(h, sensors[h].enabled, completions[|old(completions)|..], clock, offered[|old(offered)|..])
      ensures sensors[h].flushPending ==> offered != old(offered) && offered[|offered| - 1].taken
      ensures !sensors[h].flushPending && old(sensors)[h].timer.None? ==> sensors[h].timer.None?
    {
      hide Inactive, NoneBefore, FirstActive, Has, Conserved, Erase, NoneLeft, FailedForCause;
      assert completions[|completions|..] == [];
      NoneFailed(h, sensors[h].enabled, clock, offered[|offered|..]);
      var i := 0;
      StartOfQueue(flushRequestQueue, h);
      while i < |flushRequestQueue|
        invariant i <= |flushRequestQueue| && |sensors| == |old(sensors)| && ValidBut(h) && !sensors[h].flushPending
        invariant NoneBefore(flushRequestQueue, h, i)
        invariant sensors == old(sensors)[h := sensors[h]]
        invariant old(sensors)[h].timer.None? ==> sensors[h].timer.None?
        invariant Shrinks(old(flushRequestQueue), flushRequestQueue)
        invariant sensors[h].enabled == old(sensors)[h].enabled && old(clock) <= clock
        invariant old(offered) <= offered
        invariant |old(completions)| <= |completions| && completions[..|old(completions)|] == old(completions)
        invariant FailedForCause(h, sensors[h].enabled, completions[|old(completions)|..], clock,
                                 offered[|old(offered)|..])
        decreases |flushRequestQueue| - i
      {
        if flushRequestQueue[i].flush.sensorHandle == h {
          ActivateLeaves(flushRequestQueue, i);
          ghost var cs, now, offers := completions[|old(completions)|..], clock, offered[|old(offered)|..];
          var newRequestErrorCode := MakeFlushRequest(i);
          assert offers <= offered[|old(offered)|..];
          assert newRequestErrorCode == GenericError && sensors[h].enabled ==>
            offered[|old(offered)|..][|offers|] == Offer(flushRequestQueue[i].flush, false);
          if newRequestErrorCode == NoError {
            CauseLater(h, sensors[h].enabled, cs, now, offers, cs, clock, offered[|old(offered)|..]);
            return;
          }
          FirstErased(flushRequestQueue, h, i);
          EraseLeaves(flushRequestQueue, i);
          CompleteFlushRequestAtIndex(i, newRequestErrorCode);
          assert completions[|old(completions)|..] == cs + [completions[|completions| - 1]];
          CauseLater(h, sensors[h].enabled, cs, now, offers,
            completions[|old(completions)|..], clock, offered[|old(offered)|..]);
        } else {
          NextOfQueue(flushRequestQueue, h, i);
          i := i + 1;
        }
      }
      EndOfQueue(flushRequestQueue, h);
    }

    /** The flush that is with the platform is over: its request, the sensor's first, completes. */
    method HandleFlushCompleteEventSync(errorCode: ChreError, h: nat)
      requires Base() && AllOk(flushRequestQueue, sensors)
      modifies this`sensors, this`flushRequestQueue, this`completions, this`clock, this`offered
      ensures Base() && AllOk(flushRequestQueue, sensors)
      ensures |sensors| == |old(sensors)|
      ensures forall k :: 0 <= k < |sensors| && k != h ==> sensors[k] == old(sensors)[k]
      ensures Has(old(flushRequestQueue), h) ==>
              h < |sensors| && CompletesFirst(old(flushRequestQueue), h, errorCode, old(completions), completions)
      ensures h < |sensors| && sensors[h].flushPending ==> sensors[h].timer.Some?
      ensures Has(old(flushRequestQueue), h) && !sensors[h].flushPending ==> sensors[h].timer.None?
      ensures !Has(old(flushRequestQueue), h) ==>
              flushRequestQueue == old(flushRequestQueue) && completions == old(completions) && sensors == old(sensors)
      ensures old(offered) <= offered
      ensures Has(old(flushRequestQueue), h) ==>
              FailedForCause(h, sensors[h].enabled, completions[|old(completions)| + 1..], clock,
                             offered[|old(offered)|..])
    {
      hide Inactive, NoneBefore, FirstActive, Has, Conserved, Erase, CompletesFirst;
      var i := 0;
      StartOfQueue(flushRequestQueue, h);
      while i < |flushRequestQueue|
        invariant i <= |flushRequestQueue| && NoneBefore(flushRequestQueue, h, i) && offered == old(offered)
        invariant flushRequestQueue == old(flushRequestQueue) && sensors == old(sensors)
        invariant completions == old(completions)
      {
        if flushRequestQueue[i].flush.sensorHandle == h {
          FirstOfQueue(flushRequestQueue, sensors, h, i);
          CompleteFlushRequestAtIndex(i, errorCode);
          ghost var c := completions;
          DispatchNextFlushRequest(h);
          FirstCompleted(old(flushRequestQueue), h, i, errorCode, old(completions), c, completions);
          return;
        }
        NextOfQueue(flushRequestQueue, h, i);
        i := i + 1;
      }
      EndOfQueue(flushRequestQueue, h);
      NothingPending(flushRequestQueue, sensors, h);
    }

    /** The platform reports a completion: the timeout is off, whether or not the event loop takes the callback. */
    method HandleFlushCompleteEvent(h: nat) returns (taken: bool)
      requires Valid()
      modifies this`sensors, this`callbacks, this`lost
      ensures Valid()
      ensures h < |old(sensors)| && old(sensors)[h].flushPending ==>
              && sensors == old(sensors)[h := old(sensors)[h].(timer := None)]
              && callbacks == old(callbacks) + (if taken then multiset{h} else multiset{})
              && lost == old(lost) + (if taken then {} else {h})
      ensures !(h < |old(sensors)| && old(sensors)[h].flushPending) ==>
              !taken && sensors == old(sensors) && callbacks == old(callbacks) && lost == old(lost)
    {
      hide SensorOk, Conserved;
      taken := false;
      if h < |sensors| && sensors[h].flushPending {
        sensors := sensors[h := sensors[h].(timer := None)];
        taken := *;                        // `deferCallback`
        if taken {
          callbacks := callbacks + multiset{h};
        } else {
          lost := lost + {h};
        }
      }
    }

    /** The deferred completion. */
    method HandleFlushCompleteCallback(errorCode: ChreError, h: nat)
      requires Valid() && h in callbacks
      modifies this`sensors, this`flushRequestQueue, this`completions, this`clock, this`callbacks, this`offered
      ensures Valid() && callbacks == old(callbacks) - multiset{h}
      ensures Has(old(flushRequestQueue), h) ==>
              CompletesFirst(old(flushRequestQueue), h, errorCode, old(completions), completions)
      ensures !Has(old(flushRequestQueue), h) ==>
              flushRequestQueue == old(flushRequestQueue) && completions == old(completions) && sensors == old(sensors)
    {
      hide SensorOk, Conserved, Has, CompletesFirst;
      callbacks := callbacks - multiset{h};
      HandleFlushCompleteEventSync(errorCode, h);
    }

    /** The timeout callback, which may also come after the flush it was set for. */
    method HandleFlushTimeout(h: nat)
      requires Valid()
      modifies this`sensors, this`flushRequestQueue, this`completions, this`clock, this`offered
      ensures Valid()
      ensures Has(old(flushRequestQueue), h) ==>
              CompletesFirst(old(flushRequestQueue), h, Timeout, old(completions), completions)
      ensures !Has(old(flushRequestQueue), h) ==>
              flushRequestQueue == old(flushRequestQueue) && completions == old(completions)
      ensures h < |sensors| && !sensors[h].flushPending ==> sensors[h].timer.None?
    {
      hide SensorOk, Conserved, Has, CompletesFirst;
      if h < |sensors| {
        sensors := sensors[h := sensors[h].(timer := None)];
      }
      HandleFlushCompleteEventSync(Timeout, h);
    }

    /** Queues a flush and makes it, or takes it off the queue again. */
    method QueueAndMake(flush: Flush) returns (success: bool)
      requires Valid() && flush.sensorHandle < |sensors| && |flushRequestQueue| < MAX_FLUSH_REQUESTS
      modifies this`sensors, this`flushRequestQueue, this`clock, this`accepted, this`offered
      ensures Valid() && old(clock) <= clock && |sensors| == |old(sensors)|
      ensures var s := old(sensors)[flush.sensorHandle];
        && (success ==>
             && s.enabled && sensors[flush.sensorHandle].flushPending
             && accepted == old(accepted) + multiset{flush}
             && flushRequestQueue == old(flushRequestQueue) + [FlushRequest(flush, !s.flushPending)]
             && offered == old(offered) + (if s.flushPending then [] else [Offer(flush, true)]))
        && (!success ==>
             && flushRequestQueue == old(flushRequestQueue) && accepted == old(accepted) && sensors == old(sensors)
             && (s.enabled ==>
                  && !s.flushPending
                  && if flush.deadlineTimestamp <= clock then offered == old(offered)
                     else offered == old(offered) + [Offer(flush, false)]))
    {
      hide Inactive, NoneBefore, FirstActive, Has, Conserved, SensorOk, HandlesOk, Watched, AllOk, OthersOk;
      ghost var q, sensors0, h := flushRequestQueue, sensors, flush.sensorHandle;
      OneOfAll(q, sensors, h);
      var request := FlushRequest(flush, false);
      AppendKeeps(q, request, sensors[h].flushPending, h);
      AppendAll(q, request, sensors);
      AppendConserves(accepted, q, completions, request);
      flushRequestQueue := flushRequestQueue + [request];
      accepted := accepted + multiset{request.flush};
      assert flushRequestQueue[..|flushRequestQueue| - 1] == q;
      var errorCode := MakeFlushRequest(|flushRequestQueue| - 1);
      success := errorCode == NoError;
      if !success {
        flushRequestQueue := flushRequestQueue[..|flushRequestQueue| - 1];
        accepted := old(accepted);
      } else {
        AllFromOthers(flushRequestQueue, sensors, h);
        StillWatched(sensors0, sensors, h, callbacks, lost);
      }
    }

    /** A flush is accepted, to be completed later, or refused without a trace. */
    method FlushAsync(nanoappInstanceId: nat, h: nat, cookie: nat) returns (success: bool, ghost at: nat)
      requires Valid()
      modifies this`sensors, this`flushRequestQueue, this`clock, this`accepted, this`offered
      ensures Valid() && old(clock) <= at <= clock
      ensures success ==>
              && h < |old(sensors)| == |sensors| && !old(sensors)[h].isOneShot && old(sensors)[h].enabled
              && |old(flushRequestQueue)| < MAX_FLUSH_REQUESTS && sensors[h].flushPending
              && var flush := FlushAt(h, nanoappInstanceId, cookie, at);
              && accepted == old(accepted) + multiset{flush}
              && flushRequestQueue == old(flushRequestQueue) + [FlushRequest(flush, !old(sensors)[h].flushPending)]
              && offered == old(offered) + (if old(sensors)[h].flushPending then [] else [Offer(flush, true)])
      ensures !success ==>
              flushRequestQueue == old(flushRequestQueue) && accepted == old(accepted) && sensors == old(sensors)
      ensures !success && h < |sensors| && !sensors[h].isOneShot && sensors[h].enabled ==>
              || |flushRequestQueue| == MAX_FLUSH_REQUESTS
              || (!sensors[h].flushPending && clock >= at + FLUSH_COMPLETE_TIMEOUT_NS)
              || (!sensors[h].flushPending
                  && offered == old(offered) + [Offer(FlushAt(h, nanoappInstanceId, cookie, at), false)])
    {
      hide AllOk, Watched, Conserved;
      success, at := false, clock;
      if h >= |sensors| {
      } else if sensors[h].isOneShot {
      } else if |flushRequestQueue| == MAX_FLUSH_REQUESTS {
      } else {
        var now := GetMonotonicTime();
        at := now;
        success := QueueAndMake(FlushAt(h, nanoappInstanceId, cookie, now));
      }
    }

    /** Reconfiguring a sensor may enable or disable it at any time. */
    method SetSensorEnabled(h: nat, enabled: bool)
      requires Valid() && h < |sensors|
      modifies this`sensors
      ensures Valid() && sensors == old(sensors)[h := old(sensors)[h].(enabled := enabled)]
    {
      hide SensorOk, Conserved;
      sensors := sensors[h := sensors[h].(enabled := enabled)];
    }

    /** The end of a cancellation: if the active request went, the next one is dispatched. */
    method DispatchIfFree(h: nat, ghost nanoappInstanceId: nat, ghost fs: seq<Flush>, ghost before: seq<Completion>)
      requires h < |sensors| && ValidBut(h) && Watched(sensors, callbacks, lost)
      requires NoneLeft(flushRequestQueue, |flushRequestQueue|, h, nanoappInstanceId)
      requires |completions| == |before| + |fs| && CompletesAll(fs, FunctionDisabled, before, completions)
      modifies this`sensors, this`flushRequestQueue, this`completions, this`clock, this`offered
      ensures Valid() && |sensors| == |old(sensors)| && old(offered) <= offered
      ensures NoneLeft(flushRequestQueue, |flushRequestQueue|, h, nanoappInstanceId)
      ensures CompletesAll(fs, FunctionDisabled, before, completions)
      ensures OthersFailed(h, sensors[h].enabled, fs, before, completions, clock, offered[|old(offered)|..])
    {
      hide Inactive, NoneBefore, FirstActive, Has, Conserved, Erase, CompletesAll, FailedForCause;
      ghost var c := completions;
      if !sensors[h].flushPending {
        DispatchNextFlushRequest(h);
        CompletesStill(fs, FunctionDisabled, before, c, completions);
      } else {
        assert completions[|completions|..] == [];
        NoneFailed(h, sensors[h].enabled, clock, offered[|offered|..]);
      }
    }

    /** Fails the nanoapp's requests for the sensor, or everybody's. */
    method CancelFlushRequests(h: nat, nanoappInstanceId: nat)
      requires Valid() && h < |sensors|
      modifies this`sensors, this`flushRequestQueue, this`completions, this`clock, this`offered
      ensures Valid()
      ensures NoneLeft(flushRequestQueue, |flushRequestQueue|, h, nanoappInstanceId)
      ensures CompletesAll(CancelledBy(old(flushRequestQueue), |old(flushRequestQueue)|, h, nanoappInstanceId),
                           FunctionDisabled, old(completions), completions)
      ensures |sensors| == |old(sensors)| && old(offered) <= offered
      ensures OthersFailed(h, sensors[h].enabled,
                           CancelledBy(old(flushRequestQueue), |old(flushRequestQueue)|, h, nanoappInstanceId),
                           old(completions), completions, clock, offered[|old(offered)|..])
    {
      hide Inactive, NoneBefore, FirstActive, Has, Conserved, Erase, CompletesAll, CancelledBy, OthersFailed;
      ghost var q, j := flushRequestQueue, 0;
      CancelledStart(q, h, nanoappInstanceId, completions);
      var i := 0;
      OkIsOkOrIdle(flushRequestQueue, sensors[h].flushPending, h);
      while i < |flushRequestQueue|
        invariant i <= |flushRequestQueue| && |sensors| == |old(sensors)| && ValidBut(h)
        invariant NoneLeft(flushRequestQueue, i, h, nanoappInstanceId)
        invariant i <= j <= |q| && flushRequestQueue[i..] == q[j..]
        invariant |completions| == |old(completions)| + |CancelledBy(q, j, h, nanoappInstanceId)|
        invariant offered == old(offered)
        invariant CompletesAll(CancelledBy(q, j, h, nanoappInstanceId), FunctionDisabled, old(completions), completions)
        invariant forall k :: 0 <= k < |sensors| && k != h ==> sensors[k] == old(sensors)[k]
        invariant sensors[h].flushPending ==> sensors[h] == old(sensors)[h]
        decreases |flushRequestQueue| - i
      {
        SameTail(flushRequestQueue, i, q, j);
        CancelledNext(q, j, h, nanoappInstanceId);
        if Cancels(flushRequestQueue[i], h, nanoappInstanceId) {
          EraseKeepsFront(flushRequestQueue, i);
          ghost var c := completions;
          CompleteFlushRequestAtIndex(i, FunctionDisabled);
          CompletesOneMore(CancelledBy(q, j, h, nanoappInstanceId), q[j].flush, FunctionDisabled,
            old(completions), c, completions);
        } else {
          i := i + 1;
        }
        j := j + 1;
      }
      SameEnd(flushRequestQueue, q, j);
      DispatchIfFree(h, nanoappInstanceId, CancelledBy(q, j, h, nanoappInstanceId), old(completions));
    }
  }

  /** The completions are for the sensor, and failed because it is off, or their deadline has passed, or the platform
    was asked and refused. */
  predicate FailedForCause(h: nat, enabled: bool, cs: seq<Completion>, clock: nat, offers: seq<Offer>) {
    forall k :: 0 <= k < |cs| ==> HasCause(cs[k], h, enabled, clock, offers)
  }

  predicate HasCause(c: Completion, h: nat, enabled: bool, clock: nat, offers: seq<Offer>) {
    && c.flush.sensorHandle == h
    && match c.errorCode
       case Timeout => c.flush.deadlineTimestamp <= clock
       case GenericError => !enabled || Offer(c.flush, false) in offers
       case _ => false
  }

  lemma NoneFailed(h: nat, enabled: bool, clock: nat, offers: seq<Offer>)
    ensures FailedForCause(h, enabled, [], clock, offers)
  {
  }

  /** What completed besides these flushes failed in being handed to the platform. */
  predicate OthersFailed(h: nat, enabled: bool, fs: seq<Flush>, before: seq<Completion>, after: seq<Completion>,
                         clock: nat, offers: seq<Offer>) {
    |before| + |fs| <= |after| && FailedForCause(h, enabled, after[|before| + |fs|..], clock, offers)
  }

  /** One more attempt, at a later time, and perhaps one more completion. */
  lemma CauseLater(h: nat, enabled: bool, cs: seq<Completion>, clock: nat, offers: seq<Offer>,
      cs': seq<Completion>, clock': nat, offers': seq<Offer>)
    requires FailedForCause(h, enabled, cs, clock, offers) && clock <= clock' && offers <= offers'
    requires cs' == cs
          || (|cs'| == |cs| + 1 && cs' == cs + [cs'[|cs|]] && HasCause(cs'[|cs|], h, enabled, clock', offers'))
    ensures FailedForCause(h, enabled, cs', clock', offers')
  {
    forall k | 0 <= k < |cs|
      ensures HasCause(cs[k], h, enabled, clock', offers')
    {
      assert HasCause(cs[k], h, enabled, clock, offers);
      assert forall o :: o in offers ==> o in offers';
    }
  }

  /** Whether `cancelFlushRequests` is about this request. */
  predicate Cancels(r: FlushRequest, h: nat, nanoappInstanceId: nat) {
    && r.flush.sensorHandle == h
    && (r.flush.nanoappInstanceId == nanoappInstanceId || nanoappInstanceId == SYSTEM_INSTANCE_ID)
  }

  /** The flushes of the first `n` requests that are cancelled, in order. */
  function CancelledBy(q: Queue, n: nat, h: nat, nanoappInstanceId: nat): (fs: seq<Flush>)
    requires n <= |q|
    ensures forall f :: f in fs ==> f.sensorHandle == h && (nanoappInstanceId in {0, f.nanoappInstanceId})
    ensures forall i | 0 <= i < n && q[i].flush.sensorHandle == h
                       && nanoappInstanceId in {0, q[i].flush.nanoappInstanceId} :: q[i].flush in fs
  {
    if n == 0 then []
    else
      CancelledBy(q, n - 1, h, nanoappInstanceId)
      + (if Cancels(q[n - 1], h, nanoappInstanceId) then [q[n - 1].flush] else [])
  }

  /** The next completions are for these flushes, with this code. */
  predicate CompletesAll(fs: seq<Flush>, errorCode: ChreError, before: seq<Completion>, after: seq<Completion>) {
    && |before| + |fs| <= |after| && after[..|before|] == before
    && forall k :: 0 <= k < |fs| ==> after[|before| + k].flush == fs[k] && after[|before| + k].errorCode == errorCode
  }

  lemma CancelledStart(q: Queue, h: nat, nanoappInstanceId: nat, c: seq<Completion>)
    ensures CancelledBy(q, 0, h, nanoappInstanceId) == []
    ensures CompletesAll([], FunctionDisabled, c, c)
  {}

  lemma CancelledNext(q: Queue, j: nat, h: nat, nanoappInstanceId: nat)
    requires j < |q|
    ensures CancelledBy(q, j + 1, h, nanoappInstanceId)
         == if Cancels(q[j], h, nanoappInstanceId) then CancelledBy(q, j, h, nanoappInstanceId) + [q[j].flush]
            else CancelledBy(q, j, h, nanoappInstanceId)
  {}

  lemma SameTail(s: Queue, i: nat, q: Queue, j: nat)
    requires i < |s| && j <= |q| && s[i..] == q[j..]
    ensures j < |q| && s[i] == q[j] && s[i + 1..] == q[j + 1..]
  {
    assert |s[i..]| == |q[j..]|;
    assert s[i..][0] == q[j..][0];
    assert s[i..][1..] == q[j..][1..];
  }

  lemma SameEnd(s: Queue, q: Queue, j: nat)
    requires j <= |q| && s[|s|..] == q[j..]
    ensures j == |q|
  {
    assert |q[j..]| == 0;
  }

  lemma CompletesOneMore(fs: seq<Flush>, f: Flush, errorCode: ChreError,
      before: seq<Completion>, c: seq<Completion>, after: seq<Completion>)
    requires CompletesAll(fs, errorCode, before, c) && |c| == |before| + |fs|
    requires |after| == |c| + 1 && after == c + [after[|c|]] && after[|c|].flush == f
    requires after[|c|].errorCode == errorCode
    ensures CompletesAll(fs + [f], errorCode, before, after)
  {}

  lemma CompletesStill(fs: seq<Flush>, errorCode: ChreError, before: seq<Completion>, c: seq<Completion>,
                       after: seq<Completion>)
    requires CompletesAll(fs, errorCode, before, c) && |c| <= |after| && after[..|c|] == c
    ensures CompletesAll(fs, errorCode, before, after)
  {
    assert after[..|before|] == after[..|c|][..|before|];
    forall k | 0 <= k < |fs|
      ensures after[|before| + k].flush == fs[k] && after[|before| + k].errorCode == errorCode
    {
      assert after[|before| + k] == after[..|c|][|before| + k];
    }
  }

  predicate NoneLeft(q: Queue, n: nat, h: nat, nanoappInstanceId: nat)
    requires n <= |q|
  {
    forall j :: 0 <= j < n ==> !Cancels(q[j], h, nanoappInstanceId)
  }

  /** No request came back. */
  ghost predicate Shrinks(q: Queue, t: Queue) {
    forall h, id: nat :: NoneLeft(q, |q|, h, id) ==> NoneLeft(t, |t|, h, id)
  }

  lemma ActivateLeaves(q: Queue, i: nat)
    requires i < |q|
    ensures Shrinks(q, Activate(q, i))
  {}

  lemma EraseLeaves(q: Queue, i: nat)
    requires i < |q|
    ensures Shrinks(q, Erase(q, i))
  {
    EraseIndex(q, i);
  }

  lemma AllFromOthers(q: Queue, sensors: seq<Sensor>, h: nat)
    requires h < |sensors|
    ensures OthersOk(q, sensors, h) && SensorOk(q, sensors[h].flushPending, h) ==> AllOk(q, sensors)
  {}

  lemma OneOfAll(q: Queue, sensors: seq<Sensor>, h: nat)
    requires AllOk(q, sensors) && h < |sensors|
    ensures SensorOk(q, sensors[h].flushPending, h)
  {}

  lemma StillWatched(before: seq<Sensor>, after: seq<Sensor>, h: nat, callbacks: multiset<nat>, lost: set<nat>)
    requires h < |before| == |after| && after == before[h := after[h]] && Watched(before, callbacks, lost)
    requires after[h] == before[h] || after[h].timer.Some?
    ensures Watched(after, callbacks, lost)
  {}

  lemma OkIsOkOrIdle(q: Queue, pending: bool, h: nat)
    requires SensorOk(q, pending, h)
    ensures SensorOkOrIdle(q, pending, h)
  {}

  /** The next completion is that of the sensor's first request. */
  ghost predicate CompletesFirst(q: Queue, h: nat, errorCode: ChreError, before: seq<Completion>,
                                 after: seq<Completion>) {
    && |before| < |after| && after[..|before|] == before
    && exists i :: 0 <= i < |q| && For(q, i, h) && NoneBefore(q, h, i)
                && after[|before|].flush == q[i].flush && after[|before|].errorCode == errorCode
  }

  lemma CompletedOk(q: Queue, i: nat, pending: bool)
    requires i < |q| && SensorOkOrIdle(q, pending, q[i].flush.sensorHandle)
    ensures SensorOkOrIdle(Erase(q, i), pending && !q[i].isActive, q[i].flush.sensorHandle)
  {
    var h := q[i].flush.sensorHandle;
    assert For(q, i, h);
    if NoneBefore(q, h, i) {
      EraseFirst(q, i, h);
    } else {
      EraseLater(q, i, h);
    }
  }

  lemma EraseShorter(q: Queue, i: nat)
    requires i < |q|
    ensures |Erase(q, i)| == |q| - 1
  {}

  lemma StartOfQueue(q: Queue, h: nat)
    ensures NoneBefore(q, h, 0)
  {}

  lemma NextOfQueue(q: Queue, h: nat, i: nat)
    requires i < |q| && NoneBefore(q, h, i) && !For(q, i, h)
    ensures NoneBefore(q, h, i + 1)
  {}

  lemma EndOfQueue(q: Queue, h: nat)
    ensures NoneBefore(q, h, |q|) ==> !Has(q, h)
  {}

  lemma FirstErased(q: Queue, h: nat, i: nat)
    requires i < |q| && NoneBefore(q, h, i)
    ensures |Erase(q, i)| == |q| - 1 && NoneBefore(Erase(q, i), h, i)
  {
    EraseIndex(q, i);
    forall k | 0 <= k < i
      ensures !For(Erase(q, i), k, h)
    {
      assert !For(q, k, h);
    }
  }

  lemma EraseKeepsFront(q: Queue, i: nat)
    requires i < |q|
    ensures |Erase(q, i)| == |q| - 1 && Erase(q, i)[i..] == q[i + 1..]
    ensures forall j :: 0 <= j < i ==> Erase(q, i)[j] == q[j]
  {}

  lemma FirstOfQueue(q: Queue, sensors: seq<Sensor>, h: nat, i: nat)
    requires AllOk(q, sensors) && HandlesOk(q, |sensors|) && i < |q| && For(q, i, h) && NoneBefore(q, h, i)
    ensures h < |sensors| && sensors[h].flushPending && q[i].isActive
    ensures OthersOk(q, sensors, h) && SensorOkOrIdle(q, true, h)
  {
    assert SensorOk(q, sensors[h].flushPending, h);
  }

  lemma NothingPending(q: Queue, sensors: seq<Sensor>, h: nat)
    requires AllOk(q, sensors) && !Has(q, h)
    ensures h < |sensors| ==> !sensors[h].flushPending
  {}

  lemma FirstCompleted(q: Queue, h: nat, i: nat, errorCode: ChreError,
      before: seq<Completion>, between: seq<Completion>, after: seq<Completion>)
    requires i < |q| && For(q, i, h) && NoneBefore(q, h, i)
    requires |between| == |before| + 1 && between[..|before|] == before && |between| <= |after|
    requires after[..|between|] == between
    requires between[|before|].flush == q[i].flush && between[|before|].errorCode == errorCode
    ensures CompletesFirst(q, h, errorCode, before, after)
  {
    assert after[|before|] == between[|before|];
    assert after[..|before|] == after[..|between|][..|before|];
  }
}
