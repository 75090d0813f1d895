/**
 * Reliable messages from the host: the detector of duplicates, and the delivery that relies on it.
 */
module ReliableMessages {
  import opened Heap
  import opened Util

  /** A host numbers its messages per endpoint. */
  datatype MessageKey = MessageKey(messageSequenceNumber: nat, hostEndpoint: nat)

  datatype Record = Record(timestamp: nat, key: MessageKey, error: Option<ChreError>)

  /** A message handed to a nanoapp, and when the detector first saw it. */
  datatype Delivery = Delivery(key: MessageKey, seen: nat)

  datatype Status = Status(messageSequenceNumber: nat, error: ChreError)

  /** `operator>` of the records compares this. */
  function Timestamp(r: Record): int { r.timestamp }

  predicate HasKey(s: seq<Record>, k: MessageKey) {
    exists r :: r in s && r.key == k
  }

  // ----------------------------------------------------------------------------------------
  // Invariants

  ghost predicate UniqueKeys(s: seq<Record>) {
    && (forall r :: r in s ==> multiset(s)[r] == 1)
    && (forall a, b :: a in s && b in s && a.key == b.key ==> a == b)
  }

  /** Every record has the outcome of its message, and no outcome invites another try. */
  ghost predicate ErrorsOk(s: seq<Record>) {
    forall r :: r in s ==> r.error == Some(NoError) || r.error == Some(DestinationNotFound)
  }

  ghost predicate SeenBefore(s: seq<Record>, clock: nat) {
    forall r :: r in s ==> r.timestamp <= clock
  }

  /** A delivery is still on record, or is at least the timeout ago. */
  ghost predicate Remembered(log: seq<Delivery>, s: seq<Record>, timeout: nat, clock: nat) {
    forall i :: 0 <= i < |log| ==>
      log[i].seen + timeout <= clock || (exists r :: r in s && r.key == log[i].key && r.timestamp == log[i].seen)
  }

  /** The same message is not delivered twice within the timeout. */
  ghost predicate Spaced(log: seq<Delivery>, timeout: nat) {
    forall i, j :: 0 <= i < j < |log| && log[i].key == log[j].key ==> log[i].seen + timeout <= log[j].seen
  }

  ghost predicate RecordsOk(s: seq<Record>, clock: nat) {
    IsHeap(Timestamp, s, |s|) && UniqueKeys(s) && SeenBefore(s, clock)
  }

  // ----------------------------------------------------------------------------------------
  // Lemmas

  lemma OldestOnTop(s: seq<Record>)
    requires s != [] && IsHeap(Timestamp, s, |s|)
    ensures forall r :: r in s ==> s[0].timestamp <= r.timestamp
  {
    forall r | r in s
      ensures s[0].timestamp <= r.timestamp
    {
      var i :| 0 <= i < |s| && s[i] == r;
      TopIsFirst(Timestamp, s, |s|, i);
    }
  }

  lemma AddedMembers(s: seq<Record>, x: Record)
    requires IsHeap(Timestamp, s, |s|)
    ensures forall q :: q in Pushed(Timestamp, s, x) <==> q in s || q == x
    ensures forall q :: multiset(Pushed(Timestamp, s, x))[q] == multiset(s)[q] + (if q == x then 1 else 0)
  {
    hide IsHeap, Pushed;
    var t := Pushed(Timestamp, s, x);
    PushKeepsHeap(Timestamp, s, x);
    forall q
      ensures q in t <==> q in s || q == x
    {
      assert q in t <==> q in multiset(t);
      assert q in s <==> q in multiset(s);
    }
  }

  lemma AddKeeps(s: seq<Record>, x: Record, clock: nat)
    requires RecordsOk(s, clock) && !HasKey(s, x.key) && x.timestamp <= clock
    ensures RecordsOk(Pushed(Timestamp, s, x), clock)
    ensures |Pushed(Timestamp, s, x)| == |s| + 1
  {
    hide IsHeap, Pushed;
    AddedMembers(s, x);
    PushKeepsHeap(Timestamp, s, x);
    PushedSize(s, x);
    assert x !in s;
    assert forall q :: q in s ==> q in multiset(s);
  }

  lemma PushedSize(s: seq<Record>, x: Record)
    ensures |Pushed(Timestamp, s, x)| == |s| + 1
  {}

  lemma DroppedMembers(s: seq<Record>)
    requires s != [] && IsHeap(Timestamp, s, |s|) && UniqueKeys(s)
    ensures forall q :: q in Removed(Timestamp, s, 0) <==> q in s && q != s[0]
    ensures forall q :: q in Removed(Timestamp, s, 0) ==> multiset(Removed(Timestamp, s, 0))[q] == 1
  {
    hide IsHeap, Removed;
    var t := Removed(Timestamp, s, 0);
    RemoveKeepsHeap(Timestamp, s, 0);
    assert s[0] in s;
    forall q
      ensures q in t <==> q in s && q != s[0]
      ensures q in t ==> multiset(t)[q] == 1
    {
      assert q in t <==> q in multiset(t);
      assert q in s <==> q in multiset(s);
      assert multiset(s)[q] == multiset(t)[q] + (if q == s[0] then 1 else 0);
    }
  }

  lemma DropKeeps(s: seq<Record>, clock: nat)
    requires RecordsOk(s, clock) && s != []
    ensures RecordsOk(Removed(Timestamp, s, 0), clock)
    ensures forall q :: q in Removed(Timestamp, s, 0) <==> q in s && q != s[0]
  {
    hide IsHeap, Removed;
    DroppedMembers(s);
    RemovedIsHeap(Timestamp, s, 0);
  }

  function SetError(s: seq<Record>, i: nat, error: ChreError): seq<Record>
    requires i < |s|
  {
    s[i := s[i].(error := Some(error))]
  }

  lemma SetErrorMembers(s: seq<Record>, i: nat, error: ChreError)
    requires i < |s| && UniqueKeys(s)
    ensures forall q :: q in SetError(s, i, error) <==>
            (q in s && q.key != s[i].key) || q == s[i].(error := Some(error))
    ensures UniqueKeys(SetError(s, i, error))
  {
    var x := s[i].(error := Some(error));
    var t := SetError(s, i, error);
    assert s[i] in s;
    assert t[i] == x;
    forall q
      ensures multiset(t)[q] == multiset(s)[q] - (if q == s[i] then 1 else 0) + (if q == x then 1 else 0)
      ensures q in s <==> multiset(s)[q] > 0
      ensures q in t <==> multiset(t)[q] > 0
    {
      assert q in t <==> q in multiset(t);
      assert q in s <==> q in multiset(s);
    }
  }

  lemma SetErrorKeeps(s: seq<Record>, i: nat, error: ChreError, clock: nat)
    requires i < |s| && RecordsOk(s, clock)
    ensures RecordsOk(SetError(s, i, error), clock)
  {
    SetErrorMembers(s, i, error);
    var t := SetError(s, i, error);
    forall k | 0 <= k < |t|
      ensures Ordered(Timestamp, t, k)
    {
      assert Ordered(Timestamp, s, k);
    }
  }

  /** Keys survive a change of outcome. */
  lemma RememberedAfterSetError(log: seq<Delivery>, s: seq<Record>, i: nat, error: ChreError, timeout: nat, clock: nat)
    requires i < |s| && UniqueKeys(s) && Remembered(log, s, timeout, clock)
    ensures Remembered(log, SetError(s, i, error), timeout, clock)
  {
    SetErrorMembers(s, i, error);
    var t := SetError(s, i, error);
    var x := s[i].(error := Some(error));
    assert s[i] in s && x in t;
    forall k | 0 <= k < |log| && log[k].seen + timeout > clock
      ensures exists r :: r in t && r.key == log[k].key && r.timestamp == log[k].seen
    {
      var r :| r in s && r.key == log[k].key && r.timestamp == log[k].seen;
      assert r.key != s[i].key ==> r in t;
    }
  }

  /** Dropping what has expired forgets no delivery within the timeout. */
  lemma RememberedAfterDrop(log: seq<Delivery>, s: seq<Record>, t: seq<Record>, timeout: nat, clock: nat, now: nat)
    requires Remembered(log, s, timeout, clock) && clock <= now
    requires forall r :: r in s && r.timestamp + timeout > now ==> r in t
    ensures Remembered(log, t, timeout, now)
  {
    forall k | 0 <= k < |log| && log[k].seen + timeout > now
      ensures exists r :: r in t && r.key == log[k].key && r.timestamp == log[k].seen
    {
      var r :| r in s && r.key == log[k].key && r.timestamp == log[k].seen;
      assert r in t;
    }
  }

  lemma RememberedAfterAdd(log: seq<Delivery>, s: seq<Record>, x: Record, timeout: nat, clock: nat, now: nat)
    requires Remembered(log, s, timeout, clock) && clock <= now && IsHeap(Timestamp, s, |s|)
    ensures Remembered(log, Pushed(Timestamp, s, x), timeout, now)
    ensures Remembered(log + [Delivery(x.key, x.timestamp)], Pushed(Timestamp, s, x), timeout, now)
  {
    hide IsHeap, Pushed;
    AddedMembers(s, x);
    var t := Pushed(Timestamp, s, x);
    var log' := log + [Delivery(x.key, x.timestamp)];
    assert x in t;
    forall k | 0 <= k < |log| && log[k].seen + timeout > now
      ensures exists r :: r in t && r.key == log[k].key && r.timestamp == log[k].seen
    {
      var r :| r in s && r.key == log[k].key && r.timestamp == log[k].seen;
      assert r in t;
    }
    forall k | 0 <= k < |log'| && log'[k].seen + timeout > now
      ensures exists r :: r in t && r.key == log'[k].key && r.timestamp == log'[k].seen
    {
      if k < |log| {
        assert log'[k] == log[k];
      } else {
        assert x in t && x.key == log'[k].key && x.timestamp == log'[k].seen;
      }
    }
  }

  lemma SpacedAfterNew(log: seq<Delivery>, s: seq<Record>, k: MessageKey, timeout: nat, clock: nat, now: nat)
    requires Spaced(log, timeout) && Remembered(log, s, timeout, clock) && !HasKey(s, k) && clock <= now
    ensures Spaced(log + [Delivery(k, now)], timeout)
  {
    forall i | 0 <= i < |log| && log[i].key == k
      ensures log[i].seen + timeout <= now
    {}
  }

  // ----------------------------------------------------------------------------------------

  class DuplicateMessageDetector {
    const timeout: nat
    const records: PriorityQueue<Record>
    var clock: nat

    ghost predicate Valid()
      reads this, records
    {
      records.key == Timestamp && RecordsOk(records.data, clock)
    }

    constructor (timeout: nat)
      ensures Valid() && fresh(records) && records.data == [] && this.timeout == timeout && clock == 0
    {
      this.timeout := timeout;
      records := new PriorityQueue(Timestamp);
      clock := 0;
    }

    method GetMonotonicTime() returns (now: nat)
      modifies this`clock
      ensures old(clock) <= now == clock
    {
      now :| clock <= now;
      clock := now;
    }

    method FindLocked(key: MessageKey, reverse: bool) returns (record: Option<nat>)
      ensures record.None? ==> !HasKey(records.data, key)
      ensures record.Some? ==> record.value < |records.data| && records.data[record.value].key == key
    {
      var i := 0;
      while i < |records.data|
        invariant i <= |records.data|
        invariant !reverse ==> forall k :: 0 <= k < i ==> records.data[k].key != key
        invariant reverse ==> forall k :: |records.data| - i <= k < |records.data| ==> records.data[k].key != key
      {
        var index := if reverse then |records.data| - i - 1 else i;
        if records.data[index].key == key {
          return Some(index);
        }
        i := i + 1;
      }
      record := None;
    }

    method AddLocked(key: MessageKey, memory: bool) returns (record: Option<nat>)
      requires Valid() && !HasKey(records.data, key)
      modifies records, this`clock
      ensures Valid() && old(clock) <= clock
      ensures record.Some? == memory
      ensures records.data == if memory then Pushed(Timestamp, old(records.data), Record(clock, key, None))
                              else old(records.data)
      ensures memory ==> record.value < |records.data| && records.data[record.value] == Record(clock, key, None)
    {
      hide IsHeap, Pushed;
      var now := GetMonotonicTime();
      ghost var s := records.data;
      var success := records.Push(Record(now, key, None), memory);
      if success {
        AddKeeps(s, Record(now, key, None), now);
        AddedMembers(s, Record(now, key, None));
        assert HasKey(records.data, key);
        record := FindLocked(key, true);
      } else {
        record := None;
      }
    }

    /** Out of memory counts as a duplicate. */
    method FindOrAdd(key: MessageKey, memory: bool) returns (error: Option<ChreError>, isDuplicate: bool)
      requires Valid()
      modifies records, this`clock
      ensures Valid() && old(clock) <= clock
      ensures isDuplicate <==> HasKey(old(records.data), key) || !memory
      ensures isDuplicate ==> records.data == old(records.data)
      ensures HasKey(old(records.data), key) ==> exists r :: r in records.data && r.key == key && r.error == error
      ensures !HasKey(old(records.data), key) && !memory ==> error == Some(NoMemory)
      ensures !isDuplicate ==>
              error == None && records.data == Pushed(Timestamp, old(records.data), Record(clock, key, None))
    {
      hide IsHeap, Pushed, UniqueKeys, SeenBefore;
      var record := FindLocked(key, false);
      isDuplicate := record.Some?;
      if record.None? {
        record := AddLocked(key, memory);
        if record.None? {
          return Some(NoMemory), true;
        }
      } else {
        assert records.data[record.value] in records.data;
      }
      error := records.data[record.value].error;
    }

    method FindAndSetError(key: MessageKey, error: ChreError) returns (found: bool)
      requires Valid()
      modifies records
      ensures Valid()
      ensures found <==> HasKey(old(records.data), key)
      ensures !found ==> records.data == old(records.data)
      ensures found ==> exists i :: 0 <= i < |old(records.data)| && old(records.data)[i].key == key
                                 && records.data == SetError(old(records.data), i, error)
    {
      hide IsHeap, UniqueKeys, SeenBefore;
      var record := FindLocked(key, false);
      found := record.Some?;
      if found {
        assert records.data[record.value] in records.data;
        SetErrorKeeps(records.data, record.value, error, clock);
        records.data := SetError(records.data, record.value, error);
      }
    }

    /** Exactly the records that have timed out go. */
    method RemoveOldEntries()
      requires Valid()
      modifies records, this`clock
      ensures Valid() && old(clock) <= clock
      ensures forall r :: r in records.data <==> r in old(records.data) && r.timestamp + timeout > clock
    {
      hide IsHeap, UniqueKeys, Removed;
      var now := GetMonotonicTime();
      while records.data != []
        invariant Valid() && now == clock
        invariant forall r :: r in records.data ==> r in old(records.data)
        invariant forall r :: r in old(records.data) && r.timestamp + timeout > now ==> r in records.data
        decreases |records.data|
      {
        var record := records.data[0];
        OldestOnTop(records.data);
        if record.timestamp + timeout <= now {
          DropKeeps(records.data, clock);
          records.Pop();
        } else {
          break;
        }
      }
    }
  }

  // ----------------------------------------------------------------------------------------

  class HostCommsManager {
    const detector: DuplicateMessageDetector
    var statuses: seq<Status>             // delivery statuses sent to the host
    ghost var log: seq<Delivery>          // reliable messages handed to nanoapps

    ghost predicate Valid()
      reads this, detector, detector.records
    {
      && detector.Valid()
      && ErrorsOk(detector.records.data)
      && Remembered(log, detector.records.data, detector.timeout, detector.clock)
      && Spaced(log, detector.timeout)
    }

    constructor (timeout: nat)
      ensures Valid() && fresh(detector) && fresh(detector.records) && log == [] && statuses == []
      ensures detector.timeout == timeout && detector.records.data == []
    {
      detector := new DuplicateMessageDetector(timeout);
      statuses := [];
      log := [];
    }

    method SendMessageDeliveryStatus(messageSequenceNumber: nat, error: ChreError)
      modifies this`statuses
      ensures statuses == old(statuses) + [Status(messageSequenceNumber, error)]
    {
      statuses := statuses + [Status(messageSequenceNumber, error)];
    }

    /** A duplicate is answered with the outcome on record, and never tried again. */
    method ShouldSendReliableMessageToNanoapp(key: MessageKey, memory: bool) returns (should: bool)
      requires Valid()
      modifies detector.records, detector`clock, this`statuses
      ensures detector.Valid() && old(detector.clock) <= detector.clock
      ensures should <==> !HasKey(old(detector.records.data), key) && memory
      ensures should ==>
              && statuses == old(statuses)
              && detector.records.data
                 == Pushed(Timestamp, old(detector.records.data), Record(detector.clock, key, None))
      ensures !should ==>
              && detector.records.data == old(detector.records.data)
              && |statuses| == |old(statuses)| + 1 && old(statuses) == statuses[..|old(statuses)|]
              && statuses[|old(statuses)|].messageSequenceNumber == key.messageSequenceNumber
              && OutcomeOnRecord(old(detector.records.data), key, statuses[|old(statuses)|].error)
    {
      hide IsHeap, UniqueKeys, Remembered, Spaced, SeenBefore, Pushed;
      var pastError, isDuplicate := detector.FindOrAdd(key, memory);
      if isDuplicate {
        var isTransientFailure := pastError.Some? && (pastError.value == Busy || pastError.value == Transient);
        if !isTransientFailure {
          if pastError.Some? {
            SendMessageDeliveryStatus(key.messageSequenceNumber, pastError.value);
          }
          return false;
        }
      }
      should := true;
    }

    method HandleDuplicateAndSendMessageDeliveryStatus(key: MessageKey, error: ChreError)
      requires detector.Valid()
      modifies detector.records, this`statuses
      ensures detector.Valid()
      ensures statuses == old(statuses) + [Status(key.messageSequenceNumber, error)]
      ensures !HasKey(old(detector.records.data), key) ==> detector.records.data == old(detector.records.data)
      ensures HasKey(old(detector.records.data), key) ==>
              exists i :: 0 <= i < |old(detector.records.data)| && old(detector.records.data)[i].key == key
                       && detector.records.data == SetError(old(detector.records.data), i, error)
    {
      var _ := detector.FindAndSetError(key, error);
      SendMessageDeliveryStatus(key.messageSequenceNumber, error);
    }

    /** A reliable message is handed over exactly if its nanoapp is there and it is not on record. */
    method DeliverNanoappMessageFromHost(key: MessageKey, isReliable: bool, foundNanoapp: bool, memory: bool)
      returns (delivered: bool)
      requires Valid()
      modifies this, detector.records, detector`clock
      ensures Valid() && old(detector.clock) <= detector.clock
      ensures delivered <==> foundNanoapp && (!isReliable || (!HasKey(old(detector.records.data), key) && memory))
      ensures if isReliable && delivered
              then exists seen: nat ::
                     old(detector.clock) <= seen <= detector.clock && log == old(log) + [Delivery(key, seen)]
              else log == old(log)
      ensures isReliable && delivered ==> statuses == old(statuses) + [Status(key.messageSequenceNumber, NoError)]
      ensures isReliable && foundNanoapp && !delivered ==>
              && |statuses| == |old(statuses)| + 1
              && OutcomeOnRecord(old(detector.records.data), key, statuses[|old(statuses)|].error)
      ensures isReliable && !foundNanoapp ==>
              |statuses| > 0 && statuses[|statuses| - 1] == Status(key.messageSequenceNumber, DestinationNotFound)
      ensures isReliable ==> |statuses| > |old(statuses)| && old(statuses) == statuses[..|old(statuses)|]
      ensures !isReliable ==> statuses == old(statuses)
      ensures forall r :: r in detector.records.data ==> r.timestamp + detector.timeout > detector.clock
      ensures !isReliable ==>
              forall r :: r in detector.records.data <==>
                          r in old(detector.records.data) && r.timestamp + detector.timeout > detector.clock
    {
      hide IsHeap, UniqueKeys, Remembered, Spaced, SeenBefore, Pushed, SetError, ErrorsOk;
      delivered := false;
      var error: Option<ChreError> := None;
      ghost var s := detector.records.data;
      var shouldDeliverMessage := true;
      if isReliable {
        shouldDeliverMessage := ShouldSendReliableMessageToNanoapp(key, memory);
      }
      ghost var x := Record(detector.clock, key, None);
      if !foundNanoapp {
        error := Some(DestinationNotFound);
      } else if shouldDeliverMessage {
        delivered := true;
        error := Some(NoError);
      }
      if isReliable && shouldDeliverMessage {
        NewMessage(log, s, x, detector.timeout, old(detector.clock), detector.clock);
        if delivered {
          log := log + [Delivery(key, detector.clock)];
        }
      } else {
        OldMessage(log, s, detector.timeout, old(detector.clock), detector.clock);
      }
      if isReliable && error.Some? {
        ghost var t := detector.records.data;
        HandleDuplicateAndSendMessageDeliveryStatus(key, error.value);
        Recorded(log, t, detector.records.data, key, error.value, detector.timeout, detector.clock);
      }
      ghost var u, clock := detector.records.data, detector.clock;
      detector.RemoveOldEntries();
      RememberedAfterDrop(log, u, detector.records.data, detector.timeout, clock, detector.clock);
      ErrorsAfterDrop(u, detector.records.data);
    }
  }

  /** What a duplicate is answered with: the outcome on record, or that there was no memory for one. */
  predicate OutcomeOnRecord(s: seq<Record>, key: MessageKey, error: ChreError) {
    if HasKey(s, key) then exists r :: r in s && r.key == key && r.error == Some(error) else error == NoMemory
  }

  ghost predicate ErrorsOkBut(s: seq<Record>, key: MessageKey) {
    forall r :: r in s && r.key != key ==> r.error == Some(NoError) || r.error == Some(DestinationNotFound)
  }

  lemma NewMessage(log: seq<Delivery>, s: seq<Record>, x: Record, timeout: nat, clock: nat, now: nat)
    requires RecordsOk(s, clock) && !HasKey(s, x.key) && x.timestamp == now && clock <= now
    requires Remembered(log, s, timeout, clock) && Spaced(log, timeout) && ErrorsOk(s)
    ensures var t := Pushed(Timestamp, s, x); var log' := log + [Delivery(x.key, x.timestamp)];
      && Remembered(log, t, timeout, now) && Remembered(log', t, timeout, now)
      && Spaced(log', timeout) && HasKey(t, x.key) && ErrorsOkBut(t, x.key)
  {
    hide IsHeap, Pushed, Remembered, Spaced;
    RememberedAfterAdd(log, s, x, timeout, clock, now);
    SpacedAfterNew(log, s, x.key, timeout, clock, now);
    AddedMembers(s, x);
  }

  lemma OldMessage(log: seq<Delivery>, s: seq<Record>, timeout: nat, clock: nat, now: nat)
    requires Remembered(log, s, timeout, clock) && clock <= now
    ensures Remembered(log, s, timeout, now)
    ensures ErrorsOk(s) ==> forall k :: ErrorsOkBut(s, k)
  {
    RememberedAfterDrop(log, s, s, timeout, clock, now);
  }

  /** Once the outcome is on record, every record has one. */
  lemma Recorded(log: seq<Delivery>, s: seq<Record>, t: seq<Record>, key: MessageKey, error: ChreError, timeout: nat,
                 clock: nat)
    requires UniqueKeys(s) && Remembered(log, s, timeout, clock) && ErrorsOkBut(s, key)
    requires error == NoError || error == DestinationNotFound
    requires !HasKey(s, key) ==> t == s
    requires HasKey(s, key) ==> exists i :: 0 <= i < |s| && s[i].key == key && t == SetError(s, i, error)
    ensures Remembered(log, t, timeout, clock) && ErrorsOk(t)
  {
    hide UniqueKeys, Remembered;
    if HasKey(s, key) {
      var i :| 0 <= i < |s| && s[i].key == key && t == SetError(s, i, error);
      RememberedAfterSetError(log, s, i, error, timeout, clock);
      SetErrorMembers(s, i, error);
    }
  }

  lemma ErrorsAfterDrop(s: seq<Record>, t: seq<Record>)
    requires ErrorsOk(s) && forall r :: r in t ==> r in s
    ensures ErrorsOk(t)
  {}
}
