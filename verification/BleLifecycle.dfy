/**
 * The life of BLE scan requests: stored per nanoapp, sent to the platform merged, and each answered once.
 */
module BleLifecycle {
  import opened BleRequests
  import opened Util

  datatype RequestStatus = PendingReq | PendingResp | Applied

  /** `serial` tells the calls of `configure` apart. */
  datatype BleRequest = BleRequest(instanceId: nat, params: ScanParams, status: RequestStatus, cookie: nat, serial: nat)

  datatype AsyncResult = AsyncResult(
    instanceId: nat, enabled: bool, success: bool, errorCode: ChreError, cookie: nat, serial: nat)

  type Requests = seq<BleRequest>

  function ParamsOf(s: Requests): seq<ScanParams> { seq(|s|, i requires 0 <= i < |s| => s[i].params) }

  // ----------------------------------------------------------------------------------------
  // Invariants

  predicate OnePerNanoapp(s: Requests) {
    forall i, j :: 0 <= i < j < |s| ==> s[i].instanceId != s[j].instanceId && s[i].serial != s[j].serial
  }

  predicate AllApplied(s: Requests) {
    forall i :: 0 <= i < |s| ==> s[i].status == Applied
  }

  predicate NoneWith(s: Requests, status: RequestStatus) {
    forall i :: 0 <= i < |s| ==> s[i].status != status
  }

  /** The requests that have not had their result. */
  function Unanswered(s: Requests): set<nat> {
    set i | 0 <= i < |s| && s[i].status != Applied :: s[i].serial
  }

  function Serials(s: Requests): set<nat> {
    set i | 0 <= i < |s| :: s[i].serial
  }

  /** A request but for its status. */
  function Core(r: BleRequest): BleRequest { r.(status := PendingReq) }

  function Cores(s: Requests): set<BleRequest> {
    set i | 0 <= i < |s| :: Core(s[i])
  }

  /** The requests of all nanoapps but one. */
  function CoresWithout(s: Requests, instanceId: nat): set<BleRequest> {
    set c | c in Cores(s) && c.instanceId != instanceId
  }

  function Count(results: seq<AsyncResult>, serial: nat): nat {
    if results == [] then 0
    else Count(results[..|results| - 1], serial) + (if results[|results| - 1].serial == serial then 1 else 0)
  }

  /** Every call but the open ones has had exactly one result, and the open ones none. */
  ghost predicate Answered(results: seq<AsyncResult>, next: nat, open: set<nat>) {
    && (forall s: nat :: Count(results, s) == if s < next && s !in open then 1 else 0)
    && (forall s :: s in open ==> s < next)
  }

  // ----------------------------------------------------------------------------------------
  // Lemmas

  lemma AnswerOne(results: seq<AsyncResult>, next: nat, open: set<nat>, r: AsyncResult)
    requires Answered(results, next, open) && r.serial in open
    ensures Answered(results + [r], next, open - {r.serial})
  {
    assert (results + [r])[..|results|] == results;
  }

  lemma OpenOne(results: seq<AsyncResult>, next: nat, open: set<nat>)
    requires Answered(results, next, open)
    ensures Answered(results, next + 1, open + {next}) && next !in open
  {}

  lemma EraseAt(s: Requests, i: nat)
    requires i < |s|
    ensures |Erase(s, i)| == |s| - 1
    ensures forall j :: 0 <= j < |s| - 1 ==> Erase(s, i)[j] == s[if j < i then j else j + 1]
  {}

  lemma EraseKeepsOne(s: Requests, i: nat)
    requires i < |s| && OnePerNanoapp(s)
    ensures OnePerNanoapp(Erase(s, i))
    ensures Serials(Erase(s, i)) == Serials(s) - {s[i].serial}
    ensures Unanswered(Erase(s, i)) == Unanswered(s) - {s[i].serial}
  {
    EraseAt(s, i);
    var t := Erase(s, i);
    forall x
      ensures x in Serials(t) <==> x in Serials(s) && x != s[i].serial
      ensures x in Unanswered(t) <==> x in Unanswered(s) && x != s[i].serial
    {
      if x in Serials(s) && x != s[i].serial {
        var j :| 0 <= j < |s| && s[j].serial == x;
        assert t[if j < i then j else j - 1] == s[j];
      }
      if x in Unanswered(s) && x != s[i].serial {
        var j :| 0 <= j < |s| && s[j].status != Applied && s[j].serial == x;
        assert t[if j < i then j else j - 1] == s[j];
      }
    }
  }

  lemma AppliedUnanswered(s: Requests)
    ensures AllApplied(s) <==> Unanswered(s) == {}
  {
    assert forall i :: 0 <= i < |s| && s[i].status != Applied ==> s[i].serial in Unanswered(s);
  }

  lemma StoreKeepsOne(s: Requests, r: BleRequest)
    requires OnePerNanoapp(s) && r.serial !in Serials(s) && r.status != Applied
    requires forall i :: 0 <= i < |s| ==> s[i].instanceId != r.instanceId
    ensures OnePerNanoapp(s + [r])
    ensures Serials(s + [r]) == Serials(s) + {r.serial}
    ensures Unanswered(s + [r]) == Unanswered(s) + {r.serial}
  {
    hide Unanswered;
    var t := s + [r];
    assert forall i :: 0 <= i < |s| ==> t[i] == s[i] && s[i].serial in Serials(s);
    assert t[|s|] == r;
    forall x
      ensures x in Serials(t) <==> x in Serials(s) || x == r.serial
    {
      if x in Serials(s) {
        var j :| 0 <= j < |s| && s[j].serial == x;
        assert t[j].serial == x;
      }
    }
    StoreUnanswered(s, r);
  }

  lemma StatusCores(s: Requests, i: nat, status: RequestStatus)
    requires i < |s|
    ensures Cores(s[i := s[i].(status := status)]) == Cores(s)
  {
    var t := s[i := s[i].(status := status)];
    forall x
      ensures x in Cores(t) <==> x in Cores(s)
    {
      if x in Cores(s) {
        var j :| 0 <= j < |s| && Core(s[j]) == x;
        assert Core(t[j]) == x;
      }
      if x in Cores(t) {
        var j :| 0 <= j < |t| && Core(t[j]) == x;
        assert Core(s[j]) == x;
      }
    }
  }

  lemma ReplaceCores(s: Requests, i: nat, r: BleRequest)
    requires i < |s| && OnePerNanoapp(s) && r.instanceId == s[i].instanceId
    ensures Cores(s[i := r]) == CoresWithout(s, r.instanceId) + {Core(r)}
    ensures Cores(Erase(s, i)) == CoresWithout(s, s[i].instanceId)
  {
    var t, e := s[i := r], Erase(s, i);
    EraseAt(s, i);
    forall x
      ensures x in Cores(t) <==> x in CoresWithout(s, r.instanceId) || x == Core(r)
      ensures x in Cores(e) <==> x in CoresWithout(s, r.instanceId)
    {
      assert Core(t[i]) == Core(r);
      if x in CoresWithout(s, r.instanceId) {
        var j :| 0 <= j < |s| && Core(s[j]) == x;
        assert j != i && Core(t[j]) == x;
        assert Core(e[if j < i then j else j - 1]) == x;
      }
      if x in Cores(e) {
        var j :| 0 <= j < |e| && Core(e[j]) == x;
        assert Core(s[if j < i then j else j + 1]) == x;
      }
    }
  }

  lemma StoreCores(s: Requests, r: BleRequest)
    requires forall i :: 0 <= i < |s| ==> s[i].instanceId != r.instanceId
    ensures Cores(s + [r]) == CoresWithout(s, r.instanceId) + {Core(r)}
    ensures CoresWithout(s, r.instanceId) == Cores(s)
  {
    var t := s + [r];
    forall x
      ensures x in Cores(t) <==> x in Cores(s) || x == Core(r)
    {
      assert Core(t[|s|]) == Core(r);
      if x in Cores(s) {
        var j :| 0 <= j < |s| && Core(s[j]) == x;
        assert Core(t[j]) == x;
      }
    }
  }

  /** Taking out the request just stored leaves those of the other nanoapps. */
  lemma CoresOnce(s: Requests, r: BleRequest)
    ensures forall t: Requests ::
      (Cores(t) == CoresWithout(s, r.instanceId) + {Core(r)} || Cores(t) == CoresWithout(s, r.instanceId) ==>
         CoresWithout(t, r.instanceId) == CoresWithout(s, r.instanceId))
    ensures Core(r) == r.(status := PendingReq)
    ensures CoresWithout(s, r.instanceId) + {} == CoresWithout(s, r.instanceId)
  {}

  lemma StoreUnanswered(s: Requests, r: BleRequest)
    requires r.status != Applied
    ensures Unanswered(s + [r]) == Unanswered(s) + {r.serial}
  {
    var t := s + [r];
    assert t[|s|] == r;
    forall x
      ensures x in Unanswered(t) <==> x in Unanswered(s) || x == r.serial
    {
      if x in Unanswered(s) {
        var j :| 0 <= j < |s| && s[j].status != Applied && s[j].serial == x;
        assert t[j] == s[j];
      }
    }
  }

  lemma ReplaceKeepsOne(s: Requests, i: nat, r: BleRequest)
    requires i < |s| && OnePerNanoapp(s) && r.serial !in Serials(s) && r.instanceId == s[i].instanceId
    requires r.status != Applied
    ensures OnePerNanoapp(s[i := r])
    ensures Serials(s[i := r]) == Serials(s) - {s[i].serial} + {r.serial}
    ensures Unanswered(s[i := r]) == Unanswered(s) - {s[i].serial} + {r.serial}
  {
    var t := s[i := r];
    assert forall k :: 0 <= k < |s| ==> s[k].serial in Serials(s);
    forall x
      ensures x in Serials(t) <==> (x in Serials(s) && x != s[i].serial) || x == r.serial
      ensures x in Unanswered(t) <==> (x in Unanswered(s) && x != s[i].serial) || x == r.serial
    {
      assert t[i] == r;
      if x in Serials(s) && x != s[i].serial {
        var j :| 0 <= j < |s| && s[j].serial == x;
        assert t[j].serial == x;
      }
      if x in Unanswered(s) && x != s[i].serial {
        var j :| 0 <= j < |s| && s[j].status != Applied && s[j].serial == x;
        assert t[j].serial == x;
      }
    }
  }

  /** Changing a status. */
  lemma StatusKeepsOne(s: Requests, i: nat, status: RequestStatus)
    requires i < |s| && OnePerNanoapp(s)
    ensures var t := s[i := s[i].(status := status)];
      && OnePerNanoapp(t) && Serials(t) == Serials(s) && ParamsOf(t) == ParamsOf(s)
      && Unanswered(t) == if status == Applied then Unanswered(s) - {s[i].serial} else Unanswered(s) + {s[i].serial}
  {
    var t := s[i := s[i].(status := status)];
    forall x
      ensures x in Serials(t) <==> x in Serials(s)
      ensures x in Unanswered(t) <==>
        if status == Applied then x in Unanswered(s) && x != s[i].serial else x in Unanswered(s) || x == s[i].serial
    {
      assert t[i].serial == s[i].serial;
      if x in Serials(s) {
        var j :| 0 <= j < |s| && s[j].serial == x;
        assert t[j].serial == x;
      }
      if x in Unanswered(s) && x != s[i].serial {
        var j :| 0 <= j < |s| && s[j].status != Applied && s[j].serial == x;
        assert t[j].serial == x;
      }
    }
  }

  // ----------------------------------------------------------------------------------------

  method IsEquivalentTo(a: ScanParams, b: ScanParams) returns (isEquivalent: bool)
    ensures isEquivalent == Equivalent(a, b)
  {
    isEquivalent :=
      && a.enabled && b.enabled && a.mode == b.mode
      && a.reportDelayMs == b.reportDelayMs && a.rssiThreshold == b.rssiThreshold
      && |a.genericFilters| == |b.genericFilters| && |a.broadcasterFilters| == |b.broadcasterFilters|;
    if isEquivalent {
      var i := 0;
      while i < |b.genericFilters|
        invariant i <= |b.genericFilters| && isEquivalent
        invariant forall k :: 0 <= k < i ==> FiltersMatch(a.genericFilters[k], b.genericFilters[k])
      {
        if !FiltersMatch(a.genericFilters[i], b.genericFilters[i]) {
          return false;
        }
        i := i + 1;
      }
      i := 0;
      while i < |b.broadcasterFilters|
        invariant i <= |b.broadcasterFilters| && isEquivalent
        invariant forall k :: 0 <= k < i ==> BroadcasterFiltersMatch(a.broadcasterFilters[k], b.broadcasterFilters[k])
      {
        if !BroadcasterFiltersMatch(a.broadcasterFilters[i], b.broadcasterFilters[i]) {
          return false;
        }
        i := i + 1;
      }
    }
  }

  /** Keeps the merged request up to date. */
  class BleRequestMultiplexer {
    var requests: Requests
    const maximal: MaximalRequest

    ghost predicate Valid()
      reads this, maximal
    {
      Alike(maximal.params, Fold(ParamsOf(requests)))
    }

    constructor ()
      ensures Valid() && fresh(maximal) && requests == [] && maximal.params == DISABLED
    {
      requests := [];
      maximal := new MaximalRequest();
    }

    method FindRequest(instanceId: nat) returns (index: Option<nat>)
      ensures index.Some? ==> index.value < |requests| && requests[index.value].instanceId == instanceId
      ensures index.None? ==> forall i :: 0 <= i < |requests| ==> requests[i].instanceId != instanceId
    {
      var i := 0;
      while i < |requests|
        invariant i <= |requests| && forall k :: 0 <= k < i ==> requests[k].instanceId != instanceId
      {
        if requests[i].instanceId == instanceId {
          return Some(i);
        }
        i := i + 1;
      }
      index := None;
    }

    method HasRequests(status: RequestStatus) returns (has: bool)
      ensures has <==> !NoneWith(requests, status)
    {
      var i := 0;
      while i < |requests|
        invariant i <= |requests| && forall k :: 0 <= k < i ==> requests[k].status != status
      {
        if requests[i].status == status {
          return true;
        }
        i := i + 1;
      }
      has := false;
    }

    method UpdateMaximalRequest() returns (maximalRequestChanged: bool)
      modifies maximal
      ensures Valid()
      ensures maximalRequestChanged <==> !Equivalent(old(maximal.params), Fold(ParamsOf(requests)))
    {
      hide Merged, FiltersMatch, PairwiseMatch;
      var maximalRequest := new MaximalRequest();
      ghost var all := ParamsOf(requests);
      var i := 0;
      while i < |requests|
        invariant i <= |requests| && maximalRequest.params == Fold(all[..i])
        invariant unchanged(maximal) && fresh(maximalRequest)
      {
        assert all[..i + 1][..i] == all[..i];
        var _ := maximalRequest.MergeWith(requests[i].params);
        i := i + 1;
      }
      assert all[..|requests|] == all;
      var same := IsEquivalentTo(maximal.params, maximalRequest.params);
      maximalRequestChanged := !same;
      if maximalRequestChanged {
        maximal.params := maximalRequest.params;
      }
    }

    method AddRequest(request: BleRequest, memory: bool) returns (stored: bool, index: nat, maximalRequestChanged: bool)
      requires Valid()
      modifies this, maximal
      ensures Valid() && stored == memory
      ensures requests == if stored then old(requests) + [request] else old(requests)
      ensures stored ==> index == |old(requests)| && (maximalRequestChanged <==> maximal.params != old(maximal.params))
      ensures !stored ==> !maximalRequestChanged
    {
      hide Merged, Equivalent;
      stored, index, maximalRequestChanged := memory, 0, false;
      if stored {
        ghost var all := ParamsOf(requests);
        MergedAlike(maximal.params, Fold(all), request.params);
        requests := requests + [request];
        index := |requests| - 1;
        assert ParamsOf(requests) == all + [request.params];
        maximalRequestChanged := maximal.MergeWith(request.params);
        assert (all + [request.params])[..|all|] == all;
      }
    }

    method UpdateRequest(index: nat, request: BleRequest) returns (maximalRequestChanged: bool)
      requires index < |requests|
      modifies this, maximal
      ensures Valid() && requests == old(requests)[index := request]
      ensures maximalRequestChanged <==> !Equivalent(old(maximal.params), Fold(ParamsOf(requests)))
    {
      requests := requests[index := request];
      maximalRequestChanged := UpdateMaximalRequest();
    }

    method RemoveRequest(index: nat) returns (maximalRequestChanged: bool)
      requires index < |requests|
      modifies this, maximal
      ensures Valid() && requests == Erase(old(requests), index)
    {
      requests := Erase(requests, index);
      maximalRequestChanged := UpdateMaximalRequest();
    }

    method SetRequestStatus(index: nat, status: RequestStatus)
      requires Valid() && index < |requests|
      modifies this
      ensures Valid() && requests == old(requests)[index := old(requests)[index].(status := status)]
    {
      assert ParamsOf(requests[index := requests[index].(status := status)]) == ParamsOf(requests);
      requests := requests[index := requests[index].(status := status)];
    }

    method RemoveRequests(status: RequestStatus)
      requires Valid() && OnePerNanoapp(requests)
      modifies this, maximal
      ensures Valid() && OnePerNanoapp(requests)
      ensures forall r :: r in requests <==> r in old(requests) && r.status != status
    {
      hide Merged, Equivalent, OnePerNanoapp, Serials, Unanswered;
      var requestRemoved := false;
      var index := 0;
      while index < |requests|
        invariant index <= |requests| && OnePerNanoapp(requests) && unchanged(maximal)
        invariant forall i :: 0 <= i < index ==> requests[i].status != status
        invariant forall r :: r in requests ==> r in old(requests)
        invariant forall r :: r in old(requests) && r.status != status ==> r in requests
        invariant !requestRemoved ==> requests == old(requests)
        decreases |requests| - index
      {
        if requests[index].status == status {
          EraseKeepsOne(requests, index);
          EraseMembers(requests, index);
          EraseAt(requests, index);
          requests := Erase(requests, index);
          requestRemoved := true;
        } else {
          index := index + 1;
        }
      }
      if requestRemoved {
        var _ := UpdateMaximalRequest();
      }
    }

    method RemoveDisabledRequests()
      requires Valid() && OnePerNanoapp(requests)
      modifies this
      ensures Valid() && OnePerNanoapp(requests)
      ensures forall r :: r in requests <==> r in old(requests) && (r.params.enabled || r.status != Applied)
    {
      hide Merged, Equivalent, OnePerNanoapp, Serials, Unanswered, Fold;
      var index := 0;
      while index < |requests|
        invariant index <= |requests| && OnePerNanoapp(requests)
        invariant Fold(ParamsOf(requests)) == Fold(ParamsOf(old(requests)))
        invariant forall i :: 0 <= i < index ==> requests[i].params.enabled || requests[i].status != Applied
        invariant forall r :: r in requests ==> r in old(requests)
        invariant forall r :: r in old(requests) && (r.params.enabled || r.status != Applied) ==> r in requests
        decreases |requests| - index
      {
        if !requests[index].params.enabled && requests[index].status == Applied {
          EraseKeepsOne(requests, index);
          EraseMembers(requests, index);
          EraseAt(requests, index);
          FoldWithout(ParamsOf(requests), index);
          EraseParams(requests, index);
          requests := Erase(requests, index);
        } else {
          index := index + 1;
        }
      }
    }
  }

  lemma EraseMembers(s: Requests, i: nat)
    requires i < |s| && OnePerNanoapp(s)
    ensures forall r :: r in Erase(s, i) <==> r in s && r != s[i]
  {
    EraseAt(s, i);
    var t := Erase(s, i);
    forall r
      ensures r in t <==> r in s && r != s[i]
    {
      if r in s && r != s[i] {
        var j :| 0 <= j < |s| && s[j] == r;
        assert t[if j < i then j else j - 1] == r;
      }
      if r in t {
        var j :| 0 <= j < |t| && t[j] == r;
        assert s[if j < i then j else j + 1] == r;
      }
    }
  }

  lemma EraseParams(s: Requests, i: nat)
    requires i < |s|
    ensures ParamsOf(Erase(s, i)) == ParamsOf(s)[..i] + ParamsOf(s)[i + 1..]
  {}

  // ----------------------------------------------------------------------------------------
  // Answering many requests at once

  /** The requests among the first `n` with this status. */
  function Waiting(s: Requests, n: nat, status: RequestStatus): set<nat>
    requires n <= |s|
  {
    set i | 0 <= i < n && s[i].status == status :: s[i].serial
  }

  /** The results for these requests, in order. */
  function AnswersFor(s: Requests, n: nat, status: RequestStatus, success: bool, errorCode: ChreError): seq<AsyncResult>
    requires n <= |s|
  {
    if n == 0 then []
    else
      AnswersFor(s, n - 1, status, success, errorCode)
      + (if s[n - 1].status == status then [AnswerTo(s[n - 1], success, errorCode)] else [])
  }

  function AnswerTo(r: BleRequest, success: bool, errorCode: ChreError): AsyncResult {
    AsyncResult(r.instanceId, r.params.enabled, success, errorCode, r.cookie, r.serial)
  }

  predicate AppliesAll(s: Requests, t: Requests, status: RequestStatus) {
    && |t| == |s|
    && forall i :: 0 <= i < |s| ==> t[i] == if s[i].status == status then s[i].(status := Applied) else s[i]
  }

  lemma WaitingNext(s: Requests, i: nat, status: RequestStatus)
    requires i < |s| && OnePerNanoapp(s) && status != Applied
    ensures Waiting(s, i + 1, status) == Waiting(s, i, status) + (if s[i].status == status then {s[i].serial} else {})
    ensures s[i].status == status ==> s[i].serial in Unanswered(s) && s[i].serial !in Waiting(s, i, status)
  {}

  lemma AppliedAll(s: Requests, t: Requests, status: RequestStatus)
    requires OnePerNanoapp(s) && AppliesAll(s, t, status) && status != Applied
    ensures OnePerNanoapp(t) && Serials(t) == Serials(s) && ParamsOf(t) == ParamsOf(s)
    ensures Unanswered(t) == Unanswered(s) - Waiting(s, |s|, status)
    ensures NoneWith(t, status)
    ensures forall q :: q != Applied && q != status && NoneWith(s, q) ==> NoneWith(t, q)
  {
    forall x
      ensures x in Serials(t) <==> x in Serials(s)
      ensures x in Unanswered(t) <==> x in Unanswered(s) && x !in Waiting(s, |s|, status)
    {
      if x in Serials(s) {
        var j :| 0 <= j < |s| && s[j].serial == x;
        assert t[j].serial == x;
      }
      if x in Unanswered(s) && x !in Waiting(s, |s|, status) {
        var j :| 0 <= j < |s| && s[j].status != Applied && s[j].serial == x;
        assert t[j].serial == x;
      }
    }
  }

  /** What the requests that are left have in common with all. */
  lemma Subset(s: Requests, t: Requests)
    requires forall r :: r in t ==> r in s
    ensures Serials(t) <= Serials(s) && Unanswered(t) <= Unanswered(s)
    ensures forall q :: NoneWith(s, q) ==> NoneWith(t, q)
  {
    forall i | 0 <= i < |t|
      ensures exists k :: 0 <= k < |s| && s[k] == t[i]
    {
      assert t[i] in t;
    }
  }

  lemma RemovedAll(s: Requests, t: Requests, status: RequestStatus)
    requires OnePerNanoapp(s) && status != Applied
    requires forall r :: r in t <==> r in s && r.status != status
    ensures Serials(t) <= Serials(s) && NoneWith(t, status)
    ensures Unanswered(t) == Unanswered(s) - Waiting(s, |s|, status)
    ensures forall q :: NoneWith(s, q) ==> NoneWith(t, q)
  {
    Subset(s, t);
    forall i | 0 <= i < |t|
      ensures t[i].status != status
    {
      assert t[i] in t;
    }
    RemovedUnanswered(s, t, status);
  }

  lemma RemovedUnanswered(s: Requests, t: Requests, status: RequestStatus)
    requires OnePerNanoapp(s) && status != Applied
    requires forall r :: r in t <==> r in s && r.status != status
    ensures Unanswered(t) == Unanswered(s) - Waiting(s, |s|, status)
  {
    forall x
      ensures x in Unanswered(t) <==> x in Unanswered(s) && x !in Waiting(s, |s|, status)
    {
      if x in Unanswered(t) {
        var j :| 0 <= j < |t| && t[j].status != Applied && t[j].serial == x;
        assert t[j] in t;
        var k :| 0 <= k < |s| && s[k] == t[j];
        assert x in Unanswered(s);
      }
      if x in Unanswered(s) && x !in Waiting(s, |s|, status) {
        var j :| 0 <= j < |s| && s[j].status != Applied && s[j].serial == x;
        assert s[j] in s && s[j].status != status;
        assert s[j] in t;
        var k :| 0 <= k < |t| && t[k] == s[j];
        assert t[k].serial == x;
      }
    }
  }

  lemma RemovedDisabled(s: Requests, t: Requests)
    requires OnePerNanoapp(s)
    requires forall r :: r in t <==> r in s && (r.params.enabled || r.status != Applied)
    ensures Serials(t) <= Serials(s)
    ensures Unanswered(t) == Unanswered(s)
    ensures forall q :: NoneWith(s, q) ==> NoneWith(t, q)
  {
    Subset(s, t);
    forall x | x in Unanswered(s)
      ensures x in Unanswered(t)
    {
      var j :| 0 <= j < |s| && s[j].status != Applied && s[j].serial == x;
      assert s[j] in s;
      assert s[j] in t;
      var k :| 0 <= k < |t| && t[k] == s[j];
      assert t[k].serial == x;
    }
  }

  lemma AppliedWhenNonePending(s: Requests)
    requires NoneWith(s, PendingReq) && NoneWith(s, PendingResp)
    ensures AllApplied(s)
  {}

  // ----------------------------------------------------------------------------------------

  predicate ValidFilter(f: Filter) {
    && (f.adType == 0x16 || f.adType == 0xff)
    && 0 < f.len
    && forall i :: 0 <= i < f.len ==> f.data[i] & !f.dataMask[i] == 0
  }

  predicate ValidParams(p: ScanParams) {
    p.enabled ==> forall i :: 0 <= i < |p.genericFilters| ==> ValidFilter(p.genericFilters[i])
  }

  /** Advertised data that shows exactly the filter's bytes under its mask. */
  predicate Shows(f: Filter, data: seq<bv8>) {
    |data| == f.len && forall i :: 0 <= i < f.len ==> data[i] & f.dataMask[i] == f.data[i]
  }

  /** A filter is valid if its type is supported, it is not empty, and some data shows its bytes under its mask. */
  lemma ValidMeansShowable(f: Filter)
    ensures ValidFilter(f) <==> f.adType in {0x16, 0xff} && f.len != 0 && exists data :: Shows(f, data)
  {
    if ValidFilter(f) {
      forall i | 0 <= i < f.len
        ensures f.data[i] & f.dataMask[i] == f.data[i]
      {
        Unmasked(f.data[i], f.dataMask[i]);
      }
      assert Shows(f, f.data[..f.len]);
    }
    if data :| Shows(f, data) {
      forall i | 0 <= i < f.len
        ensures f.data[i] & !f.dataMask[i] == 0
      {
        Masked(data[i], f.dataMask[i]);
      }
    }
  }

  lemma Unmasked(x: bv8, mask: bv8)
    requires x & !mask == 0
    ensures x & mask == x
  {
  }

  lemma Masked(x: bv8, mask: bv8)
    ensures (x & mask) & !mask == 0
  {
  }

  /** `validateParams`. */
  method ValidateParams(p: ScanParams) returns (valid: bool)
    ensures valid <==> ValidParams(p)
  {
    if p.enabled {
      for k := 0 to |p.genericFilters|
        invariant forall j :: 0 <= j < k ==> ValidFilter(p.genericFilters[j])
      {
        var f := p.genericFilters[k];
        if (f.adType != 0x16 && f.adType != 0xff) || f.len == 0 {
          return false;
        }
        for i := 0 to f.len
          invariant forall j :: 0 <= j < i ==> f.data[j] & !f.dataMask[j] == 0
        {
          if f.data[i] & !f.dataMask[i] != 0 {
            return false;
          }
        }
      }
    }
    return true;
  }

  /** A call of the platform to start or stop scanning, and whether it took it. */
  datatype PlatformCall = PlatformCall(request: ScanParams, taken: bool)

  class BleRequestManager {
    const mux: BleRequestMultiplexer
    var platformRequestInProgress: bool
    var resyncPending: bool
    var settingChangePending: bool
    var settingEnabled: bool
    var pendingPlatformRequest: ScanParams
    var activePlatformRequest: ScanParams
    var asked: seq<PlatformCall>
    var results: seq<AsyncResult>          // posted to the nanoapps
    var nextSerial: nat
    var fatalError: bool                   // CHRE aborts
    ghost var refused: set<nat>            // calls of `configure` that returned false
    ghost var silent: set<nat>             // stops without a stored request while the platform was busy

    ghost function Closed(): set<nat>
      reads this
    {
      refused + silent
    }

    /** The scan that all stored requests come to, or none while the setting is off. */
    ghost function Desired(): ScanParams
      reads this, mux, mux.maximal
    {
      if settingEnabled && mux.maximal.params.enabled then mux.maximal.params else DISABLED
    }

    ghost predicate Base(open: set<nat>)
      reads this, mux, mux.maximal
    {
      && mux.Valid() && OnePerNanoapp(mux.requests)
      && Answered(results, nextSerial, open)
      && Serials(mux.requests) !! Closed()
      && (forall x :: x in Serials(mux.requests) ==> x < nextSerial)
    }

    ghost predicate Books()
      reads this, mux, mux.maximal
    {
      Base(Unanswered(mux.requests) + Closed())
    }

    /** Every call has had exactly one result, but for stored requests that are not applied, calls that were refused and
      silent stops, which have had none; and without a platform request in progress, all stored requests are applied. */
    ghost predicate Valid()
      reads this, mux, mux.maximal
    {
      Books() && (!platformRequestInProgress ==> AllApplied(mux.requests))
    }

    constructor ()
      ensures Valid() && fresh(mux) && fresh(mux.maximal) && mux.requests == [] && nextSerial == 0
      ensures !platformRequestInProgress && !resyncPending && !settingChangePending && settingEnabled && !fatalError
      ensures !activePlatformRequest.enabled && asked == [] && results == [] && Closed() == {}
    {
      mux := new BleRequestMultiplexer();
      platformRequestInProgress, resyncPending, settingChangePending := false, false, false;
      settingEnabled := true;
      pendingPlatformRequest, activePlatformRequest := DISABLED, DISABLED;
      asked, results, nextSerial, fatalError := [], [], 0, false;
      refused, silent := {}, {};
    }

    method HandleAsyncResult(instanceId: nat, enabled: bool, success: bool, errorCode: ChreError, cookie: nat,
                             serial: nat)
      modifies this`results
      ensures results == old(results) + [AsyncResult(instanceId, enabled, success, errorCode, cookie, serial)]
    {
      results := results + [AsyncResult(instanceId, enabled, success, errorCode, cookie, serial)];
    }

    /** Asks the platform for the scan that all stored requests come to. */
    method ControlPlatform() returns (success: bool)
      requires Books()
      modifies mux, this`pendingPlatformRequest, this`platformRequestInProgress, this`asked
      ensures Books() && Serials(mux.requests) == Serials(old(mux.requests))
      ensures Unanswered(mux.requests) == Unanswered(old(mux.requests))
      ensures Cores(mux.requests) == Cores(old(mux.requests))
      ensures ParamsOf(mux.requests) == ParamsOf(old(mux.requests))
      ensures asked == old(asked) + [PlatformCall(Desired(), success)] && pendingPlatformRequest == Desired()
      ensures !success ==>
              mux.requests == old(mux.requests) && platformRequestInProgress == old(platformRequestInProgress)
      ensures success ==> platformRequestInProgress && NoneWith(mux.requests, PendingReq)
    {
      hide OnePerNanoapp, Serials, Unanswered, Answered, Alike, Fold, ParamsOf, Cores;
      var enable := settingEnabled && mux.maximal.params.enabled;
      success := *;                         // `startScanAsync` or `stopScanAsync` of the platform
      pendingPlatformRequest := if enable then mux.maximal.params else DISABLED;
      asked := asked + [PlatformCall(pendingPlatformRequest, success)];
      if success {
        var i := 0;
        while i < |mux.requests|
          invariant i <= |mux.requests| && mux.Valid() && OnePerNanoapp(mux.requests)
          invariant Serials(mux.requests) == Serials(old(mux.requests))
          invariant Unanswered(mux.requests) == Unanswered(old(mux.requests))
          invariant Cores(mux.requests) == Cores(old(mux.requests))
          invariant ParamsOf(mux.requests) == ParamsOf(old(mux.requests))
          invariant forall k :: 0 <= k < i ==> mux.requests[k].status != PendingReq
          invariant pendingPlatformRequest == if enable then mux.maximal.params else DISABLED
          invariant asked == old(asked) + [PlatformCall(pendingPlatformRequest, true)]
        {
          if mux.requests[i].status == PendingReq {
            StatusKeepsOne(mux.requests, i, PendingResp);
            StatusCores(mux.requests, i, PendingResp);
            StoredUnanswered(mux.requests, i);
            StatusParams(mux.requests, i, PendingResp);
            mux.SetRequestStatus(i, PendingResp);
          }
          i := i + 1;
        }
        platformRequestInProgress := true;
      }
    }

    /** A result for every request with the status; `apply` says whether they are then applied or left to be removed. */
    method AnswerAll(status: RequestStatus, success: bool, errorCode: ChreError, apply: bool)
      requires Books() && status != Applied
      modifies mux, this`results
      ensures Base(Unanswered(old(mux.requests)) - Waiting(old(mux.requests), |old(mux.requests)|, status) + Closed())
      ensures results == old(results) + AnswersFor(old(mux.requests), |old(mux.requests)|, status, success, errorCode)
      ensures if apply then AppliesAll(old(mux.requests), mux.requests, status) else mux.requests == old(mux.requests)
      ensures apply ==>
              && NoneWith(mux.requests, status)
              && Unanswered(mux.requests)
                 == Unanswered(old(mux.requests)) - Waiting(old(mux.requests), |old(mux.requests)|, status)
    {
      hide OnePerNanoapp, Serials, Unanswered, Answered, Alike, Fold, ParamsOf, Waiting, AnswersFor, NoneWith;
      ghost var s := mux.requests;
      ghost var open := Unanswered(s) + Closed();
      StoredNotClosed(s, Closed());
      NoneWaiting(s, status);
      NoAnswers(s, status, success, errorCode);
      assert open - Waiting(s, 0, status) == open;
      var i := 0;
      while i < |mux.requests|
        invariant i <= |mux.requests| == |s| && mux.Valid()
        invariant Answered(results, nextSerial, open - Waiting(s, i, status))
        invariant results == old(results) + AnswersFor(s, i, status, success, errorCode)
        invariant forall k :: i <= k < |s| ==> mux.requests[k] == s[k]
        invariant forall k :: 0 <= k < i ==>
          mux.requests[k] == if apply && s[k].status == status then s[k].(status := Applied) else s[k]
      {
        var req := mux.requests[i];
        WaitingNext(s, i, status);
        AnswersNext(s, i, status, success, errorCode);
        if req.status == status {
          AnswerOne(results, nextSerial, open - Waiting(s, i, status),
            AsyncResult(req.instanceId, req.params.enabled, success, errorCode, req.cookie, req.serial));
          HandleAsyncResult(req.instanceId, req.params.enabled, success, errorCode, req.cookie, req.serial);
          assert open - Waiting(s, i, status) - {req.serial} == open - Waiting(s, i + 1, status);
          if apply {
            mux.SetRequestStatus(i, Applied);
          }
        } else {
          assert Waiting(s, i + 1, status) == Waiting(s, i, status);
        }
        i := i + 1;
      }
      WaitingStored(s, status, Closed());
      if apply {
        AppliedAll(s, mux.requests, status);
      } else {
        assert mux.requests == s;
      }
    }

    method DispatchPendingRequests()
      requires Books() && NoneWith(mux.requests, PendingResp) && !platformRequestInProgress
      modifies mux, mux.maximal, this`results, this`pendingPlatformRequest, this`platformRequestInProgress, this`asked
      ensures Valid() && Unanswered(mux.requests) <= Unanswered(old(mux.requests))
      ensures old(results) <= results
      ensures var blocked := !settingEnabled && old(mux.maximal.params).enabled;
        && asked == old(asked) + (if blocked then [] else [PlatformCall(old(Desired()), platformRequestInProgress)])
        && (blocked ==> !platformRequestInProgress)
        && (!platformRequestInProgress ==>
              results == old(results) + AnswersFor(old(mux.requests), |old(mux.requests)|, PendingReq, false,
                                                   if blocked then FunctionDisabled else GenericError))
      ensures platformRequestInProgress ==>
              pendingPlatformRequest == Desired() == old(Desired()) && results == old(results)
    {
      hide OnePerNanoapp, Serials, Unanswered, Answered, Alike, Fold, ParamsOf, Waiting, NoneWith;
      var errorCode := NoError;
      if !settingEnabled && mux.maximal.params.enabled {
        errorCode := FunctionDisabled;
      } else {
        var success := ControlPlatform();
        if !success {
          errorCode := GenericError;
        }
      }
      if errorCode != NoError {
        ghost var s := mux.requests;
        AnswerAll(PendingReq, false, errorCode, false);
        mux.RemoveRequests(PendingReq);
        RemovedAll(s, mux.requests, PendingReq);
        AppliedWhenNonePending(mux.requests);
      }
    }

    /** The platform is asked if this is forced or it is not in the state that is wanted; it has to take it. */
    method UpdatePlatformRequest(forceUpdate: bool)
      requires Valid() && !platformRequestInProgress
      modifies mux, this`pendingPlatformRequest, this`platformRequestInProgress, this`asked, this`fatalError
      ensures Valid() && Cores(mux.requests) == Cores(old(mux.requests))
      ensures Unanswered(mux.requests) == Unanswered(old(mux.requests))
      ensures Updated(forceUpdate, old(asked), old(fatalError)) && Desired() == old(Desired())
    {
      hide Cores, OnePerNanoapp, Serials, Unanswered, Answered, Alike, Fold, ParamsOf;
      var desiredPlatformState := settingEnabled && mux.maximal.params.enabled;
      var updatePlatform := forceUpdate || desiredPlatformState != activePlatformRequest.enabled;
      if updatePlatform {
        var success := ControlPlatform();
        if !success {
          fatalError := true;
        }
      }
    }

    /** What an idle platform was asked, given what was asked before. */
    ghost predicate Updated(force: bool, before: seq<PlatformCall>, failedBefore: bool)
      reads this, mux, mux.maximal
    {
      var due := force || Desired().enabled != activePlatformRequest.enabled;
      && asked == before + (if due then [PlatformCall(Desired(), platformRequestInProgress)] else [])
      && (due ==> pendingPlatformRequest == Desired()) && (!due ==> !platformRequestInProgress)
      && fatalError == (failedBefore || (due && !platformRequestInProgress))
    }

    method HandleRequestStateResyncCallbackSync()
      requires Valid()
      modifies mux, this`resyncPending, this`pendingPlatformRequest, this`platformRequestInProgress
      modifies this`asked, this`fatalError
      ensures Valid() && Cores(mux.requests) == Cores(old(mux.requests))
      ensures old(platformRequestInProgress) ==>
              && resyncPending && platformRequestInProgress && asked == old(asked) && fatalError == old(fatalError)
              && mux.requests == old(mux.requests) && pendingPlatformRequest == old(pendingPlatformRequest)
      ensures !old(platformRequestInProgress) ==>
              Updated(true, old(asked), old(fatalError)) && resyncPending == old(resyncPending)
    {
      if platformRequestInProgress {
        resyncPending := true;
      } else {
        UpdatePlatformRequest(true);
      }
    }

    method OnSettingChanged(enabled: bool)
      requires Valid()
      modifies mux, this`settingEnabled, this`settingChangePending
      modifies this`pendingPlatformRequest, this`platformRequestInProgress, this`asked, this`fatalError
      ensures Valid() && settingEnabled == enabled && Cores(mux.requests) == Cores(old(mux.requests))
      ensures old(platformRequestInProgress) ==>
              && settingChangePending && platformRequestInProgress && asked == old(asked)
              && fatalError == old(fatalError) && mux.requests == old(mux.requests)
              && pendingPlatformRequest == old(pendingPlatformRequest)
      ensures !old(platformRequestInProgress) ==>
              Updated(false, old(asked), old(fatalError)) && settingChangePending == old(settingChangePending)
    {
      settingEnabled := enabled;
      if platformRequestInProgress {
        settingChangePending := true;
      } else {
        UpdatePlatformRequest(false);
      }
    }

    /** The serials that will no longer count once the request at `existing` is gone. */
    ghost function Replaced(existing: Option<nat>): set<nat>
      reads mux
      requires existing.Some? ==> existing.value < |mux.requests|
    {
      if existing.Some? then {mux.requests[existing.value].serial} else {}
    }

    /** The call with this serial, the last one, is being handled. */
    ghost predicate Handling(serial: nat, existing: Option<nat>)
      reads this, mux, mux.maximal
      requires existing.Some? ==> existing.value < |mux.requests|
    {
      && Base(Unanswered(mux.requests) - Replaced(existing) + {serial} + Closed())
      && serial + 1 == nextSerial && serial !in Serials(mux.requests) && serial !in Closed()
      && (!platformRequestInProgress ==> AllApplied(mux.requests))
    }

    method BeginHandling()
      requires Valid()
      modifies this`nextSerial
      ensures nextSerial == old(nextSerial) + 1 && Handling(old(nextSerial), None)
    {
      hide OnePerNanoapp, Unanswered, Answered, Alike, Fold, ParamsOf, AllApplied;
      OpenOne(results, nextSerial, Unanswered(mux.requests) + Closed());
      assert Unanswered(mux.requests) + Closed() + {nextSerial}
          == Unanswered(mux.requests) - {} + {nextSerial} + Closed();
      nextSerial := nextSerial + 1;
    }

    ghost method Refuse(serial: nat)
      requires Handling(serial, None)
      modifies this`refused
      ensures Valid() && refused == old(refused) + {serial}
    {
      hide OnePerNanoapp, Unanswered, Answered, Alike, Fold, ParamsOf, AllApplied, Serials;
      refused := refused + {serial};
      assert Unanswered(mux.requests) - {} + {serial} + old(Closed()) == Unanswered(mux.requests) + Closed();
    }

    ghost method Silence(serial: nat)
      requires Handling(serial, None)
      modifies this`silent
      ensures Valid() && silent == old(silent) + {serial}
    {
      hide OnePerNanoapp, Unanswered, Answered, Alike, Fold, ParamsOf, AllApplied, Serials;
      silent := silent + {serial};
      assert Unanswered(mux.requests) - {} + {serial} + old(Closed()) == Unanswered(mux.requests) + Closed();
    }

    /** A request about to be replaced that has had no result gets one now. */
    method HandleExistingRequest(instanceId: nat, ghost serial: nat) returns (existing: Option<nat>)
      requires Handling(serial, None)
      modifies this`results
      ensures existing.Some? ==>
              existing.value < |mux.requests| && mux.requests[existing.value].instanceId == instanceId
      ensures existing.None? ==> forall i :: 0 <= i < |mux.requests| ==> mux.requests[i].instanceId != instanceId
      ensures Handling(serial, existing)
      ensures results == old(results) + (
                if existing.Some? && mux.requests[existing.value].status != Applied
                then [AnswerTo(mux.requests[existing.value], false, ObsoleteRequest)] else [])
      ensures existing.None? || !platformRequestInProgress ==> results == old(results)
    {
      hide OnePerNanoapp, Serials, Unanswered, Answered, Alike, Fold, ParamsOf;
      existing := mux.FindRequest(instanceId);
      ghost var open := Unanswered(mux.requests) + {serial} + Closed();
      assert Unanswered(mux.requests) - {} + {serial} + Closed() == open;
      if existing.Some? {
        var found := mux.requests[existing.value];
        StoredSerial(mux.requests, existing.value);
        if found.status != Applied {
          AnswerOne(results, nextSerial, open,
            AsyncResult(instanceId, found.params.enabled, false, ObsoleteRequest, found.cookie, found.serial));
          HandleAsyncResult(instanceId, found.params.enabled, false, ObsoleteRequest, found.cookie, found.serial);
        }
        assert open - {found.serial} == Unanswered(mux.requests) - {found.serial} + {serial} + Closed();
        assert found.status == Applied ==> open - {found.serial} == open;
      }
    }

    /** With the setting off, a scan is refused with a result, and ends the nanoapp's stored request. */
    method RejectDisabled(instanceId: nat, cookie: nat, existing: Option<nat>, serial: nat)
      requires existing.Some? ==>
               existing.value < |mux.requests| && mux.requests[existing.value].instanceId == instanceId
      requires existing.None? ==> forall i :: 0 <= i < |mux.requests| ==> mux.requests[i].instanceId != instanceId
      requires Handling(serial, existing)
      modifies mux, mux.maximal, this`results
      ensures Valid()
      ensures results == old(results) + [AsyncResult(instanceId, true, false, FunctionDisabled, cookie, serial)]
      ensures Cores(mux.requests) == CoresWithout(old(mux.requests), instanceId)
    {
      hide Cores, CoresWithout, OnePerNanoapp, Serials, Unanswered, Answered, Alike, Fold, ParamsOf, AllApplied;
      ghost var s := mux.requests;
      ghost var open := Unanswered(s) - Replaced(existing) + {serial} + Closed();
      AnswerOne(results, nextSerial, open, AsyncResult(instanceId, true, false, FunctionDisabled, cookie, serial));
      HandleAsyncResult(instanceId, true, false, FunctionDisabled, cookie, serial);
      AppliedUnanswered(s);
      UnansweredStored(s, serial);
      assert open - {serial} == Unanswered(s) - Replaced(existing) + Closed();
      if existing.Some? {
        EraseKeepsOne(s, existing.value);
        ReplaceCores(s, existing.value, s[existing.value]);
        var _ := mux.RemoveRequest(existing.value);
        AppliedUnanswered(mux.requests);
      } else {
        StoreCores(s, BleRequest(instanceId, DISABLED, PendingReq, cookie, serial));
        assert Unanswered(s) - {} == Unanswered(s);
      }
    }

    /** Whether the merge of all requests is another now: an existing request is replaced by merging all again. */
    ghost predicate MergeChanged(replaced: bool, before: ScanParams)
      reads mux, mux.maximal
    {
      if replaced then !Equivalent(before, Fold(ParamsOf(mux.requests))) else mux.maximal.params != before
    }

    /** Stores the request, unless it is a stop and there is nothing to stop. */
    method UpdateRequests(request: BleRequest, existing: Option<nat>, memory: bool)
      returns (success: bool, requestChanged: bool, index: nat)
      requires existing.Some? ==>
               existing.value < |mux.requests| && mux.requests[existing.value].instanceId == request.instanceId
      requires existing.None? ==> forall i :: 0 <= i < |mux.requests| ==>
               mux.requests[i].instanceId != request.instanceId
      requires Handling(request.serial, existing) && request.status == PendingReq
      modifies mux, mux.maximal
      ensures success <==> existing.Some? || !request.params.enabled || memory
      ensures success ==> (requestChanged <==> MergeChanged(existing.Some?, old(mux.maximal.params)))
      ensures success && (existing.Some? || request.params.enabled) ==>
              && Books() && index < |mux.requests| && mux.requests[index] == request
              && (!platformRequestInProgress ==> Unanswered(mux.requests) == {request.serial})
              && Cores(mux.requests) == CoresWithout(old(mux.requests), request.instanceId) + {Core(request)}
      ensures !success || (existing.None? && !request.params.enabled) ==>
              Cores(mux.requests) == CoresWithout(old(mux.requests), request.instanceId)
      ensures !success || (existing.None? && !request.params.enabled) ==>
              && mux.requests == old(mux.requests) && Handling(request.serial, None)
              && !requestChanged && index == |mux.requests|
    {
      hide OnePerNanoapp, Serials, Unanswered, Answered, Alike, Fold, ParamsOf, AllApplied, Cores, CoresWithout;
      success := true;
      ghost var s, c := mux.requests, Closed();
      ghost var serial := request.serial;
      AppliedUnanswered(s);
      if existing.None? {
        StoreCores(s, request);
      }
      assert Unanswered(s) - {} + {serial} + c == Unanswered(s) + {serial} + c;
      if existing.Some? {
        ReplaceKeepsOne(s, existing.value, request);
        ReplaceCores(s, existing.value, request);
        index := existing.value;
        requestChanged := mux.UpdateRequest(index, request);
      } else if request.params.enabled {
        StoreKeepsOne(s, request);
        success, index, requestChanged := mux.AddRequest(request, memory);
        if !success {
          index := |mux.requests|;
        }
      } else {
        requestChanged := false;
        index := |mux.requests|;
      }
    }

    /** The outcome of the call when the platform is idle. */
    method ApplyNow(request: BleRequest, index: nat, requestChanged: bool) returns (success: bool)
      requires !platformRequestInProgress && index <= |mux.requests|
      requires index < |mux.requests| ==>
        Books() && mux.requests[index] == request && Unanswered(mux.requests) == {request.serial}
      requires index == |mux.requests| ==> Handling(request.serial, None) && !requestChanged
      modifies mux, mux.maximal, this`results, this`pendingPlatformRequest, this`platformRequestInProgress, this`refused
      modifies this`asked
      ensures Valid()
      ensures asked == old(asked) + (if requestChanged then [PlatformCall(old(Desired()), success)] else [])
      ensures platformRequestInProgress <==> requestChanged && success
      ensures success ==>
              && ParamsOf(mux.requests) == ParamsOf(old(mux.requests)) && mux.maximal.params == old(mux.maximal.params)
              && (requestChanged ==> pendingPlatformRequest == Desired())
      ensures refused == if success then old(refused) else old(refused) + {request.serial}
      ensures requestChanged ==> results == old(results)
      ensures !requestChanged ==> success && results == old(results) + [AnswerTo(request, true, NoError)]
      ensures success ==> Cores(mux.requests) == Cores(old(mux.requests))
      ensures !success ==> Cores(mux.requests) == CoresWithout(old(mux.requests), request.instanceId)
    {
      hide OnePerNanoapp, Serials, Unanswered, Answered, Alike, Fold, ParamsOf, AllApplied, Cores, CoresWithout;
      ghost var s, c := mux.requests, Closed();
      ghost var serial := request.serial;
      success := true;
      if !requestChanged {
        var result := AsyncResult(request.instanceId, request.params.enabled, true, NoError, request.cookie, serial);
        if index < |mux.requests| {
          StoredSerial(s, index);
          AnswerOne(results, nextSerial, Unanswered(s) + c, result);
          HandleAsyncResult(request.instanceId, request.params.enabled, true, NoError, request.cookie, request.serial);
          StatusKeepsOne(s, index, Applied);
          StatusCores(s, index, Applied);
          assert Unanswered(s) + c - {serial} == Unanswered(s) - {serial} + c;
          mux.SetRequestStatus(index, Applied);
          AppliedUnanswered(mux.requests);
        } else {
          ghost var open := Unanswered(s) - {} + {serial} + c;
          UnansweredStored(s, serial);
          AnswerOne(results, nextSerial, open, result);
          HandleAsyncResult(request.instanceId, request.params.enabled, true, NoError, request.cookie, request.serial);
          assert open - {serial} == Unanswered(s) + c;
        }
      } else {
        success := ControlPlatform();
        if !success {
          StoredSerial(s, index);
          EraseKeepsOne(s, index);
          ReplaceCores(s, index, request);
          var _ := mux.RemoveRequest(index);
          refused := refused + {request.serial};
          assert Unanswered(s) + c == Unanswered(s) - {serial} + (c + {serial});
          assert Closed() == c + {serial};
          AppliedUnanswered(mux.requests);
        }
      }
    }

    /** A request that complies with the setting: it is stored, and the platform is asked if it is idle. */
    method StoreAndApply(request: BleRequest, existing: Option<nat>, memory: bool) returns (success: bool)
      requires existing.Some? ==>
               existing.value < |mux.requests| && mux.requests[existing.value].instanceId == request.instanceId
      requires existing.None? ==> NoRequestOf(mux.requests, request.instanceId)
      requires Handling(request.serial, existing) && request.status == PendingReq
      modifies mux, mux.maximal, this`results, this`pendingPlatformRequest, this`platformRequestInProgress
      modifies this`asked, this`refused, this`silent
      ensures Valid()
      ensures !success ==> results == old(results) && (existing.None? || !old(platformRequestInProgress))
      ensures refused == old(refused) + (if success then {} else {request.serial})
      ensures Cores(mux.requests) == CoresWithout(old(mux.requests), request.instanceId) + (
                if success && (existing.Some? || request.params.enabled) then {Core(request)} else {})
      ensures silent == old(silent) + (
                if success && old(platformRequestInProgress) && existing.None? && !request.params.enabled
                then {request.serial} else {})
      ensures old(platformRequestInProgress) ==>
              && asked == old(asked) && platformRequestInProgress
              && pendingPlatformRequest == old(pendingPlatformRequest)
      ensures !old(platformRequestInProgress) && success ==>
              var changed := MergeChanged(existing.Some?, old(mux.maximal.params));
              && asked == old(asked) + (if changed then [PlatformCall(Desired(), true)] else [])
              && platformRequestInProgress == changed && (changed ==> pendingPlatformRequest == Desired())
      ensures !success ==> forall i :: |old(asked)| <= i < |asked| ==> !asked[i].taken
      ensures old(asked) <= asked && |asked| <= |old(asked)| + 1
    {
      hide OnePerNanoapp, Serials, Unanswered, Answered, Alike, Fold, ParamsOf, AllApplied, Base, Cores, CoresWithout,
           Equivalent;
      var requestChanged, index;
      success, requestChanged, index := UpdateRequests(request, existing, memory);
      CoresOnce(old(mux.requests), request);
      if success && !platformRequestInProgress {
        success := ApplyNow(request, index, requestChanged);
      } else if !success {
        Refuse(request.serial);
      } else if index == |mux.requests| {
        Silence(request.serial);
      }
    }

    /** `startScanAsync` and `stopScanAsync`.  A call that returns false has no result; only a stop that finds nothing
      to stop while the platform is busy returns true and still never has one. */
    method Configure(instanceId: nat, params: ScanParams, cookie: nat, memory: bool) returns (success: bool)
      requires Valid()
      modifies mux, mux.maximal, this
      ensures Valid()
      ensures !ValidParams(params) ==> !success && nextSerial == old(nextSerial)
      ensures ValidParams(params) ==> nextSerial == old(nextSerial) + 1
      ensures !success ==> results == old(results) && silent == old(silent)
      ensures refused == old(refused) + (if ValidParams(params) && !success then {old(nextSerial)} else {})
      ensures !ValidParams(params) ==> mux.requests == old(mux.requests)
      ensures ValidParams(params) ==>
              Cores(mux.requests) == CoresWithout(old(mux.requests), instanceId) + (
                if success && !(params.enabled && !old(settingEnabled))
                   && (params.enabled || !NoRequestOf(old(mux.requests), instanceId))
                then {BleRequest(instanceId, params, PendingReq, cookie, old(nextSerial))} else {})
      ensures old(platformRequestInProgress) || !ValidParams(params) || (params.enabled && !settingEnabled) ==>
              && asked == old(asked) && platformRequestInProgress == old(platformRequestInProgress)
              && pendingPlatformRequest == old(pendingPlatformRequest)
      ensures !old(platformRequestInProgress) && success && !(params.enabled && !settingEnabled) ==>
              var changed := MergeChanged(!NoRequestOf(old(mux.requests), instanceId), old(mux.maximal.params));
              && asked == old(asked) + (if changed then [PlatformCall(Desired(), true)] else [])
              && platformRequestInProgress == changed && (changed ==> pendingPlatformRequest == Desired())
      ensures !success ==> forall i :: |old(asked)| <= i < |asked| ==> !asked[i].taken
      ensures old(asked) <= asked && |asked| <= |old(asked)| + 1
      ensures settingEnabled == old(settingEnabled) && activePlatformRequest == old(activePlatformRequest)
      ensures resyncPending == old(resyncPending) && settingChangePending == old(settingChangePending)
      ensures fatalError == old(fatalError)
      ensures success ==>
              silent == old(silent) + (
                if old(platformRequestInProgress) && !params.enabled && NoRequestOf(old(mux.requests), instanceId)
                then {old(nextSerial)} else {})
    {
      hide OnePerNanoapp, Serials, Unanswered, Answered, Alike, Fold, ParamsOf, AllApplied, ValidParams, Base, Cores,
           CoresWithout, MergeChanged, Desired;
      success := ValidateParams(params);
      if success {
        var serial := nextSerial;
        BeginHandling();
        var existing := HandleExistingRequest(instanceId, serial);
        if params.enabled && !settingEnabled {
          RejectDisabled(instanceId, cookie, existing, serial);
        } else {
          success := StoreAndApply(BleRequest(instanceId, params, PendingReq, cookie, serial), existing, memory);
        }
      }
    }

    /** The platform has answered. */
    method HandlePlatformChangeSync(enable: bool, platformErrorCode: ChreError)
      requires Valid()
      modifies mux, mux.maximal, this
      ensures Valid()
      ensures nextSerial == old(nextSerial) && refused == old(refused) && silent == old(silent)
      ensures Waiting(old(mux.requests), |old(mux.requests)|, PendingResp) !! Unanswered(mux.requests)
      ensures var stillOn := !old(pendingPlatformRequest).enabled && enable;
        old(results) + AnswersFor(old(mux.requests), |old(mux.requests)|, PendingResp,
                                  platformErrorCode == NoError && !stillOn,
                                  if stillOn then GenericError else platformErrorCode) <= results
      ensures var taken := platformErrorCode == NoError && (old(pendingPlatformRequest).enabled || !enable);
        activePlatformRequest == if taken then old(pendingPlatformRequest) else old(activePlatformRequest)
      ensures settingEnabled == old(settingEnabled) && old(asked) <= asked
      ensures MadeUpFor(|old(asked)|, old(settingChangePending))
    {
      hide OnePerNanoapp, Serials, Unanswered, Answered, Alike, Fold, ParamsOf, Waiting, NoneWith, AnswersFor;
      var errorCode := platformErrorCode;
      var success := errorCode == NoError;
      if !pendingPlatformRequest.enabled && enable {
        errorCode := GenericError;
        success := false;
      }
      platformRequestInProgress := false;
      ghost var s := mux.requests;
      AnswerAll(PendingResp, success, errorCode, success);
      ghost var t := mux.requests;
      if !success {
        mux.RemoveRequests(PendingResp);
        RemovedAll(t, mux.requests, PendingResp);
      } else {
        mux.RemoveDisabledRequests();
        RemovedDisabled(t, mux.requests);
        activePlatformRequest := pendingPlatformRequest;
      }
      FinishPlatformChange(success);
    }

    /** Nothing is left to make up for: what is now asked is what is wanted, and a change of the setting has had its
      effect, or has been asked for, or CHRE aborts. */
    ghost predicate MadeUpFor(before: nat, settingChanged: bool)
      reads this, mux, mux.maximal
    {
      && !resyncPending && !settingChangePending
      && (platformRequestInProgress ==>
            && before < |asked| && asked[|asked| - 1] == PlatformCall(Desired(), true)
            && pendingPlatformRequest == Desired())
      && (settingChanged ==>
            platformRequestInProgress || fatalError || Desired().enabled == activePlatformRequest.enabled)
    }

    /** What waited for the platform goes next; if nothing did, a resync that came while it was busy. */
    method DispatchOrResync(success: bool)
      requires Books() && NoneWith(mux.requests, PendingResp) && !platformRequestInProgress
      modifies mux, mux.maximal, this`results, this`pendingPlatformRequest, this`platformRequestInProgress, this`asked
      modifies this`fatalError
      ensures Valid() && Unanswered(mux.requests) <= Unanswered(old(mux.requests)) && old(results) <= results
      ensures var waiting := !NoneWith(old(mux.requests), PendingReq);
        var blocked := !settingEnabled && old(mux.maximal.params).enabled;
        var due := if waiting then !blocked else !success && resyncPending;
        && asked == old(asked) + (if due then [PlatformCall(old(Desired()), platformRequestInProgress)] else [])
        && (platformRequestInProgress ==> due && pendingPlatformRequest == Desired() == old(Desired()))
        && fatalError == (old(fatalError) || (!waiting && due && !platformRequestInProgress))
        && (!waiting ==> Desired() == old(Desired()) && results == old(results))
    {
      hide OnePerNanoapp, Serials, Unanswered, Answered, Alike, Fold, ParamsOf, Waiting, NoneWith, Cores, AnswersFor;
      var pending := mux.HasRequests(PendingReq);
      if pending {
        DispatchPendingRequests();
      } else {
        AppliedWhenNonePending(mux.requests);
        if !success && resyncPending {
          UpdatePlatformRequest(true);
        }
      }
    }

    /** What waited for the platform goes next, and changes that came while it was busy are made up for. */
    method FinishPlatformChange(success: bool)
      requires Books() && NoneWith(mux.requests, PendingResp) && !platformRequestInProgress
      modifies mux, mux.maximal, this
      ensures Valid() && Unanswered(mux.requests) <= Unanswered(old(mux.requests)) && old(results) <= results
      ensures nextSerial == old(nextSerial) && refused == old(refused) && silent == old(silent)
      ensures settingEnabled == old(settingEnabled) && activePlatformRequest == old(activePlatformRequest)
      ensures old(asked) <= asked && MadeUpFor(|old(asked)|, old(settingChangePending))
      ensures NoneWith(old(mux.requests), PendingReq) && (success || !old(resyncPending)) ==>
              if old(settingChangePending) then Updated(false, old(asked), old(fatalError))
              else asked == old(asked) && !platformRequestInProgress && fatalError == old(fatalError)
    {
      hide OnePerNanoapp, Serials, Unanswered, Answered, Alike, Fold, ParamsOf, Waiting, NoneWith, Cores, AnswersFor;
      DispatchOrResync(success);
      if !platformRequestInProgress && settingChangePending {
        UpdatePlatformRequest(false);
      }
      resyncPending := false;
      settingChangePending := false;
    }
  }

  predicate NoRequestOf(s: Requests, instanceId: nat) {
    forall i :: 0 <= i < |s| ==> s[i].instanceId != instanceId
  }

  lemma NoAnswers(s: Requests, status: RequestStatus, success: bool, errorCode: ChreError)
    ensures AnswersFor(s, 0, status, success, errorCode) == []
  {}

  lemma AnswersNext(s: Requests, i: nat, status: RequestStatus, success: bool, errorCode: ChreError)
    requires i < |s|
    ensures AnswersFor(s, i + 1, status, success, errorCode)
         == AnswersFor(s, i, status, success, errorCode)
            + (if s[i].status == status then [AnswerTo(s[i], success, errorCode)] else [])
  {}

  lemma StatusParams(s: Requests, i: nat, status: RequestStatus)
    requires i < |s|
    ensures ParamsOf(s[i := s[i].(status := status)]) == ParamsOf(s)
  {}

  lemma StoredSerial(s: Requests, i: nat)
    requires i < |s| && OnePerNanoapp(s)
    ensures s[i].serial in Serials(s)
    ensures s[i].serial in Unanswered(s) <==> s[i].status != Applied
  {}

  lemma UnansweredStored(s: Requests, serial: nat)
    ensures serial !in Serials(s) ==> serial !in Unanswered(s)
  {}

  lemma StoredUnanswered(s: Requests, i: nat)
    requires i < |s|
    ensures s[i].status != Applied ==> Unanswered(s) + {s[i].serial} == Unanswered(s)
  {
    assert s[i].status != Applied ==> s[i].serial in Unanswered(s);
  }

  lemma StoredNotClosed(s: Requests, closed: set<nat>)
    requires Serials(s) !! closed
    ensures Unanswered(s) !! closed
  {
    assert forall x :: x in Unanswered(s) ==> x in Serials(s);
  }

  lemma NoneWaiting(s: Requests, status: RequestStatus)
    ensures Waiting(s, 0, status) == {}
  {}

  lemma WaitingStored(s: Requests, status: RequestStatus, closed: set<nat>)
    requires Serials(s) !! closed
    ensures Unanswered(s) + closed - Waiting(s, |s|, status) == Unanswered(s) - Waiting(s, |s|, status) + closed
  {
    assert forall x :: x in Waiting(s, |s|, status) ==> x in Serials(s);
  }
}
