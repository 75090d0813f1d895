/**
 * BLE scan requests: how the requests of several nanoapps are merged into the one scan the platform is asked for.
 */
module BleRequests {
  import opened Util

  const BLE_DATA_LEN_MAX: nat := 29
  const BLE_SCAN_MODE_BACKGROUND: nat := 1
  const BLE_RSSI_THRESHOLD_NONE: int := -128

  datatype GenericFilter = GenericFilter(adType: nat, len: nat, data: seq<bv8>, dataMask: seq<bv8>)

  type Filter = f: GenericFilter
    | f.len <= BLE_DATA_LEN_MAX && |f.data| == BLE_DATA_LEN_MAX && |f.dataMask| == BLE_DATA_LEN_MAX
    witness GenericFilter(0, 0, seq(BLE_DATA_LEN_MAX, _ => 0), seq(BLE_DATA_LEN_MAX, _ => 0))

  type Address = seq<nat>

  datatype ScanParams = ScanParams(
    enabled: bool, mode: nat, reportDelayMs: nat, rssiThreshold: int,
    genericFilters: seq<Filter>, broadcasterFilters: seq<Address>)

  const DISABLED := ScanParams(false, BLE_SCAN_MODE_BACKGROUND, 0, BLE_RSSI_THRESHOLD_NONE, [], [])

  /** Only the first `len` bytes count. */
  predicate FiltersMatch(a: Filter, b: Filter) {
    && a.len == b.len && a.adType == b.adType
    && a.data[..a.len] == b.data[..a.len]
    && a.dataMask[..a.len] == b.dataMask[..a.len]
  }

  predicate BroadcasterFiltersMatch(a: Address, b: Address) { a == b }

  // ----------------------------------------------------------------------------------------
  // Merging filter lists

  predicate Covered<T>(same: (T, T) -> bool, s: seq<T>, x: T) {
    exists i :: 0 <= i < |s| && same(s[i], x)
  }

  ghost predicate Equivalence<T(!new)>(same: (T, T) -> bool) {
    && (forall a :: same(a, a))
    && (forall a, b :: same(a, b) ==> same(b, a))
    && (forall a, b, c :: same(a, b) && same(b, c) ==> same(a, c))
  }

  lemma MatchingIsEquivalence()
    ensures Equivalence(FiltersMatch)
    ensures Equivalence(BroadcasterFiltersMatch)
  {}

  function AddMissing<T>(same: (T, T) -> bool, mine: seq<T>, others: seq<T>): seq<T> {
    if others == [] then mine
    else
      var x := others[|others| - 1];
      var before := AddMissing(same, mine, others[..|others| - 1]);
      if Covered(same, before, x) then before else before + [x]
  }

  predicate Distinct<T>(same: (T, T) -> bool, s: seq<T>) {
    forall i, j :: 0 <= i < j < |s| ==> !same(s[i], s[j])
  }

  lemma {:induction false} AddMissingExtends<T>(same: (T, T) -> bool, mine: seq<T>, others: seq<T>)
    ensures mine <= AddMissing(same, mine, others)
    ensures Distinct(same, mine) ==> Distinct(same, AddMissing(same, mine, others))
  {
    if others != [] {
      AddMissingExtends(same, mine, others[..|others| - 1]);
    }
  }

  lemma CoveredAppend<T>(same: (T, T) -> bool, s: seq<T>, y: T, x: T)
    ensures Covered(same, s + [y], x) <==> Covered(same, s, x) || same(y, x)
  {
    var t := s + [y];
    if Covered(same, s, x) {
      var i :| 0 <= i < |s| && same(s[i], x);
      assert t[i] == s[i];
    }
    assert t[|s|] == y;
    if Covered(same, t, x) {
      var i :| 0 <= i < |t| && same(t[i], x);
      assert i < |s| ==> t[i] == s[i];
    }
  }

  lemma CoveredSame<T(!new)>(same: (T, T) -> bool, s: seq<T>, x: T, y: T)
    requires Equivalence(same) && same(x, y)
    ensures Covered(same, s, x) <==> Covered(same, s, y)
  {
    if Covered(same, s, x) {
      var i :| 0 <= i < |s| && same(s[i], x);
      assert same(s[i], y);
    }
    if Covered(same, s, y) {
      var i :| 0 <= i < |s| && same(s[i], y);
      assert same(y, x);
      assert same(s[i], x);
    }
  }

  /** The merged list covers exactly what one of the two covers. */
  lemma {:induction false} AddMissingCovers<T(!new)>(same: (T, T) -> bool, mine: seq<T>, others: seq<T>, x: T)
    requires Equivalence(same)
    ensures Covered(same, AddMissing(same, mine, others), x) <==> Covered(same, mine, x) || Covered(same, others, x)
  {
    if others != [] {
      var n := |others| - 1;
      var y := others[n];
      var before := AddMissing(same, mine, others[..n]);
      AddMissingCovers(same, mine, others[..n], x);
      CoveredAppend(same, others[..n], y, x);
      assert others == others[..n] + [y];
      CoveredAppend(same, before, y, x);
      if same(y, x) {
        CoveredSame(same, before, y, x);
      }
    }
  }

  // ----------------------------------------------------------------------------------------
  // Merging requests

  function Max(a: nat, b: nat): nat { if a < b then b else a }

  function Merged(a: ScanParams, b: ScanParams): ScanParams {
    if !b.enabled then a
    else
      ScanParams(true,
        if a.enabled then Max(a.mode, b.mode) else b.mode,
        if a.enabled then Min(a.reportDelayMs, b.reportDelayMs) else b.reportDelayMs,
        if a.enabled then Min(a.rssiThreshold, b.rssiThreshold) else b.rssiThreshold,
        AddMissing(FiltersMatch, a.genericFilters, b.genericFilters),
        AddMissing(BroadcasterFiltersMatch, a.broadcasterFilters, b.broadcasterFilters))
  }

  /** All requests merged, starting from a disabled one. */
  function Fold(requests: seq<ScanParams>): ScanParams {
    if requests == [] then DISABLED
    else Merged(Fold(requests[..|requests| - 1]), requests[|requests| - 1])
  }

  ghost predicate CoversAsked(m: ScanParams, requests: seq<ScanParams>) {
    && (forall f: Filter :: Covered(FiltersMatch, m.genericFilters, f) <==> AsksFor(requests, f))
    && (forall a: Address :: Covered(BroadcasterFiltersMatch, m.broadcasterFilters, a) <==> AsksForAddress(requests, a))
  }

  predicate AsksFor(requests: seq<ScanParams>, f: Filter) {
    exists i :: 0 <= i < |requests| && requests[i].enabled && Covered(FiltersMatch, requests[i].genericFilters, f)
  }

  predicate AsksForAddress(requests: seq<ScanParams>, a: Address) {
    exists i :: && 0 <= i < |requests| && requests[i].enabled
                && Covered(BroadcasterFiltersMatch, requests[i].broadcasterFilters, a)
  }

  /** The highest mode, the shortest delay and the lowest threshold that an enabled request asks for. */
  ghost predicate Strongest(m: ScanParams, requests: seq<ScanParams>) {
    && (m.enabled <==> exists r :: r in requests && r.enabled)
    && (m.enabled ==>
         && (exists r :: r in requests && r.enabled && r.mode == m.mode)
         && (exists r :: r in requests && r.enabled && r.reportDelayMs == m.reportDelayMs)
         && (exists r :: r in requests && r.enabled && r.rssiThreshold == m.rssiThreshold)
         && (forall r :: r in requests && r.enabled ==>
               r.mode <= m.mode && m.reportDelayMs <= r.reportDelayMs && m.rssiThreshold <= r.rssiThreshold))
  }

  predicate NoDuplicates(m: ScanParams) {
    Distinct(FiltersMatch, m.genericFilters) && Distinct(BroadcasterFiltersMatch, m.broadcasterFilters)
  }

  /** What the merged request means, whatever the order of the requests. */
  lemma {:induction false} FoldMeans(requests: seq<ScanParams>)
    ensures Strongest(Fold(requests), requests)
    ensures NoDuplicates(Fold(requests))
    ensures CoversAsked(Fold(requests), requests)
  {
    if requests != [] {
      var n := |requests| - 1;
      FoldMeans(requests[..n]);
      assert requests == requests[..n] + [requests[n]];
      FoldStrongest(requests[..n], requests[n]);
      FoldFilters(requests[..n], requests[n]);
    }
  }

  lemma FoldStrongest(front: seq<ScanParams>, last: ScanParams)
    requires Strongest(Fold(front), front)
    ensures Strongest(Merged(Fold(front), last), front + [last])
  {
    hide Fold, AddMissing;
    var all := front + [last];
    var m := Fold(front);
    var t := Merged(m, last);
    assert last in all;
    forall r
      ensures r in all <==> r in front || r == last
    {}
    if m.enabled {
      var r1 :| r1 in front && r1.enabled && r1.mode == m.mode;
      var r2 :| r2 in front && r2.enabled && r2.reportDelayMs == m.reportDelayMs;
      var r3 :| r3 in front && r3.enabled && r3.rssiThreshold == m.rssiThreshold;
      assert r1 in all && r2 in all && r3 in all;
    }
  }

  lemma FoldFilters(front: seq<ScanParams>, last: ScanParams)
    requires NoDuplicates(Fold(front)) && CoversAsked(Fold(front), front)
    ensures NoDuplicates(Merged(Fold(front), last))
    ensures CoversAsked(Merged(Fold(front), last), front + [last])
  {
    hide Fold, AddMissing, FiltersMatch, BroadcasterFiltersMatch, Equivalence, Covered;
    var m := Fold(front);
    MatchingIsEquivalence();
    AddMissingExtends(FiltersMatch, m.genericFilters, last.genericFilters);
    AddMissingExtends(BroadcasterFiltersMatch, m.broadcasterFilters, last.broadcasterFilters);
    forall f: Filter
      ensures Covered(FiltersMatch, Merged(m, last).genericFilters, f) <==> AsksFor(front + [last], f)
    {
      AddMissingCovers(FiltersMatch, m.genericFilters, last.genericFilters, f);
      AsksForAppend(front, last, f);
    }
    forall a: Address
      ensures Covered(BroadcasterFiltersMatch, Merged(m, last).broadcasterFilters, a) <==>
              AsksForAddress(front + [last], a)
    {
      AddMissingCovers(BroadcasterFiltersMatch, m.broadcasterFilters, last.broadcasterFilters, a);
      AsksForAddressAppend(front, last, a);
    }
  }

  lemma AsksForAppend(front: seq<ScanParams>, last: ScanParams, f: Filter)
    ensures AsksFor(front + [last], f) <==>
      AsksFor(front, f) || (last.enabled && Covered(FiltersMatch, last.genericFilters, f))
  {
    hide Covered, FiltersMatch;
    var all := front + [last];
    assert all[|front|] == last;
    if AsksFor(front, f) {
      var i :| 0 <= i < |front| && front[i].enabled && Covered(FiltersMatch, front[i].genericFilters, f);
      assert all[i] == front[i];
    }
    if AsksFor(all, f) {
      var i :| 0 <= i < |all| && all[i].enabled && Covered(FiltersMatch, all[i].genericFilters, f);
      assert i < |front| ==> all[i] == front[i];
    }
  }

  lemma AsksForAddressAppend(front: seq<ScanParams>, last: ScanParams, a: Address)
    ensures AsksForAddress(front + [last], a) <==>
      AsksForAddress(front, a) || (last.enabled && Covered(BroadcasterFiltersMatch, last.broadcasterFilters, a))
  {
    hide Covered, BroadcasterFiltersMatch;
    var all := front + [last];
    assert all[|front|] == last;
    if AsksForAddress(front, a) {
      var i :| 0 <= i < |front| && front[i].enabled && Covered(BroadcasterFiltersMatch, front[i].broadcasterFilters, a);
      assert all[i] == front[i];
    }
    if AsksForAddress(all, a) {
      var i :| 0 <= i < |all| && all[i].enabled && Covered(BroadcasterFiltersMatch, all[i].broadcasterFilters, a);
      assert i < |front| ==> all[i] == front[i];
    }
  }

  // ----------------------------------------------------------------------------------------
  // The order of the requests does not matter

  ghost predicate SameCover<T(!new)>(same: (T, T) -> bool, s: seq<T>, t: seq<T>) {
    forall x :: Covered(same, s, x) <==> Covered(same, t, x)
  }

  lemma {:induction false} NotLonger<T(!new)>(same: (T, T) -> bool, s: seq<T>, t: seq<T>)
    requires Equivalence(same) && Distinct(same, s)
    requires forall i :: 0 <= i < |s| ==> Covered(same, t, s[i])
    ensures |s| <= |t|
  {
    if s != [] {
      var n := |s| - 1;
      var j :| 0 <= j < |t| && same(t[j], s[n]);
      var rest := t[..j] + t[j + 1..];
      forall i | 0 <= i < n
        ensures Covered(same, rest, s[..n][i])
      {
        assert s[..n][i] == s[i];
        var k :| 0 <= k < |t| && same(t[k], s[i]);
        assert same(s[i], t[k]);
        assert !same(s[i], s[n]);
        assert k != j;
        assert rest[if k < j then k else k - 1] == t[k];
      }
      NotLonger(same, s[..n], rest);
    }
  }

  lemma CoversItself<T(!new)>(same: (T, T) -> bool, s: seq<T>)
    requires Equivalence(same)
    ensures forall i :: 0 <= i < |s| ==> Covered(same, s, s[i])
  {
    forall i | 0 <= i < |s|
      ensures Covered(same, s, s[i])
    {
      assert same(s[i], s[i]);
    }
  }

  lemma SameSize<T(!new)>(same: (T, T) -> bool, s: seq<T>, t: seq<T>)
    requires Equivalence(same) && Distinct(same, s) && Distinct(same, t) && SameCover(same, s, t)
    ensures |s| == |t|
  {
    CoversItself(same, s);
    CoversItself(same, t);
    NotLonger(same, s, t);
    NotLonger(same, t, s);
  }

  lemma SameMembers(a: seq<ScanParams>, b: seq<ScanParams>)
    requires multiset(a) == multiset(b)
    ensures forall r :: r in a <==> r in b
  {
    forall r
      ensures r in a <==> r in b
    {
      assert r in a <==> r in multiset(a);
      assert r in b <==> r in multiset(b);
    }
  }

  lemma SameAsked(a: seq<ScanParams>, b: seq<ScanParams>)
    requires forall r :: r in a ==> r in b
    ensures forall f: Filter :: AsksFor(a, f) ==> AsksFor(b, f)
    ensures forall f: Address :: AsksForAddress(a, f) ==> AsksForAddress(b, f)
  {
    hide Covered, FiltersMatch, BroadcasterFiltersMatch;
    forall f: Filter | AsksFor(a, f)
      ensures AsksFor(b, f)
    {
      var i :| 0 <= i < |a| && a[i].enabled && Covered(FiltersMatch, a[i].genericFilters, f);
      assert a[i] in b;
      var j :| 0 <= j < |b| && b[j] == a[i];
      assert b[j].enabled && Covered(FiltersMatch, b[j].genericFilters, f);
    }
    forall f: Address | AsksForAddress(a, f)
      ensures AsksForAddress(b, f)
    {
      var i :| 0 <= i < |a| && a[i].enabled && Covered(BroadcasterFiltersMatch, a[i].broadcasterFilters, f);
      assert a[i] in b;
      var j :| 0 <= j < |b| && b[j] == a[i];
      assert b[j].enabled && Covered(BroadcasterFiltersMatch, b[j].broadcasterFilters, f);
    }
  }

  lemma FoldOrderIrrelevant(a: seq<ScanParams>, b: seq<ScanParams>)
    requires multiset(a) == multiset(b)
    ensures var m, n := Fold(a), Fold(b);
      && m.enabled == n.enabled && m.mode == n.mode
      && m.reportDelayMs == n.reportDelayMs && m.rssiThreshold == n.rssiThreshold
      && SameCover(FiltersMatch, m.genericFilters, n.genericFilters)
      && SameCover(BroadcasterFiltersMatch, m.broadcasterFilters, n.broadcasterFilters)
      && |m.genericFilters| == |n.genericFilters| && |m.broadcasterFilters| == |n.broadcasterFilters|
  {
    hide Fold, FiltersMatch, BroadcasterFiltersMatch, Covered, Equivalence, Distinct, AsksFor, AsksForAddress;
    FoldMeans(a);
    FoldMeans(b);
    SameMembers(a, b);
    SameAsked(a, b);
    SameAsked(b, a);
    var m, n := Fold(a), Fold(b);
    SameStrongest(a, b);
    MatchingIsEquivalence();
    SameSize(FiltersMatch, m.genericFilters, n.genericFilters);
    SameSize(BroadcasterFiltersMatch, m.broadcasterFilters, n.broadcasterFilters);
  }

  lemma {:induction false} DisabledFold(requests: seq<ScanParams>)
    requires forall r :: r in requests ==> !r.enabled
    ensures Fold(requests) == DISABLED
  {
    if requests != [] {
      var n := |requests| - 1;
      assert requests[n] in requests;
      assert forall r :: r in requests[..n] ==> r in requests;
      DisabledFold(requests[..n]);
    }
  }

  lemma SameStrongest(a: seq<ScanParams>, b: seq<ScanParams>)
    requires Strongest(Fold(a), a) && Strongest(Fold(b), b) && forall r :: r in a <==> r in b
    ensures var m, n := Fold(a), Fold(b);
      && m.enabled == n.enabled && m.mode == n.mode
      && m.reportDelayMs == n.reportDelayMs && m.rssiThreshold == n.rssiThreshold
  {
    hide Fold;
    if !Fold(a).enabled {
      DisabledFold(a);
      DisabledFold(b);
    }
  }

  // ----------------------------------------------------------------------------------------
  // Requests that are alike

  predicate PairwiseMatch<T>(same: (T, T) -> bool, s: seq<T>, t: seq<T>) {
    |s| == |t| && forall i :: 0 <= i < |s| ==> same(s[i], t[i])
  }

  /** What `isEquivalentTo` computes: two disabled requests are not equivalent. */
  predicate Equivalent(a: ScanParams, b: ScanParams) {
    && a.enabled && b.enabled && a.mode == b.mode
    && a.reportDelayMs == b.reportDelayMs && a.rssiThreshold == b.rssiThreshold
    && PairwiseMatch(FiltersMatch, a.genericFilters, b.genericFilters)
    && PairwiseMatch(BroadcasterFiltersMatch, a.broadcasterFilters, b.broadcasterFilters)
  }

  predicate Alike(a: ScanParams, b: ScanParams) { a == b || Equivalent(a, b) }

  lemma CoveredAlike<T(!new)>(same: (T, T) -> bool, s: seq<T>, t: seq<T>, x: T)
    requires Equivalence(same) && PairwiseMatch(same, s, t)
    ensures Covered(same, s, x) <==> Covered(same, t, x)
  {
    if Covered(same, s, x) {
      var i :| 0 <= i < |s| && same(s[i], x);
      assert same(t[i], s[i]);
      assert same(t[i], x);
    }
    if Covered(same, t, x) {
      var i :| 0 <= i < |t| && same(t[i], x);
      assert same(s[i], t[i]);
      assert same(s[i], x);
    }
  }

  lemma {:induction false} AddMissingAlike<T(!new)>(same: (T, T) -> bool, s: seq<T>, t: seq<T>, others: seq<T>)
    requires Equivalence(same) && PairwiseMatch(same, s, t)
    ensures PairwiseMatch(same, AddMissing(same, s, others), AddMissing(same, t, others))
  {
    if others != [] {
      var n := |others| - 1;
      AddMissingAlike(same, s, t, others[..n]);
      CoveredAlike(same, AddMissing(same, s, others[..n]), AddMissing(same, t, others[..n]), others[n]);
      assert same(others[n], others[n]);
    }
  }

  lemma MergedAlike(a: ScanParams, b: ScanParams, r: ScanParams)
    requires Alike(a, b)
    ensures Alike(Merged(a, r), Merged(b, r))
  {
    hide AddMissing, FiltersMatch, BroadcasterFiltersMatch, Equivalence, PairwiseMatch;
    if a != b {
      MatchingIsEquivalence();
      AddMissingAlike(FiltersMatch, a.genericFilters, b.genericFilters, r.genericFilters);
      AddMissingAlike(BroadcasterFiltersMatch, a.broadcasterFilters, b.broadcasterFilters, r.broadcasterFilters);
    }
  }

  /** Disabled requests do not affect the merged one. */
  lemma {:induction false} FoldWithout(requests: seq<ScanParams>, i: nat)
    requires i < |requests| && !requests[i].enabled
    ensures Fold(requests[..i] + requests[i + 1..]) == Fold(requests)
    decreases |requests|
  {
    var n := |requests| - 1;
    var rest := requests[..i] + requests[i + 1..];
    if i < n {
      FoldWithout(requests[..n], i);
      assert rest[..n - 1] == requests[..n][..i] + requests[..n][i + 1..];
      assert rest[n - 1] == requests[n];
    } else {
      assert rest == requests[..n];
    }
  }

  // ----------------------------------------------------------------------------------------
  // The merge in place

  method AddMissingFilters<T(==)>(same: (T, T) -> bool, mine: seq<T>, others: seq<T>) returns (r: seq<T>, changed: bool)
    ensures r == AddMissing(same, mine, others)
    ensures changed <==> r != mine
  {
    r, changed := mine, false;
    var i := 0;
    while i < |others|
      invariant i <= |others|
      invariant r == AddMissing(same, mine, others[..i])
      invariant mine <= r && (changed <==> |r| > |mine|)
    {
      assert others[..i + 1][..i] == others[..i];
      var addFilter := true;
      var j := 0;
      while j < |r|
        invariant j <= |r| && addFilter
        invariant forall k :: 0 <= k < j ==> !same(r[k], others[i])
      {
        if same(r[j], others[i]) {
          addFilter := false;
          break;
        }
        j := j + 1;
      }
      assert addFilter <==> !Covered(same, r, others[i]);
      if addFilter {
        changed := true;
        r := r + [others[i]];
      }
      i := i + 1;
    }
    assert others[..|others|] == others;
  }

  class MaximalRequest {
    var params: ScanParams

    constructor ()
      ensures params == DISABLED
    {
      params := DISABLED;
    }

    /** Reports exactly whether the merge made a difference. */
    method MergeWith(request: ScanParams) returns (attributesChanged: bool)
      modifies this
      ensures params == Merged(old(params), request)
      ensures attributesChanged <==> params != old(params)
    {
      hide AddMissing;
      if !request.enabled {
        return false;
      }
      attributesChanged := false;
      var p := params;
      if !p.enabled {
        p := p.(enabled := true, mode := request.mode, reportDelayMs := request.reportDelayMs,
                rssiThreshold := request.rssiThreshold);
        attributesChanged := true;
      } else {
        if p.mode < request.mode {
          p := p.(mode := request.mode);
          attributesChanged := true;
        }
        if p.reportDelayMs > request.reportDelayMs {
          p := p.(reportDelayMs := request.reportDelayMs);
          attributesChanged := true;
        }
        if p.rssiThreshold > request.rssiThreshold {
          p := p.(rssiThreshold := request.rssiThreshold);
          attributesChanged := true;
        }
      }
      var generic, genericChanged := AddMissingFilters(FiltersMatch, p.genericFilters, request.genericFilters);
      var broadcaster, broadcasterChanged :=
        AddMissingFilters(BroadcasterFiltersMatch, p.broadcasterFilters, request.broadcasterFilters);
      params := p.(genericFilters := generic, broadcasterFilters := broadcaster);
      attributesChanged := attributesChanged || genericChanged || broadcasterChanged;
    }
  }
}
