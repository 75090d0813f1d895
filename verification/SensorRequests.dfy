/**
 * Sensor requests: how the requests of several nanoapps are merged into the one the platform is asked for.
 */
module SensorRequests {

  import opened Util

  /** Interval, latency and batch interval have the same default, the largest 64-bit number. */
  const DEFAULT: uint64 := 0xFFFF_FFFF_FFFF_FFFF
  const MAX_INTERVAL_LATENCY_NS: uint64 := (DEFAULT - 1) / 2

  datatype SensorMode = Off | ActiveContinuous | ActiveOneShot | PassiveContinuous | PassiveOneShot

  datatype SensorRequest = SensorRequest(mode: SensorMode, interval: uint64, latency: uint64,
                                         biasUpdatesRequested: bool)

  const NO_REQUEST := SensorRequest(Off, DEFAULT, DEFAULT, false)

  /** The constructor: values other than the default are capped. */
  function Capped(x: uint64): uint64 { if x == DEFAULT then x else Min(x, MAX_INTERVAL_LATENCY_NS) }

  function MakeRequest(mode: SensorMode, interval: uint64, latency: uint64, bias: bool): (r: SensorRequest)
    ensures WellFormed(r)
  {
    SensorRequest(mode, Capped(interval), Capped(latency), bias)
  }

  function BatchInterval(r: SensorRequest): uint64 {
    if r.interval == DEFAULT || r.latency == DEFAULT then DEFAULT else Add64(r.interval, r.latency)
  }

  /** Continuous modes go before one-shot ones of the same kind, active modes before passive ones. */
  function Priority(mode: SensorMode): nat {
    match mode
    case Off => 0
    case PassiveOneShot => 1
    case PassiveContinuous => 2
    case ActiveOneShot => 3
    case ActiveContinuous => 4
  }

  function Higher(a: SensorMode, b: SensorMode): SensorMode { if Priority(a) < Priority(b) then b else a }

  function MergedLatency(a: SensorRequest, b: SensorRequest): uint64 {
    var batchInterval := Min(BatchInterval(a), BatchInterval(b));
    if batchInterval == DEFAULT then Min(a.latency, b.latency)
    else Sub64(batchInterval, Min(a.interval, b.interval))
  }

  function Merged(a: SensorRequest, b: SensorRequest): SensorRequest {
    if b.mode == Off then a
    else SensorRequest(Higher(a.mode, b.mode), Min(a.interval, b.interval), MergedLatency(a, b),
                       a.biasUpdatesRequested || b.biasUpdatesRequested)
  }

  function Fold(requests: seq<SensorRequest>): SensorRequest {
    if requests == [] then NO_REQUEST
    else Merged(Fold(requests[..|requests| - 1]), requests[|requests| - 1])
  }

  // ----------------------------------------------------------------------------------------
  // No overflow, whatever is default

  predicate WellFormed(r: SensorRequest) {
    && (r.interval == DEFAULT || r.interval <= MAX_INTERVAL_LATENCY_NS)
    && (r.latency == DEFAULT
        || (if r.interval == DEFAULT then r.latency <= MAX_INTERVAL_LATENCY_NS
            else r.interval + r.latency <= 2 * MAX_INTERVAL_LATENCY_NS))
  }

  /** Neither the sum nor the difference wraps around, and the sum is never mistaken for the default. */
  predicate NoOverflow(a: SensorRequest, b: SensorRequest) {
    && (a.interval != DEFAULT && a.latency != DEFAULT ==> BatchInterval(a) == a.interval + a.latency < DEFAULT)
    && (b.interval != DEFAULT && b.latency != DEFAULT ==> BatchInterval(b) == b.interval + b.latency < DEFAULT)
    && (Min(BatchInterval(a), BatchInterval(b)) != DEFAULT ==>
          Min(a.interval, b.interval) <= Min(BatchInterval(a), BatchInterval(b)))
  }

  lemma MergeIsSafe(a: SensorRequest, b: SensorRequest)
    requires WellFormed(a) && WellFormed(b)
    ensures NoOverflow(a, b)
    ensures WellFormed(Merged(a, b))
  {}

  lemma {:induction false} FoldIsSafe(requests: seq<SensorRequest>)
    requires forall i :: 0 <= i < |requests| ==> WellFormed(requests[i])
    ensures WellFormed(Fold(requests))
    ensures forall n :: 0 <= n < |requests| ==> NoOverflow(Fold(requests[..n]), requests[n])
  {
    if requests != [] {
      var last := |requests| - 1;
      var front := requests[..last];
      FoldIsSafe(front);
      MergeIsSafe(Fold(front), requests[last]);
      forall n | 0 <= n < |requests|
        ensures NoOverflow(Fold(requests[..n]), requests[n])
      {
        assert n < last ==> front[..n] == requests[..n] && front[n] == requests[n];
      }
    }
  }

  // ----------------------------------------------------------------------------------------
  // What the merged request means when nothing is default

  predicate Plain(r: SensorRequest) {
    r.mode == Off || (r.interval <= MAX_INTERVAL_LATENCY_NS && r.latency <= MAX_INTERVAL_LATENCY_NS)
  }

  ghost predicate Wants(requests: seq<SensorRequest>, r: SensorRequest) {
    r in requests && r.mode != Off
  }

  /** The shortest interval, the shortest batch interval, the highest mode. */
  ghost predicate Strongest(m: SensorRequest, requests: seq<SensorRequest>) {
    && (exists r :: Wants(requests, r) && r.interval == m.interval)
    && (exists r :: Wants(requests, r) && r.interval + r.latency == m.interval + m.latency)
    && (exists r :: Wants(requests, r) && r.mode == m.mode)
    && (m.biasUpdatesRequested <==> exists r :: Wants(requests, r) && r.biasUpdatesRequested)
    && (forall r :: Wants(requests, r) ==>
          && m.interval <= r.interval
          && m.interval + m.latency <= r.interval + r.latency
          && Priority(r.mode) <= Priority(m.mode))
  }

  lemma {:induction false} FoldMeans(requests: seq<SensorRequest>)
    requires forall r :: r in requests ==> Plain(r)
    ensures (forall r :: r in requests ==> r.mode == Off) ==> Fold(requests) == NO_REQUEST
    ensures (exists r :: Wants(requests, r)) ==>
      Strongest(Fold(requests), requests) && Plain(Fold(requests)) && Fold(requests).mode != Off
  {
    if requests != [] {
      var n := |requests| - 1;
      var front, last := requests[..n], requests[n];
      assert requests == front + [last];
      assert forall r :: r in front ==> r in requests;
      assert last in requests;
      FoldMeans(front);
      FoldMeansStep(front, last);
    }
  }

  lemma FoldMeansStep(front: seq<SensorRequest>, last: SensorRequest)
    requires Plain(last)
    requires (forall r :: r in front ==> r.mode == Off) ==> Fold(front) == NO_REQUEST
    requires (exists r :: Wants(front, r)) ==>
      Strongest(Fold(front), front) && Plain(Fold(front)) && Fold(front).mode != Off
    ensures var m := Merged(Fold(front), last);
      && ((forall r :: r in front + [last] ==> r.mode == Off) ==> m == NO_REQUEST)
      && ((exists r :: Wants(front + [last], r)) ==>
            Strongest(m, front + [last]) && Plain(m) && m.mode != Off)
  {
    hide Fold;
    var all := front + [last];
    var f := Fold(front);
    assert last in all;
    forall r
      ensures Wants(all, r) <==> Wants(front, r) || (r == last && last.mode != Off)
    {}
    if exists r :: Wants(front, r) {
      var r0 :| Wants(front, r0);
      assert Wants(all, r0);
      MergePlain(f, last);
      StrongestStep(f, front, last);
    } else {
      assert forall r :: r in front ==> r.mode == Off || Wants(front, r);
      assert last.mode != Off ==> Wants(all, last);
    }
  }

  lemma MergePlain(a: SensorRequest, b: SensorRequest)
    requires Plain(a) && Plain(b) && a.mode != Off
    ensures Plain(Merged(a, b)) && Merged(a, b).mode != Off
    ensures b.mode != Off ==>
      Merged(a, b).interval + Merged(a, b).latency == Min(a.interval + a.latency, b.interval + b.latency)
  {}

  lemma StrongestStep(f: SensorRequest, front: seq<SensorRequest>, last: SensorRequest)
    requires Strongest(f, front) && Plain(f) && f.mode != Off && Plain(last)
    ensures Strongest(Merged(f, last), front + [last])
  {
    MergePlain(f, last);
    hide MergedLatency;
    var all := front + [last];
    var m := Merged(f, last);
    var r1 :| Wants(front, r1) && r1.interval == f.interval;
    var r2 :| Wants(front, r2) && r2.interval + r2.latency == f.interval + f.latency;
    var r3 :| Wants(front, r3) && r3.mode == f.mode;
    assert Wants(all, r1) && Wants(all, r2) && Wants(all, r3);
    assert last in all;
    assert last.mode != Off ==> Wants(all, last);
    forall r
      ensures Wants(all, r) <==> Wants(front, r) || (r == last && last.mode != Off)
    {}
    if f.biasUpdatesRequested {
      var r4 :| Wants(front, r4) && r4.biasUpdatesRequested;
      assert Wants(all, r4);
    }
  }

  // ----------------------------------------------------------------------------------------
  // What the merged request means whatever is default

  predicate IsCapped(r: SensorRequest) {
    && (r.interval == DEFAULT || r.interval <= MAX_INTERVAL_LATENCY_NS)
    && (r.latency == DEFAULT || r.latency <= MAX_INTERVAL_LATENCY_NS)
  }

  /** The constructor caps what it is given; requests that are off do not count. */
  predicate AllCapped(requests: seq<SensorRequest>) { forall r :: r in requests ==> r.mode == Off || IsCapped(r) }

  predicate Full(r: SensorRequest) { r.interval != DEFAULT && r.latency != DEFAULT }

  predicate IntervalOnly(r: SensorRequest) { r.interval != DEFAULT && r.latency == DEFAULT }

  predicate LatencyOnly(r: SensorRequest) { r.interval == DEFAULT && r.latency != DEFAULT }

  /** One merge: the batch intervals of full requests are compared; before that, interval and latency are. */
  lemma MergeStep(a: SensorRequest, b: SensorRequest)
    requires WellFormed(a) && IsCapped(b) && b.mode != Off
    ensures var m := Merged(a, b);
      && WellFormed(m) && m.interval == Min(a.interval, b.interval)
      && (Full(a) || Full(b) ==> Full(m) && BatchInterval(m) == Min(BatchInterval(a), BatchInterval(b)))
      && (!Full(a) && !Full(b) ==> m.latency == Min(a.latency, b.latency))
    ensures Full(a) <==> BatchInterval(a) != DEFAULT
    ensures Full(a) ==> BatchInterval(a) == a.interval + a.latency
  {}

  /** The highest mode, and a bias if any asks for it. */
  ghost predicate ModeOf(m: SensorRequest, requests: seq<SensorRequest>) {
    && (forall r :: Wants(requests, r) ==> Priority(r.mode) <= Priority(m.mode))
    && (m.mode == Off || exists r :: Wants(requests, r) && r.mode == m.mode)
    && (m.biasUpdatesRequested <==> exists r :: Wants(requests, r) && r.biasUpdatesRequested)
  }

  ghost predicate IntervalOf(m: SensorRequest, requests: seq<SensorRequest>) {
    && (forall r :: Wants(requests, r) ==> m.interval <= r.interval)
    && (m.interval == DEFAULT || exists r :: Wants(requests, r) && r.interval == m.interval)
  }

  ghost predicate LatencyOf(m: SensorRequest, requests: seq<SensorRequest>) {
    && (forall r :: Wants(requests, r) ==> m.latency <= r.latency)
    && (m.latency == DEFAULT || exists r :: Wants(requests, r) && r.latency == m.latency)
  }

  /** An interval and a latency that come from different requests and add up to `batch`. */
  ghost predicate PairOf(requests: seq<SensorRequest>, p: SensorRequest, q: SensorRequest, batch: nat) {
    Wants(requests, p) && Wants(requests, q) && IntervalOnly(p) && LatencyOnly(q) && p.interval + q.latency == batch
  }

  ghost predicate WantsFull(requests: seq<SensorRequest>, r: SensorRequest) { Wants(requests, r) && Full(r) }

  /** The batch interval is at most that of every full request, and is that of one of them or of a pair. */
  ghost predicate BatchOf(m: SensorRequest, requests: seq<SensorRequest>) {
    && (forall r :: WantsFull(requests, r) ==> BatchInterval(m) <= BatchInterval(r))
    && (|| (exists r :: WantsFull(requests, r) && BatchInterval(r) == BatchInterval(m))
        || (exists p, q :: PairOf(requests, p, q, BatchInterval(m))))
  }

  ghost predicate NoPair(requests: seq<SensorRequest>) {
    || (forall r :: Wants(requests, r) ==> !IntervalOnly(r))
    || (forall r :: Wants(requests, r) ==> !LatencyOnly(r))
  }

  ghost predicate NoFull(requests: seq<SensorRequest>) { forall r :: Wants(requests, r) ==> !Full(r) }

  /** All that the merged request is made of. */
  ghost predicate MadeOf(m: SensorRequest, requests: seq<SensorRequest>) {
    && WellFormed(m) && ModeOf(m, requests) && IntervalOf(m, requests)
    && (if Full(m) then BatchOf(m, requests)
        else LatencyOf(m, requests) && NoFull(requests) && NoPair(requests))
  }

  lemma WantsStep(front: seq<SensorRequest>, last: SensorRequest, r: SensorRequest)
    ensures Wants(front + [last], r) <==> Wants(front, r) || (r == last && last.mode != Off)
  {
    assert last in front + [last];
  }

  lemma {:induction false} FoldMadeOf(requests: seq<SensorRequest>)
    requires AllCapped(requests)
    ensures MadeOf(Fold(requests), requests)
  {
    if requests != [] {
      var n := |requests| - 1;
      var front, last := requests[..n], requests[n];
      assert requests == front + [last];
      assert forall r :: r in front ==> r in requests;
      assert last in requests;
      FoldMadeOf(front);
      if last.mode == Off {
        forall r
          ensures Wants(requests, r) <==> Wants(front, r)
        {
          WantsStep(front, last, r);
        }
        SameMadeOf(Fold(front), front, requests);
      } else {
        MadeOfStep(Fold(front), front, last);
      }
    }
  }

  lemma SameMadeOf(m: SensorRequest, a: seq<SensorRequest>, b: seq<SensorRequest>)
    requires MadeOf(m, a) && forall r :: Wants(a, r) <==> Wants(b, r)
    ensures MadeOf(m, b)
  {
    hide Wants;
    if Full(m) && exists r :: WantsFull(a, r) && BatchInterval(r) == BatchInterval(m) {
      var r :| WantsFull(a, r) && BatchInterval(r) == BatchInterval(m);
      assert WantsFull(b, r);
    } else if Full(m) {
      var p, q :| PairOf(a, p, q, BatchInterval(m));
      assert PairOf(b, p, q, BatchInterval(m));
    }
  }

  lemma MadeOfStep(m: SensorRequest, front: seq<SensorRequest>, last: SensorRequest)
    requires MadeOf(m, front) && IsCapped(last) && last.mode != Off
    ensures MadeOf(Merged(m, last), front + [last])
  {
    hide MergedLatency;
    var all := front + [last];
    MergeStep(m, last);
    forall r
      ensures Wants(all, r) <==> Wants(front, r) || r == last
    {
      WantsStep(front, last, r);
    }
    ModeStep(m, front, last);
    IntervalStep(m, front, last);
    BatchStep(m, front, last);
  }

  lemma ModeStep(m: SensorRequest, front: seq<SensorRequest>, last: SensorRequest)
    requires ModeOf(m, front) && last.mode != Off
    requires forall r :: Wants(front + [last], r) <==> Wants(front, r) || r == last
    ensures ModeOf(Merged(m, last), front + [last])
  {
    hide MergedLatency, Wants;
    var all := front + [last];
    assert Wants(all, last);
    if m.mode != Off {
      var r :| Wants(front, r) && r.mode == m.mode;
      assert Wants(all, r);
    }
    if m.biasUpdatesRequested {
      var r :| Wants(front, r) && r.biasUpdatesRequested;
      assert Wants(all, r);
    }
  }

  lemma IntervalStep(m: SensorRequest, front: seq<SensorRequest>, last: SensorRequest)
    requires IntervalOf(m, front) && last.mode != Off
    requires forall r :: Wants(front + [last], r) <==> Wants(front, r) || r == last
    ensures IntervalOf(Merged(m, last), front + [last])
  {
    hide MergedLatency, Wants;
    var all := front + [last];
    assert Wants(all, last);
    if m.interval != DEFAULT {
      var r :| Wants(front, r) && r.interval == m.interval;
      assert Wants(all, r);
    }
  }

  lemma BatchStep(m: SensorRequest, front: seq<SensorRequest>, last: SensorRequest)
    requires MadeOf(m, front) && IsCapped(last) && last.mode != Off
    requires forall r :: Wants(front + [last], r) <==> Wants(front, r) || r == last
    ensures var (m', all) := (Merged(m, last), front + [last]);
      if Full(m') then BatchOf(m', all) else LatencyOf(m', all) && NoFull(all) && NoPair(all)
  {
    hide Wants;
    var m', all := Merged(m, last), front + [last];
    assert Wants(all, last);
    MergeStep(m, last);
    hide MergedLatency;
    if Full(m) {
      if exists r :: WantsFull(front, r) && BatchInterval(r) == BatchInterval(m) {
        var r :| WantsFull(front, r) && BatchInterval(r) == BatchInterval(m);
        assert WantsFull(all, r);
      } else {
        var p, q :| PairOf(front, p, q, BatchInterval(m));
        assert PairOf(all, p, q, BatchInterval(m));
      }
      assert Full(last) ==> WantsFull(all, last);
      assert forall r :: WantsFull(all, r) ==> WantsFull(front, r) || r == last;
    } else if Full(last) {
      assert WantsFull(all, last);
    } else if Full(m') {
      FirstPair(m, front, last);
    } else {
      NotYet(m, front, last);
    }
  }

  /** The first interval meets the first latency. */
  lemma FirstPair(m: SensorRequest, front: seq<SensorRequest>, last: SensorRequest)
    requires MadeOf(m, front) && IsCapped(last) && last.mode != Off && !Full(m) && !Full(last)
    requires forall r :: Wants(front + [last], r) <==> Wants(front, r) || r == last
    requires Full(Merged(m, last))
    ensures BatchOf(Merged(m, last), front + [last])
  {
    hide Wants;
    MergeStep(m, last);
    hide MergedLatency;
    var m', all := Merged(m, last), front + [last];
    assert Wants(all, last);
    if LatencyOnly(last) {
      var p :| Wants(front, p) && p.interval == m.interval;
      assert Wants(all, p) && IntervalOnly(p);
      assert PairOf(all, p, last, BatchInterval(m'));
    } else {
      var q :| Wants(front, q) && q.latency == m.latency;
      assert Wants(all, q) && LatencyOnly(q);
      assert PairOf(all, last, q, BatchInterval(m'));
    }
    assert forall r :: WantsFull(all, r) ==> WantsFull(front, r);
  }

  lemma NotYet(m: SensorRequest, front: seq<SensorRequest>, last: SensorRequest)
    requires MadeOf(m, front) && IsCapped(last) && last.mode != Off && !Full(m) && !Full(last)
    requires forall r :: Wants(front + [last], r) <==> Wants(front, r) || r == last
    requires !Full(Merged(m, last))
    ensures var (m', all) := (Merged(m, last), front + [last]);
      LatencyOf(m', all) && NoFull(all) && NoPair(all)
  {
    hide Wants;
    MergeStep(m, last);
    hide MergedLatency;
    var m', all := Merged(m, last), front + [last];
    assert Wants(all, last);
    if m.latency != DEFAULT {
      var r :| Wants(front, r) && r.latency == m.latency;
      assert Wants(all, r);
    }
    if m'.interval == DEFAULT {
      assert forall r :: Wants(all, r) ==> !IntervalOnly(r);
    } else {
      assert forall r :: Wants(all, r) ==> !LatencyOnly(r);
    }
  }

  // ----------------------------------------------------------------------------------------
  // When the order makes no difference

  /** No interval can meet a latency, or some full request batches no longer than any such pair, or there is no full
    request and all the pairs are the same. */
  ghost predicate Agreeable(requests: seq<SensorRequest>) {
    || NoPair(requests)
    || (exists f :: WantsFull(requests, f) && NoPairBelow(requests, BatchInterval(f)))
    || (NoFull(requests) && OneInterval(requests) && OneLatency(requests))
  }

  ghost predicate NoPairBelow(requests: seq<SensorRequest>, batch: nat) {
    forall p, q, sum :: PairOf(requests, p, q, sum) ==> batch <= sum
  }

  ghost predicate OneInterval(requests: seq<SensorRequest>) {
    forall p, p' :: Wants(requests, p) && Wants(requests, p') && IntervalOnly(p) && IntervalOnly(p') ==>
      p.interval == p'.interval
  }

  ghost predicate OneLatency(requests: seq<SensorRequest>) {
    forall q, q' :: Wants(requests, q) && Wants(requests, q') && LatencyOnly(q) && LatencyOnly(q') ==>
      q.latency == q'.latency
  }

  ghost predicate OrderIrrelevant(requests: seq<SensorRequest>) {
    forall b :: multiset(b) == multiset(requests) ==> Fold(b) == Fold(requests)
  }

  lemma SameWants(a: seq<SensorRequest>, b: seq<SensorRequest>, r: SensorRequest)
    requires multiset(a) == multiset(b)
    ensures r in a <==> r in b
    ensures Wants(a, r) <==> Wants(b, r)
  {
    assert r in a <==> r in multiset(a);
    assert r in b <==> r in multiset(b);
  }

  lemma SameBatch(m: SensorRequest, n: SensorRequest, a: seq<SensorRequest>)
    requires MadeOf(m, a) && MadeOf(n, a) && Agreeable(a)
    ensures Full(m) == Full(n)
    ensures Full(m) ==> BatchInterval(m) == BatchInterval(n)
  {
    hide Wants, ModeOf, IntervalOf, LatencyOf, BatchInterval;
  }

  /** Requests that agree give the same result in every order. */
  lemma FoldOrderIrrelevant(a: seq<SensorRequest>, b: seq<SensorRequest>)
    requires multiset(a) == multiset(b) && AllCapped(a) && Agreeable(a)
    ensures Fold(a) == Fold(b)
  {
    hide Fold;
    forall r
      ensures r in a <==> r in b
      ensures Wants(a, r) <==> Wants(b, r)
    {
      SameWants(a, b, r);
    }
    FoldMadeOf(a);
    FoldMadeOf(b);
    SameMadeOf(Fold(b), b, a);
    MadeOfUnique(Fold(a), Fold(b), a);
  }

  lemma MadeOfUnique(m: SensorRequest, n: SensorRequest, a: seq<SensorRequest>)
    requires MadeOf(m, a) && MadeOf(n, a) && Agreeable(a)
    ensures m == n
  {
    SameBatch(m, n, a);
    hide Wants, Agreeable, BatchOf, NoPair, NoFull;
    assert Priority(m.mode) == Priority(n.mode);
  }

  function FoldFrom(m: SensorRequest, requests: seq<SensorRequest>): SensorRequest {
    if requests == [] then m
    else Merged(FoldFrom(m, requests[..|requests| - 1]), requests[|requests| - 1])
  }

  lemma {:induction false} FoldConcat(a: seq<SensorRequest>, b: seq<SensorRequest>)
    ensures Fold(a + b) == FoldFrom(Fold(a), b)
  {
    hide Merged;
    if b == [] {
      assert a + b == a;
    } else {
      FoldConcat(a, b[..|b| - 1]);
      assert (a + b)[..|a + b| - 1] == a + b[..|b| - 1];
    }
  }

  /** Once there is a batch interval, only full requests change it. */
  lemma {:induction false} BatchSettled(m: SensorRequest, requests: seq<SensorRequest>)
    requires WellFormed(m) && Full(m) && AllCapped(requests)
    ensures var r := FoldFrom(m, requests);
      && WellFormed(r) && Full(r) && BatchInterval(r) <= BatchInterval(m)
      && (|| BatchInterval(r) == BatchInterval(m)
          || exists f :: WantsFull(requests, f) && BatchInterval(f) == BatchInterval(r))
  {
    if requests != [] {
      var n := |requests| - 1;
      var front, last := requests[..n], requests[n];
      assert requests == front + [last] && last in requests;
      assert forall r :: r in front ==> r in requests;
      BatchSettled(m, front);
      BatchSettledStep(m, front, last, FoldFrom(m, front));
    }
  }

  lemma BatchSettledStep(m: SensorRequest, front: seq<SensorRequest>, last: SensorRequest, r: SensorRequest)
    requires WellFormed(r) && Full(r) && BatchInterval(r) <= BatchInterval(m) && (last.mode == Off || IsCapped(last))
    requires BatchInterval(r) == BatchInterval(m)
          || exists f :: WantsFull(front, f) && BatchInterval(f) == BatchInterval(r)
    ensures var (r', all) := (Merged(r, last), front + [last]);
      && WellFormed(r') && Full(r') && BatchInterval(r') <= BatchInterval(m)
      && (|| BatchInterval(r') == BatchInterval(m)
          || exists f :: WantsFull(all, f) && BatchInterval(f) == BatchInterval(r'))
  {
    var all := front + [last];
    assert last in all;
    if last.mode != Off {
      MergeStep(r, last);
    }
    hide MergedLatency;
    if BatchInterval(r) != BatchInterval(m) {
      var f :| WantsFull(front, f) && BatchInterval(f) == BatchInterval(r);
      assert WantsFull(all, f);
    }
    assert last.mode != Off && Full(last) ==> WantsFull(all, last);
  }

  // ----------------------------------------------------------------------------------------
  // When it does

  lemma BringFirst(a: seq<SensorRequest>, p: SensorRequest) returns (rest: seq<SensorRequest>)
    requires p in a
    ensures multiset([p] + rest) == multiset(a)
    ensures forall r :: r in a && r != p ==> r in rest
  {
    var i :| 0 <= i < |a| && a[i] == p;
    rest := a[..i] + a[i + 1..];
    assert a == a[..i] + [p] + a[i + 1..];
    assert multiset([p] + rest) == multiset{p} + multiset(a[..i]) + multiset(a[i + 1..]);
  }

  lemma RestCapped(a: seq<SensorRequest>, first: seq<SensorRequest>, rest: seq<SensorRequest>)
    requires AllCapped(a) && multiset(first + rest) == multiset(a)
    ensures AllCapped(rest) && AllCapped(first + rest)
    ensures forall r :: WantsFull(rest, r) ==> WantsFull(a, r)
  {
    forall r | r in first + rest
      ensures r in a
    {
      SameWants(first + rest, a, r);
    }
    assert forall r :: r in rest ==> r in first + rest;
  }

  /** An order in which an interval and a latency meet before any full request. */
  lemma PairFirst(a: seq<SensorRequest>, p: SensorRequest, q: SensorRequest) returns (b: seq<SensorRequest>)
    requires AllCapped(a) && PairOf(a, p, q, p.interval + q.latency)
    ensures multiset(b) == multiset(a) && Full(Fold(b))
    ensures BatchInterval(Fold(b)) <= p.interval + q.latency
    ensures NoFull(a) ==> BatchInterval(Fold(b)) == p.interval + q.latency
  {
    hide Fold, Merged;
    var others := BringFirst(a, p);
    var rest := BringFirst(others, q);
    b := [p, q] + rest;
    assert b == [p] + ([q] + rest);
    assert multiset(b) == multiset{p} + multiset([q] + rest) == multiset{p} + multiset(others);
    assert multiset([p] + others) == multiset{p} + multiset(others);
    RestCapped(a, [p, q], rest);
    FoldConcat([p, q], rest);
    TwoMeet(p, q);
    BatchSettled(Fold([p, q]), rest);
  }

  lemma TwoMeet(p: SensorRequest, q: SensorRequest)
    requires IsCapped(p) && IsCapped(q) && p.mode != Off && q.mode != Off && IntervalOnly(p) && LatencyOnly(q)
    ensures var m := Fold([p, q]);
      WellFormed(m) && Full(m) && BatchInterval(m) == p.interval + q.latency
  {
    assert [p, q][..1] == [p] && [p][..0] == [];
    assert Fold([p]) == Merged(NO_REQUEST, p);
    MergeStep(NO_REQUEST, p);
    MergeStep(Merged(NO_REQUEST, p), q);
  }

  /** An order in which a full request comes first, so that no pair counts. */
  lemma FullFirst(a: seq<SensorRequest>, f: SensorRequest) returns (b: seq<SensorRequest>, g: SensorRequest)
    requires AllCapped(a) && WantsFull(a, f)
    ensures multiset(b) == multiset(a) && Full(Fold(b))
    ensures WantsFull(a, g) && BatchInterval(Fold(b)) == BatchInterval(g)
  {
    var rest := BringFirst(a, f);
    b := [f] + rest;
    RestCapped(a, [f], rest);
    FoldConcat([f], rest);
    assert [f][..0] == [];
    assert Fold([f]) == Merged(NO_REQUEST, f);
    MergeStep(NO_REQUEST, f);
    hide Merged, Fold;
    BatchSettled(Fold([f]), rest);
    if BatchInterval(Fold(b)) == BatchInterval(f) {
      g := f;
    } else {
      g :| WantsFull(rest, g) && BatchInterval(g) == BatchInterval(Fold(b));
    }
  }

  /** Two orders with different results. */
  lemma DisagreeingOrders(a: seq<SensorRequest>) returns (b: seq<SensorRequest>, c: seq<SensorRequest>)
    requires AllCapped(a) && !Agreeable(a)
    ensures multiset(b) == multiset(a) == multiset(c) && BatchInterval(Fold(b)) != BatchInterval(Fold(c))
  {
    hide Fold, BatchInterval;
    var p :| Wants(a, p) && IntervalOnly(p);
    var q :| Wants(a, q) && LatencyOnly(q);
    if !NoFull(a) {
      var f :| Wants(a, f) && Full(f);
      var g;
      b, g := FullFirst(a, f);
      assert !NoPairBelow(a, BatchInterval(g));
      var p', q', sum: nat :| PairOf(a, p', q', sum) && sum < BatchInterval(g);
      c := PairFirst(a, p', q');
    } else if !OneInterval(a) {
      var p1, p2 :| Wants(a, p1) && Wants(a, p2) && IntervalOnly(p1) && IntervalOnly(p2)
                    && p1.interval != p2.interval;
      b := PairFirst(a, p1, q);
      c := PairFirst(a, p2, q);
    } else {
      var q1, q2 :| Wants(a, q1) && Wants(a, q2) && LatencyOnly(q1) && LatencyOnly(q2) && q1.latency != q2.latency;
      b := PairFirst(a, p, q1);
      c := PairFirst(a, p, q2);
    }
  }

  /** The order of the requests makes no difference if and only if they agree. */
  lemma OrderIrrelevantIff(a: seq<SensorRequest>)
    requires AllCapped(a)
    ensures OrderIrrelevant(a) <==> Agreeable(a)
  {
    hide Fold, Agreeable;
    if Agreeable(a) {
      forall b | multiset(b) == multiset(a)
        ensures Fold(b) == Fold(a)
      {
        FoldOrderIrrelevant(a, b);
      }
    } else {
      var b, c := DisagreeingOrders(a);
      assert Fold(b) != Fold(c);
    }
  }

  // ----------------------------------------------------------------------------------------
  // With defaults

  /** The order matters when some values are default: here the latency is 3 or 110. */
  lemma DefaultsMakeOrderMatter()
    ensures var a := MakeRequest(ActiveContinuous, 10, DEFAULT, false);
      var b := MakeRequest(ActiveContinuous, DEFAULT, 3, false);
      var c := MakeRequest(ActiveContinuous, 20, 100, false);
      Fold([a, b, c]).latency == 3 && Fold([a, c, b]).latency == 110
  {
    var a := MakeRequest(ActiveContinuous, 10, DEFAULT, false);
    var b := MakeRequest(ActiveContinuous, DEFAULT, 3, false);
    var c := MakeRequest(ActiveContinuous, 20, 100, false);
    Fold3(a, b, c);
    Fold3(a, c, b);
  }

  /** The first request has the shorter interval and no latency of its own, and the second batches so long that at the
    shorter interval the latency goes past the cap. */
  predicate Stretches(a: SensorRequest, b: SensorRequest) {
    && a.latency == DEFAULT && a.interval < b.interval && b.interval != DEFAULT && b.latency != DEFAULT
    && b.interval + b.latency > a.interval + MAX_INTERVAL_LATENCY_NS
  }

  /** Exactly when the merged latency stays within the cap, as the source says it always does. */
  lemma LatencyWithinCap(a: SensorRequest, b: SensorRequest)
    requires IsCapped(a) && IsCapped(b) && b.mode != Off
    ensures IsCapped(Merged(a, b)) <==> !Stretches(a, b) && !Stretches(b, a)
  {}

  /** It can be twice the cap. */
  lemma DefaultsExceedCap()
    ensures var a := MakeRequest(ActiveContinuous, 0, DEFAULT, false);
      var b := MakeRequest(ActiveContinuous, MAX_INTERVAL_LATENCY_NS, MAX_INTERVAL_LATENCY_NS, false);
      Merged(a, b).latency == 2 * MAX_INTERVAL_LATENCY_NS
  {}

  lemma Fold3(a: SensorRequest, b: SensorRequest, c: SensorRequest)
    ensures Fold([a, b, c]) == Merged(Merged(Merged(NO_REQUEST, a), b), c)
  {
    hide Merged;
    assert [a, b, c][..2] == [a, b] && [a, b][..1] == [a] && [a][..0] == [];
    assert Fold([a]) == Merged(NO_REQUEST, a);
    assert Fold([a, b]) == Merged(Fold([a]), b);
  }

  // ----------------------------------------------------------------------------------------

  class MaximalRequest {
    var request: SensorRequest

    constructor ()
      ensures request == NO_REQUEST
    {
      request := NO_REQUEST;
    }

    /** Reports exactly whether the merge made a difference. */
    method MergeWith(other: SensorRequest) returns (attributesChanged: bool)
      modifies this
      ensures request == Merged(old(request), other)
      ensures attributesChanged <==> request != old(request)
    {
      attributesChanged := false;
      if other.mode != Off {
        var batchInterval := Min(BatchInterval(request), BatchInterval(other));
        var r := request;
        if other.interval < r.interval {
          r := r.(interval := other.interval);
          attributesChanged := true;
        }
        if batchInterval == DEFAULT {
          var latency := other.latency;
          if latency < r.latency {
            r := r.(latency := latency);
            attributesChanged := true;
          }
        } else {
          var latency := Sub64(batchInterval, r.interval);
          if latency != r.latency {
            r := r.(latency := latency);
            attributesChanged := true;
          }
        }
        var maximalSensorMode := Off;
        if r.mode == ActiveContinuous || other.mode == ActiveContinuous {
          maximalSensorMode := ActiveContinuous;
        } else if r.mode == ActiveOneShot || other.mode == ActiveOneShot {
          maximalSensorMode := ActiveOneShot;
        } else if r.mode == PassiveContinuous || other.mode == PassiveContinuous {
          maximalSensorMode := PassiveContinuous;
        } else if r.mode == PassiveOneShot || other.mode == PassiveOneShot {
          maximalSensorMode := PassiveOneShot;
        } else {
          assert false;
        }
        if r.mode != maximalSensorMode {
          r := r.(mode := maximalSensorMode);
          attributesChanged := true;
        }
        if !r.biasUpdatesRequested && other.biasUpdatesRequested {
          r := r.(biasUpdatesRequested := true);
          attributesChanged := true;
        }
        request := r;
      }
    }
  }

  /** Whatever is added, changed or removed, the cached request is what merging all of them gives. */
  class SensorRequestMultiplexer {
    var requests: seq<SensorRequest>
    const maximal: MaximalRequest

    ghost predicate Valid()
      reads this, maximal
    {
      maximal.request == Fold(requests)
    }

    constructor ()
      ensures Valid() && fresh(maximal) && requests == []
    {
      requests := [];
      maximal := new MaximalRequest();
    }

    method UpdateMaximalRequest() returns (maximalRequestChanged: bool)
      modifies maximal
      ensures Valid()
      ensures maximalRequestChanged <==> maximal.request != old(maximal.request)
    {
      hide Merged;
      var maximalRequest := new MaximalRequest();
      var i := 0;
      while i < |requests|
        invariant i <= |requests| && maximalRequest.request == Fold(requests[..i])
        invariant unchanged(maximal) && fresh(maximalRequest)
      {
        assert requests[..i + 1][..i] == requests[..i];
        var _ := maximalRequest.MergeWith(requests[i]);
        i := i + 1;
      }
      assert requests[..|requests|] == requests;
      maximalRequestChanged := maximal.request != maximalRequest.request;
      if maximalRequestChanged {
        maximal.request := maximalRequest.request;
      }
    }

    method AddRequest(request: SensorRequest, memory: bool)
      returns (stored: bool, index: nat, maximalRequestChanged: bool)
      requires Valid()
      modifies this, maximal
      ensures Valid() && stored == memory
      ensures requests == if stored then old(requests) + [request] else old(requests)
      ensures stored ==> index < |requests| && requests[index] == request
      ensures maximalRequestChanged <==> maximal.request != old(maximal.request)
    {
      hide Merged;
      stored, index, maximalRequestChanged := memory, 0, false;
      if stored {
        assert (requests + [request])[..|requests|] == requests;
        requests := requests + [request];
        index := |requests| - 1;
        maximalRequestChanged := maximal.MergeWith(request);
      }
    }

    method UpdateRequest(index: nat, request: SensorRequest) returns (maximalRequestChanged: bool)
      requires index < |requests|
      modifies this, maximal
      ensures Valid() && requests == old(requests)[index := request]
      ensures maximalRequestChanged <==> maximal.request != old(maximal.request)
    {
      requests := requests[index := request];
      maximalRequestChanged := UpdateMaximalRequest();
    }

    method RemoveRequest(index: nat) returns (maximalRequestChanged: bool)
      requires index < |requests|
      modifies this, maximal
      ensures Valid() && requests == old(requests)[..index] + old(requests)[index + 1..]
      ensures maximalRequestChanged <==> maximal.request != old(maximal.request)
    {
      requests := requests[..index] + requests[index + 1..];
      maximalRequestChanged := UpdateMaximalRequest();
    }
  }
}
