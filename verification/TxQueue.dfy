/** `ChppTxDatagramQueue`: a fixed ring of datagrams waiting to be sent. */
module TxQueue {
  import opened Bytes
  import opened EndpointState

  datatype Datagram = Datagram(length: nat, payload: seq<byte>)

  const FREE := Datagram(0, [])

  /** Ring position of the `i`-th pending datagram. */
  function Slot(front: nat, i: nat): (k: nat)
    requires front < TX_DATAGRAM_QUEUE_LEN && i < TX_DATAGRAM_QUEUE_LEN
    ensures k < TX_DATAGRAM_QUEUE_LEN
  {
    if front + i < TX_DATAGRAM_QUEUE_LEN then front + i else front + i - TX_DATAGRAM_QUEUE_LEN
  }

  /** Whether ring position `k` holds a pending datagram. */
  predicate InWindow(front: nat, pending: nat, k: nat) {
    if front <= k then k < front + pending else k + TX_DATAGRAM_QUEUE_LEN < front + pending
  }

  predicate RingOk(slots: seq<Datagram>, front: nat, pending: nat) {
    && |slots| == TX_DATAGRAM_QUEUE_LEN
    && pending <= TX_DATAGRAM_QUEUE_LEN
    && front < TX_DATAGRAM_QUEUE_LEN
    && forall k :: 0 <= k < |slots| ==>
         && slots[k].length == |slots[k].payload|
         && (slots[k].length > 0 <==> InWindow(front, pending, k))
  }

  function Window(slots: seq<Datagram>, front: nat, pending: nat): (s: seq<seq<byte>>)
    requires RingOk(slots, front, pending)
    ensures |s| == pending && NonEmpty(s)
  {
    seq(pending, i requires 0 <= i < pending => slots[Slot(front, i)].payload)
  }

  class TxDatagramQueue {
    var pending: nat
    var front: nat
    const datagram: array<Datagram>

    /** The pending datagrams, front first. */
    ghost var contents: seq<seq<byte>>

    /** A slot has nonzero length exactly when it lies in the pending window. */
    ghost predicate Valid()
      reads this, datagram
      ensures Valid() ==> |contents| == pending && NonEmpty(contents)
    {
      RingOk(datagram[..], front, pending) && contents == Window(datagram[..], front, pending)
    }

    constructor ()
      ensures Valid() && contents == [] && front == 0
      ensures fresh(datagram)
    {
      datagram := new Datagram[TX_DATAGRAM_QUEUE_LEN](_ => FREE);
      pending, front := 0, 0;
      contents := [];
    }

    /** The length of the front slot, also when the ring is empty. */
    method FrontLength() returns (length: nat)
      requires Valid()
      ensures length == if contents == [] then 0 else |contents[0]|
    {
      length := datagram[front].length;
    }

    method Front() returns (payload: seq<byte>)
      requires Valid() && pending > 0
      ensures payload == contents[0]
    {
      payload := datagram[front].payload;
    }

    /** The enqueueing half of `chppEnqueueTxDatagramLocked`. */
    method Enqueue(buf: seq<byte>) returns (success: bool)
      requires Valid()
      modifies this`pending, this`contents, datagram
      ensures Valid()
      ensures success <==> buf != [] && |old(contents)| < TX_DATAGRAM_QUEUE_LEN
      ensures contents == if success then old(contents) + [buf] else old(contents)
    {
      if buf == [] || pending >= TX_DATAGRAM_QUEUE_LEN {
        return false;
      }
      var end := (front + pending) % TX_DATAGRAM_QUEUE_LEN;
      assert end == Slot(front, pending);
      datagram[end] := Datagram(|buf|, buf);
      pending := pending + 1;
      contents := contents + [buf];
      success := true;
    }

    /** `chppDequeueTxDatagram`. */
    method Dequeue() returns (remaining: nat)
      requires Valid()
      modifies this, datagram
      ensures Valid()
      ensures contents == if old(contents) == [] then [] else old(contents)[1..]
      ensures remaining == |contents|
    {
      if pending != 0 {
        datagram[front] := datagram[front].(payload := []);
        datagram[front] := datagram[front].(length := 0);
        pending := pending - 1;
        front := (front + 1) % TX_DATAGRAM_QUEUE_LEN;
        contents := contents[1..];
      }
      remaining := pending;
    }

    /** `chppClearTxDatagramQueue`. */
    method Clear()
      requires Valid()
      modifies this, datagram
      ensures Valid() && contents == []
    {
      while pending > 0
        invariant Valid()
      {
        var _ := Dequeue();
      }
    }

    /**
     * What `chppReset` does to the queue: frees the payload of every slot with a length, then
     * zeroes the structure.  The freed buffers are exactly the pending datagrams.
     */
    method FreeAll() returns (freed: seq<seq<byte>>)
      requires Valid()
      modifies this, datagram
      ensures Valid() && contents == [] && front == 0
      ensures multiset(freed) == multiset(old(contents))
    {
      freed := [];
      ghost var slots := datagram[..];
      for i := 0 to TX_DATAGRAM_QUEUE_LEN
        modifies datagram
        invariant datagram.Length == TX_DATAGRAM_QUEUE_LEN
        invariant freed == Occupied(slots[..i])
        invariant forall k :: i <= k < TX_DATAGRAM_QUEUE_LEN ==> datagram[k] == slots[k]
      {
        assert slots[..i + 1][..i] == slots[..i];
        if datagram[i].length > 0 {
          freed := freed + [datagram[i].payload];
          datagram[i] := datagram[i].(payload := []);
        }
      }
      assert slots[..TX_DATAGRAM_QUEUE_LEN] == slots;
      RingMultiset(slots, old(front), old(pending));
      pending, front := 0, 0;
      forall k | 0 <= k < datagram.Length {
        datagram[k] := FREE;
      }
      contents := [];
    }
  }

  /** Payloads of the slots with a length, by ring position. */
  function Occupied(slots: seq<Datagram>): seq<seq<byte>> {
    if slots == [] then []
    else
      var last := slots[|slots| - 1];
      Occupied(slots[..|slots| - 1]) + (if last.length > 0 then [last.payload] else [])
  }

  lemma {:induction false} OccupiedConcat(s: seq<Datagram>, t: seq<Datagram>)
    ensures Occupied(s + t) == Occupied(s) + Occupied(t)
    decreases |t|
  {
    if t == [] {
      assert s + t == s;
    } else {
      OccupiedConcat(s, t[..|t| - 1]);
      assert (s + t)[..|s + t| - 1] == s + t[..|t| - 1];
    }
  }

  function Payloads(slots: seq<Datagram>): seq<seq<byte>> {
    seq(|slots|, i requires 0 <= i < |slots| => slots[i].payload)
  }

  lemma {:induction false} OccupiedAll(slots: seq<Datagram>)
    requires forall k :: 0 <= k < |slots| ==> slots[k].length > 0
    ensures Occupied(slots) == Payloads(slots)
    decreases |slots|
  {
    if slots != [] {
      OccupiedAll(slots[..|slots| - 1]);
    }
  }

  lemma {:induction false} OccupiedNone(slots: seq<Datagram>)
    requires forall k :: 0 <= k < |slots| ==> slots[k].length == 0
    ensures Occupied(slots) == []
    decreases |slots|
  {
    if slots != [] {
      OccupiedNone(slots[..|slots| - 1]);
    }
  }

  lemma OccupiedCut(slots: seq<Datagram>, j: nat)
    requires j <= |slots|
    ensures Occupied(slots) == Occupied(slots[..j]) + Occupied(slots[j..])
  {
    hide Occupied;
    OccupiedConcat(slots[..j], slots[j..]);
    assert slots[..j] + slots[j..] == slots;
  }

  /** Read by position, the window is the pending queue cut where the ring wraps. */
  lemma RingMultiset(slots: seq<Datagram>, front: nat, pending: nat)
    requires RingOk(slots, front, pending)
    ensures multiset(Occupied(slots)) == multiset(Window(slots, front, pending))
  {
    hide Occupied;
    var contents := Window(slots, front, pending);
    var end := front + pending;
    if end <= TX_DATAGRAM_QUEUE_LEN {
      OccupiedCut(slots, end);
      OccupiedCut(slots[..end], front);
      assert slots[..end][..front] == slots[..front] && slots[..end][front..] == slots[front..end];
      OccupiedNone(slots[..front]);
      OccupiedAll(slots[front..end]);
      OccupiedNone(slots[end..]);
      assert Payloads(slots[front..end]) == contents;
      assert [] + contents + [] == contents;
    } else {
      var wrap := end - TX_DATAGRAM_QUEUE_LEN;
      OccupiedCut(slots, front);
      OccupiedCut(slots[..front], wrap);
      assert slots[..front][..wrap] == slots[..wrap] && slots[..front][wrap..] == slots[wrap..front];
      OccupiedAll(slots[..wrap]);
      OccupiedNone(slots[wrap..front]);
      OccupiedAll(slots[front..]);
      var cut := TX_DATAGRAM_QUEUE_LEN - front;
      assert contents == contents[..cut] + contents[cut..];
      assert Payloads(slots[front..]) == contents[..cut];
      assert Payloads(slots[..wrap]) == contents[cut..];
    }
  }
}
