/**
  What one call of receiveLinkUpdateMessage preserves and decides. The
  in-progress count is the number of nodes whose counter lies in [L, H), and
  the ready list holds, once each, exactly the nodes whose counter is at least
  H; from these the step's delivery rule reads as "deliver when this message
  brings dst to H and no other node is in progress".
 */
module WatermarkInvariants {
  import opened Wrappers
  import opened Messages
  import opened WatermarkBuffer

  /** Nodes with real but not yet decisive evidence: counter in [L, H). */
  function InProgressSet(b: Buffer): set<Endpoint>
  {
    set e | e in b.counters && b.l <= b.counters[e] < b.h
  }

  /** Nodes with decisive evidence: counter at least H. */
  function PastH(b: Buffer): set<Endpoint>
  {
    set e | e in b.counters && b.counters[e] >= b.h
  }

  function Elements(s: seq<Endpoint>): set<Endpoint>
  {
    set e | e in s
  }

  predicate Distinct(s: seq<Endpoint>)
  {
    forall i, j :: 0 <= i < j < |s| ==> s[i] != s[j]
  }

  /** Every ready node has a counter, so the delivery loop's guard cannot fire. */
  predicate Tracked(b: Buffer)
  {
    forall e :: e in b.readyList ==> e in b.counters
  }

  /**
    The ready-list half of the invariant: the ready list holds, once each,
    exactly the nodes whose counter is at least H. It needs H >= 1 and
    nothing about L.
   */
  ghost predicate ReadyInv(b: Buffer)
  {
    && 1 <= b.h
    && Distinct(b.readyList)
    && Elements(b.readyList) == PastH(b)
  }

  /** The buffer's full invariant for watermarks 1 <= L <= H: the ready list and the in-progress count. */
  ghost predicate Inv(b: Buffer)
  {
    && 1 <= b.l <= b.h
    && b.inProgress == |InProgressSet(b)|
    && ReadyInv(b)
  }

  /** The buffer with dst's counter raised by one and nothing else changed. */
  function Bumped(b: Buffer, dst: Endpoint): Buffer
  {
    b.(counters := b.counters[dst := Counter(b, dst) + 1])
  }

  lemma FreshInv(k: int, h: int, l: int)
    requires 1 <= l <= h
    ensures Inv(Fresh(k, h, l)) && Tracked(Fresh(k, h, l))
  {
    assert InProgressSet(Fresh(k, h, l)) == {};
    assert PastH(Fresh(k, h, l)) == {};
  }

  lemma FreshReady(k: int, h: int, l: int)
    requires 1 <= h
    ensures ReadyInv(Fresh(k, h, l))
  {
    assert PastH(Fresh(k, h, l)) == {};
  }

  lemma ReadyTracked(b: Buffer)
    requires ReadyInv(b)
    ensures Tracked(b)
  {
    forall e | e in b.readyList
      ensures e in b.counters
    {
      assert e in Elements(b.readyList);
    }
  }

  /** Only msg.dst matters: the source, status, configuration and ring are ignored. */
  lemma ReceiveReadsOnlyDst(b: Buffer, m1: LinkUpdateMessage, m2: LinkUpdateMessage)
    requires m1.dst == m2.dst
    ensures Receive(b, m1) == Receive(b, m2)
  {
  }

  /**
    Each call raises dst's counter by exactly one and leaves every other
    counter alone, except that the nodes it delivers are reset to 0.
   */
  lemma ReceiveCounters(b: Buffer, msg: LinkUpdateMessage, e: Endpoint)
    requires Receive(b, msg).Success?
    ensures Counter(Receive(b, msg).value.next, e) ==
      if e in Receive(b, msg).value.delivered then 0
      else if e == msg.dst then Counter(b, e) + 1
      else Counter(b, e)
  {
  }

  /** A tracked buffer never reaches the "not in UpdateCounters map" exception. */
  lemma ReceiveTracked(b: Buffer, msg: LinkUpdateMessage)
    requires Tracked(b)
    ensures Receive(b, msg).Success?
    ensures Tracked(Receive(b, msg).value.next)
  {
    var ready := b.readyList + [msg.dst];
    var counters := b.counters[msg.dst := Counter(b, msg.dst) + 1];
    assert forall n :: n in ready ==> n in counters by {
      forall n | n in ready
        ensures n in counters
      {
        assert n in b.readyList || n == msg.dst;
      }
    }
  }

  /** How raising dst's counter by one moves dst between the classes. */
  lemma BumpedClasses(b: Buffer, dst: Endpoint)
    ensures InProgressSet(Bumped(b, dst)) ==
      if b.l <= Counter(b, dst) + 1 < b.h then InProgressSet(b) + {dst} else InProgressSet(b) - {dst}
    ensures PastH(Bumped(b, dst)) ==
      if Counter(b, dst) + 1 >= b.h then PastH(b) + {dst} else PastH(b) - {dst}
    ensures dst in InProgressSet(b) <==> dst in b.counters && b.l <= Counter(b, dst) < b.h
    ensures dst in PastH(b) <==> dst in b.counters && Counter(b, dst) >= b.h
  {
    var b1 := Bumped(b, dst);
    assert forall e :: e in InProgressSet(b1) <==>
      (if b.l <= Counter(b, dst) + 1 < b.h then e in InProgressSet(b) + {dst} else e in InProgressSet(b) - {dst});
    assert forall e :: e in PastH(b1) <==>
      (if Counter(b, dst) + 1 >= b.h then e in PastH(b) + {dst} else e in PastH(b) - {dst});
  }

  /**
    When a call raises dst to H, the in-progress count after the decrement
    is the number of OTHER nodes still in progress.
   */
  lemma RemainingInProgress(b: Buffer, dst: Endpoint)
    requires Inv(b)
    requires Counter(b, dst) + 1 == b.h
    ensures (if b.h == b.l then b.inProgress + 1 else b.inProgress) - 1 == |InProgressSet(b) - {dst}|
    ensures InProgressSet(Bumped(b, dst)) == InProgressSet(b) - {dst}
  {
    BumpedClasses(b, dst);
    if b.l < b.h {
      assert dst in InProgressSet(b);
    } else {
      assert dst !in InProgressSet(b);
      assert InProgressSet(b) - {dst} == InProgressSet(b);
    }
  }

  /** The in-progress count once dst's counter has been raised. */
  function Raised(b: Buffer, dst: Endpoint): int
  {
    if Counter(b, dst) + 1 == b.l then b.inProgress + 1 else b.inProgress
  }

  /** The three outcomes of a call, by where dst's counter lands. */
  lemma ReceiveCases(b: Buffer, msg: LinkUpdateMessage)
    ensures Counter(b, msg.dst) + 1 != b.h ==>
      Receive(b, msg) == Success(Step(Bumped(b, msg.dst).(inProgress := Raised(b, msg.dst)), []))
    ensures Counter(b, msg.dst) + 1 == b.h && Raised(b, msg.dst) != 1 ==>
      Receive(b, msg) == Success(Step(Bumped(b, msg.dst).(
        inProgress := Raised(b, msg.dst) - 1, readyList := b.readyList + [msg.dst]), []))
    ensures Counter(b, msg.dst) + 1 == b.h && Raised(b, msg.dst) == 1 ==>
      var reset := ResetCounters(Bumped(b, msg.dst).counters, b.readyList + [msg.dst]);
      && (reset.Failure? ==> Receive(b, msg) == Failure(reset.error))
      && (reset.Success? ==> Receive(b, msg) == Success(Step(Bumped(b, msg.dst).(
            counters := reset.value, inProgress := 0, readyList := [], delivers := b.delivers + 1),
            b.readyList + [msg.dst])))
  {
  }

  /** A call that leaves dst short of H, or carries it past H, keeps the invariant. */
  lemma PreserveOffH(b: Buffer, d: Endpoint)
    requires Inv(b)
    requires Counter(b, d) + 1 != b.h
    ensures Inv(Bumped(b, d).(inProgress := Raised(b, d)))
  {
    var b1 := Bumped(b, d);
    var b2 := b1.(inProgress := Raised(b, d));
    assert InProgressSet(b2) == InProgressSet(b1) && PastH(b2) == PastH(b1);
    assert b2.inProgress == |InProgressSet(b1)| by {
      BumpedClasses(b, d);
      if Counter(b, d) + 1 == b.l {
        assert d !in InProgressSet(b);
        assert InProgressSet(b1) == InProgressSet(b) + {d};
      } else {
        assert InProgressSet(b1) == InProgressSet(b);
      }
    }
    ReadyOffH(b, d);
  }

  /** A call that brings dst to H appends a node not yet in the ready list. */
  lemma ReadyAppendList(b: Buffer, d: Endpoint)
    requires ReadyInv(b)
    requires Counter(b, d) + 1 == b.h
    ensures Distinct(b.readyList + [d])
    ensures Elements(b.readyList + [d]) == PastH(Bumped(b, d))
  {
    BumpedClasses(b, d);
    var ready := b.readyList + [d];
    assert d !in Elements(b.readyList);
    assert Elements(ready) == Elements(b.readyList) + {d};
    forall i, j | 0 <= i < j < |ready|
      ensures ready[i] != ready[j]
    {
      if j == |ready| - 1 {
        assert ready[i] in Elements(b.readyList);
      }
    }
  }

  /** Under the full invariant the same call also ends dst's in-progress period. */
  lemma ReadyAppend(b: Buffer, d: Endpoint)
    requires Inv(b)
    requires Counter(b, d) + 1 == b.h
    ensures Distinct(b.readyList + [d])
    ensures Elements(b.readyList + [d]) == PastH(Bumped(b, d))
    ensures InProgressSet(Bumped(b, d)) == InProgressSet(b) - {d}
    ensures Raised(b, d) - 1 == |InProgressSet(b) - {d}|
  {
    RemainingInProgress(b, d);
    ReadyAppendList(b, d);
  }

  /** A call that brings dst to H but must wait keeps the invariant. */
  lemma PreserveQueued(b: Buffer, d: Endpoint)
    requires Inv(b)
    requires Counter(b, d) + 1 == b.h
    ensures Inv(Bumped(b, d).(inProgress := Raised(b, d) - 1, readyList := b.readyList + [d]))
  {
    ReadyAppend(b, d);
  }

  /** A call that delivers leaves nothing in progress and nothing at or past H. */
  lemma PreserveDelivered(b: Buffer, d: Endpoint, reset: map<Endpoint, nat>)
    requires Inv(b)
    requires Counter(b, d) + 1 == b.h && Raised(b, d) == 1
    requires ResetCounters(Bumped(b, d).counters, b.readyList + [d]) == Success(reset)
    ensures Inv(Bumped(b, d).(counters := reset, inProgress := 0, readyList := [], delivers := b.delivers + 1))
  {
    ReadyAppend(b, d);
    var b1 := Bumped(b, d);
    var ready := b.readyList + [d];
    var next := b1.(counters := reset, inProgress := 0, readyList := [], delivers := b.delivers + 1);
    assert InProgressSet(next) == InProgressSet(b1) by {
      forall e | e in next.counters
        ensures (b.l <= next.counters[e] < b.h) <==> e in InProgressSet(b1)
      {
        if e in ready {
          assert e in Elements(ready);
        }
      }
    }
    ReadyDelivered(b, d, reset);
    assert PastH(next) == PastH(b1.(counters := reset));
  }

  /** After the reset, a node still at or past h was at or past h before and is not being reset. */
  lemma ResetLeavesOthers(counters: map<Endpoint, nat>, nodes: seq<Endpoint>, reset: map<Endpoint, nat>, h: int)
    requires ResetCounters(counters, nodes) == Success(reset)
    requires h >= 1
    ensures forall e :: e in reset && reset[e] >= h ==> e in counters && counters[e] >= h && e !in Elements(nodes)
  {
  }

  /** A call that leaves dst short of H, or carries it past H, changes no node's side of H. */
  lemma ReadyOffH(b: Buffer, d: Endpoint)
    requires ReadyInv(b)
    requires Counter(b, d) + 1 != b.h
    ensures PastH(Bumped(b, d)) == PastH(b)
  {
    BumpedClasses(b, d);
    if Counter(b, d) + 1 > b.h {
      assert d in b.counters;
    }
  }

  /** After a delivery no node is at or past H, whatever L is. */
  lemma ReadyDelivered(b: Buffer, d: Endpoint, reset: map<Endpoint, nat>)
    requires ReadyInv(b)
    requires Counter(b, d) + 1 == b.h
    requires ResetCounters(Bumped(b, d).counters, b.readyList + [d]) == Success(reset)
    ensures PastH(Bumped(b, d).(counters := reset)) == {}
  {
    ReadyAppendList(b, d);
    ResetLeavesOthers(Bumped(b, d).counters, b.readyList + [d], reset, b.h);
  }

  /**
    For any L, as long as H >= 1, every call succeeds and keeps the ready
    list duplicate-free and equal to the set of nodes at or past H.
   */
  lemma ReceivePreservesReady(b: Buffer, msg: LinkUpdateMessage)
    requires ReadyInv(b)
    ensures Receive(b, msg).Success?
    ensures ReadyInv(Receive(b, msg).value.next)
  {
    ReadyTracked(b);
    ReceiveTracked(b, msg);
    ReceiveCases(b, msg);
    var d := msg.dst;
    if Counter(b, d) + 1 != b.h {
      ReadyOffH(b, d);
    } else if Raised(b, d) != 1 {
      ReadyAppendList(b, d);
    } else {
      var reset := ResetCounters(Bumped(b, d).counters, b.readyList + [d]);
      ReadyDelivered(b, d, reset.value);
    }
  }

  /**
    For any L with H >= 1, a non-empty result means dst has just reached H,
    and the result lists, once each, the nodes that were already at or past
    H together with dst.
   */
  lemma ReadyDelivers(b: Buffer, msg: LinkUpdateMessage)
    requires ReadyInv(b)
    ensures Receive(b, msg).Success?
    ensures var s := Receive(b, msg).value;
      s.delivered != [] ==>
        && Counter(b, msg.dst) + 1 == b.h
        && Distinct(s.delivered)
        && Elements(s.delivered) == PastH(b) + {msg.dst}
  {
    ReceivePreservesReady(b, msg);
    ReceiveCases(b, msg);
    var d := msg.dst;
    if Counter(b, d) + 1 == b.h {
      ReadyAppendList(b, d);
      BumpedClasses(b, d);
    }
  }

  /**
    With H = 0, which both constructors accept, the ready-list property
    fails after one message: dst is past H but not on the ready list.
   */
  lemma ZeroHighLeavesReadyBehind(msg: LinkUpdateMessage)
    ensures Create(3, 0, 0).Success? && CreateChecked(3, 0, 0).Success?
    ensures Receive(Create(3, 0, 0).value, msg).Success?
    ensures msg.dst in PastH(Receive(Create(3, 0, 0).value, msg).value.next)
    ensures Receive(Create(3, 0, 0).value, msg).value.next.readyList == []
  {
  }

  /** For 1 <= L <= H every call keeps the counts and the ready list consistent. */
  lemma ReceivePreservesInv(b: Buffer, msg: LinkUpdateMessage)
    requires Inv(b)
    ensures Receive(b, msg).Success?
    ensures Inv(Receive(b, msg).value.next)
  {
    ReadyTracked(b);
    ReceiveTracked(b, msg);
    ReceiveCases(b, msg);
    var d := msg.dst;
    if Counter(b, d) + 1 != b.h {
      PreserveOffH(b, d);
    } else if Raised(b, d) != 1 {
      PreserveQueued(b, d);
    } else {
      var reset := ResetCounters(Bumped(b, d).counters, b.readyList + [d]);
      PreserveDelivered(b, d, reset.value);
    }
  }

  /**
    The delivery rule in terms of the invariant: a call returns a non-empty
    list exactly when its message brings dst to H and no other node is in
    progress; the list is then the ready list followed by dst, holds no node
    twice, and is exactly the set of nodes with at least H messages.
   */
  lemma {:induction false} DeliversIffNoOtherInProgress(b: Buffer, msg: LinkUpdateMessage)
    requires Inv(b)
    ensures Receive(b, msg).Success?
    ensures Receive(b, msg).value.delivered != [] <==>
      Counter(b, msg.dst) + 1 == b.h && InProgressSet(b) - {msg.dst} == {}
    ensures Receive(b, msg).value.delivered != [] ==>
      && Receive(b, msg).value.delivered == b.readyList + [msg.dst]
      && Distinct(Receive(b, msg).value.delivered)
      && Elements(Receive(b, msg).value.delivered) == PastH(b) + {msg.dst}
      && PastH(Receive(b, msg).value.next) == {}
  {
    ReceivePreservesInv(b, msg);
    var d := msg.dst;
    var s := Receive(b, msg).value;
    if Counter(b, d) + 1 == b.h {
      RemainingInProgress(b, d);
      BumpedClasses(b, d);
      if s.delivered != [] {
        assert |InProgressSet(b) - {d}| == 0;
        assert Elements(s.delivered) == Elements(b.readyList) + {d};
        assert Distinct(s.delivered) by {
          forall i, j | 0 <= i < j < |s.delivered|
            ensures s.delivered[i] != s.delivered[j]
          {
            if j == |s.delivered| - 1 {
              assert s.delivered[i] in Elements(b.readyList);
            }
          }
        }
        assert Elements(s.next.readyList) == {};
      } else {
        assert |InProgressSet(b) - {d}| != 0;
      }
    }
  }

  /** Messages about a node already at or past H change only that node's counter. */
  lemma ReceivePastH(b: Buffer, msg: LinkUpdateMessage)
    requires b.l <= b.h <= Counter(b, msg.dst)
    ensures Receive(b, msg) == Success(Step(Bumped(b, msg.dst), []))
  {
  }
}
