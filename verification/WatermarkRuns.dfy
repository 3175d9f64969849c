/**
  Properties of a buffer driven by a sequence of receiveLinkUpdateMessage
  calls: the delivery-loop exception never fires, the invariant holds after
  every call, getNumDelivers counts the non-empty results, a node is only
  delivered once H messages about it have been counted since its last reset,
  and a low watermark of 0 or below switches delivery off for good.
 */
module WatermarkRuns {
  import opened Wrappers
  import opened Messages
  import opened WatermarkBuffer
  import opened WatermarkInvariants

  /** The number of calls that returned a non-empty list. */
  function NonEmpty(batches: seq<seq<Endpoint>>): nat
  {
    if |batches| == 0 then 0
    else (if batches[0] == [] then 0 else 1) + NonEmpty(batches[1..])
  }

  /** Every delivered node, batch after batch. */
  function Flatten(batches: seq<seq<Endpoint>>): seq<Endpoint>
  {
    if |batches| == 0 then [] else batches[0] + Flatten(batches[1..])
  }

  lemma {:induction false} FlattenAppend(x: seq<seq<Endpoint>>, y: seq<seq<Endpoint>>)
    ensures Flatten(x + y) == Flatten(x) + Flatten(y)
    decreases |x|
  {
    if |x| > 0 {
      assert (x + y)[0] == x[0];
      assert (x + y)[1..] == x[1..] + y;
      FlattenAppend(x[1..], y);
    } else {
      assert x + y == y;
    }
  }

  /** The results of n calls that delivered nothing. */
  function Silent(n: nat): (r: seq<seq<Endpoint>>)
    ensures |r| == n
  {
    seq(n, _ => [])
  }

  /** The number of messages about e. */
  function Occurrences(msgs: seq<LinkUpdateMessage>, e: Endpoint): nat
  {
    if |msgs| == 0 then 0
    else (if msgs[0].dst == e then 1 else 0) + Occurrences(msgs[1..], e)
  }

  predicate AllAbout(msgs: seq<LinkUpdateMessage>, d: Endpoint)
  {
    forall i :: 0 <= i < |msgs| ==> msgs[i].dst == d
  }

  /**
    A run succeeds exactly when its first call succeeds and so does the run
    of the remaining messages from there; its results are then the first
    call's followed by the rest's.
   */
  lemma RunFirst(b: Buffer, msgs: seq<LinkUpdateMessage>)
    requires |msgs| > 0
    ensures Run(b, msgs).Success? <==>
      Receive(b, msgs[0]).Success? && Run(Receive(b, msgs[0]).value.next, msgs[1..]).Success?
    ensures Run(b, msgs).Success? ==>
      var s := Receive(b, msgs[0]).value;
      var t := Run(s.next, msgs[1..]).value;
      Run(b, msgs) == Success(Trace(t.final, [s.delivered] + t.batches))
  {
  }

  lemma AppendStep(b: Buffer, m1: seq<LinkUpdateMessage>, m2: seq<LinkUpdateMessage>, s: Step, t: Trace, t2: Trace)
    requires |m1| > 0 && Receive(b, m1[0]) == Success(s)
    requires Run(s.next, m1[1..] + m2) == Success(Trace(t2.final, t.batches + t2.batches))
    ensures Run(b, m1 + m2) == Success(Trace(t2.final, ([s.delivered] + t.batches) + t2.batches))
  {
    assert (m1 + m2)[0] == m1[0];
    assert (m1 + m2)[1..] == m1[1..] + m2;
    RunFirst(b, m1 + m2);
    assert [s.delivered] + (t.batches + t2.batches) == ([s.delivered] + t.batches) + t2.batches;
  }

  /** Running two message sequences one after the other is running their concatenation. */
  lemma {:induction false} RunAppend(b: Buffer, m1: seq<LinkUpdateMessage>, m2: seq<LinkUpdateMessage>, t1: Trace, t2: Trace)
    requires Run(b, m1) == Success(t1)
    requires Run(t1.final, m2) == Success(t2)
    ensures Run(b, m1 + m2) == Success(Trace(t2.final, t1.batches + t2.batches))
    decreases |m1|
  {
    if |m1| == 0 {
      assert m1 + m2 == m2;
      assert t1.batches + t2.batches == t2.batches;
    } else {
      RunFirst(b, m1);
      var s := Receive(b, m1[0]).value;
      var t := Run(s.next, m1[1..]).value;
      RunAppend(s.next, m1[1..], m2, t, t2);
      AppendStep(b, m1, m2, s, t, t2);
    }
  }

  /** From a tracked buffer no run ever throws, whatever K, H and L are. */
  lemma {:induction false} RunTracked(b: Buffer, msgs: seq<LinkUpdateMessage>)
    requires Tracked(b)
    ensures Run(b, msgs).Success?
    ensures Tracked(Run(b, msgs).value.final)
    decreases |msgs|
  {
    if |msgs| > 0 {
      ReceiveTracked(b, msgs[0]);
      RunTracked(Receive(b, msgs[0]).value.next, msgs[1..]);
    }
  }

  /**
    The "not in UpdateCounters map" exception is unreachable: every buffer
    the constructor accepts survives every sequence of calls.
   */
  lemma GuardUnreachable(k: int, h: int, l: int, msgs: seq<LinkUpdateMessage>)
    requires Create(k, h, l).Success?
    ensures Run(Create(k, h, l).value, msgs).Success?
  {
    RunTracked(Create(k, h, l).value, msgs);
  }

  /** For 1 <= L <= H the invariant holds after every sequence of calls. */
  lemma {:induction false} RunPreservesInv(b: Buffer, msgs: seq<LinkUpdateMessage>)
    requires Inv(b)
    ensures Run(b, msgs).Success?
    ensures Inv(Run(b, msgs).value.final)
    decreases |msgs|
  {
    if |msgs| > 0 {
      ReceivePreservesInv(b, msgs[0]);
      RunPreservesInv(Receive(b, msgs[0]).value.next, msgs[1..]);
    }
  }

  /** For any L, as long as H >= 1, the ready-list property holds after every sequence of calls. */
  lemma {:induction false} RunPreservesReady(b: Buffer, msgs: seq<LinkUpdateMessage>)
    requires ReadyInv(b)
    ensures Run(b, msgs).Success?
    ensures ReadyInv(Run(b, msgs).value.final)
    decreases |msgs|
  {
    if |msgs| > 0 {
      ReceivePreservesReady(b, msgs[0]);
      RunPreservesReady(Receive(b, msgs[0]).value.next, msgs[1..]);
    }
  }

  /**
    Every buffer the constructor accepts with H >= 1, whatever its L, keeps
    a duplicate-free ready list holding exactly the nodes at or past H.
   */
  lemma ReadyForAllL(k: int, h: int, l: int, msgs: seq<LinkUpdateMessage>)
    requires Create(k, h, l).Success? && 1 <= h
    ensures Run(Create(k, h, l).value, msgs).Success?
    ensures var final := Run(Create(k, h, l).value, msgs).value.final;
      Distinct(final.readyList) && Elements(final.readyList) == PastH(final)
  {
    FreshReady(k, h, l);
    RunPreservesReady(Create(k, h, l).value, msgs);
  }

  /**
    For 1 <= L <= H the in-progress count never goes negative: after any
    sequence of calls on a fresh buffer it is the number of nodes in [L, H).
   */
  lemma InProgressNonNegative(k: int, h: int, l: int, msgs: seq<LinkUpdateMessage>)
    requires Create(k, h, l).Success? && 1 <= l
    ensures Run(Create(k, h, l).value, msgs).Success?
    ensures Run(Create(k, h, l).value, msgs).value.final.inProgress ==
      |InProgressSet(Run(Create(k, h, l).value, msgs).value.final)|
    ensures Run(Create(k, h, l).value, msgs).value.final.inProgress >= 0
  {
    FreshInv(k, h, l);
    RunPreservesInv(Create(k, h, l).value, msgs);
  }

  /** getNumDelivers goes up by one for every call that returned a non-empty list, and only then. */
  lemma {:induction false} DeliversCountsBatches(b: Buffer, msgs: seq<LinkUpdateMessage>)
    requires Run(b, msgs).Success?
    ensures NumDelivers(Run(b, msgs).value.final) == NumDelivers(b) + NonEmpty(Run(b, msgs).value.batches)
    decreases |msgs|
  {
    if |msgs| > 0 {
      var s := Receive(b, msgs[0]).value;
      var t := Run(s.next, msgs[1..]).value;
      DeliversCountsBatches(s.next, msgs[1..]);
      assert Run(b, msgs).value.batches == [s.delivered] + t.batches;
      assert ([s.delivered] + t.batches)[1..] == t.batches;
    }
  }

  /**
    A node is delivered only after H messages about it have been counted:
    its counter at the start plus the messages about it in the run reach H.
   */
  lemma {:induction false} DeliveredOnlyAfterH(b: Buffer, msgs: seq<LinkUpdateMessage>, e: Endpoint)
    requires ReadyInv(b)
    requires Run(b, msgs).Success?
    requires e in Flatten(Run(b, msgs).value.batches)
    ensures Counter(b, e) + Occurrences(msgs, e) >= b.h
    decreases |msgs|
  {
    var s := Receive(b, msgs[0]).value;
    var t := Run(s.next, msgs[1..]).value;
    ReceivePreservesReady(b, msgs[0]);
    ReceiveCounters(b, msgs[0], e);
    assert Run(b, msgs).value.batches == [s.delivered] + t.batches;
    assert ([s.delivered] + t.batches)[1..] == t.batches;
    if e in s.delivered {
      ReadyDelivers(b, msgs[0]);
      assert e in Elements(s.delivered);
    } else {
      DeliveredOnlyAfterH(s.next, msgs[1..], e);
    }
  }

  /**
    Once delivered, a node's counter is 0, so it takes H fresh messages
    about it before it can be delivered again.
   */
  lemma RedeliveryNeedsHMessages(b: Buffer, msg: LinkUpdateMessage, msgs: seq<LinkUpdateMessage>, e: Endpoint)
    requires ReadyInv(b)
    requires Receive(b, msg).Success?
    requires e in Receive(b, msg).value.delivered
    requires Run(Receive(b, msg).value.next, msgs).Success?
    requires e in Flatten(Run(Receive(b, msg).value.next, msgs).value.batches)
    ensures Occurrences(msgs, e) >= b.h
  {
    ReceivePreservesReady(b, msg);
    ReceiveCounters(b, msg, e);
    DeliveredOnlyAfterH(Receive(b, msg).value.next, msgs, e);
  }

  /**
    With L <= 0 no counter ever equals L, so the in-progress count only
    falls: it stays at or below 0 and nothing is ever delivered.
   */
  lemma {:induction false} LowWatermarkNeverDelivers(b: Buffer, msgs: seq<LinkUpdateMessage>)
    requires b.l <= 0 && b.inProgress <= 0
    ensures Run(b, msgs).Success?
    ensures Run(b, msgs).value.batches == Silent(|msgs|)
    ensures NumDelivers(Run(b, msgs).value.final) == NumDelivers(b)
    ensures Run(b, msgs).value.final.inProgress <= 0
    decreases |msgs|
  {
    if |msgs| > 0 {
      var s := Receive(b, msgs[0]).value;
      LowWatermarkNeverDelivers(s.next, msgs[1..]);
      RunFirst(b, msgs);
      assert [[]] + Silent(|msgs| - 1) == Silent(|msgs|);
    }
  }

  /**
    With L <= 0 a node's counter reaching H only decrements the in-progress
    count, which then drops below 0, and the call delivers nothing.
   */
  lemma LowWatermarkGoesNegative(b: Buffer, msg: LinkUpdateMessage)
    requires b.l <= 0 && b.inProgress <= 0 && Counter(b, msg.dst) + 1 == b.h
    ensures Receive(b, msg).Success?
    ensures Receive(b, msg).value.delivered == []
    ensures Receive(b, msg).value.next.inProgress == b.inProgress - 1 < 0
  {
  }

  /** Every buffer the constructor accepts with L <= 0 never delivers anything. */
  lemma NonPositiveLowNeverDelivers(k: int, h: int, l: int, msgs: seq<LinkUpdateMessage>)
    requires Create(k, h, l).Success? && l <= 0
    ensures Run(Create(k, h, l).value, msgs).Success?
    ensures Flatten(Run(Create(k, h, l).value, msgs).value.batches) == []
    ensures NumDelivers(Run(Create(k, h, l).value, msgs).value.final) == 0
  {
    LowWatermarkNeverDelivers(Create(k, h, l).value, msgs);
    FlattenSilent(|msgs|);
  }

  lemma {:induction false} FlattenSilent(n: nat)
    ensures Flatten(Silent(n)) == []
  {
    if n > 0 {
      assert Silent(n)[1..] == Silent(n - 1);
      FlattenSilent(n - 1);
    }
  }

  /** The buffer after n messages about d that keep it below H. */
  function Fed(b: Buffer, d: Endpoint, n: nat): Buffer
  {
    b.(counters := b.counters[d := Counter(b, d) + n],
       inProgress := if Counter(b, d) < b.l <= Counter(b, d) + n then b.inProgress + 1 else b.inProgress)
  }

  /**
    Messages that keep a node below H deliver nothing: they raise its
    counter, mark it in progress if they carry it across L, and change
    nothing else.
   */
  lemma {:induction false} FeedBelowH(b: Buffer, d: Endpoint, msgs: seq<LinkUpdateMessage>)
    requires |msgs| >= 1 && AllAbout(msgs, d)
    requires Counter(b, d) + |msgs| < b.h
    ensures Run(b, msgs) == Success(Trace(Fed(b, d, |msgs|), Silent(|msgs|)))
    decreases |msgs|
  {
    var s := Receive(b, msgs[0]).value;
    assert s.next == Fed(b, d, 1);
    if |msgs| > 1 {
      FeedBelowH(s.next, d, msgs[1..]);
      assert Fed(s.next, d, |msgs| - 1) == Fed(b, d, |msgs|) by {
        assert s.next.counters[d := Counter(b, d) + |msgs|] == b.counters[d := Counter(b, d) + |msgs|];
      }
    }
    RunFirst(b, msgs);
    assert [[]] + Silent(|msgs| - 1) == Silent(|msgs|);
  }

  /** Messages about a node already at or past H only raise its counter. */
  lemma {:induction false} FeedPastH(b: Buffer, d: Endpoint, msgs: seq<LinkUpdateMessage>)
    requires |msgs| >= 1 && AllAbout(msgs, d)
    requires b.l <= b.h <= Counter(b, d)
    ensures Run(b, msgs).Success?
    ensures Run(b, msgs).value.batches == Silent(|msgs|)
    ensures Run(b, msgs).value.final == b.(counters := b.counters[d := Counter(b, d) + |msgs|])
    decreases |msgs|
  {
    var s := Receive(b, msgs[0]).value;
    ReceivePastH(b, msgs[0]);
    if |msgs| > 1 {
      FeedPastH(s.next, d, msgs[1..]);
      assert s.next.counters[d := Counter(b, d) + |msgs|] == b.counters[d := Counter(b, d) + |msgs|];
    }
    RunFirst(b, msgs);
    assert [[]] + Silent(|msgs| - 1) == Silent(|msgs|);
  }

  lemma SilentAppend(m: nat, n: nat)
    ensures Silent(m) + Silent(n) == Silent(m + n)
  {
    assert Silent(m) + Silent(n) == Silent(m + n);
  }

  /** A single call, seen as a run of one message. */
  lemma Single(b: Buffer, m: LinkUpdateMessage)
    requires Receive(b, m).Success?
    ensures Run(b, [m]) == Success(Trace(Receive(b, m).value.next, [Receive(b, m).value.delivered]))
  {
    var s := Receive(b, m).value;
    assert [m][1..] == [];
    assert Run(s.next, []) == Success(Trace(s.next, []));
    RunFirst(b, [m]);
    assert [s.delivered] + [] == [s.delivered];
  }

  /** Extends a run that has delivered nothing so far by a further piece. */
  lemma AfterSilent(b: Buffer, m1: seq<LinkUpdateMessage>, m2: seq<LinkUpdateMessage>, mid: Buffer, t: Trace, n: nat)
    requires Run(b, m1) == Success(Trace(mid, Silent(n)))
    requires Run(mid, m2) == Success(t)
    ensures Run(b, m1 + m2) == Success(Trace(t.final, Silent(n) + t.batches))
  {
    RunAppend(b, m1, m2, Trace(mid, Silent(n)), t);
  }

  /** Extends a silent run by a piece that delivers nothing either. */
  lemma SilentThenSilent(b: Buffer, m1: seq<LinkUpdateMessage>, m2: seq<LinkUpdateMessage>, mid: Buffer, last: Buffer, n1: nat, n2: nat)
    requires Run(b, m1) == Success(Trace(mid, Silent(n1)))
    requires Run(mid, m2) == Success(Trace(last, Silent(n2)))
    ensures Run(b, m1 + m2) == Success(Trace(last, Silent(n1 + n2)))
  {
    RunAppend(b, m1, m2, Trace(mid, Silent(n1)), Trace(last, Silent(n2)));
    SilentAppend(n1, n2);
  }

  /** The buffer after the H-th message about d, while another node is still in progress. */
  function Queued(b: Buffer, d: Endpoint): Buffer
  {
    b.(counters := b.counters[d := Counter(b, d) + 1], inProgress := b.inProgress - 1, readyList := b.readyList + [d])
  }

  /** The H-th message about a node, while some other node is in progress, only queues it. */
  lemma QueueStep(b: Buffer, m: LinkUpdateMessage)
    requires b.l < b.h == Counter(b, m.dst) + 1 && b.inProgress != 1
    ensures Run(b, [m]) == Success(Trace(Queued(b, m.dst), Silent(1)))
  {
    ReceiveCases(b, m);
    Single(b, m);
    assert Silent(1) == [[]];
  }

  /** The H-th message about the last node in progress releases the ready list and that node. */
  lemma DeliverStep(b: Buffer, m: LinkUpdateMessage)
    requires b.l < b.h == Counter(b, m.dst) + 1 && b.inProgress == 1 && Tracked(b)
    ensures Run(b, [m]).Success?
    ensures Run(b, [m]).value.batches == [b.readyList + [m.dst]]
    ensures NumDelivers(Run(b, [m]).value.final) == NumDelivers(b) + 1
  {
    ReceiveTracked(b, m);
    ReceiveCases(b, m);
    Single(b, m);
  }

  /** The destinations of a sequence of messages. */
  function Dsts(msgs: seq<LinkUpdateMessage>): (r: seq<Endpoint>)
    ensures |r| == |msgs| && forall i :: 0 <= i < |msgs| ==> r[i] == msgs[i].dst
  {
    seq(|msgs|, i requires 0 <= i < |msgs| => msgs[i].dst)
  }

  /** The conditions under which a sequence of H-th messages is flushed together. */
  predicate Flushable(b: Buffer, seals: seq<LinkUpdateMessage>)
  {
    && |seals| >= 1
    && b.l < b.h && Tracked(b) && b.inProgress == |seals|
    && (forall i :: 0 <= i < |seals| ==> Counter(b, seals[i].dst) + 1 == b.h)
    && (forall i, j :: 0 <= i < j < |seals| ==> seals[i].dst != seals[j].dst)
  }

  /** Queuing the first node keeps the rest flushable. */
  lemma FlushableRest(b: Buffer, seals: seq<LinkUpdateMessage>)
    requires Flushable(b, seals) && |seals| >= 2
    ensures Flushable(Queued(b, seals[0].dst), seals[1..])
  {
    var b1 := Queued(b, seals[0].dst);
    var rest := seals[1..];
    forall i | 0 <= i < |rest|
      ensures Counter(b1, rest[i].dst) + 1 == b1.h
    {
      assert rest[i] == seals[i + 1];
    }
    forall i, j | 0 <= i < j < |rest|
      ensures rest[i].dst != rest[j].dst
    {
      assert rest[i] == seals[i + 1] && rest[j] == seals[j + 1];
    }
  }

  lemma FlushLast(b: Buffer, seals: seq<LinkUpdateMessage>)
    requires Flushable(b, seals) && |seals| == 1
    ensures Run(b, seals).Success?
    ensures Run(b, seals).value.batches == Silent(|seals| - 1) + [b.readyList + Dsts(seals)]
    ensures NumDelivers(Run(b, seals).value.final) == NumDelivers(b) + 1
  {
    DeliverStep(b, seals[0]);
    assert seals == [seals[0]];
    assert Dsts(seals) == [seals[0].dst];
    assert Silent(0) + [b.readyList + Dsts(seals)] == [b.readyList + Dsts(seals)];
  }

  lemma DstsCons(ready: seq<Endpoint>, m: LinkUpdateMessage, rest: seq<LinkUpdateMessage>)
    ensures (ready + [m.dst]) + Dsts(rest) == ready + Dsts([m] + rest)
  {
    var whole, split := Dsts([m] + rest), [m.dst] + Dsts(rest);
    forall i | 0 <= i < |whole|
      ensures whole[i] == split[i]
    {
      if i > 0 {
        assert ([m] + rest)[i] == rest[i - 1];
      }
    }
    assert whole == split;
    assert (ready + [m.dst]) + Dsts(rest) == ready + split;
  }

  lemma SilentThenBatch(n1: nat, n2: nat, x: seq<Endpoint>)
    ensures Silent(n1) + (Silent(n2) + [x]) == Silent(n1 + n2) + [x]
  {
    SilentAppend(n1, n2);
    assert Silent(n1) + (Silent(n2) + [x]) == (Silent(n1) + Silent(n2)) + [x];
  }

  /** A silent first message followed by a run that ends in one batch. */
  lemma FlushStep(b: Buffer, m: LinkUpdateMessage, rest: seq<LinkUpdateMessage>, b1: Buffer, t: Trace)
    requires |rest| >= 1
    requires Run(b, [m]) == Success(Trace(b1, Silent(1)))
    requires b1.readyList == b.readyList + [m.dst]
    requires Run(b1, rest) == Success(t)
    requires t.batches == Silent(|rest| - 1) + [b1.readyList + Dsts(rest)]
    ensures Run(b, [m] + rest) == Success(Trace(t.final, Silent(|rest|) + [b.readyList + Dsts([m] + rest)]))
  {
    AfterSilent(b, [m], rest, b1, t, 1);
    DstsCons(b.readyList, m, rest);
    SilentThenBatch(1, |rest| - 1, b1.readyList + Dsts(rest));
  }

  /**
    Distinct nodes that are exactly the ones in progress, each one message
    short of H, are released together: the messages that bring them to H
    deliver nothing until the last, which delivers the ready list followed
    by all of them in the order they reached H, as one batch.
   */
  lemma {:induction false} FlushTogether(b: Buffer, seals: seq<LinkUpdateMessage>)
    requires Flushable(b, seals)
    ensures Run(b, seals).Success?
    ensures Run(b, seals).value.batches == Silent(|seals| - 1) + [b.readyList + Dsts(seals)]
    ensures NumDelivers(Run(b, seals).value.final) == NumDelivers(b) + 1
    decreases |seals|
  {
    if |seals| == 1 {
      FlushLast(b, seals);
    } else {
      var b1, rest := Queued(b, seals[0].dst), seals[1..];
      FlushableRest(b, seals);
      FlushTogether(b1, rest);
      var t := Run(b1, rest).value;
      QueueStep(b, seals[0]);
      FlushStep(b, seals[0], rest, b1, t);
      assert [seals[0]] + rest == seals;
    }
  }

  /** A run that has delivered nothing, followed by messages that flush together. */
  lemma SilentThenFlush(b: Buffer, setup: seq<LinkUpdateMessage>, mid: Buffer, n: nat, seals: seq<LinkUpdateMessage>)
    requires Run(b, setup) == Success(Trace(mid, Silent(n)))
    requires Flushable(mid, seals)
    ensures Run(b, setup + seals).Success?
    ensures Run(b, setup + seals).value.batches == Silent(n + |seals| - 1) + [mid.readyList + Dsts(seals)]
    ensures NumDelivers(Run(b, setup + seals).value.final) == NumDelivers(mid) + 1
  {
    FlushTogether(mid, seals);
    var t := Run(mid, seals).value;
    AfterSilent(b, setup, seals, mid, t, n);
    SilentThenBatch(n, |seals| - 1, mid.readyList + Dsts(seals));
  }
}
