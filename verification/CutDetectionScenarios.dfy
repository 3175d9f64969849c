/**
  The cut-detection test scenarios, replayed against the watermark buffer
  with K = 10, H = 8, L = 2 and one message per report. The destinations
  are any distinct endpoints; the sources, statuses, configuration id and
  ring numbers are those the tests build, although the buffer ignores them.
 */
module CutDetectionScenarios {
  import opened Wrappers
  import opened Messages
  import opened WatermarkBuffer
  import opened WatermarkInvariants
  import opened WatermarkRuns

  const K := 10
  const H := 8
  const L := 2
  const CONFIGURATION_ID := -1
  const HOST := "127.0.0.1"

  /** The buffer every scenario starts from. */
  function Start(): (b: Buffer)
    ensures b == Fresh(K, H, L)
  {
    CreateChecked(K, H, L).value
  }

  /** createAlertMessage(src, dst, ringNumber): an UP report in the test's configuration. */
  function Alert(src: Endpoint, dst: Endpoint, ring: int): LinkUpdateMessage
  {
    LinkUpdateMessage(src, dst, Up, CONFIGURATION_ID, ring)
  }

  /** The tests' loop: report i about dst comes from HOST:i+1 on ring i. */
  function Reports(dst: Endpoint, n: nat): (r: seq<LinkUpdateMessage>)
    ensures |r| == n && AllAbout(r, dst)
  {
    seq(n, i => Alert(Endpoint(HOST, i + 1), dst, i))
  }

  /** A report about dst from HOST:port on ring H - 1. */
  function Late(port: int, dst: Endpoint): LinkUpdateMessage
  {
    Alert(Endpoint(HOST, port), dst, H - 1)
  }

  /** One report about dst on each of the K rings, all from HOST:1. */
  function RingSweep(dst: Endpoint): (r: seq<LinkUpdateMessage>)
    ensures |r| == K && AllAbout(r, dst)
  {
    seq(K, i => Alert(Endpoint(HOST, 1), dst, i))
  }

  /**
    cutDetectionTest: H - 1 reports about one node deliver nothing; the
    H-th delivers exactly that node and getNumDelivers becomes 1.
   */
  lemma CutDetection(d: Endpoint)
    ensures var r := Run(Start(), Reports(d, H - 1));
      r.Success? && r.value.batches == Silent(H - 1) && NumDelivers(r.value.final) == 0
    ensures var r := Run(Start(), Reports(d, H - 1) + [Late(H, d)]);
      r.Success? && r.value.batches == Silent(H - 1) + [[d]] && NumDelivers(r.value.final) == 1
  {
    var b0 := Start();
    FeedBelowH(b0, d, Reports(d, H - 1));
    var b1 := Run(b0, Reports(d, H - 1)).value.final;
    assert Counter(b1, d) == H - 1 && b1.inProgress == 1 && b1.readyList == [];
    assert Receive(b1, Late(H, d)).value.delivered == [d];
    Single(b1, Late(H, d));
    RunAppend(b0, Reports(d, H - 1), [Late(H, d)], Run(b0, Reports(d, H - 1)).value, Run(b1, [Late(H, d)]).value);
  }

  /** A node fed H - 1 reports and then another fed n reports, one after the other. */
  lemma TwoFed(d1: Endpoint, d2: Endpoint, n: nat)
    requires d1 != d2 && 1 <= n < H
    ensures Run(Start(), Reports(d1, H - 1) + Reports(d2, n)) == Success(Trace(
      Fed(Fed(Start(), d1, H - 1), d2, n), Silent(H - 1 + n)))
  {
    var b0 := Start();
    var b1 := Fed(b0, d1, H - 1);
    FeedBelowH(b0, d1, Reports(d1, H - 1));
    FeedBelowH(b1, d2, Reports(d2, n));
    SilentThenSilent(b0, Reports(d1, H - 1), Reports(d2, n), b1, Fed(b1, d2, n), H - 1, n);
  }

  /**
    cutDetectionTestBlockingOneBlocker: two nodes each get H - 1 reports, so
    both are in progress; the H-th report about the first delivers nothing,
    the H-th about the second delivers both in one batch.
   */
  lemma OneBlocker(d1: Endpoint, d2: Endpoint)
    requires d1 != d2
    ensures var r := Run(Start(), Reports(d1, H - 1) + Reports(d2, H - 1) + [Late(H, d1), Late(H, d2)]);
      && r.Success?
      && r.value.batches == Silent(2 * (H - 1) + 1) + [[d1, d2]]
      && NumDelivers(r.value.final) == 1
  {
    var mid := Fed(Fed(Start(), d1, H - 1), d2, H - 1);
    var seals := [Late(H, d1), Late(H, d2)];
    TwoFed(d1, d2, H - 1);
    assert mid.readyList == [];
    assert Flushable(mid, seals) by {
      assert mid.inProgress == 2;
      assert Counter(mid, d1) == H - 1 && Counter(mid, d2) == H - 1;
    }
    SilentThenFlush(Start(), Reports(d1, H - 1) + Reports(d2, H - 1), mid, 2 * (H - 1), seals);
    assert Dsts(seals) == [d1, d2];
    assert mid.readyList + Dsts(seals) == [d1, d2];
  }

  /** Three nodes fed H - 1, n and H - 1 reports, one node after the other. */
  lemma ThreeFed(d1: Endpoint, d2: Endpoint, d3: Endpoint, n: nat)
    requires d1 != d2 && d1 != d3 && d2 != d3
    requires 1 <= n < H
    ensures Run(Start(), Reports(d1, H - 1) + Reports(d2, n) + Reports(d3, H - 1)) == Success(Trace(
      Fed(Fed(Fed(Start(), d1, H - 1), d2, n), d3, H - 1), Silent(2 * (H - 1) + n)))
  {
    var b2 := Fed(Fed(Start(), d1, H - 1), d2, n);
    TwoFed(d1, d2, n);
    assert Counter(b2, d3) == 0;
    FeedBelowH(b2, d3, Reports(d3, H - 1));
    SilentThenSilent(Start(), Reports(d1, H - 1) + Reports(d2, n), Reports(d3, H - 1), b2, Fed(b2, d3, H - 1), H - 1 + n, H - 1);
  }

  /** The state after ThreeFed: nothing ready, each node's count, and who is in progress. */
  lemma ThreeFedState(d1: Endpoint, d2: Endpoint, d3: Endpoint, n: nat)
    requires d1 != d2 && d1 != d3 && d2 != d3
    requires 1 <= n < H
    ensures var mid := Fed(Fed(Fed(Start(), d1, H - 1), d2, n), d3, H - 1);
      && mid.l == L && mid.h == H && mid.readyList == [] && Tracked(mid)
      && Counter(mid, d1) == H - 1 && Counter(mid, d2) == n && Counter(mid, d3) == H - 1
      && mid.inProgress == if n < L then 2 else 3
  {
  }

  /** From three nodes in progress, the H-th reports about the first, the third and the second flush all three. */
  lemma ThreeSealed(d1: Endpoint, d2: Endpoint, d3: Endpoint)
    requires d1 != d2 && d1 != d3 && d2 != d3
    ensures var r := Run(Fed(Fed(Fed(Start(), d1, H - 1), d2, H - 1), d3, H - 1), [Late(H, d1), Late(H, d3), Late(H, d2)]);
      && r.Success?
      && r.value.batches == Silent(2) + [[d1, d3, d2]]
      && NumDelivers(r.value.final) == 1
  {
    var mid := Fed(Fed(Fed(Start(), d1, H - 1), d2, H - 1), d3, H - 1);
    var seals := [Late(H, d1), Late(H, d3), Late(H, d2)];
    ThreeFedState(d1, d2, d3, H - 1);
    FlushTogether(mid, seals);
    assert Dsts(seals) == [d1, d3, d2];
    assert mid.readyList + Dsts(seals) == [d1, d3, d2];
  }

  /**
    cutDetectionTestBlockingThreeBlockers: three nodes in progress; the
    H-th reports about the first and the third deliver nothing, the H-th
    about the second delivers all three, in the order they reached H.
   */
  lemma ThreeBlockers(d1: Endpoint, d2: Endpoint, d3: Endpoint)
    requires d1 != d2 && d1 != d3 && d2 != d3
    ensures var r := Run(Start(), Reports(d1, H - 1) + Reports(d2, H - 1) + Reports(d3, H - 1)
      + [Late(H, d1), Late(H, d3), Late(H, d2)]);
      && r.Success?
      && r.value.batches == Silent(3 * (H - 1) + 2) + [[d1, d3, d2]]
      && NumDelivers(r.value.final) == 1
  {
    var setup := Reports(d1, H - 1) + Reports(d2, H - 1) + Reports(d3, H - 1);
    var seals := [Late(H, d1), Late(H, d3), Late(H, d2)];
    var mid := Fed(Fed(Fed(Start(), d1, H - 1), d2, H - 1), d3, H - 1);
    ThreeFed(d1, d2, d3, H - 1);
    ThreeSealed(d1, d2, d3);
    AfterSilent(Start(), setup, seals, mid, Run(mid, seals).value, 3 * (H - 1));
    SilentThenBatch(3 * (H - 1), 2, [d1, d3, d2]);
  }

  /**
    cutDetectionTestBelowL: the second node gets only L - 1 reports, so it is
    never in progress and does not block; the H-th reports about the first
    and the third deliver both of them, and only them, in one batch.
   */
  lemma BelowL(d1: Endpoint, d2: Endpoint, d3: Endpoint)
    requires d1 != d2 && d1 != d3 && d2 != d3
    ensures var r := Run(Start(), Reports(d1, H - 1) + Reports(d2, L - 1) + Reports(d3, H - 1)
      + [Late(H, d1), Late(H, d3)]);
      && r.Success?
      && r.value.batches == Silent(2 * (H - 1) + L) + [[d1, d3]]
      && NumDelivers(r.value.final) == 1
  {
    var mid := Fed(Fed(Fed(Start(), d1, H - 1), d2, L - 1), d3, H - 1);
    var seals := [Late(H, d1), Late(H, d3)];
    ThreeFed(d1, d2, d3, L - 1);
    ThreeFedState(d1, d2, d3, L - 1);
    SilentThenFlush(Start(), Reports(d1, H - 1) + Reports(d2, L - 1) + Reports(d3, H - 1), mid, 2 * (H - 1) + L - 1, seals);
    assert Dsts(seals) == [d1, d3];
    assert mid.readyList + Dsts(seals) == [d1, d3];
  }

  lemma Concat21<T>(a: T, b: T, c: T)
    ensures [a, b] + [c] == [a, b, c]
  {
  }

  lemma Concat221<T>(a: T, b: T, c: T, d: T, e: T)
    ensures [a, b] + [c, d] + [e] == [a, b, c, d, e]
  {
  }

  /** The H-th report about a node, while another is in progress, then one more past H. */
  lemma QueueThenPast(b: Buffer, m1: LinkUpdateMessage, m2: LinkUpdateMessage)
    requires m1.dst == m2.dst
    requires b.l < b.h == Counter(b, m1.dst) + 1 && b.inProgress != 1
    ensures Run(b, [m1, m2]) == Success(Trace(
      Queued(b, m1.dst).(counters := b.counters[m1.dst := b.h + 1]), Silent(2)))
  {
    var s1 := Queued(b, m1.dst);
    var s2 := s1.(counters := b.counters[m1.dst := b.h + 1]);
    assert Run(b, [m1] + [m2]) == Success(Trace(s2, Silent(2))) by {
      QueueStep(b, m1);
      FeedPastH(s1, m1.dst, [m2]);
      assert s1.counters[m1.dst := b.h + 1] == s2.counters;
      SilentThenSilent(b, [m1], [m2], s1, s2, 1, 1);
    }
    assert [m1] + [m2] == [m1, m2];
  }

  /**
    The end of cutDetectionTestBlockingMultipleBlockersPastH, from three
    nodes each one report short of H: two reports about the first and two
    about the third carry them to and past H and deliver nothing; the H-th
    about the second delivers all three.
   */
  lemma PastHTail(b: Buffer, d1: Endpoint, d2: Endpoint, d3: Endpoint)
    requires d1 != d2 && d1 != d3 && d2 != d3
    requires b.l == L && b.h == H && b.inProgress == 3 && b.readyList == []
    requires Counter(b, d1) == H - 1 && Counter(b, d2) == H - 1 && Counter(b, d3) == H - 1
    ensures var r := Run(b, [Late(H, d1), Late(H + 1, d1), Late(H, d3), Late(H + 1, d3), Late(H, d2)]);
      && r.Success?
      && r.value.batches == Silent(4) + [[d1, d3, d2]]
      && NumDelivers(r.value.final) == NumDelivers(b) + 1
  {
    var x1, x2, y1, y2, z := Late(H, d1), Late(H + 1, d1), Late(H, d3), Late(H + 1, d3), Late(H, d2);
    var s2 := Queued(b, d1).(counters := b.counters[d1 := H + 1]);
    QueueThenPast(b, x1, x2);
    var s4 := Queued(s2, d3).(counters := s2.counters[d3 := H + 1]);
    assert Counter(s2, d3) == H - 1 && s2.inProgress == 2;
    QueueThenPast(s2, y1, y2);
    SilentThenSilent(b, [x1, x2], [y1, y2], s2, s4, 2, 2);
    assert s4.readyList == [d1, d3] && s4.inProgress == 1 && Tracked(s4);
    assert Counter(s4, d2) == H - 1;
    DeliverStep(s4, z);
    var t := Run(s4, [z]).value;
    Concat21(d1, d3, d2);
    AfterSilent(b, [x1, x2] + [y1, y2], [z], s4, t, 4);
    Concat221(x1, x2, y1, y2, z);
  }

  /**
    cutDetectionTestBlockingMultipleBlockersPastH: as with three blockers,
    but the first and the third get one report past H each before the
    second reaches H; nothing is delivered until then, and then all three.
   */
  lemma MultipleBlockersPastH(d1: Endpoint, d2: Endpoint, d3: Endpoint)
    requires d1 != d2 && d1 != d3 && d2 != d3
    ensures var r := Run(Start(), Reports(d1, H - 1) + Reports(d2, H - 1) + Reports(d3, H - 1)
      + [Late(H, d1), Late(H + 1, d1), Late(H, d3), Late(H + 1, d3), Late(H, d2)]);
      && r.Success?
      && r.value.batches == Silent(3 * (H - 1) + 4) + [[d1, d3, d2]]
      && NumDelivers(r.value.final) == 1
  {
    var setup := Reports(d1, H - 1) + Reports(d2, H - 1) + Reports(d3, H - 1);
    var tail := [Late(H, d1), Late(H + 1, d1), Late(H, d3), Late(H + 1, d3), Late(H, d2)];
    var mid := Fed(Fed(Fed(Start(), d1, H - 1), d2, H - 1), d3, H - 1);
    ThreeFed(d1, d2, d3, H - 1);
    ThreeFedState(d1, d2, d3, H - 1);
    PastHTail(mid, d1, d2, d3);
    var t := Run(mid, tail).value;
    AfterSilent(Start(), setup, tail, mid, t, 3 * (H - 1));
    SilentThenBatch(3 * (H - 1), 4, [d1, d3, d2]);
  }

  /** A ring sweep is H - 1 reports, the H-th report, and K - H more, all about d. */
  lemma SweepSplit(d: Endpoint)
    ensures RingSweep(d) == RingSweep(d)[..H - 1] + [RingSweep(d)[H - 1]] + RingSweep(d)[H..]
    ensures |RingSweep(d)[..H - 1]| == H - 1 && AllAbout(RingSweep(d)[..H - 1], d)
    ensures |RingSweep(d)[H..]| == K - H && AllAbout(RingSweep(d)[H..], d)
    ensures RingSweep(d)[H - 1].dst == d
  {
    var r := RingSweep(d);
    assert r == r[..H - 1] + [r[H - 1]] + r[H..];
  }

  /** The H-th report about the only node in progress, with nothing ready, delivers it alone. */
  lemma DeliverAlone(b: Buffer, m: LinkUpdateMessage)
    requires b.l < b.h == Counter(b, m.dst) + 1 && b.inProgress == 1 && b.readyList == []
    ensures Receive(b, m).Success?
    ensures var next := Receive(b, m).value.next;
      && Run(b, [m]) == Success(Trace(next, [[m.dst]]))
      && Counter(next, m.dst) == 0
      && next.inProgress == 0 && next.readyList == []
      && next.l == b.l && next.h == b.h
      && NumDelivers(next) == NumDelivers(b) + 1
      && forall e :: e != m.dst ==> Counter(next, e) == Counter(b, e)
  {
    ReceiveTracked(b, m);
    ReceiveCases(b, m);
    Single(b, m);
    assert Receive(b, m).value.delivered == [m.dst];
  }

  /**
    A sweep about a node nobody else blocks: H - 1 reports mark it in
    progress, the H-th delivers it alone and resets its counter, and the
    last K - H reports mark it in progress again.
   */
  lemma SweepDelivers(b: Buffer, d: Endpoint)
    requires b.l == L && b.h == H && b.inProgress == 0 && b.readyList == [] && Counter(b, d) == 0
    ensures Run(b, RingSweep(d)).Success?
    ensures var t := Run(b, RingSweep(d)).value;
      && t.batches == Silent(H - 1) + [[d]] + Silent(K - H)
      && t.final.readyList == []
      && t.final.inProgress == 1
      && NumDelivers(t.final) == NumDelivers(b) + 1
      && forall e :: e != d ==> Counter(t.final, e) == Counter(b, e)
  {
    var r := RingSweep(d);
    var p1, m, p3 := r[..H - 1], r[H - 1], r[H..];
    SweepSplit(d);
    var b1 := Fed(b, d, H - 1);
    FeedBelowH(b, d, p1);
    assert b1.inProgress == 1 && Counter(b1, d) == H - 1;
    DeliverAlone(b1, m);
    var s := Receive(b1, m).value;
    RunAppend(b, p1, [m], Run(b, p1).value, Run(b1, [m]).value);
    FeedBelowH(s.next, d, p3);
    RunAppend(b, p1 + [m], p3, Run(b, p1 + [m]).value, Run(s.next, p3).value);
  }

  /**
    A sweep about a node while another is in progress: H - 1 reports mark
    it in progress too, the H-th only queues it, and the last K - H reports
    carry it past H; nothing is delivered.
   */
  lemma SweepQueues(b: Buffer, d: Endpoint)
    requires b.l == L && b.h == H && b.inProgress == 1 && Counter(b, d) == 0
    ensures Run(b, RingSweep(d)).Success?
    ensures var t := Run(b, RingSweep(d)).value;
      && t.batches == Silent(K)
      && t.final.readyList == b.readyList + [d]
      && t.final.inProgress == 1
      && NumDelivers(t.final) == NumDelivers(b)
      && forall e :: e != d ==> Counter(t.final, e) == Counter(b, e)
  {
    var r := RingSweep(d);
    var p1, m, p3 := r[..H - 1], r[H - 1], r[H..];
    SweepSplit(d);
    var b1 := Fed(b, d, H - 1);
    FeedBelowH(b, d, p1);
    assert b1.inProgress == 2 && Counter(b1, d) == H - 1;
    var b2 := Queued(b1, d);
    QueueStep(b1, m);
    SilentThenSilent(b, p1, [m], b1, b2, H - 1, 1);
    var b3 := b2.(counters := b2.counters[d := Counter(b2, d) + (K - H)]);
    FeedPastH(b2, d, p3);
    SilentThenSilent(b, p1 + [m], p3, b2, b3, H, K - H);
  }

  /**
    cutDetectionTestBatch, replayed against this buffer: one sweep over the
    K rings for each of three nodes. The first node is delivered alone at
    its H-th report; its last K - H reports put it back in progress, so the
    other two only reach the ready list, and nothing else is delivered.
   */
  lemma Batch(d1: Endpoint, d2: Endpoint, d3: Endpoint)
    requires d1 != d2 && d1 != d3 && d2 != d3
    ensures var r := Run(Start(), RingSweep(d1) + RingSweep(d2) + RingSweep(d3));
      && r.Success?
      && Flatten(r.value.batches) == [d1]
      && NumDelivers(r.value.final) == 1
      && r.value.final.readyList == [d2, d3]
      && r.value.final.inProgress == 1
  {
    var b0 := Start();
    SweepDelivers(b0, d1);
    var t1 := Run(b0, RingSweep(d1)).value;
    SweepQueues(t1.final, d2);
    var t2 := Run(t1.final, RingSweep(d2)).value;
    SweepQueues(t2.final, d3);
    var t3 := Run(t2.final, RingSweep(d3)).value;
    RunAppend(b0, RingSweep(d1), RingSweep(d2), t1, t2);
    RunAppend(b0, RingSweep(d1) + RingSweep(d2), RingSweep(d3), Trace(t2.final, t1.batches + t2.batches), t3);
    assert Flatten(t1.batches + t2.batches + t3.batches) == [d1] by {
      FlattenAppend(t1.batches + t2.batches, t3.batches);
      FlattenAppend(t1.batches, t2.batches);
      FlattenAppend(Silent(H - 1) + [[d1]], Silent(K - H));
      FlattenAppend(Silent(H - 1), [[d1]]);
      FlattenSilent(H - 1);
      FlattenSilent(K - H);
      FlattenSilent(K);
      assert Flatten([[d1]]) == [d1] + Flatten([]);
    }
  }
}
