/**
  The watermark buffer: it counts link-update messages per destination node
  and releases the nodes that have reached the high watermark H as one batch
  (a "cut"), but only when no other node sits between the low watermark L and
  H. Each Java call runs under one lock, so it is modelled as one pure step
  from a buffer state to the next state plus the list the call returns.
 */
module WatermarkBuffer {
  import opened Wrappers
  import opened Messages

  /** The smallest number of monitoring rings the constructor accepts. */
  const K_MIN := 3

  datatype Error =
    | IllegalArgument(k: int, h: int, l: int)
    | NotInUpdateCounters(address: Endpoint)

  /**
    The buffer's fields: the K/H/L parameters, one counter per destination
    that has ever been reported on, the in-progress count, the ready list of
    nodes waiting to be released, and the number of batches released so far.
   */
  datatype Buffer = Buffer(
    k: int,
    h: int,
    l: int,
    counters: map<Endpoint, nat>,
    inProgress: int,
    readyList: seq<Endpoint>,
    delivers: nat)

  /** What one call leaves behind and what it returns (empty: nothing released). */
  datatype Step = Step(next: Buffer, delivered: seq<Endpoint>)

  /** The state after a sequence of calls and what each call returned, in order. */
  datatype Trace = Trace(final: Buffer, batches: seq<seq<Endpoint>>)

  /** A buffer that has seen no message. */
  function Fresh(k: int, h: int, l: int): Buffer
  {
    Buffer(k, h, l, map[], 0, [], 0)
  }

  /** The constructor, with the guard exactly as the Java code writes it. */
  function Create(k: int, h: int, l: int): (r: Result<Buffer, Error>)
    ensures r.Failure? <==> h > k || l > h || k < K_MIN
    ensures r.Failure? ==> r.error == IllegalArgument(k, h, l)
    ensures r.Success? ==> r.value.k == k && r.value.h == h && r.value.l == l
    ensures r.Success? ==> r.value.counters == map[] && r.value.readyList == []
    ensures r.Success? ==> r.value.inProgress == 0 && r.value.delivers == 0
  {
    if h > k || l > h || k < K_MIN then Failure(IllegalArgument(k, h, l))
    else Success(Fresh(k, h, l))
  }

  /**
    The constructor as its own error message describes it: it accepts only
    K > H >= L >= 0 with K at least K_MIN.
   */
  function CreateChecked(k: int, h: int, l: int): (r: Result<Buffer, Error>)
    ensures r.Success? <==> K_MIN <= k && h < k && 0 <= l <= h
    ensures r.Failure? ==> r.error == IllegalArgument(k, h, l)
    ensures r.Success? ==> Create(k, h, l) == r
  {
    if !(K_MIN <= k && h < k && 0 <= l <= h) then Failure(IllegalArgument(k, h, l))
    else Success(Fresh(k, h, l))
  }

  /**
    The parameters the Java guard lets through although its message rules
    them out: exactly those with H == K or a negative L.
   */
  lemma GuardGap(k: int, h: int, l: int)
    ensures Create(k, h, l).Success? && CreateChecked(k, h, l).Failure?
      <==> K_MIN <= k && l <= h <= k && (h == k || l < 0)
  {
  }

  /** Two such parameter sets: H equal to K, and L below zero. */
  lemma GuardGapWitnesses()
    ensures Create(3, 3, 1).Success? && CreateChecked(3, 3, 1).Failure?
    ensures Create(10, 8, -1).Success? && CreateChecked(10, 8, -1).Failure?
  {
  }

  /** getNumDelivers: the number of batches released so far. */
  function NumDelivers(b: Buffer): nat
  {
    b.delivers
  }

  /** The number of messages counted for e (a missing entry reads as 0). */
  function Counter(b: Buffer, e: Endpoint): nat
  {
    if e in b.counters then b.counters[e] else 0
  }

  /**
    The delivery loop: sets the counter of every node of `nodes` to 0, in
    order, and fails on the first node that has no counter at all.
   */
  function ResetCounters(counters: map<Endpoint, nat>, nodes: seq<Endpoint>)
    : (r: Result<map<Endpoint, nat>, Error>)
    ensures r.Success? <==> forall n :: n in nodes ==> n in counters
    ensures r.Failure? ==> r.error.NotInUpdateCounters?
    ensures r.Failure? ==> r.error.address in nodes && r.error.address !in counters
    ensures r.Success? ==> r.value.Keys == counters.Keys
    ensures r.Success? ==> forall e :: e in r.value ==> r.value[e] == if e in nodes then 0 else counters[e]
    decreases |nodes|
  {
    if |nodes| == 0 then Success(counters)
    else if nodes[0] !in counters then Failure(NotInUpdateCounters(nodes[0]))
    else
      assert forall n :: n in nodes <==> n == nodes[0] || n in nodes[1..];
      ResetCounters(counters[nodes[0] := 0], nodes[1..])
  }

  /**
    receiveLinkUpdateMessage. Only msg.dst is read. The counter of dst goes
    up by one; reaching L marks dst in progress; reaching H appends dst to
    the ready list and ends its in-progress period, and if nothing is left
    in progress the whole ready list is released and its counters reset.
    The only exception it can raise is the delivery loop's.
   */
  function Receive(b: Buffer, msg: LinkUpdateMessage): (r: Result<Step, Error>)
    ensures r.Failure? ==> r.error.NotInUpdateCounters?
  {
    var dst := msg.dst;
    var value := Counter(b, dst) + 1;
    var counters := b.counters[dst := value];
    var inProgress := if value == b.l then b.inProgress + 1 else b.inProgress;
    if value != b.h then
      Success(Step(b.(counters := counters, inProgress := inProgress), []))
    else
      var ready := b.readyList + [dst];
      var remaining := inProgress - 1;
      if remaining != 0 then
        Success(Step(b.(counters := counters, inProgress := remaining, readyList := ready), []))
      else
        match ResetCounters(counters, ready)
        case Failure(e) => Failure(e)
        case Success(reset) =>
          Success(Step(b.(counters := reset, inProgress := 0, readyList := [], delivers := b.delivers + 1), ready))
  }

  /**
    What one call promises: the exception names a ready node with no
    counter; after a successful call K, H and L are unchanged; dst gains a
    counter and no other node does; getNumDelivers rises by exactly one on a
    non-empty result and not otherwise; a non-empty result is the ready list
    followed by dst and leaves the ready list empty and nothing in progress;
    an empty result leaves the ready list as it was or with dst appended.
   */
  lemma ReceiveContract(b: Buffer, msg: LinkUpdateMessage)
    ensures var r := Receive(b, msg);
      r.Failure? ==> r.error.address in b.readyList && r.error.address !in b.counters
    ensures var r := Receive(b, msg);
      r.Success? ==> r.value.next.k == b.k && r.value.next.h == b.h && r.value.next.l == b.l
    ensures var r := Receive(b, msg);
      r.Success? ==> r.value.next.counters.Keys == b.counters.Keys + {msg.dst}
    ensures var r := Receive(b, msg);
      r.Success? ==> r.value.next.delivers == if r.value.delivered == [] then b.delivers else b.delivers + 1
    ensures var r := Receive(b, msg);
      r.Success? && r.value.delivered != [] ==>
        && r.value.delivered == b.readyList + [msg.dst]
        && r.value.next.readyList == []
        && r.value.next.inProgress == 0
    ensures var r := Receive(b, msg);
      r.Success? && r.value.delivered == [] ==>
        r.value.next.readyList == b.readyList || r.value.next.readyList == b.readyList + [msg.dst]
  {
  }

  /** A sequence of calls, one after the other; the first exception ends the run. */
  function Run(b: Buffer, msgs: seq<LinkUpdateMessage>): (r: Result<Trace, Error>)
    ensures r.Success? ==> |r.value.batches| == |msgs|
    ensures r.Success? ==> r.value.final.delivers >= b.delivers
    ensures r.Success? ==>
      r.value.final.k == b.k && r.value.final.h == b.h && r.value.final.l == b.l
    decreases |msgs|
  {
    if |msgs| == 0 then Success(Trace(b, []))
    else
      match Receive(b, msgs[0])
      case Failure(e) => Failure(e)
      case Success(s) =>
        match Run(s.next, msgs[1..])
        case Failure(e) => Failure(e)
        case Success(t) => Success(Trace(t.final, [s.delivered] + t.batches))
  }
}
