/**
  The outbound side of one peer: a bounded queue that floods fill without blocking and that the
  writer loop drains onto the wire.
 */
module PeerQueue {
  import opened ByteStrings
  import opened Base
  import opened Framing

  const SEND_QUEUE_DEPTH: nat := 64

  /** One peer's outbound history. `writing` is false once a write has failed. */
  datatype Outbound = Outbound(
    offered: seq<Packet>,
    dropped: nat,
    queue: seq<Packet>,
    dequeued: seq<Packet>,
    wire: Bytes,
    writing: bool)

  const IDLE: Outbound := Outbound([], 0, [], [], [], true)

  /** What happens to a peer: a flood offers a packet; the writer takes the next one and writes it,
      or fails after some bytes of it and stops. */
  datatype Event = Offered(packet: Packet) | Written | Failed(bytes: nat)

  function Offer(o: Outbound, p: Packet): Outbound {
    if |o.queue| < SEND_QUEUE_DEPTH then o.(offered := o.offered + [p], queue := o.queue + [p])
    else o.(offered := o.offered + [p], dropped := o.dropped + 1)
  }

  /** The writer's turn; `failAt` is how many bytes went out before an error, if there is one. */
  function Drain(o: Outbound, failAt: Option<nat>): Outbound {
    if !o.writing || |o.queue| == 0 then o
    else
      var frame := Frame(o.queue[0]);
      var next := o.(queue := o.queue[1..], dequeued := o.dequeued + [o.queue[0]]);
      match failAt
      case None => next.(wire := o.wire + frame)
      case Some(n) => next.(wire := o.wire + (if n < |frame| then frame[..n] else frame), writing := false)
  }

  function Step(o: Outbound, ev: Event): Outbound {
    match ev
    case Offered(p) => Offer(o, p)
    case Written => Drain(o, None)
    case Failed(n) => Drain(o, Some(n))
  }

  function Steps(o: Outbound, evs: seq<Event>): Outbound {
    if |evs| == 0 then o else Step(Steps(o, evs[..|evs| - 1]), evs[|evs| - 1])
  }

  // ---------------------------------------------------------------------------
  // Subsequences
  // ---------------------------------------------------------------------------

  /** `a` arises from `b` by leaving out elements. */
  predicate Subsequence<T(==)>(a: seq<T>, b: seq<T>) {
    |a| == 0 ||
    (|b| > 0 &&
     ((a[|a| - 1] == b[|b| - 1] && Subsequence(a[..|a| - 1], b[..|b| - 1])) || Subsequence(a, b[..|b| - 1])))
  }

  lemma SubsequenceExtend<T>(a: seq<T>, b: seq<T>, x: T)
    requires Subsequence(a, b)
    ensures Subsequence(a, b + [x]) && Subsequence(a + [x], b + [x])
  {
    assert (b + [x])[..|b|] == b && (a + [x])[..|a|] == a;
  }

  lemma {:induction false} SubsequencePrefix<T>(a: seq<T>, b: seq<T>, p: seq<T>)
    requires Subsequence(a, b) && p <= a
    ensures Subsequence(p, b)
    decreases |b|
  {
    if |p| > 0 {
      var init := b[..|b| - 1];
      if a[|a| - 1] == b[|b| - 1] && Subsequence(a[..|a| - 1], init) {
        if |p| < |a| {
          SubsequencePrefix(a[..|a| - 1], init, p);
        } else {
          assert p == a;
        }
      } else {
        SubsequencePrefix(a, init, p);
      }
    }
  }

  /** What it means: strictly increasing places in `b` that hold the elements of `a`. */
  lemma {:induction false} SubsequencePlaces<T>(a: seq<T>, b: seq<T>) returns (at: seq<nat>)
    requires Subsequence(a, b)
    ensures |at| == |a|
    ensures forall i :: 0 <= i < |at| ==> at[i] < |b| && a[i] == b[at[i]]
    ensures forall i, j :: 0 <= i < j < |at| ==> at[i] < at[j]
    decreases |b|
  {
    if |a| == 0 {
      at := [];
    } else if a[|a| - 1] == b[|b| - 1] && Subsequence(a[..|a| - 1], b[..|b| - 1]) {
      var front := SubsequencePlaces(a[..|a| - 1], b[..|b| - 1]);
      at := front + [|b| - 1];
    } else {
      at := SubsequencePlaces(a, b[..|b| - 1]);
    }
  }

  // ---------------------------------------------------------------------------
  // Accounting
  // ---------------------------------------------------------------------------

  /** The queue is bounded; every packet offered is dequeued, queued or dropped; what was dequeued
      and what is queued stand in the order they were offered in; and the wire carries the frames of
      the dequeued packets, all of them as long as no write has failed. */
  predicate Accounted(o: Outbound) {
    && |o.queue| <= 64
    && |o.offered| == |o.dequeued| + |o.queue| + o.dropped
    && Subsequence(o.dequeued + o.queue, o.offered)
    && o.wire <= WriteAll(o.dequeued)
    && (o.writing ==> o.wire == WriteAll(o.dequeued))
  }

  lemma IdleAccounted()
    ensures Accounted(IDLE)
  {
  }

  lemma OfferAccounted(o: Outbound, p: Packet)
    requires Accounted(o)
    ensures Accounted(Offer(o, p))
  {
    hide WriteAll, Subsequence;
    SubsequenceExtend(o.dequeued + o.queue, o.offered, p);
    assert o.dequeued + (o.queue + [p]) == o.dequeued + o.queue + [p];
  }

  lemma {:induction false} WriteSnoc(ps: seq<Packet>, p: Packet)
    ensures WriteAll(ps + [p]) == WriteAll(ps) + Frame(p)
  {
    hide Frame;
    if |ps| == 0 {
      assert [p][1..] == [];
    } else {
      WriteSnoc(ps[1..], p);
      assert (ps + [p])[1..] == ps[1..] + [p];
    }
  }

  lemma DrainAccounted(o: Outbound, failAt: Option<nat>)
    requires Accounted(o)
    ensures Accounted(Drain(o, failAt))
  {
    hide WriteAll, Subsequence, Frame;
    if o.writing && |o.queue| > 0 {
      var p := o.queue[0];
      WriteSnoc(o.dequeued, p);
      assert o.dequeued + [p] + o.queue[1..] == o.dequeued + o.queue;
    }
  }

  /** Over any run of floods, writes and write failures. */
  lemma {:induction false} RunAccounted(evs: seq<Event>)
    ensures Accounted(Steps(IDLE, evs))
  {
    hide Accounted, Offer, Drain, IDLE;
    if |evs| == 0 {
      IdleAccounted();
    } else {
      var o := Steps(IDLE, evs[..|evs| - 1]);
      RunAccounted(evs[..|evs| - 1]);
      match evs[|evs| - 1] {
        case Offered(p) => OfferAccounted(o, p);
        case Written => DrainAccounted(o, None);
        case Failed(n) => DrainAccounted(o, Some(n));
      }
    }
  }

  function OfferedIn(evs: seq<Event>): seq<Packet> {
    if |evs| == 0 then []
    else OfferedIn(evs[..|evs| - 1]) + match evs[|evs| - 1] case Offered(p) => [p] case _ => []
  }

  lemma {:induction false} RunOffered(evs: seq<Event>)
    ensures Steps(IDLE, evs).offered == OfferedIn(evs)
  {
    hide Frame;
    if |evs| > 0 {
      RunOffered(evs[..|evs| - 1]);
    }
  }

  /** End to end over any run: whatever the remote side has read so far, from however much of the
      wire has arrived, is an order-preserving selection of the packets flooded to this peer: none
      altered, none invented, none twice. */
  lemma RemoteReadsSelection(evs: seq<Event>, arrived: Bytes)
    requires arrived <= Steps(IDLE, evs).wire
    requires forall i :: 0 <= i < |OfferedIn(evs)| ==> Fits(OfferedIn(evs)[i])
    ensures Subsequence(ReadAll(arrived).0, OfferedIn(evs))
  {
    hide Steps, OfferedIn, ReadAll, WriteAll, Subsequence;
    var o := Steps(IDLE, evs);
    RunAccounted(evs);
    RunOffered(evs);
    SubsequencePrefix(o.dequeued + o.queue, o.offered, o.dequeued);
    assert forall i :: 0 <= i < |o.dequeued| ==> Fits(o.dequeued[i]) by {
      var at := SubsequencePlaces(o.dequeued, o.offered);
    }
    CutStreamDeliversPrefix(o.dequeued, arrived);
    SubsequencePrefix(o.dequeued, o.offered, ReadAll(arrived).0);
  }

  /** The queue has room at every offer of the run. */
  predicate NeverFull(evs: seq<Event>) {
    forall n :: 0 <= n < |evs| && evs[n].Offered? ==> |Steps(IDLE, evs[..n]).queue| < 64
  }

  /** A packet is lost to the queue only when the queue is full: otherwise everything offered has been
      dequeued or is queued, in order. */
  lemma {:induction false} NeverFullLosesNothing(evs: seq<Event>)
    requires NeverFull(evs)
    ensures var o := Steps(IDLE, evs); o.dropped == 0 && o.dequeued + o.queue == OfferedIn(evs)
  {
    hide Frame;
    if |evs| > 0 {
      var init := evs[..|evs| - 1];
      assert NeverFull(init) by {
        assert forall n :: 0 <= n < |init| ==> init[..n] == evs[..n] && init[n] == evs[n];
      }
      NeverFullLosesNothing(init);
      LosslessStep(Steps(IDLE, init), evs[|evs| - 1], OfferedIn(init));
    }
  }

  lemma LosslessStep(o: Outbound, ev: Event, offered: seq<Packet>)
    requires o.dropped == 0 && o.dequeued + o.queue == offered
    requires ev.Offered? ==> |o.queue| < SEND_QUEUE_DEPTH
    ensures var n := Step(o, ev);
            && n.dropped == 0
            && n.dequeued + n.queue == offered + (match ev case Offered(p) => [p] case _ => [])
  {
    hide Frame;
    if ev.Offered? {
      assert o.dequeued + (o.queue + [ev.packet]) == o.dequeued + o.queue + [ev.packet];
    } else if |o.queue| > 0 {
      assert o.dequeued + [o.queue[0]] + o.queue[1..] == o.dequeued + o.queue;
    }
  }

  // ---------------------------------------------------------------------------
  // Progress
  // ---------------------------------------------------------------------------

  /** `k` turns of the writer without an error. */
  function Turns(k: nat): (evs: seq<Event>)
    ensures |evs| == k && forall i :: 0 <= i < k ==> evs[i] == Written
  {
    if k == 0 then [] else Turns(k - 1) + [Written]
  }

  lemma DrainOutright(o: Outbound)
    requires o.writing && |o.queue| > 0
    ensures Drain(o, None) ==
            Outbound(o.offered, o.dropped, o.queue[1..], o.dequeued + [o.queue[0]], o.wire + Frame(o.queue[0]), true)
    ensures forall n: nat ::
              Drain(o, Some(n)) ==
              Outbound(o.offered, o.dropped, o.queue[1..], o.dequeued + [o.queue[0]],
                       o.wire + (if n < |Frame(o.queue[0])| then Frame(o.queue[0])[..n] else Frame(o.queue[0])), false)
  {
    hide Frame;
  }

  /** As many turns as there are packets, or fewer: just so many leave the queue, from its front, and their
      frames stand on the wire. */
  lemma {:induction false} WriterDrains(o: Outbound, k: nat)
    requires Accounted(o) && o.writing && k <= |o.queue|
    ensures var t := Steps(o, Turns(k));
            && t.writing
            && t.dequeued == o.dequeued + o.queue[..k] && t.queue == o.queue[k..]
            && t.wire == WriteAll(o.dequeued + o.queue[..k])
            && t.offered == o.offered && t.dropped == o.dropped
  {
    hide Drain, WriteAll, Subsequence, Frame;
    if k > 0 {
      WriterDrains(o, k - 1);
      var t := Steps(o, Turns(k - 1));
      assert Turns(k)[..k - 1] == Turns(k - 1);
      DrainOutright(t);
      assert t.queue[0] == o.queue[k - 1];
      assert o.dequeued + o.queue[..k] == o.dequeued + o.queue[..k - 1] + [o.queue[k - 1]];
      WriteSnoc(o.dequeued + o.queue[..k - 1], o.queue[k - 1]);
    }
  }

  lemma {:induction false} TurnsOnEmpty(o: Outbound, k: nat)
    requires o.queue == []
    ensures Steps(o, Turns(k)) == o
  {
    if k > 0 {
      TurnsOnEmpty(o, k - 1);
      assert Turns(k)[..k - 1] == Turns(k - 1);
    }
  }

  lemma {:induction false} StepsConcat(o: Outbound, a: seq<Event>, b: seq<Event>)
    ensures Steps(o, a + b) == Steps(Steps(o, a), b)
  {
    hide Step;
    if |b| == 0 {
      assert a + b == a;
    } else {
      StepsConcat(o, a, b[..|b| - 1]);
      assert (a + b)[..|a + b| - 1] == a + b[..|b| - 1];
    }
  }

  lemma TurnsSplit(j: nat, k: nat)
    ensures Turns(j + k) == Turns(j) + Turns(k)
  {
  }

  lemma {:induction false} StillWriting(evs: seq<Event>)
    requires forall i :: 0 <= i < |evs| ==> !evs[i].Failed?
    ensures Steps(IDLE, evs).writing
  {
    hide Frame;
    if |evs| > 0 {
      StillWriting(evs[..|evs| - 1]);
    }
  }

  /** A writer that does not fail and gets enough turns delivers all: after any run in which no offer found
      the queue full, as many turns as packets were offered bring the remote side exactly the packets
      offered, in order, and nothing else. */
  lemma EverythingArrives(evs: seq<Event>, k: nat)
    requires forall n :: 0 <= n < |evs| && evs[n].Offered? ==> |Steps(IDLE, evs[..n]).queue| < 64
    requires forall i :: 0 <= i < |evs| ==> !evs[i].Failed?
    requires forall i :: 0 <= i < |OfferedIn(evs)| ==> Fits(OfferedIn(evs)[i])
    requires k >= |OfferedIn(evs)|
    ensures ReadAll(Steps(IDLE, evs + Turns(k)).wire) == (OfferedIn(evs), EndOfStream)
  {
    hide Steps, ReadAll, WriteAll, Subsequence, OfferedIn, IDLE;
    var o := Steps(IDLE, evs);
    var n := |o.queue|;
    RunAccounted(evs);
    NeverFullLosesNothing(evs);
    StillWriting(evs);
    WriterDrains(o, n);
    var t := Steps(o, Turns(n));
    TurnsSplit(n, k - n);
    StepsConcat(IDLE, evs, Turns(k));
    StepsConcat(o, Turns(n), Turns(k - n));
    TurnsOnEmpty(t, k - n);
    assert o.queue[..n] == o.queue;
    StreamRoundTrip(OfferedIn(evs));
  }

  /** A write that fails after `n` bytes takes the packet off the queue and leaves these bytes of its frame on
      the wire; whatever happens then, nothing is ever written again. */
  lemma {:induction false} NothingAfterFailure(o: Outbound, n: nat, more: seq<Event>)
    requires o.writing && |o.queue| > 0
    ensures var frame := Frame(o.queue[0]);
            var t := Steps(Step(o, Failed(n)), more);
            && t.wire == o.wire + (if n < |frame| then frame[..n] else frame)
            && t.dequeued == o.dequeued + [o.queue[0]] && !t.writing
  {
    hide Frame;
    if |more| > 0 {
      NothingAfterFailure(o, n, more[..|more| - 1]);
    }
  }
}
