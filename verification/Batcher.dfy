/**
  The store-and-forward worker over queue, disk cache and link, and the books
  that say where every accepted frame is. Proved of every run: it ends, nothing
  is unaccounted for, and over a perfect disk nothing is out of order.

  Everything else acts while the worker waits. Captures offer the
  samples in `offers`: a capture is seen to act where the worker next looks at
  the queue, since in between it changes nothing the worker or the gateway can
  tell. Gateway sessions do whatever `ForwardLink` allows; the disk fails as
  often as `cache.faults` says, and may be full at any time; the stop signal
  comes at the latest after `passes` more passes; and the gateway ends a
  session on purpose at most `closes` more times. All of these are arbitrary,
  so every finite run is covered.
*/
module Bookkeeping {
  import opened Ledger

  /** Where every accepted frame is. */
  datatype Books = Books(
    accepted: seq<Sample>,
    reported: seq<Frame>,
    cached: seq<Frame>,
    inFlight: seq<Frame>,
    queued: seq<Frame>,
    lost: set<nat>,
    faulty: bool)

  /** Accepted and not yet reported delivered, oldest first. */
  function Held(b: Books): seq<Frame>
  {
    b.cached + b.inFlight + b.queued
  }

  ghost predicate Genuine(f: Frame, accepted: seq<Sample>, lost: set<nat>)
  {
    f.seqno < |accepted| && f.sample == accepted[f.seqno] && f.seqno !in lost
  }

  /**
    What is held is in acceptance order and never given up already; every
    accepted frame is somewhere; and unless the disk has failed a read or a
    delete, delivered then held is exactly what was accepted less what was lost.
  */
  ghost predicate Balanced(b: Books)
  {
    && Increasing(Held(b))
    && (forall f :: f in Held(b) ==> Genuine(f, b.accepted, b.lost))
    && (forall n :: n in b.lost ==> n < |b.accepted|)
    && (forall n: nat :: n < |b.accepted| ==> Somewhere(b, n))
    && (!b.faulty ==> b.reported + Held(b) == Survivors(b.accepted, b.lost))
  }

  ghost predicate Somewhere(b: Books, n: nat)
    requires n < |b.accepted|
  {
    n in b.lost || Frame(n, b.accepted[n]) in b.reported || Frame(n, b.accepted[n]) in Held(b)
  }

  /** Frames that only change hands leave the books balanced. */
  lemma Transfer(b: Books, b': Books)
    requires Balanced(b) && Held(b') == Held(b)
    requires b'.accepted == b.accepted && b'.reported == b.reported && b'.lost == b.lost
    requires b.faulty ==> b'.faulty
    ensures Balanced(b')
  {
    forall n: nat | n < |b'.accepted| ensures Somewhere(b', n) {
      assert Somewhere(b, n);
    }
  }

  lemma Accept(b: Books, sample: Sample)
    requires Balanced(b)
    ensures Balanced(b.(accepted := b.accepted + [sample],
                        queued := b.queued + [Frame(|b.accepted|, sample)]))
  {
    var f := Frame(|b.accepted|, sample);
    var b' := b.(accepted := b.accepted + [sample], queued := b.queued + [f]);
    assert Held(b') == Held(b) + [f];
    forall n: nat | n < |b'.accepted| ensures Somewhere(b', n) {
      if n < |b.accepted| {
        assert Somewhere(b, n);
      } else {
        assert f in Held(b');
      }
    }
    forall g | g in Held(b) ensures g.seqno < f.seqno && Genuine(g, b'.accepted, b.lost) {
      assert Genuine(g, b.accepted, b.lost);
    }
    IncreasingJoin(Held(b), [f]);
    SurvivorsAccept(b.accepted, b.lost, sample);
    assert b.reported + (Held(b) + [f]) == b.reported + Held(b) + [f];
  }

  /** The first `k` frames held are reported delivered. */
  lemma Deliver(b: Books, b': Books, k: nat)
    requires Balanced(b) && k <= |Held(b)|
    requires b'.accepted == b.accepted && b'.lost == b.lost && b'.faulty == b.faulty
    requires b'.reported == b.reported + Held(b)[..k] && Held(b') == Held(b)[k..]
    ensures Balanced(b')
  {
    var held := Held(b);
    assert held == held[..k] + held[k..];
    IncreasingSplit(held[..k], held[k..]);
    forall n: nat | n < |b'.accepted| ensures Somewhere(b', n) {
      assert Somewhere(b, n);
    }
    assert b.reported + held == b.reported + held[..k] + held[k..];
  }

  /** Frames delivered while the books are in no order: what is held may keep them. */
  lemma DeliverUnordered(b: Books, b': Books)
    requires Balanced(b) && b'.faulty
    requires b'.accepted == b.accepted && b'.lost == b.lost
    requires b.reported <= b'.reported
    requires Increasing(Held(b'))
    requires forall f :: f in Held(b') ==> f in Held(b)
    requires forall f :: f in Held(b) ==> f in Held(b') || f in b'.reported
    ensures Balanced(b')
  {
    forall n: nat | n < |b'.accepted| ensures Somewhere(b', n) {
      assert Somewhere(b, n);
    }
  }

  /** A run of frames in the middle is given up. */
  lemma Lose(b: Books, b': Books, front: seq<Frame>, gone: seq<Frame>, back: seq<Frame>)
    requires Balanced(b) && Held(b) == front + gone + back && Held(b') == front + back
    requires b'.accepted == b.accepted && b'.reported == b.reported && b'.faulty == b.faulty
    requires b'.lost == b.lost + Seqnos(gone)
    ensures Balanced(b')
    ensures |b'.lost| == |b.lost| + |gone|
  {
    hide Held, Survivors, Increasing, Seqnos, Genuine;
    LoseOrder(front, gone, back);
    LoseGenuine(b, b', front, gone, back);
    LoseCount(b, gone);
    forall n: nat | n < |b'.accepted| ensures Somewhere(b', n) {
      assert Somewhere(b, n);
      SeqnosMember(gone, Frame(n, b.accepted[n]));
    }
    if !b.faulty {
      assert b.reported + (front + gone + back) == (b.reported + front) + gone + back;
      SurvivorsLose(b.accepted, b.lost, b.reported + front, gone, back);
      assert (b.reported + front) + back == b.reported + (front + back);
    }
  }

  lemma SeqnosMember(fs: seq<Frame>, f: Frame)
    ensures f in fs ==> f.seqno in Seqnos(fs)
  {
  }

  lemma LoseGenuine(b: Books, b': Books, front: seq<Frame>, gone: seq<Frame>, back: seq<Frame>)
    requires forall f :: f in front + gone + back ==> Genuine(f, b.accepted, b.lost)
    requires forall f :: f in front + back ==> f.seqno !in Seqnos(gone)
    requires b'.accepted == b.accepted && b'.lost == b.lost + Seqnos(gone)
    ensures forall f :: f in front + back ==> Genuine(f, b'.accepted, b'.lost)
    ensures forall f :: f in gone ==> Genuine(f, b.accepted, b.lost)
    ensures forall n :: n in Seqnos(gone) ==> n < |b.accepted|
  {
    forall f | f in gone ensures f in front + gone + back {
    }
    forall f | f in front + back ensures f in front + gone + back {
    }
  }

  lemma LoseCount(b: Books, gone: seq<Frame>)
    requires Increasing(gone) && forall f :: f in gone ==> Genuine(f, b.accepted, b.lost)
    ensures |b.lost + Seqnos(gone)| == |b.lost| + |gone|
  {
    SeqnosCount(gone);
    assert b.lost !! Seqnos(gone);
  }

  lemma LoseOrder(front: seq<Frame>, gone: seq<Frame>, back: seq<Frame>)
    requires Increasing(front + gone + back)
    ensures Increasing(front + back) && Increasing(gone)
    ensures forall f :: f in front + back ==> f.seqno !in Seqnos(gone)
  {
    assert front + gone + back == front + (gone + back);
    IncreasingSplit(front, gone + back);
    IncreasingSplit(gone, back);
    SeqnosApart(gone, back);
    SeqnosApart(front, gone + back);
    IncreasingJoin(front, back);
  }

  lemma {:induction false} SeqnosCount(fs: seq<Frame>)
    requires Increasing(fs)
    ensures |Seqnos(fs)| == |fs|
  {
    if fs != [] {
      var n := |fs| - 1;
      SeqnosCount(fs[..n]);
      assert Seqnos(fs) == Seqnos(fs[..n]) + {fs[n].seqno} by {
        assert fs == fs[..n] + [fs[n]];
      }
      assert fs[n].seqno !in Seqnos(fs[..n]);
    }
  }
}

module Batching {
  import opened Wrappers
  import opened Ledger
  import opened Queue
  import opened Cache
  import opened Network
  import opened ForwardLink
  import opened Bookkeeping

  /** What one look at the disk cache came to. */
  datatype Drained = More | Nothing | SinkFailed(cause: Cause)

  class Batcher {
    const queue: FrameQueue
    const cache: SqliteCache
    const sink: ForwardSink
    const batchSize: nat
    /** The share of the queue in use at which frames move to disk; 0 never. */
    const flushThreshold: real
    /** Frames an earlier run had left on disk. */
    ghost const start: nat
    /** Whether the cache began with nothing wrong and nothing to go wrong. */
    ghost const perfect: bool

    var connected: bool
    var sinkDown: bool
    var drainingCache: bool
    var written: nat
    var dropped: nat
    var cached: nat
    var recovered: nat
    /** The frames the worker has in hand. */
    var inFlight: seq<Frame>

    /** The stop signal, and whether the worker has seen it. */
    var stop: bool
    var stopSeen: bool
    var offers: seq<Sample>
    var passes: nat
    var closes: nat

    ghost var lost: set<nat>
    /** The disk cache has been found full. */
    ghost var everFull: bool
    /** An exchange has failed on the connection, which is not closed yet. */
    ghost var broken: bool
    /** A cache read or delete has failed, so order is no longer promised. */
    ghost var faulty: bool

    ghost function Ledger(): Books
      reads this`inFlight, this`lost, this`faulty, queue, cache, sink
    {
      Books(queue.accepted, sink.reported, cache.Contents(), inFlight, queue.buffer, lost, faulty)
    }

    ghost function Seen(): View
      reads this`inFlight, this`lost, this`faulty, queue, cache, sink
    {
      View(!faulty, Held(Ledger()), |queue.accepted|)
    }

    ghost predicate Valid()
      reads this, queue, cache, sink
    {
      && queue.Valid() && cache.Valid() && 1 <= batchSize
      && Linked()
      && Balanced(Ledger())
      && Counted()
      && (stopSeen <==> queue.closed)
      && (perfect ==> cache.Perfect() && !faulty)
      && (lost != {} ==> MayDrop())
    }

    ghost predicate Linked()
      reads this`inFlight, this`lost, this`faulty, this`broken, queue, cache, sink
    {
      sink.Sound() && (broken || sink.At(Resting)) && sink.Ordered(Seen()) && sink.givenUp == lost
    }

    /** Frames are given up only once the disk was full or failed. */
    ghost predicate MayDrop()
      reads this`everFull
    {
      everFull || !perfect
    }

    /** The counters agree with where the frames are. */
    ghost predicate Counted()
      reads this`inFlight, this`lost, this`faulty, this`written, this`cached, this`recovered, this`dropped, queue, cache
    {
      && queue.enqueued + recovered == written + cached + dropped + |inFlight| + |queue.buffer|
      && |queue.accepted| == start + queue.enqueued
      && dropped == |lost|
      && (!faulty ==> |cache.table| + recovered == start + cached)
    }

    /** What is still to do: it never grows, and every pass after a stop shrinks it. */
    ghost function Work(): nat
      reads this, queue, cache
    {
      3 * |offers| + 2 * (|inFlight| + |queue.buffer|) + |cache.table|
    }

    /** A worker over a cache that holds what an earlier run left, `earlier`. */
    constructor (cache: SqliteCache, ghost earlier: seq<Sample>, size: nat, queueSize: nat, flushThreshold: real,
                 offers: seq<Sample>, passes: nat, closes: nat)
      requires cache.Valid() && cache.Contents() == Survivors(earlier, {})
      ensures Valid() && fresh(queue) && fresh(sink) && this.cache == cache
      ensures queue.accepted == earlier && start == |earlier| && inFlight == []
      ensures !faulty && !broken && lost == {} && !everFull
      ensures this.offers == offers && this.passes == passes && this.closes == closes && !stop
      ensures perfect == cache.Perfect()
    {
      hide Network.Orderly, Network.ConfirmedOnce, Bookkeeping.Balanced, Bookkeeping.Held, Survivors, Cache.Ordered;
      hide ForwardSink.Sound, ForwardSink.At, FramesOf;
      SurvivorsCount(earlier, {});
      this.cache := cache;
      queue := new FrameQueue(queueSize, |cache.table|, earlier);
      sink := new ForwardSink();
      batchSize := if size == 0 then 1 else size;
      this.flushThreshold := flushThreshold;
      start, perfect := |earlier|, cache.Perfect();
      connected, sinkDown, drainingCache := false, false, false;
      written, dropped, this.cached, recovered, inFlight := 0, 0, 0, 0, [];
      stop, stopSeen := false, false;
      this.offers, this.passes, this.closes := offers, passes, closes;
      lost, everFull, faulty, broken := {}, false, false, false;
      new;
      assert Ledger() == Books(earlier, [], Survivors(earlier, {}), [], [], {}, false);
      Opening(earlier, Ledger());
      assert Linked();
      hide Linked;
      assert Counted();
      hide Counted, Ledger;
    }

    static lemma Opening(earlier: seq<Sample>, b: Books)
      requires b == Books(earlier, [], Survivors(earlier, {}), [], [], {}, false)
      ensures Balanced(b) && Held(b) == Survivors(earlier, {})
      ensures Orderly(Net(map[], {}, {}, [], [], {}, false), [], Held(b), |earlier|) && ConfirmedOnce([], {})
    {
      assert [] + Held(b) == Held(b);
      assert Held(b) == Survivors(earlier, {});
      SurvivorsIncreasing(earlier, {});
      forall f | f in Held(b) ensures Genuine(f, earlier, {}) {
        SurvivorsMember(earlier, {}, f);
      }
      forall n: nat | n < |earlier| ensures Somewhere(b, n) {
        SurvivorsMember(earlier, {}, Frame(n, earlier[n]));
      }
    }

    /** Captures offer frames, and the stop signal may come. */
    method Meanwhile()
      requires Valid()
      modifies queue, this`offers, this`stop
      ensures Valid() && Work() <= old(Work())
      ensures old(queue.buffer) <= queue.buffer && queue.closed == old(queue.closed)
      ensures old(stop) ==> stop
      ensures queue.closed ==> queue.buffer == old(queue.buffer)
      ensures |offers| <= old(|offers|)
      ensures 3 * |offers| + 2 * |queue.buffer| <= old(3 * |offers| + 2 * |queue.buffer|)
    {
      hide Linked, Bookkeeping.Balanced, Counted;
      var signalled: bool := *;
      stop := stop || signalled;
      var turns: nat := *;
      while turns > 0 && offers != []
        invariant Valid() && Work() <= old(Work())
        invariant old(queue.buffer) <= queue.buffer && queue.closed == old(queue.closed)
        invariant queue.closed ==> queue.buffer == old(queue.buffer)
        invariant old(stop) ==> stop
        invariant |offers| <= old(|offers|)
        invariant 3 * |offers| + 2 * |queue.buffer| <= old(3 * |offers| + 2 * |queue.buffer|)
        decreases turns
      {
        Offer();
        turns := turns - 1;
      }
    }

    method Offer()
      requires Valid() && offers != []
      modifies queue, this`offers
      ensures Valid()
      ensures offers == old(offers)[1..] && queue.closed == old(queue.closed)
      ensures queue.buffer == old(queue.buffer)
              || (!queue.closed && |queue.buffer| == old(|queue.buffer|) + 1 && old(queue.buffer) <= queue.buffer)
    {
      hide Network.Orderly, Network.ConfirmedOnce, Bookkeeping.Balanced, Cache.Ordered, FramesOf;
      hide ForwardSink.Sound, ForwardSink.At;
      var sample := offers[0];
      offers := offers[1..];
      ghost var before, view := Ledger(), Seen();
      var n := queue.next;
      queue.Enqueue(sample);
      if queue.accepted == before.accepted {
        assert Ledger() == before;
      } else {
        Accept(before, sample);
        assert Ledger() == before.(accepted := before.accepted + [sample],
                                   queued := before.queued + [Frame(n, sample)]);
        assert Held(Ledger()) == Held(before) + [Frame(n, sample)];
        if !faulty && sink.Unconfused() {
          ReportedBounded(before);
          AcceptKeepsOrderly(sink.net, sink.reported, Held(before), n, Frame(n, sample));
        }
      }
    }

    /** Take the next frame off the queue, if there is one. */
    method TakeOne() returns (took: bool)
      requires Valid()
      modifies queue`buffer, this`inFlight
      ensures Valid() && Work() == old(Work())
      ensures took == (old(queue.buffer) != [])
      ensures took ==> inFlight == old(inFlight) + [old(queue.buffer)[0]] && queue.buffer == old(queue.buffer)[1..]
      ensures !took ==> inFlight == old(inFlight) && queue.buffer == []
    {
      hide Bookkeeping.Balanced, Cache.Ordered, FramesOf;
      hide ForwardSink.Sound, ForwardSink.At, ForwardSink.Ordered;
      ghost var before := Ledger();
      var taken := queue.TryRecv();
      took := taken.Some?;
      if took {
        inFlight := inFlight + [taken.value];
        assert before.queued == [taken.value] + queue.buffer;
        assert Held(before) == Held(Ledger());
        Transfer(before, Ledger());
      } else {
        assert Ledger() == before;
      }
    }

    /** From queue to hand, frame by frame, until the queue is found empty. */
    method TakeQueued()
      requires Valid()
      modifies queue, this`inFlight, this`offers, this`stop
      ensures Valid() && Work() <= old(Work())
      ensures queue.buffer == [] && queue.closed == old(queue.closed)
      ensures old(stop) ==> stop
      ensures queue.closed ==> inFlight == old(inFlight) + old(queue.buffer)
    {
      hide Linked, Bookkeeping.Balanced, Counted;
      while true
        invariant Valid() && Work() <= old(Work())
        invariant queue.closed == old(queue.closed) && (old(stop) ==> stop)
        invariant queue.closed ==> inFlight + queue.buffer == old(inFlight) + old(queue.buffer)
        decreases 3 * |offers| + 2 * |queue.buffer|
      {
        Meanwhile();
        var took := TakeOne();
        if !took {
          return;
        }
      }
    }

    /** Store the first `k` frames in hand on disk, or count them dropped if it is full or fails. */
    method CacheBatch(k: nat) returns (stored: nat)
      requires Valid() && k <= |inFlight|
      modifies cache, sink`net, sink`repeated, sink`givenUp
      modifies this`inFlight, this`cached, this`dropped, this`lost, this`everFull
      ensures Valid() && Work() + k <= old(Work())
      ensures inFlight == old(inFlight)[k..]
      ensures cache.faults <= old(cache.faults) && (k == 0 ==> Work() == old(Work()))
      ensures old(everFull) ==> everFull
      ensures stored == k || (stored == 0 && (everFull || !cache.attached || cache.faults < old(cache.faults)))
      ensures stored == k > 0 ==> cache.Contents() == old(cache.Contents()) + old(inFlight)[..k]
                                  && lost == old(lost) && dropped == old(dropped)
      ensures stored == 0 < k ==> cache.table == old(cache.table)
                                  && lost == old(lost) + Seqnos(old(inFlight)[..k]) && dropped == old(dropped) + k
    {
      hide Linked, Bookkeeping.Balanced, Counted, FramesOf, Seqnos;
      GatewayMeanwhile();
      var full: bool := *;
      if !full {
        var ok := Spill(k);
        if ok {
          return k;
        }
      }
      everFull := everFull || full;
      Drop(k);
      return 0;
    }

    method Spill(k: nat) returns (ok: bool)
      requires Valid() && k <= |inFlight|
      modifies cache`table, cache`nextId, cache`rows, cache`faults, this`inFlight, this`cached
      ensures Valid()
      ensures ok ==> inFlight == old(inFlight)[k..] && |cache.table| == |old(cache.table)| + k
                     && cache.Contents() == old(cache.Contents()) + old(inFlight)[..k]
      ensures cache.faults <= old(cache.faults)
      ensures !ok ==> inFlight == old(inFlight) && cache.table == old(cache.table)
                      && (!cache.attached || cache.faults < old(cache.faults))
    {
      hide Bookkeeping.Balanced, Bookkeeping.Held, Cache.Ordered;
      hide ForwardSink.Sound, ForwardSink.At, ForwardSink.Ordered;
      ghost var before := Ledger();
      var r := cache.Append(inFlight[..k]);
      ok := r.Success?;
      if ok {
        inFlight := inFlight[k..];
        cached := cached + k;
        Spilled(before, Ledger(), k);
        assert |FramesOf(cache.table)| == |FramesOf(old(cache.table))| + k;
      } else {
        assert Ledger() == before;
      }
    }

    static lemma HeldAround(b: Books, k: nat)
      requires k <= |b.inFlight|
      ensures Held(b) == b.cached + b.inFlight[..k] + (b.inFlight[k..] + b.queued)
      ensures k == 0 ==> Held(b) == b.cached + (b.inFlight + b.queued)
    {
    }

    static lemma Regrouped(a: seq<Frame>, b: seq<Frame>, k: nat, c: seq<Frame>)
      requires k <= |b|
      ensures a + b[..k] + b[k..] + c == a + b + c
    {
      assert b == b[..k] + b[k..];
    }

    static lemma Spilled(b: Books, b': Books, k: nat)
      requires Balanced(b) && k <= |b.inFlight|
      requires b' == b.(cached := b.cached + b.inFlight[..k], inFlight := b.inFlight[k..])
      ensures Balanced(b') && Held(b') == Held(b)
    {
      hide Balanced;
      Regrouped(b.cached, b.inFlight, k, b.queued);
      Transfer(b, b');
    }

    method Drop(k: nat)
      requires Valid() && k <= |inFlight| && MayDrop()
      modifies sink`net, sink`givenUp, this`inFlight, this`dropped, this`lost
      ensures Valid() && inFlight == old(inFlight)[k..] && dropped == old(dropped) + k
      ensures lost == old(lost) + Seqnos(old(inFlight)[..k])
    {
      hide Network.Orderly, Bookkeeping.Balanced, ForwardSink.Sound, ForwardSink.At, Network.ConfirmedOnce;
      hide Bookkeeping.Held, Cache.Ordered, FramesOf, Seqnos, Network.Forgo;
      ghost var before, view := Ledger(), Seen();
      var gone := inFlight[..k];
      ghost var after := before.(inFlight := inFlight[k..], lost := lost + Seqnos(gone));
      Dropped(before, after, k);
      sink.GiveUp(before.cached, gone, after.inFlight + before.queued, view);
      inFlight := inFlight[k..];
      dropped := dropped + k;
      lost := lost + Seqnos(gone);
      assert Ledger() == after;
      assert Linked() by {
        assert Seen() == view.(held := before.cached + (after.inFlight + before.queued));
      }
      hide Linked;
    }

    static lemma Dropped(b: Books, b': Books, k: nat)
      requires Balanced(b) && k <= |b.inFlight|
      requires b' == b.(inFlight := b.inFlight[k..], lost := b.lost + Seqnos(b.inFlight[..k]))
      ensures Held(b) == b.cached + b.inFlight[..k] + (b'.inFlight + b.queued)
      ensures Held(b') == b.cached + (b'.inFlight + b.queued)
      ensures Balanced(b') && |b'.lost| == |b.lost| + k
    {
      HeldAround(b, k);
      HeldAround(b', 0);
      Lose(b, b', b.cached, b.inFlight[..k], b'.inFlight + b.queued);
    }

    /** Everything in hand to disk, in batches. */
    method CacheInHand()
      requires Valid()
      modifies cache, sink`net, sink`repeated, sink`givenUp
      modifies this`inFlight, this`cached, this`dropped, this`lost, this`everFull
      ensures Valid() && Work() + |old(inFlight)| <= old(Work())
      ensures inFlight == [] && cache.faults <= old(cache.faults)
    {
      hide Linked, Bookkeeping.Balanced, Counted;
      while inFlight != []
        invariant Valid() && Work() + |old(inFlight)| <= old(Work()) + |inFlight|
        invariant cache.faults <= old(cache.faults)
        decreases |inFlight|
      {
        var k := if |inFlight| < batchSize then |inFlight| else batchSize;
        var _ := CacheBatch(k);
      }
    }

    /** From queue to hand to cache; with nothing in hand before and after. */
    method DrainQueueToCache()
      requires Valid() && inFlight == []
      modifies queue, cache, sink`net, sink`repeated, sink`givenUp
      modifies this`inFlight, this`cached, this`dropped, this`lost, this`everFull, this`offers, this`stop
      ensures Valid() && Work() <= old(Work())
      ensures inFlight == [] && queue.buffer == [] && queue.closed == old(queue.closed)
      ensures cache.faults <= old(cache.faults) && (old(stop) ==> stop)
    {
      hide Linked, Bookkeeping.Balanced, Counted;
      TakeQueued();
      CacheInHand();
    }

    predicate Filling()
      requires queue.Valid()
      reads queue
    {
      flushThreshold > 0.0 && |queue.buffer| as real / queue.capacity as real >= flushThreshold
    }

    /** Drain the queue if it is `Filling`. */
    method SpillIfQueueFilling()
      requires Valid() && inFlight == []
      modifies queue, cache, sink`net, sink`repeated, sink`givenUp
      modifies this`inFlight, this`cached, this`dropped, this`lost, this`everFull, this`offers, this`stop
      ensures Valid() && Work() <= old(Work())
      ensures inFlight == [] && queue.closed == old(queue.closed)
      ensures cache.faults <= old(cache.faults) && (old(stop) ==> stop)
      ensures if flushThreshold > 0.0 && old(|queue.buffer|) as real / queue.capacity as real >= flushThreshold
              then queue.buffer == []
              else Ledger() == old(Ledger())
    {
      hide Linked, Bookkeeping.Balanced, Counted;
      if Filling() {
        DrainQueueToCache();
      }
    }

    /** Collect up to `batchSize` frames: the first as soon as there is one, then what is there. */
    method NextBatch()
      requires Valid() && inFlight == []
      modifies queue, this`inFlight, this`offers, this`stop, this`stopSeen
      ensures Valid() && Work() <= old(Work())
      ensures (old(stop) ==> stop && queue.closed) && (old(queue.closed) ==> queue.closed)
      ensures |inFlight| <= batchSize && (|inFlight| < batchSize ==> queue.buffer == [])
    {
      hide Linked, Bookkeeping.Balanced, Counted;
      Meanwhile();
      if stop && !stopSeen {
        CloseQueue();
      }
      var took := TakeOne();
      while took && |inFlight| < batchSize
        invariant Valid() && Work() <= old(Work()) && |inFlight| <= batchSize
        invariant (old(stop) ==> stop && queue.closed) && (old(queue.closed) ==> queue.closed)
        invariant !took ==> queue.buffer == []
        decreases batchSize - |inFlight|, took
      {
        Meanwhile();
        took := TakeOne();
      }
    }

    method CloseQueue()
      requires Valid()
      modifies queue`closed, this`stopSeen
      ensures Valid() && queue.closed && stopSeen
    {
      hide Bookkeeping.Balanced, Bookkeeping.Held, Cache.Ordered;
      hide ForwardSink.Sound, ForwardSink.At, ForwardSink.Ordered;
      ghost var before := Ledger();
      queue.Close();
      stopSeen := true;
      assert Ledger() == before;
    }

    /** Write what is in hand to the sink, keeping what it did not take. */
    method WriteInHand() returns (r: WriteResult)
      requires Valid() && !broken && (!faulty ==> cache.table == [])
      modifies sink, this`inFlight, this`written, this`broken
      ensures Valid() && broken == r.WriteError?
      ensures sink.troubles == old(sink.troubles) + if r.WriteError? then 1 else 0
      ensures sink.pings == old(sink.pings)
      ensures Delivered(r, |old(inFlight)|) <= |old(inFlight)|
      ensures inFlight == old(inFlight)[Delivered(r, |old(inFlight)|)..]
      ensures sink.reported == old(sink.reported) + old(inFlight)[..Delivered(r, |old(inFlight)|)]
    {
      hide Bookkeeping.Balanced, Bookkeeping.Held, Cache.Ordered, FramesOf;
      hide ForwardSink.Sound, ForwardSink.At, ForwardSink.Ordered;
      ghost var before, view := Ledger(), Seen();
      InHandReady(before);
      r := Send(inFlight);
      var k := Delivered(r, |inFlight|);
      written := written + k;
      inFlight := inFlight[k..];
      assert Counted();
      hide Counted;
      InHandDelivered(before, Ledger(), k);
      sink.StillOrdered(After(view, k), Seen());
      assert Linked();
      hide Linked;
    }

    static lemma InHandReady(b: Books)
      requires Balanced(b)
      ensures Increasing(b.inFlight) && Increasing(b.cached)
      ensures b.cached == [] ==> b.inFlight <= Held(b)
    {
      IncreasingSplit(b.cached + b.inFlight, b.queued);
      IncreasingSplit(b.cached, b.inFlight);
    }

    static lemma InHandDelivered(b: Books, b': Books, k: nat)
      requires Balanced(b) && k <= |b.inFlight| && (!b.faulty ==> b.cached == [])
      requires b' == b.(reported := b.reported + b.inFlight[..k], inFlight := b.inFlight[k..])
      ensures Balanced(b')
      ensures !b.faulty ==> k <= |Held(b)| && Held(b') == Held(b)[k..]
    {
      HeldAround(b, k);
      HeldAround(b', 0);
      if !b.faulty {
        assert Held(b)[..k] == b.inFlight[..k];
        assert Held(b') == Held(b)[k..];
        Deliver(b, b', k);
      } else {
        LoseOrder(b.cached, b.inFlight[..k], b.inFlight[k..] + b.queued);
        DeliverUnordered(b, b');
      }
    }

    /** Write the oldest cached frames onward, and forget the ones that arrived. */
    method WriteCached(rows: seq<Row>) returns (r: WriteResult)
      requires Valid() && !broken && rows <= cache.table && cache.attached
      modifies sink, cache, this`written, this`recovered, this`faulty, this`broken
      ensures Valid() && broken == r.WriteError?
      ensures sink.troubles == old(sink.troubles) + if r.WriteError? then 1 else 0
      ensures sink.pings == old(sink.pings)
      ensures |cache.table| <= |old(cache.table)| && cache.faults <= old(cache.faults)
      ensures r.Written? && rows != [] ==>
                |cache.table| < |old(cache.table)| || cache.faults < old(cache.faults)
      ensures Delivered(r, |rows|) <= |rows|
      ensures sink.reported == old(sink.reported) + old(cache.Contents())[..Delivered(r, |rows|)]
      ensures !faulty ==> cache.Contents() == old(cache.Contents())[Delivered(r, |rows|)..]
    {
      hide Bookkeeping.Balanced, Bookkeeping.Held, Cache.Ordered, FramesOf;
      hide ForwardSink.Sound, ForwardSink.At, ForwardSink.Ordered;
      ghost var before := Ledger();
      FramesOfPrefix(rows, cache.table);
      CachedReady(before, |rows|);
      r := Send(FramesOf(rows));
      var k := Delivered(r, |rows|);
      assert FramesOf(rows)[..k] == before.cached[..k];
      Settle(rows, k, before);
    }

    /** Cached frames have been reported and are cached still. */
    ghost predicate Unsettled(before: Books, k: nat)
      reads this, queue, cache, sink
    {
      && queue.Valid() && cache.Valid() && 1 <= batchSize && Counted()
      && (stopSeen <==> queue.closed) && (perfect ==> cache.Perfect() && !faulty) && (lost != {} ==> MayDrop())
      && Balanced(before) && k <= |before.cached|
      && Ledger() == before.(reported := before.reported + before.cached[..k])
      && sink.Sound() && (broken || sink.At(Resting)) && sink.givenUp == lost
      && sink.Ordered(After(View(!before.faulty, Held(before), |before.accepted|), k))
    }

    /** Take delivered rows out of the cache and into the counters. */
    method Settle(rows: seq<Row>, k: nat, ghost before: Books)
      requires Unsettled(before, k) && k <= |rows| && rows <= cache.table && cache.attached
      modifies cache`table, cache`rows, cache`faults, this`written, this`recovered, this`faulty
      ensures Valid() && cache.faults <= old(cache.faults)
      ensures |cache.table| <= |old(cache.table)|
      ensures k > 0 ==> |cache.table| < |old(cache.table)| || cache.faults < old(cache.faults)
      ensures !faulty ==> cache.Contents() == old(cache.Contents())[k..]
    {
      hide Bookkeeping.Balanced, Bookkeeping.Held, Cache.Ordered, FramesOf;
      hide ForwardSink.Sound, ForwardSink.At, ForwardSink.Ordered;
      var gone := Forget(rows[..k]);
      written, recovered := written + k, recovered + k;
      assert Counted();
      hide Counted;
      assert Ledger() == before.(reported := before.reported + before.cached[..k], faulty := faulty,
                                 cached := if gone then before.cached[k..] else before.cached);
      CachedSettled(before, Ledger(), k, gone);
      sink.StillOrdered(After(View(!before.faulty, Held(before), |before.accepted|), k), Seen());
      assert Linked();
      hide Linked;
    }

    /** Put the oldest frames held through the link, and leave queue and cache as they are. */
    method Send(frames: seq<Frame>) returns (r: WriteResult)
      requires Valid() && !broken && Increasing(frames) && (!faulty ==> frames <= Held(Ledger()))
      modifies sink, this`broken
      ensures sink.Sound() && (broken || sink.At(Resting)) && sink.givenUp == lost && broken == r.WriteError?
      ensures Delivered(r, |frames|) <= |frames|
      ensures sink.troubles == old(sink.troubles) + if r.WriteError? then 1 else 0
      ensures sink.pings == old(sink.pings)
      ensures sink.reported == old(sink.reported) + frames[..Delivered(r, |frames|)]
      ensures sink.Ordered(After(old(Seen()), Delivered(r, |frames|)))
    {
      hide Bookkeeping.Balanced, Bookkeeping.Held, Cache.Ordered, FramesOf, Counted;
      hide ForwardSink.Sound, ForwardSink.At, ForwardSink.Ordered;
      r := sink.WriteBatch(frames, Seen());
      broken := r.WriteError?;
    }

    /** Remove delivered rows from the cache; a failure marks the books faulty. */
    method Forget(rows: seq<Row>) returns (gone: bool)
      requires cache.Valid() && rows <= cache.table
      modifies cache`table, cache`rows, cache`faults, this`faulty
      ensures cache.Valid()
      ensures gone ==> cache.Contents() == old(cache.Contents())[|rows|..] && faulty == old(faulty)
                       && |cache.table| == |old(cache.table)| - |rows|
      ensures cache.faults <= old(cache.faults)
      ensures !gone ==> cache.table == old(cache.table) && faulty
                        && (!cache.attached || cache.faults < old(cache.faults))
    {
      var r := cache.Remove(rows);
      gone := r.Success?;
      if !gone {
        faulty := true;
      }
    }

    static lemma CachedReady(b: Books, m: nat)
      requires Balanced(b) && m <= |b.cached|
      ensures Increasing(b.cached[..m]) && b.cached[..m] <= Held(b)
    {
    }

    static lemma CachedDelivered(b: Books, b': Books, k: nat)
      requires Balanced(b) && k <= |b.cached|
      requires b' == b.(reported := b.reported + b.cached[..k], cached := b.cached[k..])
      ensures Balanced(b') && k <= |Held(b)| && Held(b') == Held(b)[k..]
    {
      assert Held(b)[..k] == b.cached[..k];
      assert Held(b') == Held(b)[k..];
      Deliver(b, b', k);
    }

    /** Delivered and removed, or delivered and kept, which only faulty books allow. */
    static lemma CachedSettled(b: Books, b': Books, k: nat, gone: bool)
      requires Balanced(b) && k <= |b.cached| && (if gone then b'.faulty == b.faulty else b'.faulty)
      requires b' == b.(reported := b.reported + b.cached[..k], faulty := b'.faulty,
                        cached := if gone then b.cached[k..] else b.cached)
      ensures Balanced(b') && k <= |Held(b)| && (!b'.faulty ==> Held(b') == Held(b)[k..])
    {
      hide Balanced;
      if gone {
        CachedDelivered(b, b', k);
      } else {
        CachedRepeats(b, b', k);
      }
    }

    static lemma CachedRepeats(b: Books, b': Books, k: nat)
      requires Balanced(b) && k <= |b.cached|
      requires b' == b.(reported := b.reported + b.cached[..k], faulty := true)
      ensures Balanced(b')
    {
      DeliverUnordered(b, b');
    }

    /** The cache could not be read: the worker goes on to the queue without it. */
    method Unreadable()
      requires Valid() && !perfect
      modifies this`faulty
      ensures Valid() && faulty
    {
      ghost var before := Ledger();
      faulty := true;
      Transfer(before, Ledger());
    }

    /** The cache's turn: read a batch, report what was delivered of it, remove that. */
    method DrainCache() returns (r: Drained)
      requires Valid() && !broken
      modifies sink, cache, this`written, this`recovered, this`faulty, this`broken, this`drainingCache
      ensures Valid() && broken == r.SinkFailed?
      ensures sink.troubles == old(sink.troubles) + if r.SinkFailed? then 1 else 0
      ensures sink.pings == old(sink.pings) && (r.Nothing? ==> sink.reported == old(sink.reported))
      ensures |cache.table| <= |old(cache.table)| && cache.faults <= old(cache.faults)
      ensures r.More? ==> |cache.table| < |old(cache.table)| || cache.faults < old(cache.faults)
      ensures r.Nothing? && !faulty ==> cache.table == [] && !drainingCache
      // The end of a drain leaves a new file behind.
      ensures perfect && old(drainingCache) && r.Nothing? ==> cache.nextId == 0
    {
      hide Linked, Bookkeeping.Balanced, Counted;
      if !drainingCache && cache.rows == 0 {
        return Nothing;
      }
      var oldest := ReadOldest();
      if oldest.Failure? {
        Unreadable();
        return Nothing;
      }
      if oldest.value == [] {
        if drainingCache {
          drainingCache := false;
          ResetCache();
        }
        return Nothing;
      }
      drainingCache := true;
      var w := WriteCached(oldest.value);
      return if w.Written? then More else SinkFailed(w.cause);
    }

    method ReadOldest() returns (r: CacheResult<seq<Row>>)
      requires Valid()
      modifies cache`faults
      ensures Valid() && cache.faults <= old(cache.faults)
      ensures r.Failure? ==> !perfect
      ensures r.Success? ==> r.value <= cache.table && (r.value == [] ==> cache.table == []) && cache.attached
    {
      hide Bookkeeping.Balanced, Bookkeeping.Held, Cache.Ordered;
      hide ForwardSink.Sound, ForwardSink.At, ForwardSink.Ordered;
      ghost var before := Ledger();
      r := cache.Oldest(batchSize);
      assert Ledger() == before;
    }

    method ResetCache()
      requires Valid() && cache.table == []
      modifies cache
      ensures Valid() && cache.table == [] && cache.faults <= old(cache.faults)
      ensures perfect ==> cache.nextId == 0
    {
      hide Bookkeeping.Balanced, Bookkeeping.Held, Cache.Ordered;
      hide ForwardSink.Sound, ForwardSink.At, ForwardSink.Ordered;
      ghost var before := Ledger();
      var _ := cache.Reset();
      assert Ledger() == before;
    }

    method CloseSink()
      requires Valid()
      modifies sink`net, sink`open, sink`sent, this`connected, this`broken
      ensures Valid() && !connected && !broken
    {
      hide Bookkeeping.Balanced, Bookkeeping.Held, Cache.Ordered, FramesOf;
      hide ForwardSink.Sound, ForwardSink.At, ForwardSink.Ordered;
      ghost var before := Ledger();
      sink.Hangup(Seen());
      connected, broken := false, false;
      assert Ledger() == before;
    }

    /** Gateway sessions go on, those of dropped connections too. */
    method GatewayMeanwhile()
      requires Valid()
      modifies sink`net, sink`repeated
      ensures Valid() && Ledger() == old(Ledger()) && Work() == old(Work())
    {
      hide Bookkeeping.Balanced, Bookkeeping.Held, Cache.Ordered, FramesOf;
      hide ForwardSink.Sound, ForwardSink.Ordered, Network.Idle;
      ghost var before := Ledger();
      sink.GatewayRuns(if broken then Adrift else Resting, Seen());
      assert Ledger() == before;
    }

    /** Connect to the sink. */
    method ConnectSink() returns (r: SinkResult)
      requires Valid() && !broken
      modifies sink`net, sink`open, sink`sent, sink`repeated, sink`troubles, sink`outages, this`connected, this`sinkDown
      ensures Valid() && !broken
      ensures sink.troubles == old(sink.troubles) + if r.Broken? then 1 else 0
      ensures connected == (r.Done? || old(connected)) && sinkDown == (old(sinkDown) && !r.Done?)
    {
      hide Bookkeeping.Balanced, Bookkeeping.Held, Cache.Ordered, FramesOf;
      hide ForwardSink.Sound, ForwardSink.At, ForwardSink.Ordered;
      ghost var before := Ledger();
      r := sink.Connect(Seen());
      assert Ledger() == before;
      if r.Done? {
        connected, sinkDown := true, false;
      }
    }

    method PingSink() returns (r: SinkResult)
      requires Valid() && !broken
      modifies sink`net, sink`repeated, sink`troubles, sink`outages, sink`pings, sink`goodbyes
      ensures Valid() && !broken
      ensures sink.troubles == old(sink.troubles) + if r.Broken? then 1 else 0
      ensures r.Done? ==> sink.pings > old(sink.pings)
    {
      hide Bookkeeping.Balanced, Bookkeeping.Held, Cache.Ordered, FramesOf;
      hide ForwardSink.Sound, ForwardSink.At, ForwardSink.Ordered;
      ghost var before := Ledger();
      r := sink.KeepAlive(Seen());
      assert Ledger() == before;
    }

    /**
      After a failure: shelve what is in hand, then, unless the gateway said
      goodbye, the queue too, and wait. `retry` says whether the loop goes on.
    */
    method Fail(cause: Cause) returns (retry: bool)
      requires Valid()
      modifies queue, cache, sink`net, sink`open, sink`sent, sink`repeated, sink`givenUp, this
      ensures Valid() && !broken && !connected && inFlight == []
      ensures Work() <= old(Work()) && cache.faults <= old(cache.faults)
      ensures passes == old(passes) && closes <= old(closes)
      ensures retry ==> closes < old(closes) || !old(stop)
      ensures !retry ==> queue.closed
      // A session closed on purpose leaves the queue alone.
      ensures cause.Closed? && old(closes) > 0 ==> retry && queue.buffer == old(queue.buffer)
      ensures cause.Failed? ==> sinkDown
    {
      hide Linked, Bookkeeping.Balanced, Counted;
      var closed := Shelve(cause);
      if closed {
        return true;
      }
      DrainQueueToCache();
      retry := WaitToRetry();
    }

    /** Close the sink and put what is in hand on disk; true for a session closed on purpose. */
    method Shelve(cause: Cause) returns (closed: bool)
      requires Valid()
      modifies cache, sink`net, sink`open, sink`sent, sink`repeated, sink`givenUp
      modifies this`connected, this`sinkDown, this`closes, this`broken
      modifies this`inFlight, this`cached, this`dropped, this`lost, this`everFull
      ensures Valid() && !broken && !connected && inFlight == []
      ensures Work() <= old(Work()) && cache.faults <= old(cache.faults)
      ensures closed == (cause.Closed? && old(closes) > 0)
      ensures closes == if closed then old(closes) - 1 else old(closes)
      ensures sinkDown == (old(sinkDown) || !closed)
    {
      hide Linked, Bookkeeping.Balanced, Counted;
      closed := cause.Closed? && closes > 0;
      CloseSink();
      if closed {
        closes := closes - 1;
      } else {
        sinkDown := true;
      }
      if inFlight != [] {
        var _ := CacheBatch(|inFlight|);
      }
    }

    /** Wait out the backoff, unless the queue is done or the stop signal comes. */
    method WaitToRetry() returns (again: bool)
      requires Valid()
      modifies queue, this`offers, this`stop, this`stopSeen
      ensures Valid() && Work() <= old(Work()) && (old(stop) ==> stop)
      ensures !again ==> queue.closed
      ensures again ==> !(old(queue.closed) && old(queue.buffer) == []) && (old(stop) ==> old(queue.closed))
    {
      hide Linked, Bookkeeping.Balanced, Counted;
      if queue.Finished() {
        return false;
      }
      Meanwhile();
      if stop && !stopSeen {
        CloseQueue();
        return false;
      }
      return true;
    }

    /** Be connected, or fail trying. */
    method Reach() returns (up: bool, again: bool)
      requires Valid() && !broken && inFlight == []
      modifies queue, cache, sink, this
      ensures Valid() && !broken && inFlight == [] && (up ==> connected && faulty == old(faulty))
      // It is connected unless a connection was tried and failed.
      ensures sink.troubles == old(sink.troubles) + if up then 0 else 1
      ensures sink.pings == old(sink.pings) && sink.reported == old(sink.reported)
      ensures Work() <= old(Work()) && passes == old(passes) && (up && old(stop) ==> stop)
      ensures closes + cache.faults <= old(closes + cache.faults)
      ensures !up && !again ==> queue.closed && !connected
      ensures !up && again && old(stop) ==> closes + cache.faults < old(closes + cache.faults)
    {
      hide Linked, Bookkeeping.Balanced, Counted;
      if connected {
        return true, true;
      }
      var r := ConnectSink();
      if r.Done? {
        return true, true;
      }
      again := Fail(r.cause);
      return false, again;
    }

    /** One pass of the worker's loop; false when it is to end. */
    method Pass() returns (again: bool)
      requires Valid() && !broken && inFlight == []
      modifies queue, cache, sink, this
      ensures Valid() && !broken && inFlight == []
      ensures passes == old(passes)
      // Without trouble it ends only when everything is delivered.
      ensures old(sink.troubles) <= sink.troubles
      ensures !again && sink.troubles == old(sink.troubles) ==> queue.buffer == [] && (!faulty ==> cache.table == [])
      // The loop ends with the queue closed, and empty unless the sink is gone.
      ensures !again ==> queue.closed && (!connected || queue.buffer == [])
      // After the stop signal every pass that goes on has made progress.
      ensures closes + cache.faults <= old(closes + cache.faults)
      ensures again && old(stop) ==>
                closes + cache.faults < old(closes + cache.faults) || Work() < old(Work())
    {
      hide Linked, Bookkeeping.Balanced, Counted;
      // What was captured while the last pass waited for the sink.
      Meanwhile();
      SpillIfQueueFilling();
      var up;
      up, again := Reach();
      if !up {
        return;
      }
      var drained := DrainCache();
      if drained.More? {
        return true;
      }
      if drained.SinkFailed? {
        again := Fail(drained.cause);
        return;
      }
      again := ServeQueue();
    }

    /** The queue's turn, reached with the sink up and, unless it is faulty, the cache empty. */
    method ServeQueue() returns (again: bool)
      requires Valid() && !broken && inFlight == [] && (!faulty ==> cache.table == [])
      modifies queue, cache, sink, this
      ensures Valid() && !broken && inFlight == []
      ensures passes == old(passes)
      // Without trouble it ends only when all is delivered; a pass that delivers nothing asks for a sign of life.
      ensures old(sink.troubles) <= sink.troubles
      ensures !again && sink.troubles == old(sink.troubles) ==> queue.buffer == [] && (!faulty ==> cache.table == [])
      ensures again && sink.troubles == old(sink.troubles) ==>
                |sink.reported| > |old(sink.reported)| || sink.pings > old(sink.pings)
      ensures !again ==> queue.closed && (!connected || queue.buffer == [])
      ensures closes + cache.faults <= old(closes + cache.faults)
      ensures Work() <= old(Work())
      ensures again && old(stop) ==>
                closes + cache.faults < old(closes + cache.faults) || Work() < old(Work())
    {
      hide Linked, Bookkeeping.Balanced, Counted;
      NextBatch();
      if inFlight == [] {
        if queue.Finished() {
          return false;
        }
        var pong := PingSink();
        if pong.Broken? {
          again := Fail(pong.cause);
          return;
        }
        return true;
      }
      var w := WriteInHand();
      if w.WriteError? {
        again := Fail(w.cause);
        return;
      }
      return true;
    }

    /** Work until there is no more to do or no point in trying. */
    method Loop()
      requires Valid() && !broken && inFlight == []
      modifies queue, cache, sink, this
      ensures Valid() && !broken && inFlight == [] && queue.closed
      ensures !connected || queue.buffer == []
      ensures sink.troubles >= old(sink.troubles)
      ensures sink.troubles == old(sink.troubles) ==> queue.buffer == [] && (!faulty ==> cache.table == [])
    {
      hide Linked, Bookkeeping.Balanced, Counted;
      while true
        invariant Valid() && !broken && inFlight == [] && sink.troubles >= old(sink.troubles)
        decreases passes, closes + cache.faults, Work()
      {
        if passes == 0 {
          stop := true;
        } else {
          passes := passes - 1;
        }
        var again := Pass();
        if !again {
          return;
        }
      }
    }

    /** The last step: the queue through the link if it is up, the rest to the cache. */
    method ShutdownFlush()
      requires Valid() && !broken && inFlight == [] && queue.closed
      requires connected && queue.buffer != [] && !faulty ==> cache.table == []
      modifies queue, cache, sink, this
      ensures Valid() && inFlight == [] && queue.closed && queue.buffer == [] && !connected
      ensures sink.troubles >= old(sink.troubles)
      ensures old(queue.buffer) == [] ==> cache.table == old(cache.table) && faulty == old(faulty)
    {
      hide Linked, Bookkeeping.Balanced, Counted;
      TakeQueued();
      if inFlight != [] && connected {
        var _ := WriteInHand();
      }
      if inFlight != [] {
        var _ := CacheBatch(|inFlight|);
      }
      CloseSink();
    }

    /**
      A whole run, from any valid start to the last line of the shutdown.
      It ends; and then nothing is in hand or queued, so that every accepted
      frame was delivered, is on disk, or was counted.
    */
    method Run()
      requires Valid() && !broken && inFlight == []
      modifies queue, cache, sink, this
      ensures queue.closed && queue.buffer == [] && inFlight == []
      // Nothing is lost but what is counted, whatever failed, unless an answer could be confused with another.
      ensures sink.Unconfused() ==> forall n: nat :: n < |queue.accepted| ==> Kept(Frame(n, queue.accepted[n]))
      ensures dropped == |lost|
      ensures queue.enqueued == (written - recovered) + cached + dropped
      // Over a perfect cache, delivered then cached is exactly what was accepted less what was lost.
      ensures perfect ==>
                && sink.reported + cache.Contents() == Survivors(queue.accepted, lost)
                && |cache.table| + recovered == start + cached
      // The gateway has first occurrences in order unless it stored a given-up frame late, and only then not.
      ensures perfect && sink.Unconfused() ==>
                && (FirstsInOrder(sink.net.log) <==> !sink.net.straggled)
                && ConfirmedOnce(sink.net.log, sink.confirmed)
      // It has them in order whenever nothing had to be given up.
      ensures perfect && sink.Unconfused() && !everFull && sink.dead == [] ==> FirstsInOrder(sink.net.log)
      // And a disk that was never full either loses nothing.
      ensures perfect && !everFull ==> lost == {} && dropped == 0
      // Only what the gateway could not read is in the dead letter.
      ensures Condemned(sink.dead, sink.unreadable)
      // While nothing outside goes wrong, everything is forwarded: what disk and queue held, and all that came.
      ensures perfect && sink.troubles == old(sink.troubles) ==>
                cache.table == [] && sink.reported == Survivors(queue.accepted, lost)
    {
      hide Linked, Bookkeeping.Balanced, Counted;
      Loop();
      ShutdownFlush();
      GatewayMeanwhile();
      Conservation();
      assert sink.reported + cache.Contents() + inFlight + queue.buffer == sink.reported + cache.Contents();
    }

    /**
      What the invariants say between any two steps: every accepted frame is
      accounted for; the counters agree; and over a cache that never failed,
      delivered, cached, in hand and queued make up the accepted sequence less
      the lost frames, in order.
    */
    lemma Conservation()
      requires Valid()
      ensures sink.Unconfused() ==> forall n: nat :: n < |queue.accepted| ==> Kept(Frame(n, queue.accepted[n]))
      ensures dropped == |lost|
      ensures queue.enqueued == (written - recovered) + cached + dropped + |inFlight| + |queue.buffer|
      ensures perfect ==>
                && sink.reported + cache.Contents() + inFlight + queue.buffer == Survivors(queue.accepted, lost)
                && |cache.table| + recovered == start + cached
      // The gateway has first occurrences in order unless it stored a given-up frame late, and only then not.
      ensures perfect && sink.Unconfused() ==>
                && (FirstsInOrder(sink.net.log) <==> !sink.net.straggled)
                && ConfirmedOnce(sink.net.log, sink.confirmed)
      // It has them in order whenever nothing had to be given up.
      ensures perfect && sink.Unconfused() && !everFull && sink.dead == [] ==> FirstsInOrder(sink.net.log)
      // And a disk that was never full either loses nothing.
      ensures perfect && !everFull ==> lost == {} && dropped == 0
      // Only what the gateway could not read is in the dead letter.
      ensures Condemned(sink.dead, sink.unreadable)
    {
      var b := Ledger();
      assert sink.reported + Held(b) == sink.reported + cache.Contents() + inFlight + queue.buffer;
      if lost == {} && sink.dead == [] {
        assert sink.net.forgone == {};
      }
      if sink.Unconfused() {
        forall n: nat | n < |queue.accepted| ensures Kept(Frame(n, queue.accepted[n])) {
          assert Somewhere(b, n);
        }
      }
    }

    /** Where a frame can be: counted lost, stored, quarantined, on disk, in hand or queued. */
    ghost predicate Kept(f: Frame)
      reads this`lost, this`inFlight, sink, cache, queue
    {
      || f.seqno in lost || Logged(sink.net.log, f) || f in sink.dead
      || f in cache.Contents() || f in inFlight || f in queue.buffer
    }

    static lemma ReportedBounded(b: Books)
      requires Balanced(b) && !b.faulty
      ensures forall f :: f in b.reported ==> f.seqno < |b.accepted|
    {
      forall f | f in b.reported ensures f.seqno < |b.accepted| {
        assert f in b.reported + Held(b);
        SurvivorsMember(b.accepted, b.lost, f);
      }
    }
  }
}
