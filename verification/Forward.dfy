/**
  The stop-and-wait link to the gateway: numbered batches, acknowledgements
  matched by number, a new connection after every failure, and a gateway
  whose stores may outlive the connection that asked for them.

  `Network` is everything outside the client, moved by one function for each
  thing a gateway session can do. `ForwardSink` is the client.
*/
module Network {
  import opened Wrappers
  import opened Ledger

  datatype Status = Ok | Overloaded | Malformed | Refused

  /** A batch on its way: the number it carries, and its frames. */
  datatype Request = Request(number: nat, chunk: seq<Frame>)

  datatype Reply = Ack(exchange: nat, number: nat, status: Status) | Pong | Catalogue | Close | Noise

  /** A frame in the gateway's database, and the exchange that put it there. */
  datatype Stored = Stored(exchange: nat, frame: Frame)

  /** What a gateway session does with the batch it reads next. */
  datatype Verdict =
    | Stores(acknowledged: bool)
    | Refuses(status: Status, readable: bool)
    | Forgets

  /** Batch numbers have 32 bits. */
  const WRAP: nat := 0x1_0000_0000

  /** The number exchange `e` carries. */
  function Number(e: nat): (n: nat)
    ensures n < WRAP
  {
    e % WRAP
  }

  /**
    `pending` are the batches sent and not yet read by a session, by exchange;
    `wire` are the exchanges of the client's own connection, `given` the
    answers made on it so far and `replies` what it has still to deliver. A
    batch left behind on a dropped connection stays in `pending`. `forgone` are
    frames the client has given up having stored, by dropping or quarantining
    them; `straggled` records that a session stored one of those for the first
    time when a later frame was already there.
  */
  datatype Net = Net(
    pending: map<nat, Request>,
    wire: set<nat>,
    given: set<Reply>,
    replies: seq<Reply>,
    log: seq<Stored>,
    forgone: set<nat>,
    straggled: bool)

  function Tagged(e: nat, chunk: seq<Frame>): (ss: seq<Stored>)
    ensures |ss| == |chunk| && forall i :: 0 <= i < |ss| ==> ss[i] == Stored(e, chunk[i])
  {
    seq(|chunk|, i requires 0 <= i < |chunk| => Stored(e, chunk[i]))
  }

  /** Some frame of `chunk` was given up, is not stored yet, and would be stored behind a later one. */
  predicate Straggles(chunk: seq<Frame>, net: Net)
  {
    exists i :: 0 <= i < |chunk| && chunk[i].seqno in net.forgone
                && !Logged(net.log, chunk[i]) && !Beyond(net.log, chunk[i])
  }

  /** An answer, on the connection its exchange is on, if that is the client's. */
  function Answer(net: Net, r: Reply): Net
  {
    if r.Ack? && r.exchange in net.wire then net.(given := net.given + {r}, replies := net.replies + [r]) else net
  }

  /** An answer made before, made again. */
  function Repeat(net: Net, r: Reply): Net
  {
    if r in net.given then net.(replies := net.replies + [r]) else net
  }

  /** One gateway session reads exchange `e` and acts on it. */
  function Handle(net: Net, e: nat, v: Verdict): Net
    requires e in net.pending
  {
    var req := net.pending[e];
    var read := net.(pending := net.pending - {e});
    match v
    case Stores(acknowledged) =>
      var stored := read.(log := net.log + Tagged(e, req.chunk),
                          straggled := net.straggled || Straggles(req.chunk, net));
      if acknowledged then Answer(stored, Ack(e, req.number, Ok)) else stored
    case Refuses(status, readable) =>
      Answer(read, if readable && status != Ok then Ack(e, req.number, status) else Ack(e, 0, Malformed))
    case Forgets => read
  }

  /** The client's own connection delivers something it did not ask for. */
  function Says(net: Net, r: Reply): Net
  {
    if r.Ack? then net else net.(replies := net.replies + [r])
  }

  function Send(net: Net, e: nat, req: Request): Net
  {
    net.(pending := net.pending[e := req], wire := net.wire + {e})
  }

  function Disconnect(net: Net): Net
  {
    net.(wire := {}, given := {}, replies := [])
  }

  function Forgo(net: Net, chunk: seq<Frame>): Net
  {
    net.(forgone := net.forgone + set f | f in chunk :: f.seqno)
  }

  // -------------------------------------------------------------------------
  // What the log means

  predicate Logged(log: seq<Stored>, f: Frame)
  {
    exists p :: 0 <= p < |log| && log[p].frame == f
  }

  /** `f` comes after everything stored. */
  predicate Beyond(log: seq<Stored>, f: Frame)
  {
    forall p :: 0 <= p < |log| ==> log[p].frame.seqno < f.seqno
  }

  /** First occurrences appear in acceptance order. */
  ghost predicate FirstsInOrder(log: seq<Stored>)
  {
    forall p :: 0 <= p < |log| ==> Logged(log[..p], log[p].frame) || Beyond(log[..p], log[p].frame)
  }

  /** One exchange never stores a frame twice. */
  ghost predicate ExchangesDistinct(log: seq<Stored>)
  {
    forall p, q :: 0 <= p < q < |log| && log[p].exchange == log[q].exchange ==> log[p].frame != log[q].frame
  }

  /** No frame is stored twice by exchanges in `confirmed`. */
  ghost predicate ConfirmedOnce(log: seq<Stored>, confirmed: set<nat>)
  {
    forall p, q :: 0 <= p < q < |log| && log[p].exchange in confirmed && log[q].exchange in confirmed ==>
                     log[p].frame != log[q].frame
  }

  /** A whole chunk is in the log under one exchange. */
  ghost predicate StoredWhole(log: seq<Stored>, e: nat, chunk: seq<Frame>)
  {
    forall i :: 0 <= i < |chunk| ==> Stored(e, chunk[i]) in log
  }

  // -------------------------------------------------------------------------
  // Invariants kept by every gateway step, whatever the client does next

  /** Exchanges are numbered up to `exchanges`, and each is read at most once. */
  ghost predicate Numbered(net: Net, exchanges: nat, confirmed: set<nat>)
  {
    && (forall e :: e in net.pending ==>
          e <= exchanges && e !in confirmed && Increasing(net.pending[e].chunk) && net.pending[e].number == Number(e))
    && (forall p :: 0 <= p < |net.log| ==>
          net.log[p].exchange <= exchanges && net.log[p].exchange !in net.pending)
    && (forall e :: e in confirmed ==> e <= exchanges)
    && ExchangesDistinct(net.log)
  }

  ghost predicate Reported(net: Net, reported: seq<Frame>, dead: seq<Frame>)
  {
    forall f :: f in reported ==> Logged(net.log, f) || f in dead
  }

  /** An answer carries its exchange's number, or is the refusal of a batch whose number was not read. */
  predicate Labelled(r: Reply)
    requires r.Ack?
  {
    r.number == Number(r.exchange) || (r.number == 0 && r.status == Malformed)
  }

  /**
    Every answer the connection can deliver was made to one of its own last
    `sent` exchanges, once that exchange had been read.
  */
  ghost predicate Answers(net: Net, exchanges: nat, sent: nat)
  {
    && (forall e :: e in net.wire ==> exchanges - sent < e <= exchanges)
    && (forall r :: r in net.given ==>
          r.Ack? && r.exchange in net.wire && r.exchange !in net.pending && Labelled(r))
    && (forall i :: 0 <= i < |net.replies| && net.replies[i].Ack? ==> net.replies[i] in net.given)
  }

  /** Exchange `e` is under way, and any answer made to it is true. */
  ghost predicate Awaiting(net: Net, e: nat, req: Request)
  {
    && e in net.wire
    && (e in net.pending ==> net.pending[e] == req)
    && (forall p :: 0 <= p < |net.log| && net.log[p].exchange == e ==> net.log[p].frame in req.chunk)
    && (forall r :: r in net.given && r.Ack? && r.exchange == e && r.status == Ok ==>
          StoredWhole(net.log, e, req.chunk))
  }

  /** Nothing asked on this connection is unanswered, and no answer is on its way. */
  ghost predicate Idle(net: Net)
  {
    && (forall e :: e in net.wire ==> e !in net.pending)
    && (forall i :: 0 <= i < |net.replies| ==> !net.replies[i].Ack?)
  }

  /** Exchange `e` is the only one open on this connection, and its one answer comes after it was read. */
  ghost predicate Alone(net: Net, e: nat)
  {
    && (forall d :: d in net.wire && d in net.pending ==> d == e)
    && (forall i :: 0 <= i < |net.replies| && net.replies[i].Ack? ==>
          net.replies[i].exchange == e && e !in net.pending)
    && (forall i, j :: 0 <= i < j < |net.replies| ==> !(net.replies[i].Ack? && net.replies[j].Ack?))
  }

  /** Every frame of `chunk` the client still holds is ahead of all it holds besides. */
  ghost predicate HeadOf(chunk: seq<Frame>, held: seq<Frame>)
  {
    forall f, c :: f in held && c in chunk ==> f in chunk || c.seqno < f.seqno
  }

  /**
    The order invariants, for a client that has reported `reported` and still
    holds `held`, of `n` frames ever accepted.
  */
  ghost predicate Orderly(net: Net, reported: seq<Frame>, held: seq<Frame>, n: nat)
  {
    && Increasing(reported + held)
    && Bounded(net, held, n)
    && PendingHeads(net, reported, held)
    && HeldFresh(net.log, held)
    && (forall f :: f in reported ==> Logged(net.log, f) || f.seqno in net.forgone)
    && (net.straggled <==> !FirstsInOrder(net.log))
  }

  ghost predicate Bounded(net: Net, held: seq<Frame>, n: nat)
  {
    && (forall e, c :: e in net.pending && c in net.pending[e].chunk ==> c.seqno < n)
    && (forall p :: 0 <= p < |net.log| ==> net.log[p].frame.seqno < n)
    && (forall f :: f in held ==> f.seqno < n)
  }

  ghost predicate PendingHeads(net: Net, reported: seq<Frame>, held: seq<Frame>)
  {
    forall e :: e in net.pending ==>
      HeadOf(net.pending[e].chunk, held) && Placed(net.pending[e].chunk, reported, held, net.forgone)
  }

  /** Where each frame of a chunk can be by now. */
  ghost predicate Placed(chunk: seq<Frame>, reported: seq<Frame>, held: seq<Frame>, forgone: set<nat>)
  {
    forall c :: c in chunk ==> c in reported || c in held || c.seqno in forgone
  }

  ghost predicate HeldFresh(log: seq<Stored>, held: seq<Frame>)
  {
    forall f :: f in held ==> Logged(log, f) || Beyond(log, f)
  }

  // -------------------------------------------------------------------------
  // Each step keeps them

  lemma LoggedGrows(log: seq<Stored>, more: seq<Stored>, f: Frame)
    requires Logged(log, f)
    ensures Logged(log + more, f)
  {
    var p :| 0 <= p < |log| && log[p].frame == f;
    assert (log + more)[p].frame == f;
  }

  lemma LoggedNow(log: seq<Stored>, e: nat, chunk: seq<Frame>, f: Frame)
    requires f in chunk
    ensures Logged(log + Tagged(e, chunk), f)
  {
    var i :| 0 <= i < |chunk| && chunk[i] == f;
    assert (log + Tagged(e, chunk))[|log| + i].frame == f;
  }

  lemma HandleKeepsNumbered(net: Net, e: nat, v: Verdict, exchanges: nat, confirmed: set<nat>)
    requires e in net.pending && Numbered(net, exchanges, confirmed)
    ensures Numbered(Handle(net, e, v), exchanges, confirmed)
    ensures net.log <= Handle(net, e, v).log
  {
  }

  /** An answer is always true of its own exchange, however the gateway interleaves. */
  lemma HandleKeepsAwaiting(net: Net, d: nat, v: Verdict, e: nat, req: Request)
    requires d in net.pending && Awaiting(net, e, req)
    requires forall r :: r in net.given ==> r.Ack? && r.exchange !in net.pending
    ensures Awaiting(Handle(net, d, v), e, req)
  {
    var after := Handle(net, d, v);
    if v.Stores? {
      var chunk := net.pending[d].chunk;
      assert after.log == net.log + Tagged(d, chunk);
      forall s | s in net.log ensures s in after.log {}
      if d == e {
        forall i | 0 <= i < |chunk| ensures Stored(e, chunk[i]) in after.log {
          assert after.log[|net.log| + i] == Stored(e, chunk[i]);
        }
      }
    }
  }

  /** And is labelled as its exchange was, on that exchange's own connection. */
  lemma HandleKeepsAnswers(net: Net, d: nat, v: Verdict, exchanges: nat, sent: nat)
    requires d in net.pending && Answers(net, exchanges, sent) && net.pending[d].number == Number(d)
    ensures Answers(Handle(net, d, v), exchanges, sent)
  {
  }

  // What is waiting to be delivered is no part of what has happened.

  lemma OtherReplies(net: Net, rs: seq<Reply>, exchanges: nat, confirmed: set<nat>,
                     reported: seq<Frame>, dead: seq<Frame>)
    requires Numbered(net, exchanges, confirmed) && Reported(net, reported, dead)
    ensures Numbered(net.(replies := rs), exchanges, confirmed) && Reported(net.(replies := rs), reported, dead)
  {
  }

  lemma OtherRepliesAnswers(net: Net, rs: seq<Reply>, exchanges: nat, sent: nat)
    requires Answers(net, exchanges, sent)
    requires forall i :: 0 <= i < |rs| && rs[i].Ack? ==> rs[i] in net.given
    ensures Answers(net.(replies := rs), exchanges, sent)
  {
  }

  /** More that is no answer. */
  lemma SaysKeeps(net: Net, r: Reply, e: nat)
    ensures Idle(net) ==> Idle(Says(net, r))
    ensures Alone(net, e) ==> Alone(Says(net, r), e)
  {
  }

  lemma SpokenGiven(net: Net, r: Reply, again: bool, exchanges: nat, sent: nat)
    requires Answers(net, exchanges, sent)
    ensures var rs := (if again then Repeat(net, r) else Says(net, r)).replies;
            forall i :: 0 <= i < |rs| && rs[i].Ack? ==> rs[i] in net.given
  {
  }

  lemma OtherRepliesAwaited(net: Net, rs: seq<Reply>, e: nat, req: Request)
    requires Awaiting(net, e, req)
    ensures Awaiting(net.(replies := rs), e, req)
  {
  }

  lemma OtherRepliesOrdered(net: Net, rs: seq<Reply>, reported: seq<Frame>, held: seq<Frame>, n: nat)
    requires Orderly(net, reported, held, n)
    ensures Orderly(net.(replies := rs), reported, held, n)
  {
  }

  lemma HandleOnlyAdds(net: Net, e: nat, v: Verdict)
    requires e in net.pending
    ensures net.log <= Handle(net, e, v).log && Handle(net, e, v).forgone == net.forgone
    ensures Handle(net, e, v).wire == net.wire
  {
  }

  lemma HandleKeepsIdle(net: Net, d: nat, v: Verdict)
    requires d in net.pending && Idle(net)
    ensures Idle(Handle(net, d, v))
  {
  }

  /** Sessions that answer each batch once put nothing but its own answer before the client. */
  lemma HandleKeepsAlone(net: Net, d: nat, v: Verdict, e: nat)
    requires d in net.pending && Alone(net, e)
    ensures Alone(Handle(net, d, v), e)
  {
  }

  lemma SendIsAlone(net: Net, e: nat, req: Request)
    requires Idle(net)
    ensures Alone(Send(net, e, req), e)
  {
  }

  /** Once its answer is taken, nothing is open. */
  lemma AnsweredIsIdle(net: Net, e: nat)
    requires Alone(net, e) && net.replies != [] && net.replies[0].Ack?
    ensures net.replies[0].exchange == e && Idle(net.(replies := net.replies[1..]))
  {
  }

  lemma OtherTakenAlone(net: Net, e: nat)
    requires Alone(net, e) && net.replies != []
    ensures Alone(net.(replies := net.replies[1..]), e)
  {
    var after := net.(replies := net.replies[1..]);
    assert forall i :: 0 <= i < |after.replies| ==> after.replies[i] == net.replies[i + 1];
  }

  lemma OtherTakenIdle(net: Net)
    requires Idle(net) && net.replies != []
    ensures Idle(net.(replies := net.replies[1..]))
  {
    var after := net.(replies := net.replies[1..]);
    assert forall i :: 0 <= i < |after.replies| ==> after.replies[i] == net.replies[i + 1];
  }

  /** Given-up frames are known to the client, and only they can straggle. */
  ghost predicate Accounted(net: Net, givenUp: set<nat>, dead: seq<Frame>)
  {
    net.forgone == givenUp + Seqnos(dead) && (net.straggled ==> net.forgone != {})
  }

  /** Every frame of the dead letter was in a chunk whose answer said it could not be read. */
  ghost predicate Condemned(dead: seq<Frame>, unreadable: seq<seq<Frame>>)
  {
    forall f :: f in dead ==> exists i :: 0 <= i < |unreadable| && f in unreadable[i]
  }

  lemma CondemnedMore(dead: seq<Frame>, unreadable: seq<seq<Frame>>, chunk: seq<Frame>)
    requires Condemned(dead, unreadable)
    ensures Condemned(dead, unreadable + [chunk]) && Condemned(dead + chunk, unreadable + [chunk])
  {
    var more := unreadable + [chunk];
    forall f | f in dead ensures exists i :: 0 <= i < |more| && f in more[i] {
      var i :| 0 <= i < |unreadable| && f in unreadable[i];
      assert more[i] == unreadable[i];
    }
    assert more[|unreadable|] == chunk;
  }

  lemma ForgoOnlyAdds(net: Net, chunk: seq<Frame>)
    ensures net.forgone <= Forgo(net, chunk).forgone
    ensures forall c :: c in chunk ==> c.seqno in Forgo(net, chunk).forgone
  {
  }

  /** Giving up frames touches nothing the link goes by. */
  lemma ForgoKeepsLink(net: Net, chunk: seq<Frame>, exchanges: nat, sent: nat, confirmed: set<nat>)
    ensures var after := Forgo(net, chunk);
            && (Numbered(net, exchanges, confirmed) ==> Numbered(after, exchanges, confirmed))
            && (Answers(net, exchanges, sent) ==> Answers(after, exchanges, sent))
            && (Idle(net) ==> Idle(after))
            && after.log == net.log && after.wire == net.wire
  {
  }

  lemma ForgoAccounted(net: Net, chunk: seq<Frame>, givenUp: set<nat>, dead: seq<Frame>)
    requires Accounted(net, givenUp, dead)
    ensures Accounted(Forgo(net, chunk), givenUp, dead + chunk)
    ensures Accounted(Forgo(net, chunk), givenUp + Seqnos(chunk), dead)
  {
    assert Seqnos(dead + chunk) == Seqnos(dead) + Seqnos(chunk);
  }

  lemma ForgoReported(net: Net, chunk: seq<Frame>, reported: seq<Frame>, dead: seq<Frame>)
    requires Reported(net, reported, dead)
    ensures Reported(Forgo(net, chunk), reported, dead)
    ensures Reported(Forgo(net, chunk), reported + chunk, dead + chunk)
  {
  }

  lemma ReportedMore(log: seq<Stored>, confirmed: set<nat>, reported: seq<Frame>, chunk: seq<Frame>)
    requires ConfirmedReported(log, confirmed, reported)
    ensures ConfirmedReported(log, confirmed, reported + chunk)
  {
  }

  lemma CondemnedLast(dead: seq<Frame>, unreadable: seq<seq<Frame>>)
    requires Condemned(dead, unreadable) && unreadable != []
    ensures Condemned(dead + unreadable[|unreadable| - 1], unreadable)
  {
    var chunk := unreadable[|unreadable| - 1];
    forall f | f in dead + chunk ensures exists i :: 0 <= i < |unreadable| && f in unreadable[i] {
      if f in chunk {
        assert f in unreadable[|unreadable| - 1];
      }
    }
  }

  lemma HandleKeepsReported(net: Net, e: nat, v: Verdict, reported: seq<Frame>, dead: seq<Frame>)
    requires e in net.pending && Reported(net, reported, dead)
    ensures Reported(Handle(net, e, v), reported, dead)
  {
    if v.Stores? {
      forall f | f in reported && Logged(net.log, f) ensures Logged(Handle(net, e, v).log, f) {
        LoggedGrows(net.log, Tagged(e, net.pending[e].chunk), f);
      }
    }
  }

  /**
    Storing a chunk leaves first occurrences in order exactly when they were,
    and every frame of it is stored already or later than all that is stored.
  */
  lemma StoreKeepsFirsts(log: seq<Stored>, e: nat, chunk: seq<Frame>)
    requires Increasing(chunk)
    ensures FirstsInOrder(log + Tagged(e, chunk)) <==>
            FirstsInOrder(log) && forall c :: c in chunk ==> Logged(log, c) || Beyond(log, c)
  {
    if !FirstsInOrder(log) {
      DisorderStays(log, e, chunk);
    } else if c :| c in chunk && !Logged(log, c) && !Beyond(log, c) {
      LateBreaksOrder(log, e, chunk, c);
    } else {
      InTimeKeepsOrder(log, e, chunk);
    }
  }

  lemma InTimeKeepsOrder(log: seq<Stored>, e: nat, chunk: seq<Frame>)
    requires FirstsInOrder(log) && Increasing(chunk)
    requires forall c :: c in chunk ==> Logged(log, c) || Beyond(log, c)
    ensures FirstsInOrder(log + Tagged(e, chunk))
  {
    var after := log + Tagged(e, chunk);
    forall p | 0 <= p < |after|
      ensures Logged(after[..p], after[p].frame) || Beyond(after[..p], after[p].frame)
    {
      if p < |log| {
        assert after[..p] == log[..p];
      } else {
        var c := chunk[p - |log|];
        assert after[..p] == log + Tagged(e, chunk)[..p - |log|];
        if Logged(log, c) {
          LoggedGrows(log, Tagged(e, chunk)[..p - |log|], c);
        }
      }
    }
  }

  /** What is out of order stays so. */
  lemma DisorderStays(log: seq<Stored>, e: nat, chunk: seq<Frame>)
    requires !FirstsInOrder(log)
    ensures !FirstsInOrder(log + Tagged(e, chunk))
  {
    var after := log + Tagged(e, chunk);
    var p :| 0 <= p < |log| && !Logged(log[..p], log[p].frame) && !Beyond(log[..p], log[p].frame);
    assert after[..p] == log[..p] && after[p] == log[p];
  }

  lemma LateBreaksOrder(log: seq<Stored>, e: nat, chunk: seq<Frame>, c: Frame)
    requires Increasing(chunk) && c in chunk && !Logged(log, c) && !Beyond(log, c)
    ensures !FirstsInOrder(log + Tagged(e, chunk))
  {
    var i :| 0 <= i < |chunk| && chunk[i] == c;
    var after, p := log + Tagged(e, chunk), |log| + i;
    assert after[p].frame == c;
    forall q | 0 <= q < p ensures after[..p][q].frame != c {
      if q < |log| {
        assert after[q] == log[q];
      } else {
        assert after[q].frame == chunk[q - |log|];
      }
    }
    var q :| 0 <= q < |log| && log[q].frame.seqno >= c.seqno;
    assert after[..p][q] == log[q];
  }

  lemma StoreKeepsFresh(log: seq<Stored>, e: nat, chunk: seq<Frame>, held: seq<Frame>)
    requires HeldFresh(log, held) && HeadOf(chunk, held)
    ensures HeldFresh(log + Tagged(e, chunk), held)
  {
    forall f | f in held ensures Logged(log + Tagged(e, chunk), f) || Beyond(log + Tagged(e, chunk), f) {
      if f in chunk {
        LoggedNow(log, e, chunk, f);
      } else if Logged(log, f) {
        LoggedGrows(log, Tagged(e, chunk), f);
      }
    }
  }

  /** A frame the client has not given up is never stored late. */
  lemma OnlyForgoneStraggle(net: Net, chunk: seq<Frame>, reported: seq<Frame>, held: seq<Frame>, n: nat)
    requires Orderly(net, reported, held, n) && Placed(chunk, reported, held, net.forgone)
    ensures Straggles(chunk, net) <==> exists c :: c in chunk && !Logged(net.log, c) && !Beyond(net.log, c)
  {
    hide Logged, Beyond, FirstsInOrder;
    if c :| c in chunk && !Logged(net.log, c) && !Beyond(net.log, c) {
      var i :| 0 <= i < |chunk| && chunk[i] == c;
      assert chunk[i].seqno in net.forgone;
    }
  }

  /** Whatever a gateway session does, and however late, the order invariants stand. */
  lemma HandleKeepsOrderly(net: Net, e: nat, v: Verdict, reported: seq<Frame>, held: seq<Frame>, n: nat)
    requires e in net.pending && Orderly(net, reported, held, n)
    requires Increasing(net.pending[e].chunk)
    ensures Orderly(Handle(net, e, v), reported, held, n)
  {
    hide Logged, Beyond, FirstsInOrder, Straggles, Increasing;
    var after := Handle(net, e, v);
    var chunk := net.pending[e].chunk;
    assert PendingHeads(after, reported, held);
    if v.Stores? {
      StoreKeepsFresh(net.log, e, chunk, held);
      StoreKeepsBounds(net, e, after, held, n);
      forall f | f in reported && Logged(net.log, f) ensures Logged(after.log, f) {
        LoggedGrows(net.log, Tagged(e, chunk), f);
      }
      StoreKeepsFirsts(net.log, e, chunk);
      OnlyForgoneStraggle(net, chunk, reported, held, n);
    }
  }

  lemma StoreKeepsBounds(net: Net, e: nat, after: Net, held: seq<Frame>, n: nat)
    requires e in net.pending && Bounded(net, held, n)
    requires after.pending == net.pending - {e} && after.log == net.log + Tagged(e, net.pending[e].chunk)
    ensures Bounded(after, held, n)
  {
    var chunk := net.pending[e].chunk;
    forall p | 0 <= p < |after.log| ensures after.log[p].frame.seqno < n {
      if p >= |net.log| {
        assert after.log[p].frame == chunk[p - |net.log|];
      }
    }
  }

  // -------------------------------------------------------------------------
  // The client's own steps

  /** Sending the head of what is held starts an exchange. */
  lemma SendKeepsOrderly(net: Net, e: nat, req: Request, reported: seq<Frame>, held: seq<Frame>, n: nat)
    requires Orderly(net, reported, held, n) && e !in net.pending
    requires req.chunk <= held
    ensures Orderly(Send(net, e, req), reported, held, n)
    ensures Increasing(req.chunk)
  {
    var rest := held[|req.chunk|..];
    assert held == req.chunk + rest;
    IncreasingSplit(reported, held);
    IncreasingSplit(req.chunk, rest);
    assert HeadOf(req.chunk, held);
    assert Placed(req.chunk, reported, held, net.forgone);
  }

  lemma SendKeepsReported(net: Net, e: nat, req: Request, reported: seq<Frame>, dead: seq<Frame>)
    requires Reported(net, reported, dead)
    ensures Reported(Send(net, e, req), reported, dead)
  {
  }

  lemma SendStartsExchange(net: Net, e: nat, req: Request, exchanges: nat, sent: nat, confirmed: set<nat>)
    requires Numbered(net, exchanges, confirmed) && Answers(net, exchanges, sent)
    requires e == exchanges + 1 && Increasing(req.chunk) && req.number == Number(e)
    ensures Numbered(Send(net, e, req), e, confirmed)
    ensures Answers(Send(net, e, req), e, sent + 1)
    ensures Awaiting(Send(net, e, req), e, req)
  {
  }

  // -------------------------------------------------------------------------
  // Which answers the client takes

  /** The client's comparison: its own number, or a refusal that could not read one. */
  predicate Taken(r: Reply, number: nat)
    requires r.Ack?
  {
    r.number == number || (r.number == 0 && r.status == Malformed)
  }

  /** The reply read is an answer the client takes, with this status. */
  predicate AnsweredWith(reply: Option<Reply>, number: nat, status: Status)
  {
    reply.Some? && reply.value.Ack? && Taken(reply.value, number) && reply.value.status == status
  }

  /** Of the answers to other exchanges it takes exactly those a multiple of 2^32 exchanges away. */
  lemma TakenExactly(e: nat, r: Reply)
    requires r.Ack? && Labelled(r) && r.status != Malformed
    ensures Taken(r, Number(e)) <==> (e - r.exchange) % WRAP == 0
  {
    var d := e - r.exchange;
    assert e == r.exchange + d;
    SameResidue(r.exchange, d);
  }

  lemma SameResidue(a: nat, d: int)
    requires a + d >= 0
    ensures (a + d) % WRAP == a % WRAP <==> d % WRAP == 0
  {
    var qa, qs := a / WRAP, (a + d) / WRAP;
    assert a == qa * WRAP + a % WRAP && a + d == qs * WRAP + (a + d) % WRAP;
  }

  /** So on a connection of at most 2^32 exchanges a success taken is the exchange's own. */
  lemma OwnAnswer(net: Net, e: nat, sent: nat, req: Request, r: Reply)
    requires Answers(net, e, sent) && sent <= WRAP && Awaiting(net, e, req)
    requires r in net.given && r.status == Ok && Taken(r, Number(e))
    ensures r.exchange == e && e !in net.pending && StoredWhole(net.log, e, req.chunk)
  {
    TakenExactly(e, r);
    assert 0 <= e - r.exchange < WRAP;
  }

  /** And if it is the one answer there is, it is so at any number. */
  lemma OnlyAnswer(net: Net, e: nat, sent: nat, req: Request, r: Reply)
    requires Answers(net, e, sent) && Awaiting(net, e, req)
    requires r in net.given && r.status == Ok && r.exchange == e
    ensures e !in net.pending && StoredWhole(net.log, e, req.chunk)
  {
  }

  /** `n` exchanges on one connection, each stored and acknowledged. */
  function Rounds(n: nat, sample: Sample): Net
  {
    if n == 0 then Net(map[], {}, {}, [], [], {}, false)
    else
      var sent := Send(Rounds(n - 1, sample), n, Request(Number(n), [Frame(n, sample)]));
      Handle(sent, n, Stores(true)).(replies := [])
  }

  lemma {:induction false} AfterRounds(n: nat, sample: Sample)
    ensures var net := Rounds(n, sample);
            && net.pending == map[]
            && (n > 0 ==> Ack(1, 1, Ok) in net.given)
            && (forall p :: 0 <= p < |net.log| ==> net.log[p].frame.seqno <= n)
    decreases n
  {
    if n > 0 {
      AfterRounds(n - 1, sample);
      assert n == 1 ==> Number(n) == 1;
    }
  }

  /** One exchange more than that, and the first answer, made again, is taken for a batch nobody stored. */
  lemma AWrappedAnswerIsTaken(sample: Sample)
    ensures var e, f := WRAP + 1, Frame(WRAP + 1, sample);
            var sent := Send(Rounds(WRAP, sample), e, Request(Number(e), [f]));
            var net := Repeat(sent, Ack(1, 1, Ok));
            && net.replies == [Ack(1, 1, Ok)] && Taken(net.replies[0], Number(e))
            && !Logged(net.log, f)
  {
    AfterRounds(WRAP, sample);
    assert Rounds(WRAP, sample).replies == [];
  }

  /** The head of what is held moves to what is reported, kept by the log or by the dead letter. */
  lemma ReportKeepsOrderly(net: Net, chunk: seq<Frame>, reported: seq<Frame>, held: seq<Frame>, n: nat)
    requires Orderly(net, reported, held, n) && chunk <= held
    requires forall c :: c in chunk ==> Logged(net.log, c) || c.seqno in net.forgone
    ensures Orderly(net, reported + chunk, held[|chunk|..], n)
  {
    var rest := held[|chunk|..];
    assert held == chunk + rest;
    assert reported + held == (reported + chunk) + rest;
    forall e | e in net.pending
      ensures HeadOf(net.pending[e].chunk, rest)
      ensures Placed(net.pending[e].chunk, reported + chunk, rest, net.forgone)
    {
    }
  }

  lemma ConfirmKeepsOnce(net: Net, e: nat, req: Request, confirmed: set<nat>,
                         reported: seq<Frame>, held: seq<Frame>)
    requires ExchangesDistinct(net.log) && ConfirmedOnce(net.log, confirmed)
    requires forall p :: 0 <= p < |net.log| && net.log[p].exchange in confirmed ==> net.log[p].frame in reported
    requires forall p :: 0 <= p < |net.log| && net.log[p].exchange == e ==> net.log[p].frame in req.chunk
    requires Increasing(reported + held) && req.chunk <= held
    ensures ConfirmedOnce(net.log, confirmed + {e})
  {
    IncreasingSplit(reported, held);
  }

  /** Giving up a run of held frames. */
  lemma ForgoKeepsOrderly(net: Net, reported: seq<Frame>, front: seq<Frame>, gone: seq<Frame>, back: seq<Frame>, n: nat)
    requires Orderly(net, reported, front + gone + back, n)
    ensures Orderly(Forgo(net, gone), reported, front + back, n)
  {
    var held := front + gone + back;
    var after := Forgo(net, gone);
    assert reported + held == (reported + front) + (gone + back);
    IncreasingSplit(reported + front, gone + back);
    IncreasingSplit(gone, back);
    assert reported + (front + back) == (reported + front) + back;
    IncreasingJoin(reported + front, back);
    forall e | e in after.pending
      ensures HeadOf(after.pending[e].chunk, front + back)
      ensures Placed(after.pending[e].chunk, reported, front + back, after.forgone)
    {
      assert HeadOf(net.pending[e].chunk, held);
    }
  }

  /** A frame accepted after everything else joins the end of what is held. */
  lemma AcceptKeepsOrderly(net: Net, reported: seq<Frame>, held: seq<Frame>, n: nat, f: Frame)
    requires Orderly(net, reported, held, n) && f.seqno == n
    requires forall g :: g in reported ==> g.seqno < n
    ensures Orderly(net, reported, held + [f], n + 1)
  {
    assert reported + (held + [f]) == (reported + held) + [f];
    forall e | e in net.pending
      ensures HeadOf(net.pending[e].chunk, held + [f])
      ensures Placed(net.pending[e].chunk, reported, held + [f], net.forgone)
    {
    }
  }

  lemma ForgoneGrows(net: Net, reported: seq<Frame>, held: seq<Frame>, n: nat, chunk: seq<Frame>)
    requires Orderly(net, reported, held, n)
    ensures Orderly(Forgo(net, chunk), reported, held, n)
  {
  }

  lemma HandleKeepsOnce(net: Net, e: nat, v: Verdict, exchanges: nat, confirmed: set<nat>, reported: seq<Frame>)
    requires e in net.pending && Numbered(net, exchanges, confirmed)
    requires ConfirmedReported(net.log, confirmed, reported)
    ensures ConfirmedReported(Handle(net, e, v).log, confirmed, reported)
    ensures ConfirmedOnce(net.log, confirmed) ==> ConfirmedOnce(Handle(net, e, v).log, confirmed)
  {
  }

  ghost predicate ConfirmedReported(log: seq<Stored>, confirmed: set<nat>, reported: seq<Frame>)
  {
    forall p :: 0 <= p < |log| && log[p].exchange in confirmed ==> log[p].frame in reported
  }

  /**
    The limit of the order claim: a batch left on a dropped connection, whose
    frames the client then had to give up, is stored by its session only after
    a later batch. The gateway then holds the two out of order.
  */
  lemma AStragglerReorders(a: Sample, b: Sample)
    ensures
      var f, g := Frame(0, a), Frame(1, b);
      var start := Net(map[], {}, {}, [], [], {}, false);
      var sent := Send(start, 0, Request(1, [f]));
      var given := Forgo(Disconnect(sent), [f]);
      var next := Handle(Send(given, 1, Request(2, [g])), 1, Stores(true));
      && 0 in next.pending
      && var last := Handle(next, 0, Stores(true));
         last.straggled && last.log == [Stored(1, g), Stored(0, f)] && !FirstsInOrder(last.log)
  {
    var f, g := Frame(0, a), Frame(1, b);
    var start := Net(map[], {}, {}, [], [], {}, false);
    var sent := Send(start, 0, Request(1, [f]));
    var given := Forgo(Disconnect(sent), [f]);
    var next := Handle(Send(given, 1, Request(2, [g])), 1, Stores(true));
    assert next.log == [Stored(1, g)];
    assert next.pending == map[0 := Request(1, [f])];
    assert f.seqno in next.forgone;
    var last := Handle(next, 0, Stores(true));
    assert [f][0].seqno in next.forgone;
    assert last.log == [Stored(1, g), Stored(0, f)];
    assert last.log[..1] == [Stored(1, g)];
    assert last.log[..1][0].frame == g;
    assert !Logged(last.log[..1], last.log[1].frame);
    assert !Beyond(last.log[..1], last.log[1].frame);
  }
}

module ForwardLink {
  import opened Wrappers
  import opened Ledger
  import opened Network

  /** How an exchange ends badly; `Closed` is the gateway's own goodbye. */
  datatype Cause = Failed | Closed

  datatype SinkResult = Done | Broken(cause: Cause)

  datatype WriteResult = Written | WriteError(delivered: nat, cause: Cause)

  function Delivered(r: WriteResult, size: nat): nat
  {
    if r.Written? then size else r.delivered
  }

  /** What the caller holds beside the link: for the order claims, when they apply. */
  datatype View = View(ordered: bool, held: seq<Frame>, n: nat)

  /** The view once the first `k` frames held are reported. */
  ghost function After(v: View, k: nat): View
  {
    if k <= |v.held| then v.(held := v.held[k..]) else v
  }

  lemma AfterTwice(v: View, j: nat, k: nat)
    requires j + k <= |v.held|
    ensures After(After(v, j), k) == After(v, j + k)
  {
  }

  lemma Slices(batch: seq<Frame>, j: nat, k: nat)
    requires j + k <= |batch|
    ensures batch[..j] + batch[j..][..k] == batch[..j + k]
  {
  }

  lemma HeldSlices(batch: seq<Frame>, held: seq<Frame>, j: nat)
    requires batch <= held && j <= |batch|
    ensures batch[j..] <= held[j..]
  {
  }

  /**
    Where the client is with its connection: an exchange has failed on it, or
    none is under way, or this one is.
  */
  datatype Exchange = Adrift | Resting | Exchange(id: nat, req: Request)

  class ForwardSink {
    var net: Net
    var open: bool
    /** The number of the last batch; it wraps. */
    var number: nat
    /** How many batches were numbered, how many of them on this connection, and the most on any. */
    var exchanges: nat
    var sent: nat
    var longest: nat
    /** An answer was made a second time. */
    var repeated: bool
    var dead: seq<Frame>
    /** Exchanges acknowledged as stored, and every frame reported delivered. */
    ghost var confirmed: set<nat>
    ghost var reported: seq<Frame>
    /** Frames the caller gave up having delivered. */
    ghost var givenUp: set<nat>
    /** Chunks whose answer was that they cannot be read. */
    ghost var unreadable: seq<seq<Frame>>
    /** What has gone wrong outside the client, and how often it asked an idle gateway for a sign of life. */
    ghost var troubles: nat
    ghost var pings: nat
    /** How often it was the way to the gateway that failed, and how often the gateway said goodbye. */
    ghost var outages: nat
    ghost var goodbyes: nat

    /**
      No answer has been open to confusion: either no connection has carried so
      many batches that a number came round again, or none was made twice.
    */
    predicate Unconfused()
      reads this`longest, this`repeated
    {
      longest <= WRAP || !repeated
    }

    /** While numbers are unambiguous, a chunk is reported only if it was stored or kept in the dead letter. */
    ghost predicate Sound()
      reads this`net, this`open, this`number, this`exchanges, this`sent, this`longest, this`repeated
      reads this`dead, this`confirmed, this`reported, this`givenUp, this`unreadable
    {
      && number == Number(exchanges) && sent <= longest && (!open ==> net.wire == {})
      && Accounted(net, givenUp, dead) && Condemned(dead, unreadable)
      && (Unconfused() ==>
            && Numbered(net, exchanges, confirmed)
            && Answers(net, exchanges, sent)
            && Reported(net, reported, dead)
            && ConfirmedReported(net.log, confirmed, reported))
    }

    ghost predicate At(x: Exchange)
      reads this`net, this`exchanges, this`longest, this`repeated
    {
      match x
      case Adrift => true
      case Resting => !repeated ==> Idle(net)
      case Exchange(e, req) =>
        (Unconfused() ==> e == exchanges && Awaiting(net, e, req)) && (!repeated ==> Alone(net, e))
    }

    ghost predicate Ordered(v: View)
      reads this`net, this`longest, this`repeated, this`confirmed, this`reported
    {
      Unconfused() && v.ordered ==> Orderly(net, reported, v.held, v.n) && ConfirmedOnce(net.log, confirmed)
    }

    /** Of a view in no order nothing is claimed. */
    lemma StillOrdered(v: View, now: View)
      requires Ordered(v) && (now.ordered ==> now == v)
      ensures Ordered(now)
    {
    }

    constructor ()
      ensures Sound() && At(Resting) && !open && longest == 0 && !repeated && givenUp == {}
      ensures net == Net(map[], {}, {}, [], [], {}, false) && reported == [] && dead == [] && confirmed == {}
    {
      net := Net(map[], {}, {}, [], [], {}, false);
      open, number, exchanges, sent, longest, repeated, dead := false, 0, 0, 0, 0, false, [];
      confirmed, reported, givenUp, unreadable := {}, [], {}, [];
      troubles, pings, outages, goodbyes := 0, 0, 0, 0;
    }

    /** Whether something between here and the gateway fails now. */
    method Fails() returns (bad: bool)
      modifies this`troubles, this`outages
      ensures troubles == old(troubles) + if bad then 1 else 0
      ensures outages == old(outages) + if bad then 1 else 0
    {
      bad := *;
      if bad {
        troubles, outages := troubles + 1, outages + 1;
      }
    }

    /** Any number of gateway sessions make any number of steps. */
    method GatewayRuns(ghost x: Exchange, ghost v: View)
      requires Sound() && At(x) && Ordered(v)
      modifies this`net, this`repeated
      ensures Sound() && At(x) && Ordered(v)
      ensures old(net.log) <= net.log && net.forgone == old(net.forgone)
    {
      hide Sound, At, Ordered;
      var turns: nat := *;
      while turns > 0
        invariant Sound() && At(x) && Ordered(v)
        invariant old(net.log) <= net.log && net.forgone == old(net.forgone)
      {
        var speaks: bool := *;
        if speaks {
          var r: Reply := *;
          var again: bool := *;
          Speaks(r, again, x, v);
        } else if |net.pending| > 0 {
          assert net.pending.Keys != {};
          var e: nat :| e in net.pending;
          var verdict: Verdict := *;
          Session(e, verdict, x, v);
        }
        turns := turns - 1;
      }
    }

    /** The connection delivers something unasked: no answer, or one made before. */
    method Speaks(r: Reply, again: bool, ghost x: Exchange, ghost v: View)
      requires Sound() && At(x) && Ordered(v)
      modifies this`net, this`repeated
      ensures Sound() && At(x) && Ordered(v)
      ensures net.log == old(net.log) && net.forgone == old(net.forgone)
    {
      hide Network.Orderly, Network.ConfirmedOnce, Network.Numbered, Network.Awaiting, Network.Reported;
      var spoken := if again then Repeat(net, r) else Says(net, r);
      hide Network.Alone, Network.Idle, Network.Answers, Seqnos, Network.ConfirmedReported;
      repeated := repeated || (again && r in net.given);
      if !repeated {
        SaysKeeps(net, r, if x.Exchange? then x.id else 0);
      }
      if Unconfused() {
        SpokenGiven(net, r, again, exchanges, sent);
        OtherRepliesAnswers(net, spoken.replies, exchanges, sent);
        OtherReplies(net, spoken.replies, exchanges, confirmed, reported, dead);
        if x.Exchange? {
          OtherRepliesAwaited(net, spoken.replies, x.id, x.req);
        }
        if v.ordered {
          OtherRepliesOrdered(net, spoken.replies, reported, v.held, v.n);
        }
      }
      net := spoken;
    }

    method Session(e: nat, verdict: Verdict, ghost x: Exchange, ghost v: View)
      requires Sound() && At(x) && Ordered(v) && e in net.pending
      modifies this`net
      ensures Sound() && At(x) && Ordered(v)
      ensures old(net.log) <= net.log && net.forgone == old(net.forgone)
    {
      hide Network.Orderly, Network.ConfirmedOnce, Network.Awaiting, Network.Reported, Network.ConfirmedReported;
      hide Network.Alone, Network.Idle;
      if Unconfused() {
        HandleKeepsNumbered(net, e, verdict, exchanges, confirmed);
        HandleKeepsAnswers(net, e, verdict, exchanges, sent);
        HandleKeepsReported(net, e, verdict, reported, dead);
        HandleKeepsOnce(net, e, verdict, exchanges, confirmed, reported);
        if x.Exchange? {
          HandleKeepsAwaiting(net, e, verdict, x.id, x.req);
        }
        if v.ordered {
          HandleKeepsOrderly(net, e, verdict, reported, v.held, v.n);
        }
      }
      if !repeated {
        if x.Exchange? {
          HandleKeepsAlone(net, e, verdict, x.id);
        } else if x.Resting? {
          HandleKeepsIdle(net, e, verdict);
        }
      }
      HandleOnlyAdds(net, e, verdict);
      net := Handle(net, e, verdict);
    }

    method Connect(ghost v: View) returns (r: SinkResult)
      requires Sound() && At(Resting) && Ordered(v)
      modifies this`net, this`open, this`sent, this`repeated, this`troubles, this`outages
      ensures Sound() && At(Resting) && Ordered(v)
      // It connects unless something outside is wrong.
      ensures troubles == old(troubles) + if r.Broken? then 1 else 0
      ensures outages == old(outages) + if r.Broken? then 1 else 0
      ensures old(net.log) <= net.log && net.forgone == old(net.forgone)
      ensures r.Done? ==> open && sent == 0
      ensures r.Broken? ==> open == old(open)
    {
      hide Sound, Ordered, At;
      GatewayRuns(Resting, v);
      var refused := Fails();
      if refused {
        var cause: Cause := *;
        return Broken(cause);
      }
      Hangup(v);
      Opened(v);
      GatewayRuns(Resting, v);
      return Done;
    }

    method Opened(ghost v: View)
      requires Sound() && Ordered(v)
      modifies this`open
      ensures Sound() && Ordered(v) && open
    {
      open := true;
    }

    /** The connection is gone, with anything it had still to deliver. */
    method Hangup(ghost v: View)
      requires Sound() && Ordered(v)
      modifies this`net, this`open, this`sent
      ensures Sound() && At(Resting) && Ordered(v) && !open && sent == 0
      ensures net.wire == {} && net.given == {} && net.replies == []
      ensures net.log == old(net.log) && net.forgone == old(net.forgone) && net.pending == old(net.pending)
    {
      ghost var before := net;
      net := Disconnect(net);
      open, sent := false, 0;
      if Unconfused() {
        assert v.ordered ==> Orderly(before, reported, v.held, v.n);
        assert Numbered(before, exchanges, confirmed);
      }
    }

    /**
      Wait for a reply, passing over catalogues, until one comes, the gateway
      says goodbye or patience ends. An answer was made to one of this connection's exchanges and carries that
      exchange's number, or is a refusal numbered zero; and if the client takes
      a success for its own, it is.
    */
    method Recv(ghost x: Exchange, ghost v: View) returns (r: Option<Reply>, cause: Cause)
      requires Sound() && At(x) && Ordered(v)
      modifies this`net, this`repeated, this`troubles, this`goodbyes
      ensures troubles == old(troubles) + if r.None? then 1 else 0
      ensures goodbyes == old(goodbyes) + if r.None? && cause.Closed? then 1 else 0
      ensures r.Some? ==> !r.value.Close? && !r.value.Catalogue?
      ensures Sound() && At(x) && Ordered(v)
      ensures x.Exchange? && r.Some? && r.value.Ack? ==> At(Resting)
      ensures old(net.log) <= net.log && net.forgone == old(net.forgone)
      ensures Unconfused() && r.Some? && r.value.Ack? ==> Labelled(r.value) && r.value.exchange in net.wire
      ensures Unconfused() && r.Some? && r.value.Ack? && x.Exchange?
              && r.value.status == Ok && Taken(r.value, number) ==>
                r.value.exchange == x.id && x.id !in net.pending && StoredWhole(net.log, x.id, x.req.chunk)
    {
      hide Sound, At, Ordered, Network.Awaiting, Network.Answers;
      cause := Failed;
      var patience: nat := *;
      while patience > 0
        invariant Sound() && At(x) && Ordered(v)
        invariant troubles == old(troubles) && goodbyes == old(goodbyes)
        invariant old(net.log) <= net.log && net.forgone == old(net.forgone)
      {
        GatewayRuns(x, v);
        if net.replies != [] {
          var reply := Pop(x, v);
          if reply.Close? {
            troubles, goodbyes := troubles + 1, goodbyes + 1;
            return None, Closed;
          }
          if !reply.Catalogue? {
            return Some(reply), Failed;
          }
        }
        patience := patience - 1;
      }
      troubles := troubles + 1;
      return None, Failed;
    }

    /** Take the next reply off the wire. */
    method Pop(ghost x: Exchange, ghost v: View) returns (r: Reply)
      requires Sound() && At(x) && Ordered(v) && net.replies != []
      modifies this`net
      ensures Sound() && At(x) && Ordered(v)
      ensures x.Exchange? && r.Ack? ==> At(Resting)
      ensures r == old(net.replies[0]) && net == old(net).(replies := old(net.replies)[1..])
      ensures Unconfused() && r.Ack? ==> Labelled(r) && r.exchange in net.wire
      ensures Unconfused() && r.Ack? && x.Exchange? && r.status == Ok && Taken(r, number) ==>
                r.exchange == x.id && x.id !in net.pending && StoredWhole(net.log, x.id, x.req.chunk)
    {
      hide Network.Orderly, Network.ConfirmedOnce, Network.Numbered, Network.Awaiting, Network.Reported;
      hide Network.Alone, Network.Idle, Seqnos, Network.ConfirmedReported;
      r := net.replies[0];
      var rest := net.replies[1..];
      if Unconfused() {
        OtherReplies(net, rest, exchanges, confirmed, reported, dead);
        if x.Exchange? {
          OtherRepliesAwaited(net, rest, x.id, x.req);
          if r.Ack? && r.status == Ok && Taken(r, number) {
            if longest <= WRAP {
              OwnAnswer(net, exchanges, sent, x.req, r);
            } else {
              AnsweredIsIdle(net, x.id);
              OnlyAnswer(net, exchanges, sent, x.req, r);
            }
          }
        }
        if v.ordered {
          OtherRepliesOrdered(net, rest, reported, v.held, v.n);
        }
      }
      if !repeated && x.Exchange? {
        OtherTakenAlone(net, x.id);
        if r.Ack? {
          AnsweredIsIdle(net, x.id);
        }
      } else if !repeated && x.Resting? {
        OtherTakenIdle(net);
      }
      net := net.(replies := rest);
    }

    /** The number moves on although there is no connection to send on. */
    method Skip(ghost v: View)
      requires Sound() && At(Resting) && Ordered(v) && !open
      modifies this`number, this`exchanges
      ensures Sound() && At(Resting) && Ordered(v) && exchanges == old(exchanges) + 1
    {
      NextNumber(exchanges);
      number := (number + 1) % WRAP;
      exchanges := exchanges + 1;
    }

    static lemma NextNumber(e: nat)
      ensures Number(e + 1) == (Number(e) + 1) % WRAP
    {
    }

    /** Number a batch and put it on the wire, as a new exchange. */
    method Begin(chunk: seq<Frame>, ghost v: View) returns (x: Exchange)
      requires Sound() && At(Resting) && Ordered(v) && open
      requires Increasing(chunk)
      requires v.ordered ==> chunk <= v.held
      modifies this`net, this`number, this`exchanges, this`sent, this`longest
      ensures x == Exchange(exchanges, Request(number, chunk)) && exchanges == old(exchanges) + 1
      ensures sent == old(sent) + 1
      ensures old(longest) <= longest
      ensures Sound() && At(x) && Ordered(v)
      ensures net.log == old(net.log) && net.forgone == old(net.forgone)
    {
      hide Network.Orderly, Network.Numbered, Network.Answers, Network.Awaiting, Network.ConfirmedOnce;
      hide Network.Alone, Network.Idle, Network.Reported, Network.ConfirmedReported, Network.Number, Seqnos;
      NextNumber(exchanges);
      number := (number + 1) % WRAP;
      var req := Request(number, chunk);
      SendKeepsAll(net, req, exchanges, sent, confirmed, reported, dead, v);
      exchanges, sent := exchanges + 1, sent + 1;
      longest := if longest < sent then sent else longest;
      net := Send(net, exchanges, req);
      x := Exchange(exchanges, req);
    }

    static lemma SendKeepsAll(net: Net, req: Request, exchanges: nat, sent: nat, confirmed: set<nat>,
                              reported: seq<Frame>, dead: seq<Frame>, v: View)
      requires Increasing(req.chunk) && req.number == Number(exchanges + 1)
      ensures var e, after := exchanges + 1, Send(net, exchanges + 1, req);
              && (Numbered(net, exchanges, confirmed) && Answers(net, exchanges, sent) ==>
                    Numbered(after, e, confirmed) && Answers(after, e, sent + 1) && Awaiting(after, e, req))
              && (Reported(net, reported, dead) ==> Reported(after, reported, dead))
              && (Numbered(net, exchanges, confirmed) && Orderly(net, reported, v.held, v.n) && req.chunk <= v.held ==>
                    Orderly(after, reported, v.held, v.n))
              && (Idle(net) ==> Alone(after, e))
    {
      hide Network.Orderly, Network.Answers, Network.Awaiting, Network.Alone, Network.Idle, Network.Reported, Send;
      var e := exchanges + 1;
      if Reported(net, reported, dead) {
        SendKeepsReported(net, e, req, reported, dead);
      }
      if Idle(net) {
        SendIsAlone(net, e, req);
      }
      if Numbered(net, exchanges, confirmed) {
        if Answers(net, exchanges, sent) {
          SendStartsExchange(net, e, req, exchanges, sent, confirmed);
        }
        if Orderly(net, reported, v.held, v.n) && req.chunk <= v.held {
          SendKeepsOrderly(net, e, req, reported, v.held, v.n);
        }
      }
    }

    /**
      One batch: number it, send it, and wait for an answer the client takes
      as its own. Whatever comes back, stale or repeated, no frame is reported
      that was neither stored by this very exchange nor quarantined, unless an
      answer was repeated and a connection has carried more than 2^32 batches.
    */
    method SendChunk(samples: seq<Frame>, ghost v: View)
      returns (r: Option<nat>, cause: Cause, ghost answer: Option<Reply>, ghost chunk: seq<Frame>)
      requires Sound() && At(Resting) && Ordered(v)
      requires samples != [] && Increasing(samples)
      requires v.ordered ==> samples <= v.held
      modifies this`net, this`number, this`exchanges, this`sent, this`longest, this`repeated
      modifies this`dead, this`confirmed, this`reported, this`unreadable, this`troubles, this`outages, this`goodbyes
      ensures Sound() && old(longest) <= longest && exchanges == old(exchanges) + 1
      ensures old(net.log) <= net.log && old(net.forgone) <= net.forgone
      ensures r.Some? ==> 1 <= r.value <= |samples| && reported == old(reported) + samples[..r.value]
                          && At(Resting) && Ordered(After(v, r.value))
      ensures r.Some? && Unconfused() ==>
                StoredWhole(net.log, exchanges, samples[..r.value]) || dead == old(dead) + samples[..r.value]
      ensures r.None? ==> reported == old(reported) && dead == old(dead) && net.forgone == old(net.forgone)
                          && Ordered(v)
      // `chunk` is what was sent and `answer` what was read; the result follows from the answer taken.
      ensures chunk != [] && chunk <= samples && (r.Some? ==> chunk == samples[..r.value])
      ensures AnsweredWith(answer, number, Ok) ==> r.Some? && dead == old(dead)
      ensures AnsweredWith(answer, number, Malformed) ==> dead == if r.Some? then old(dead) + chunk else old(dead)
      ensures !AnsweredWith(answer, number, Ok) && !AnsweredWith(answer, number, Malformed) ==> r.None?
      ensures unreadable == old(unreadable) + if AnsweredWith(answer, number, Malformed) then [chunk] else []
      ensures troubles == old(troubles) + if r.None? then 1 else 0
      ensures goodbyes == old(goodbyes) + if r.None? && cause.Closed? then 1 else 0
      // A chunk goes out whenever there is a connection.
      ensures sent == old(sent) + if open then 1 else 0
    {
      hide Sound, At, Ordered, Network.StoredWhole, Network.AnsweredWith;
      assert 1 <= |samples|;
      var len :| 1 <= len <= |samples|;
      var batch := samples[..len];
      chunk := batch;
      assert Increasing(batch);
      var done;
      done, cause, answer := Exchanged(batch, v);
      r := if done then Some(len) else None;
    }

    /** One exchange: ask, and heed an answer the client takes. */
    method Exchanged(chunk: seq<Frame>, ghost v: View) returns (done: bool, cause: Cause, ghost answer: Option<Reply>)
      requires Sound() && At(Resting) && Ordered(v) && Increasing(chunk)
      requires v.ordered ==> chunk <= v.held
      modifies this`net, this`number, this`exchanges, this`sent, this`longest, this`repeated
      modifies this`dead, this`confirmed, this`reported, this`unreadable, this`troubles, this`outages, this`goodbyes
      ensures Sound() && old(longest) <= longest && exchanges == old(exchanges) + 1
      ensures old(net.log) <= net.log && old(net.forgone) <= net.forgone
      ensures done ==> reported == old(reported) + chunk && At(Resting) && Ordered(After(v, |chunk|))
      ensures done && Unconfused() ==> StoredWhole(net.log, exchanges, chunk) || dead == old(dead) + chunk
      ensures !done ==> reported == old(reported) && dead == old(dead) && net.forgone == old(net.forgone) && Ordered(v)
      ensures AnsweredWith(answer, number, Ok) ==> done && dead == old(dead)
      ensures AnsweredWith(answer, number, Malformed) ==> dead == if done then old(dead) + chunk else old(dead)
      ensures !AnsweredWith(answer, number, Ok) && !AnsweredWith(answer, number, Malformed) ==> !done
      ensures unreadable == old(unreadable) + if AnsweredWith(answer, number, Malformed) then [chunk] else []
      ensures troubles == old(troubles) + if !done then 1 else 0
      ensures goodbyes == old(goodbyes) + if !done && cause.Closed? then 1 else 0
      ensures sent == old(sent) + if open then 1 else 0
    {
      hide Sound, At, Ordered, Network.Awaiting, Network.StoredWhole;
      answer := None;
      if !open {
        Skip(v);
        troubles := troubles + 1;
        return false, Failed, answer;
      }
      var reply;
      ghost var x;
      reply, cause, x := Ask(chunk, v);
      answer := reply;
      if reply.None? {
        return false, cause, answer;
      }
      if !reply.value.Ack? || !Taken(reply.value, number) {
        troubles := troubles + 1;
        return false, Failed, answer;
      }
      done := Heed(reply.value.status, chunk, x, v);
      cause := Failed;
    }

    /** Do what the answer to a chunk says. */
    method Heed(status: Status, chunk: seq<Frame>, ghost x: Exchange, ghost v: View) returns (done: bool)
      requires Sound() && x.Exchange? && At(x) && At(Resting) && Ordered(v) && x.req.chunk == chunk
      requires Unconfused() && status == Ok ==> StoredWhole(net.log, x.id, chunk) && x.id !in net.pending
      requires v.ordered ==> chunk <= v.held
      modifies this`net, this`dead, this`confirmed, this`reported, this`unreadable, this`troubles, this`outages
      ensures Sound() && net.log == old(net.log) && old(net.forgone) <= net.forgone
      ensures done ==> reported == old(reported) + chunk && At(Resting) && Ordered(After(v, |chunk|))
      ensures !done ==> reported == old(reported) && net == old(net) && Ordered(v)
      ensures status == Ok ==> done
      ensures done ==> status == Ok || status == Malformed
      ensures dead == if done && status == Malformed then old(dead) + chunk else old(dead)
      ensures unreadable == old(unreadable) + if status == Malformed then [chunk] else []
      ensures troubles == old(troubles) + if done then 0 else 1
    {
      hide Sound, At, Ordered, Network.StoredWhole;
      match status
      case Ok =>
        Confirm(x, v);
        return true;
      case Malformed =>
        Condemn(chunk, v);
        done := Quarantine(chunk, v);
      case Overloaded =>
        troubles := troubles + 1;
        return false;
      case Refused =>
        troubles := troubles + 1;
        return false;
    }

    /** Send a chunk and read what comes back. */
    method Ask(chunk: seq<Frame>, ghost v: View) returns (reply: Option<Reply>, cause: Cause, ghost x: Exchange)
      requires Sound() && At(Resting) && Ordered(v) && open && Increasing(chunk)
      requires v.ordered ==> chunk <= v.held
      modifies this`net, this`number, this`exchanges, this`sent, this`longest, this`repeated
      modifies this`troubles, this`outages, this`goodbyes
      ensures Sound() && At(x) && Ordered(v) && old(longest) <= longest
      ensures exchanges == old(exchanges) + 1 && x == Exchange(exchanges, Request(number, chunk))
      ensures sent == old(sent) + 1
      ensures old(net.log) <= net.log && net.forgone == old(net.forgone)
      ensures reply.Some? && reply.value.Ack? ==> At(Resting)
      ensures Unconfused() && AnsweredWith(reply, number, Ok) ==>
                x.id !in net.pending && StoredWhole(net.log, x.id, chunk)
      ensures troubles == old(troubles) + if reply.None? then 1 else 0
      ensures goodbyes == old(goodbyes) + if reply.None? && cause.Closed? then 1 else 0
    {
      hide Sound, At, Ordered, Network.Awaiting, Network.StoredWhole;
      var begun := Begin(chunk, v);
      x := begun;
      var unsent := Fails();
      if unsent {
        return None, Failed, x;
      }
      reply, cause := Recv(begun, v);
    }

    ghost method Condemn(chunk: seq<Frame>, v: View)
      requires Sound() && At(Resting) && Ordered(v)
      modifies this`unreadable
      ensures Sound() && At(Resting) && Ordered(v) && unreadable == old(unreadable) + [chunk]
    {
      hide Network.Condemned;
      CondemnedMore(dead, unreadable, chunk);
      unreadable := unreadable + [chunk];
    }

    ghost method Confirm(x: Exchange, v: View)
      requires Sound() && x.Exchange? && At(x) && At(Resting) && Ordered(v)
      requires Unconfused() ==> StoredWhole(net.log, x.id, x.req.chunk) && x.id !in net.pending
      requires v.ordered ==> x.req.chunk <= v.held
      modifies this`confirmed, this`reported
      ensures Sound() && At(Resting)
      ensures reported == old(reported) + x.req.chunk
      ensures Ordered(After(v, |x.req.chunk|))
    {
      hide Network.Orderly;
      var e, req := x.id, x.req;
      if Unconfused() {
        forall c | c in req.chunk ensures Logged(net.log, c) {
          var i :| 0 <= i < |req.chunk| && req.chunk[i] == c;
          assert Stored(e, req.chunk[i]) in net.log;
        }
        if v.ordered {
          ReportedThenHeld(net, reported, v.held, v.n);
          ConfirmKeepsOnce(net, e, req, confirmed, reported, v.held);
          ReportKeepsOrderly(net, req.chunk, reported, v.held, v.n);
        }
      }
      confirmed := confirmed + {e};
      reported := reported + req.chunk;
    }

    static lemma ReportedThenHeld(net: Net, reported: seq<Frame>, held: seq<Frame>, n: nat)
      requires Orderly(net, reported, held, n)
      ensures Increasing(reported + held)
    {
    }

    /** Put a batch the gateway says it cannot read in the dead letter, and count it as dealt with. */
    method Quarantine(chunk: seq<Frame>, ghost v: View) returns (kept: bool)
      requires Sound() && At(Resting) && Ordered(v)
      requires v.ordered ==> chunk <= v.held
      requires unreadable != [] && unreadable[|unreadable| - 1] == chunk
      modifies this`net, this`dead, this`reported, this`troubles, this`outages
      ensures troubles == old(troubles) + if kept then 0 else 1
      ensures Sound() && At(Resting)
      ensures net.log == old(net.log)
      ensures kept ==> dead == old(dead) + chunk && reported == old(reported) + chunk
                       && old(net.forgone) <= net.forgone
                       && Ordered(After(v, |chunk|))
      ensures !kept ==> dead == old(dead) && reported == old(reported) && net == old(net)
    {
      hide Network.Orderly, Network.ConfirmedOnce, Network.Condemned, Network.Accounted, Network.Reported;
      hide Network.Numbered, Network.Answers, Network.Idle, Network.ConfirmedReported, Network.Forgo, Seqnos;
      CondemnedLast(dead, unreadable);
      ForgoKeepsLink(net, chunk, exchanges, sent, confirmed);
      ForgoAccounted(net, chunk, givenUp, dead);
      var unkept := Fails();
      kept := !unkept;
      if kept {
        ghost var before := net;
        net := Forgo(net, chunk);
        ForgoOnlyAdds(before, chunk);
        if Unconfused() {
          ForgoReported(before, chunk, reported, dead);
          ReportedMore(net.log, confirmed, reported, chunk);
          if v.ordered {
            ForgoneGrows(before, reported, v.held, v.n, chunk);
            ReportKeepsOrderly(net, chunk, reported, v.held, v.n);
          }
        }
        dead := dead + chunk;
        reported := reported + chunk;
      }
    }

    /** Chunk after chunk, until the batch is through or an exchange fails. */
    method WriteBatch(batch: seq<Frame>, ghost v: View) returns (r: WriteResult)
      requires Sound() && At(Resting) && Ordered(v)
      requires Increasing(batch)
      requires v.ordered ==> batch <= v.held
      modifies this`net, this`number, this`exchanges, this`sent, this`longest, this`repeated
      modifies this`dead, this`confirmed, this`reported, this`unreadable, this`troubles, this`outages, this`goodbyes
      ensures Sound() && old(longest) <= longest
      ensures old(net.log) <= net.log && old(net.forgone) <= net.forgone && old(dead) <= dead
      ensures Delivered(r, |batch|) <= |batch| && reported == old(reported) + batch[..Delivered(r, |batch|)]
      ensures Ordered(After(v, Delivered(r, |batch|)))
      ensures r.Written? ==> At(Resting)
      // It gets through unless something outside is wrong.
      ensures troubles == old(troubles) + if r.WriteError? then 1 else 0
      ensures goodbyes == old(goodbyes) + if r.WriteError? && r.cause.Closed? then 1 else 0
      ensures open && batch != [] ==> sent > old(sent) || outages > old(outages)
      ensures old(unreadable) <= unreadable && (unreadable == old(unreadable) ==> dead == old(dead))
    {
      hide Sound, At, Network.Orderly, Network.ConfirmedOnce;
      GatewayRuns(Resting, v);
      assert After(v, 0) == v;
      var statusUnsent := Fails();
      if statusUnsent {
        return WriteError(0, Failed);
      }
      var delivered := 0;
      while delivered < |batch|
        invariant 0 <= delivered <= |batch|
        invariant Sound() && At(Resting) && old(longest) <= longest
        invariant old(net.log) <= net.log && old(net.forgone) <= net.forgone && old(dead) <= dead
        invariant reported == old(reported) + batch[..delivered]
        invariant Ordered(After(v, delivered)) && troubles == old(troubles) && goodbyes == old(goodbyes)
        invariant old(unreadable) <= unreadable && (unreadable == old(unreadable) ==> dead == old(dead))
        invariant old(sent) <= sent && (open && delivered > 0 ==> sent > old(sent))
        decreases |batch| - delivered
      {
        ghost var now := After(v, delivered);
        if v.ordered {
          HeldSlices(batch, v.held, delivered);
        }
        var more, cause, _, _ := SendChunk(batch[delivered..], now);
        if more.None? {
          return WriteError(delivered, cause);
        }
        Slices(batch, delivered, more.value);
        if v.ordered {
          AfterTwice(v, delivered, more.value);
        }
        delivered := delivered + more.value;
      }
      return Written;
    }

    /** A `PING` on an idle connection, answered by a `PONG` or not. */
    method KeepAlive(ghost v: View) returns (r: SinkResult)
      requires Sound() && At(Resting) && Ordered(v)
      modifies this`net, this`repeated, this`troubles, this`outages, this`pings, this`goodbyes
      ensures Sound() && At(Resting) && Ordered(v)
      ensures old(net.log) <= net.log && net.forgone == old(net.forgone)
      ensures r.Done? ==> open && pings == old(pings) + 1
      ensures open && pings == old(pings) ==> outages > old(outages)
      ensures goodbyes == old(goodbyes) + if r.Broken? && r.cause.Closed? then 1 else 0
      ensures troubles == old(troubles) + if r.Broken? then 1 else 0
    {
      hide Sound, Ordered, At;
      GatewayRuns(Resting, v);
      var unsent := Fails();
      if unsent {
        return Broken(Failed);
      }
      if !open {
        troubles := troubles + 1;
        return Broken(Failed);
      }
      pings := pings + 1;
      var reply, cause := Recv(Resting, v);
      if reply.None? {
        return Broken(cause);
      }
      if reply.value != Pong {
        troubles := troubles + 1;
        return Broken(Failed);
      }
      return Done;
    }

    /** The caller has given up frames it held: a gateway session may still store them. */
    method GiveUp(ghost front: seq<Frame>, gone: seq<Frame>, ghost back: seq<Frame>, ghost v: View)
      requires Sound() && Ordered(v)
      requires v.ordered ==> v.held == front + gone + back
      modifies this`net, this`givenUp
      ensures Sound() && (old(At(Resting)) ==> At(Resting))
      ensures net == Forgo(old(net), gone) && givenUp == old(givenUp) + Seqnos(gone)
      ensures v.ordered ==> Ordered(v.(held := front + back))
    {
      hide Network.Orderly, Network.ConfirmedOnce, Network.Condemned, Network.Accounted, Network.Reported;
      hide Network.Numbered, Network.Answers, Network.Idle, Network.ConfirmedReported, Network.Forgo, Seqnos;
      ForgoKeepsLink(net, gone, exchanges, sent, confirmed);
      ForgoAccounted(net, gone, givenUp, dead);
      if Unconfused() {
        ForgoReported(net, gone, reported, dead);
        if v.ordered {
          ForgoKeepsOrderly(net, reported, front, gone, back, v.n);
        }
      }
      net := Forgo(net, gone);
      givenUp := givenUp + Seqnos(gone);
    }
  }
}
