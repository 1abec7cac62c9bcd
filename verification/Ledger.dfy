/**
  The bookkeeping every part of the archive path is judged against: which
  frames were accepted, in what order, and which of them were given up.
*/
module Ledger {

  datatype Kind = Can | Modbus | Serial

  datatype Sample = Sample(kind: Kind, tsUs: int, bus: nat, data: seq<nat>)

  /** An accepted sample, named by its position in acceptance order. */
  datatype Frame = Frame(seqno: nat, sample: Sample)

  ghost predicate Increasing(fs: seq<Frame>)
  {
    forall i, j :: 0 <= i < j < |fs| ==> fs[i].seqno < fs[j].seqno
  }

  /** Every frame of `fs` comes before every frame of `gs`. */
  ghost predicate Before(fs: seq<Frame>, gs: seq<Frame>)
  {
    forall f, g :: f in fs && g in gs ==> f.seqno < g.seqno
  }

  ghost function Seqnos(fs: seq<Frame>): set<nat>
  {
    set f | f in fs :: f.seqno
  }

  /** The accepted sequence without the frames in `lost`, in order. */
  ghost function Survivors(accepted: seq<Sample>, lost: set<nat>): seq<Frame>
  {
    if accepted == [] then []
    else
      var n := |accepted| - 1;
      Survivors(accepted[..n], lost) + if n in lost then [] else [Frame(n, accepted[n])]
  }

  /** `fs` without the frames in `lost`, in order. */
  ghost function Without(fs: seq<Frame>, lost: set<nat>): seq<Frame>
  {
    if fs == [] then []
    else
      var n := |fs| - 1;
      Without(fs[..n], lost) + if fs[n].seqno in lost then [] else [fs[n]]
  }

  /** Membership of the survivors, both ways. */
  lemma {:induction false} SurvivorsMember(accepted: seq<Sample>, lost: set<nat>, f: Frame)
    ensures f in Survivors(accepted, lost) <==>
              f.seqno < |accepted| && f.sample == accepted[f.seqno] && f.seqno !in lost
  {
    if accepted != [] {
      var n := |accepted| - 1;
      SurvivorsMember(accepted[..n], lost, f);
    }
  }

  /** The survivors keep acceptance order. */
  lemma {:induction false} SurvivorsIncreasing(accepted: seq<Sample>, lost: set<nat>)
    ensures Increasing(Survivors(accepted, lost))
  {
    if accepted != [] {
      var n := |accepted| - 1;
      var front := Survivors(accepted[..n], lost);
      SurvivorsIncreasing(accepted[..n], lost);
      forall i | 0 <= i < |front| ensures front[i].seqno < n {
        SurvivorsMember(accepted[..n], lost, front[i]);
      }
    }
  }

  lemma SurvivorsAccept(accepted: seq<Sample>, lost: set<nat>, sample: Sample)
    requires |accepted| !in lost
    ensures Survivors(accepted + [sample], lost)
         == Survivors(accepted, lost) + [Frame(|accepted|, sample)]
  {
  }

  lemma {:induction false} SurvivorsLoseMore(accepted: seq<Sample>, lost: set<nat>, more: set<nat>)
    ensures Survivors(accepted, lost + more) == Without(Survivors(accepted, lost), more)
  {
    if accepted != [] {
      var n := |accepted| - 1;
      SurvivorsLoseMore(accepted[..n], lost, more);
      var rest := Survivors(accepted[..n], lost);
      if n !in lost {
        assert (rest + [Frame(n, accepted[n])])[..|rest|] == rest;
      } else {
        assert rest + [] == rest;
      }
    }
  }

  lemma {:induction false} WithoutConcat(fs: seq<Frame>, gs: seq<Frame>, lost: set<nat>)
    ensures Without(fs + gs, lost) == Without(fs, lost) + Without(gs, lost)
  {
    if gs == [] {
      assert fs + gs == fs;
    } else {
      var n := |gs| - 1;
      assert (fs + gs)[..|fs + gs| - 1] == fs + gs[..n];
      WithoutConcat(fs, gs[..n], lost);
    }
  }

  lemma {:induction false} WithoutNone(fs: seq<Frame>, lost: set<nat>)
    requires forall i :: 0 <= i < |fs| ==> fs[i].seqno !in lost
    ensures Without(fs, lost) == fs
  {
    if fs != [] {
      var n := |fs| - 1;
      WithoutNone(fs[..n], lost);
      assert fs == fs[..n] + [fs[n]];
    }
  }

  lemma {:induction false} WithoutAll(fs: seq<Frame>, lost: set<nat>)
    requires forall i :: 0 <= i < |fs| ==> fs[i].seqno in lost
    ensures Without(fs, lost) == []
  {
    if fs != [] {
      WithoutAll(fs[..|fs| - 1], lost);
    }
  }

  lemma IncreasingSplit(fs: seq<Frame>, gs: seq<Frame>)
    requires Increasing(fs + gs)
    ensures Increasing(fs) && Increasing(gs) && Before(fs, gs)
  {
    var all := fs + gs;
    forall i, j | 0 <= i < |fs| && 0 <= j < |gs| ensures fs[i].seqno < gs[j].seqno {
      assert all[i] == fs[i] && all[|fs| + j] == gs[j];
    }
    forall i, j | 0 <= i < j < |gs| ensures gs[i].seqno < gs[j].seqno {
      assert all[|fs| + i] == gs[i] && all[|fs| + j] == gs[j];
    }
    forall i, j | 0 <= i < j < |fs| ensures fs[i].seqno < fs[j].seqno {
      assert all[i] == fs[i] && all[j] == fs[j];
    }
  }

  lemma IncreasingJoin(fs: seq<Frame>, gs: seq<Frame>)
    requires Increasing(fs) && Increasing(gs) && Before(fs, gs)
    ensures Increasing(fs + gs)
  {
  }

  lemma SeqnosApart(fs: seq<Frame>, gs: seq<Frame>)
    requires Before(fs, gs)
    ensures forall f :: f in fs ==> f.seqno !in Seqnos(gs)
    ensures forall g :: g in gs ==> g.seqno !in Seqnos(fs)
  {
  }

  lemma SeqnosOwn(fs: seq<Frame>)
    ensures forall i :: 0 <= i < |fs| ==> fs[i].seqno in Seqnos(fs)
  {
  }

  lemma SeqnosApartAt(fs: seq<Frame>, gs: seq<Frame>)
    requires Before(fs, gs)
    ensures forall i :: 0 <= i < |fs| ==> fs[i].seqno !in Seqnos(gs)
    ensures forall j :: 0 <= j < |gs| ==> gs[j].seqno !in Seqnos(fs)
  {
    SeqnosApart(fs, gs);
  }

  lemma WithoutMiddle(front: seq<Frame>, gone: seq<Frame>, back: seq<Frame>)
    requires Increasing(front + gone + back)
    ensures Without(front + gone + back, Seqnos(gone)) == front + back
  {
    hide Increasing, Before, Seqnos, Without;
    var more := Seqnos(gone);
    IncreasingSplit(front + gone, back);
    IncreasingSplit(front, gone);
    assert front + gone + back == front + (gone + back);
    IncreasingSplit(front, gone + back);
    IncreasingSplit(gone, back);
    SeqnosApartAt(front, gone);
    SeqnosApartAt(gone, back);
    SeqnosOwn(gone);
    WithoutNone(front, more);
    WithoutAll(gone, more);
    WithoutNone(back, more);
    WithoutConcat(front, gone, more);
    WithoutConcat(front + gone, back, more);
    assert front + [] == front;
  }

  /** Giving up a run of frames in the middle leaves exactly the two ends. */
  lemma SurvivorsLose(accepted: seq<Sample>, lost: set<nat>,
                      front: seq<Frame>, gone: seq<Frame>, back: seq<Frame>)
    requires Survivors(accepted, lost) == front + gone + back
    ensures Survivors(accepted, lost + Seqnos(gone)) == front + back
  {
    SurvivorsIncreasing(accepted, lost);
    SurvivorsLoseMore(accepted, lost, Seqnos(gone));
    WithoutMiddle(front, gone, back);
  }

  /** How many frames survive: what was accepted less what was given up. */
  lemma {:induction false} SurvivorsCount(accepted: seq<Sample>, lost: set<nat>)
    requires forall n :: n in lost ==> n < |accepted|
    ensures |Survivors(accepted, lost)| + |lost| == |accepted|
  {
    if accepted != [] {
      var n := |accepted| - 1;
      var front := accepted[..n];
      SurvivorsSame(front, lost, lost - {n});
      SurvivorsCount(front, lost - {n});
    } else {
      assert lost == {};
    }
  }

  lemma {:induction false} SurvivorsSame(accepted: seq<Sample>, lost: set<nat>, lost': set<nat>)
    requires forall n: nat :: n < |accepted| ==> (n in lost <==> n in lost')
    ensures Survivors(accepted, lost) == Survivors(accepted, lost')
  {
    if accepted != [] {
      SurvivorsSame(accepted[..|accepted| - 1], lost, lost');
    }
  }
}
