/**
  Moving an older cache's frames into the new one, batch by batch, through any
  number of interruptions: what arrives, in what order, and what arrives twice.
*/
module Adoption {
  import opened Ledger

  const ADOPT_BATCH: nat := 1_000

  /** What the two files hold, oldest first. */
  datatype Files = Files(mine: seq<Frame>, theirs: seq<Frame>)

  /**
    What one step came to: nothing was stored; a batch was stored but not
    deleted from its source; it was stored and deleted; or the whole file was
    renamed into place, which only an empty destination allows.
  */
  datatype Attempt = Stopped | Undeleted | Moved | Renamed

  function BatchSize(f: Files): (n: nat)
    ensures n <= |f.theirs| && n <= ADOPT_BATCH && (n == 0 ==> f.theirs == [])
  {
    if |f.theirs| < ADOPT_BATCH then |f.theirs| else ADOPT_BATCH
  }

  function Adopted(f: Files, a: Attempt): Files
  {
    var n := BatchSize(f);
    match a
    case Stopped => f
    case Undeleted => f.(mine := f.mine + f.theirs[..n])
    case Moved => Files(f.mine + f.theirs[..n], f.theirs[n..])
    case Renamed => if f.mine == [] then Files(f.theirs, []) else f
  }

  function AdoptedAll(f: Files, tries: seq<Attempt>): Files
    decreases |tries|
  {
    if tries == [] then f else Adopted(AdoptedAll(f, tries[..|tries| - 1]), tries[|tries| - 1])
  }

  lemma AdoptedOne(f: Files, a: Attempt)
    ensures AdoptedAll(f, []) == f && AdoptedAll(f, [a]) == Adopted(f, a)
  {
    assert [a][..0] == [];
  }

  lemma {:induction false} AdoptedConcat(f: Files, a: seq<Attempt>, b: seq<Attempt>)
    ensures AdoptedAll(f, a + b) == AdoptedAll(AdoptedAll(f, a), b)
    decreases |b|
  {
    if b == [] {
      assert a + b == a;
    } else {
      assert (a + b)[..|a + b| - 1] == a + b[..|b| - 1];
      AdoptedConcat(f, a, b[..|b| - 1]);
    }
  }

  /** How many frames were stored without their source being deleted. */
  function Repeated(f: Files, tries: seq<Attempt>): nat
    decreases |tries|
  {
    if tries == [] then 0
    else
      var front := tries[..|tries| - 1];
      Repeated(f, front) + if tries[|tries| - 1].Undeleted? then BatchSize(AdoptedAll(f, front)) else 0
  }

  // -------------------------------------------------------------------------
  // First occurrences

  ghost function Firsts(fs: seq<Frame>): seq<Frame>
  {
    if fs == [] then []
    else
      var n := |fs| - 1;
      Firsts(fs[..n]) + if fs[n] in fs[..n] then [] else [fs[n]]
  }

  ghost predicate Distinct(fs: seq<Frame>)
  {
    forall i, j :: 0 <= i < j < |fs| ==> fs[i] != fs[j]
  }

  lemma {:induction false} FirstsOld(a: seq<Frame>, b: seq<Frame>)
    requires forall f :: f in b ==> f in a
    ensures Firsts(a + b) == Firsts(a)
    decreases |b|
  {
    if b == [] {
      assert a + b == a;
    } else {
      var front := b[..|b| - 1];
      assert (a + b)[..|a + b| - 1] == a + front;
      FirstsOld(a, front);
    }
  }

  lemma {:induction false} FirstsNew(a: seq<Frame>, b: seq<Frame>)
    requires Distinct(b) && forall f :: f in b ==> f !in a
    ensures Firsts(a + b) == Firsts(a) + b
    decreases |b|
  {
    if b == [] {
      assert a + b == a;
    } else {
      var front, last := b[..|b| - 1], b[|b| - 1];
      assert (a + b)[..|a + b| - 1] == a + front && b == front + [last];
      FirstsNew(a, front);
      assert last !in front;
    }
  }

  // -------------------------------------------------------------------------
  // Any number of interruptions

  /** The files together hold every frame once, and once more for each that was stored and not deleted. */
  lemma {:induction false} RepeatedExactly(f: Files, tries: seq<Attempt>)
    ensures var g := AdoptedAll(f, tries);
            |g.mine| + |g.theirs| == |f.mine| + |f.theirs| + Repeated(f, tries)
            && (Repeated(f, tries) == 0 ==> g.mine + g.theirs == f.mine + f.theirs)
    decreases |tries|
  {
    if tries != [] {
      var h := AdoptedAll(f, tries[..|tries| - 1]);
      RepeatedExactly(f, tries[..|tries| - 1]);
      assert h.theirs == h.theirs[..BatchSize(h)] + h.theirs[BatchSize(h)..];
    }
  }

  /** Where a copy has got to: `left` frames are gone from the source, and the first `reached` have arrived. */
  ghost predicate Reached(f: Files, g: Files, left: nat, reached: nat)
  {
    && left <= reached <= |f.theirs|
    && g.theirs == f.theirs[left..]
    && (reached == left || reached == left + BatchSize(g))
    && f.mine <= g.mine
    && Firsts(g.mine[|f.mine|..]) == f.theirs[..reached]
    && (forall x :: x in g.mine[|f.mine|..] <==> x in f.theirs[..reached])
  }

  lemma Appended(f: Files, g: Files, left: nat, reached: nat)
    requires Distinct(f.theirs) && Reached(f, g, left, reached)
    ensures var n := BatchSize(g);
            && left + n <= |f.theirs|
            && Firsts(g.mine[|f.mine|..] + g.theirs[..n]) == f.theirs[..left + n]
            && (forall x :: x in g.mine[|f.mine|..] + g.theirs[..n] <==> x in f.theirs[..left + n])
  {
    hide Firsts;
    var n := BatchSize(g);
    var came, batch := g.mine[|f.mine|..], g.theirs[..n];
    assert batch == f.theirs[left..left + n];
    assert f.theirs[..left + n] == f.theirs[..left] + batch;
    if reached == left {
      forall x | x in batch ensures x !in came {
        var i :| left <= i < left + n && f.theirs[i] == x;
      }
      FirstsNew(came, batch);
    } else {
      FirstsOld(came, batch);
    }
  }

  /**
    However often an adoption is interrupted and begun again, first
    occurrences arrive in their order, nothing is in neither file, and at most
    one batch is in both.
  */
  lemma {:induction false} AdoptionKeepsOrder(f: Files, tries: seq<Attempt>) returns (left: nat, reached: nat)
    requires Distinct(f.theirs)
    ensures Reached(f, AdoptedAll(f, tries), left, reached) && reached <= left + ADOPT_BATCH
    decreases |tries|
  {
    if tries == [] {
      left, reached := 0, 0;
      assert f.theirs[0..] == f.theirs && f.mine[|f.mine|..] == [];
      return;
    }
    var g, a := AdoptedAll(f, tries[..|tries| - 1]), tries[|tries| - 1];
    left, reached := AdoptionKeepsOrder(f, tries[..|tries| - 1]);
    left, reached := AdoptionStep(f, g, a, left, reached);
  }

  lemma AdoptionStep(f: Files, g: Files, a: Attempt, left: nat, reached: nat) returns (left': nat, reached': nat)
    requires Distinct(f.theirs) && Reached(f, g, left, reached)
    ensures Reached(f, Adopted(g, a), left', reached')
  {
    hide Firsts;
    var n, h := BatchSize(g), Adopted(g, a);
    left', reached' := left, reached;
    if a.Undeleted? || a.Moved? {
      Appended(f, g, left, reached);
      assert h.mine[|f.mine|..] == g.mine[|f.mine|..] + g.theirs[..n];
      reached' := left + n;
      if a.Moved? {
        left' := left + n;
        assert f.theirs[left..][n..] == f.theirs[left + n..];
      }
    } else if a.Renamed? && g.mine == [] {
      RenamedAtOnce(f, g, left, reached);
      left', reached' := |f.theirs|, |f.theirs|;
    }
  }

  lemma FirstsOf(fs: seq<Frame>)
    requires Distinct(fs)
    ensures Firsts([]) == [] && Firsts(fs) == fs
  {
    FirstsNew([], fs);
    assert [] + fs == fs;
  }

  /** The rename is of a source nothing has come from yet. */
  lemma RenamedAtOnce(f: Files, g: Files, left: nat, reached: nat)
    requires Distinct(f.theirs) && Reached(f, g, left, reached) && g.mine == []
    ensures Reached(f, Files(g.theirs, []), |f.theirs|, |f.theirs|)
  {
    hide Firsts;
    assert g.mine[|f.mine|..] == [];
    FirstsOf(f.theirs);
    assert |f.theirs[..reached]| == 0 && g.theirs == f.theirs;
    assert f.theirs[..|f.theirs|] == f.theirs && f.theirs[|f.theirs|..] == [];
    assert f.theirs[|f.mine|..] == f.theirs;
  }

  /** The one way to a repeat: a delete that fails after its append, and a second try. */
  lemma ABatchArrivesTwice(f: Files)
    requires 0 < |f.theirs| <= ADOPT_BATCH
    ensures AdoptedAll(f, [Undeleted, Moved]) == Files(f.mine + f.theirs + f.theirs, [])
    ensures Repeated(f, [Undeleted, Moved]) == |f.theirs|
  {
    var once := [Undeleted];
    assert [Undeleted, Moved][..1] == once && once[..0] == [];
    assert AdoptedAll(f, []) == f && Repeated(f, []) == 0;
    assert f.theirs[..|f.theirs|] == f.theirs && f.theirs[|f.theirs|..] == [];
    assert AdoptedAll(f, once) == Files(f.mine + f.theirs, f.theirs);
    assert Repeated(f, once) == |f.theirs|;
  }

  /** Deletes that follow their appends repeat nothing. */
  lemma {:induction false} NoneRepeated(f: Files, tries: seq<Attempt>)
    ensures Repeated(f, tries) == 0 <==>
            forall k :: 0 <= k < |tries| && tries[k].Undeleted? ==> AdoptedAll(f, tries[..k]).theirs == []
    decreases |tries|
  {
    if tries != [] {
      var front := tries[..|tries| - 1];
      NoneRepeated(f, front);
      assert forall k :: 0 <= k < |front| ==> front[..k] == tries[..k];
      if Repeated(f, tries) == 0 {
        forall k | 0 <= k < |tries| && tries[k].Undeleted? ensures AdoptedAll(f, tries[..k]).theirs == [] {
          if k < |front| {
            assert front[k] == tries[k];
          }
        }
      } else if Repeated(f, front) != 0 {
        var k :| 0 <= k < |front| && front[k].Undeleted? && AdoptedAll(f, front[..k]).theirs != [];
        assert tries[k].Undeleted?;
      }
    }
  }
}
