/**
  Replacing a capture database with an imported archive while its ingest is
  held: the gate that held writes take shared and the swap takes exclusively,
  the buffer that is copied across, the rename, and the ways out.

  One database name, one import into it, and around them any number of
  writers and any number of other drains of the same database: the startup
  sweep, a recheck, or the tail of an import abandoned before. Every event is
  one transaction or one lock section.
*/
module Import {

  /** One attempt to store a batch of rows. */
  type Batch = nat

  datatype Database = Database(live: multiset<Batch>, pending: multiset<Batch>)

  /** A held write: routed to the gate, or past it and holding it shared. */
  datatype Writer = Routed | Inside

  datatype Phase =
    | Idle
    | Loading
    | SwapShut
    | Moved
    | Swapped
    | Failing
    | AbandonShut
    | Abandoned

  /** What became of a buffer insert: acknowledged, committed with its reply lost, or refused. */
  datatype Commit = Acked | Unheard | Refused

  datatype Rename = Renamed | RenamedUnheard | NotRenamed

  datatype State = State(
    named: Database,
    staging: Database,
    phase: Phase,
    writers: map<Batch, Writer>,
    used: set<Batch>,
    acked: set<Batch>,
    renamed: bool,
    marked: bool,
    /** Acknowledged batches another drain had moved out of the buffer before it was copied. */
    drained: set<Batch>)

  datatype Event =
    | Begin
    | Load(rows: set<Batch>)
    | LoadFails
    | Route(b: Batch)
    | Enter(b: Batch)
    | Buffer(b: Batch, outcome: Commit)
    | LiveWrite(b: Batch)
    | ShutForSwap
    | ShutToAbandon
    | Move(ok: bool)
    | RenameTo(result: Rename)
    | AbandonDrain(ok: bool)
    | Drain
    | Crash

  /** A replace has its gate from its claim until it is swapped in or abandoned. */
  predicate Registered(p: Phase)
  {
    p.Loading? || p.SwapShut? || p.Moved? || p.Failing?
  }

  predicate GateOpen(p: Phase)
  {
    p.Loading? || p.Failing?
  }

  predicate SomeoneInside(s: State)
  {
    exists b :: b in s.writers && s.writers[b].Inside?
  }

  /** `drain_pending`: the buffer into the table, and the buffer dropped, in one transaction. */
  function Drained(d: Database): Database
  {
    Database(d.live + d.pending, multiset{})
  }

  ghost function Next(s: State, e: Event): State
  {
    match e
    case Begin =>
      if s.phase.Idle? then s.(phase := Loading, staging := Database(multiset{}, multiset{})) else s
    case Load(rows) =>
      if s.phase.Loading? && rows !! s.used then
        s.(staging := s.staging.(live := s.staging.live + multiset(rows)), used := s.used + rows)
      else s
    case LoadFails => if s.phase.Loading? then s.(phase := Failing) else s
    case Route(b) =>
      if Registered(s.phase) && b !in s.used then s.(writers := s.writers[b := Routed], used := s.used + {b}) else s
    case Enter(b) =>
      if b !in s.writers || s.writers[b].Inside? then s
      else if GateOpen(s.phase) then s.(writers := s.writers[b := Inside])
      else s.(writers := s.writers - {b})
    case Buffer(b, outcome) =>
      if b !in s.writers || s.writers[b].Routed? then s
      else
        var gone := s.(writers := s.writers - {b});
        if outcome.Refused? then gone
        else
          var stored := gone.(named := s.named.(pending := s.named.pending + multiset{b}));
          if outcome.Acked? then stored.(acked := s.acked + {b}) else stored
    case LiveWrite(b) =>
      if b in s.used then s
      else s.(named := s.named.(live := s.named.live + multiset{b}), used := s.used + {b})
    case ShutForSwap =>
      if s.phase.Loading? && !SomeoneInside(s) then s.(phase := SwapShut) else s
    case ShutToAbandon =>
      if s.phase.Failing? && !SomeoneInside(s) then s.(phase := AbandonShut) else s
    case Move(ok) =>
      if !s.phase.SwapShut? then s
      else if ok then
        s.(phase := Moved,
           staging := s.staging.(pending := s.staging.pending + s.named.pending),
           drained := set b | b in s.acked && b !in s.named.pending)
      else s.(phase := AbandonShut)
    case RenameTo(outcome) =>
      if !s.phase.Moved? then s
      else
        (match outcome
         case Renamed => s.(named := s.staging, renamed := true, phase := Swapped)
         case RenamedUnheard => s.(named := s.staging, renamed := true, phase := AbandonShut)
         case NotRenamed => s.(phase := AbandonShut))
    case AbandonDrain(ok) =>
      if !s.phase.AbandonShut? then s
      else if ok then s.(named := Drained(s.named), phase := Abandoned)
      else s.(phase := Abandoned, marked := true)
    case Drain => s.(named := Drained(s.named), marked := false)
    case Crash =>
      // What was half done is dropped at the next start; the sweep drains what is left.
      s.(phase := if s.phase.Idle? then Idle else if s.phase.Swapped? then Swapped else Abandoned,
         writers := map[], marked := true)
  }

  ghost function Run(s: State, events: seq<Event>): State
    decreases |events|
  {
    if events == [] then s else Run(Next(s, events[0]), events[1..])
  }

  /** Before an import: any database, none of its rows held for it. */
  ghost predicate Fresh(s: State)
  {
    && s.phase.Idle? && !s.renamed && s.writers == map[] && s.acked == {} && s.drained == {}
    && (forall b :: b in s.named.live || b in s.named.pending ==> b in s.used)
  }

  // -------------------------------------------------------------------------

  /** How many copies of a batch a database holds, live or buffered. */
  function Copies(d: Database, b: Batch): nat
  {
    d.live[b] + d.pending[b]
  }

  ghost predicate Inv(s: State)
  {
    && (forall b :: b in s.writers ==> b in s.used && b !in s.acked && Copies(s.named, b) == 0)
    && (forall b :: b in s.acked ==> b in s.used)
    && (forall b :: b in s.named.live || b in s.named.pending ==> b in s.used)
    && (SomeoneInside(s) ==> GateOpen(s.phase))
    && (s.renamed ==> !Registered(s.phase) && !s.phase.Idle?)
    && (s.phase.Idle? ==> s.acked == {})
    && (s.phase.Swapped? ==> s.renamed)
    && s.drained <= s.acked
    && Staged(s)
    && (forall b :: b in s.acked ==> Copies(s.named, b) == if s.renamed && b in s.drained then 0 else 1)
    && (s.phase.Abandoned? && !s.marked ==> forall b :: b in s.acked ==> s.named.pending[b] == 0)
  }

  /** The staging database: only archive rows before the copy, the held batches too after it. */
  ghost predicate Staged(s: State)
  {
    && (s.phase.Loading? || s.phase.SwapShut? || s.phase.Failing? ==>
          s.staging.pending == multiset{} && s.drained == {}
          && (forall b :: b in s.staging.live ==> b in s.used && b !in s.acked && b !in s.writers))
    && (s.phase.Moved? ==>
          && (forall b :: b in s.staging.live || b in s.staging.pending ==> b in s.used && b !in s.writers)
          && (forall b :: b in s.acked ==> Copies(s.staging, b) == if b in s.drained then 0 else 1))
  }

  /** None is accepted after the gate is set. */
  lemma NoneAcceptedOnceShut(s: State, e: Event)
    requires Inv(s) && !GateOpen(s.phase)
    ensures Next(s, e).acked == s.acked
  {
  }

  lemma RouteKeepsInv(s: State, b: Batch)
    requires Inv(s)
    ensures Inv(Next(s, Route(b)))
  {
  }

  lemma LiveWriteKeepsInv(s: State, b: Batch)
    requires Inv(s)
    ensures Inv(Next(s, LiveWrite(b)))
  {
    hide SomeoneInside;
    FewerInside(s, Next(s, LiveWrite(b)));
  }

  lemma EnterKeepsInv(s: State, b: Batch)
    requires Inv(s)
    ensures Inv(Next(s, Enter(b)))
  {
  }

  lemma BufferKeepsInv(s: State, b: Batch, outcome: Commit)
    requires Inv(s)
    ensures Inv(Next(s, Buffer(b, outcome)))
  {
    hide SomeoneInside;
    FewerInside(s, Next(s, Buffer(b, outcome)));
    if b in s.writers && s.writers[b].Inside? {
      assert SomeoneInside(s) by {
        InsideAt(s, b);
      }
    }
  }

  lemma FewerInside(s: State, s': State)
    requires forall b :: b in s'.writers ==> b in s.writers && s'.writers[b] == s.writers[b]
    ensures SomeoneInside(s') ==> SomeoneInside(s)
  {
  }

  lemma InsideAt(s: State, b: Batch)
    requires b in s.writers && s.writers[b].Inside?
    ensures SomeoneInside(s)
  {
  }

  lemma ImportKeepsInv(s: State, e: Event)
    requires Inv(s) && (e.Begin? || e.Load? || e.LoadFails? || e.ShutForSwap? || e.ShutToAbandon?)
    ensures Inv(Next(s, e))
  {
  }

  lemma MoveKeepsInv(s: State, ok: bool)
    requires Inv(s)
    ensures Inv(Next(s, Move(ok)))
  {
  }

  lemma RenameKeepsInv(s: State, outcome: Rename)
    requires Inv(s)
    ensures Inv(Next(s, RenameTo(outcome)))
  {
  }

  lemma DrainKeepsInv(s: State)
    requires Inv(s)
    ensures Inv(Next(s, Drain))
  {
    DrainedCopies(s.named);
  }

  /** Draining moves batches and makes none. */
  lemma DrainedCopies(d: Database)
    ensures forall b :: Copies(Drained(d), b) == Copies(d, b) && Drained(d).pending[b] == 0
    ensures forall b :: b in Drained(d).live <==> b in d.live || b in d.pending
  {
  }

  lemma AbandonKeepsInv(s: State, ok: bool)
    requires Inv(s)
    ensures Inv(Next(s, AbandonDrain(ok)))
  {
    DrainedCopies(s.named);
  }

  lemma CrashKeepsInv(s: State)
    requires Inv(s)
    ensures Inv(Next(s, Crash))
  {
  }

  lemma NextKeepsInv(s: State, e: Event)
    requires Inv(s)
    ensures Inv(Next(s, e))
  {
    hide Inv, Next;
    match e
    case Route(b) => RouteKeepsInv(s, b);
    case Enter(b) => EnterKeepsInv(s, b);
    case Buffer(b, outcome) => BufferKeepsInv(s, b, outcome);
    case LiveWrite(b) => LiveWriteKeepsInv(s, b);
    case Begin => ImportKeepsInv(s, e);
    case Load(_) => ImportKeepsInv(s, e);
    case LoadFails => ImportKeepsInv(s, e);
    case ShutForSwap => ImportKeepsInv(s, e);
    case ShutToAbandon => ImportKeepsInv(s, e);
    case Move(ok) => MoveKeepsInv(s, ok);
    case RenameTo(outcome) => RenameKeepsInv(s, outcome);
    case AbandonDrain(ok) => AbandonKeepsInv(s, ok);
    case Drain => DrainKeepsInv(s);
    case Crash => CrashKeepsInv(s);
  }

  lemma {:induction false} RunKeepsInv(s: State, events: seq<Event>)
    requires Inv(s)
    ensures Inv(Run(s, events))
    decreases |events|
  {
    if events != [] {
      NextKeepsInv(s, events[0]);
      RunKeepsInv(Next(s, events[0]), events[1..]);
    }
  }

  /**
    Over every interleaving: each batch acknowledged through the gate is in the
    database that has the name exactly once, live or buffered, unless the
    rename committed and another drain had taken it out of the buffer before
    the buffer was copied; then it went with the database that was replaced.
  */
  lemma HeldExactlyOnce(s: State, events: seq<Event>, b: Batch)
    requires Fresh(s) && b in Run(s, events).acked
    ensures var end := Run(s, events);
            Copies(end.named, b) == if end.renamed && b in end.drained then 0 else 1
  {
    RunKeepsInv(s, events);
  }

  /** Once abandoned, what was held is served, or is buffered with the database marked to be drained. */
  lemma AbandonedKeepsHeld(s: State, events: seq<Event>, b: Batch)
    requires Fresh(s) && b in Run(s, events).acked
    requires Run(s, events).phase.Abandoned? && !Run(s, events).renamed
    ensures var end := Run(s, events);
            Copies(end.named, b) == 1 && (end.named.live[b] == 1 || end.marked)
  {
    RunKeepsInv(s, events);
  }

  // -------------------------------------------------------------------------
  // When no other drain gets in between

  /** The phases in which the target's buffer must be left alone. */
  predicate Holding(p: Phase)
  {
    p.Loading? || p.SwapShut? || p.Failing?
  }

  /** No other drain of the target runs while its ingest is being held for the copy. */
  ghost predicate Undisturbed(s: State, events: seq<Event>)
    decreases |events|
  {
    events != [] ==> !(events[0].Drain? && Holding(s.phase)) && Undisturbed(Next(s, events[0]), events[1..])
  }

  // -------------------------------------------------------------------------
  // And exactly what is lost when one does

  /** Some other drain ran while ingest was held for the copy, with `b` acknowledged by then. */
  ghost predicate DrainedWhileHeld(s: State, events: seq<Event>, b: Batch)
    decreases |events|
  {
    && events != []
    && (TakesOut(s, events[0], b) || DrainedWhileHeld(Next(s, events[0]), events[1..], b))
  }

  predicate TakesOut(s: State, e: Event, b: Batch)
  {
    e.Drain? && Holding(s.phase) && b in s.acked
  }

  /** Where the state shows whether `b` was taken out of the buffer before the copy. */
  predicate Tracked(s: State, b: Batch, out: bool)
  {
    && (b !in s.acked ==> !out)
    && (b in s.acked && Holding(s.phase) ==> (out <==> b !in s.named.pending))
    && (b in s.acked && (s.phase.Moved? || s.renamed) ==> (out <==> b in s.drained))
  }

  /** What the invariant says of one batch. */
  predicate Minded(s: State, b: Batch)
  {
    && (b in s.writers ==> b !in s.acked && (s.writers[b].Inside? ==> GateOpen(s.phase)))
    && (s.phase.Idle? ==> b !in s.acked)
    && (s.renamed ==> !Registered(s.phase) && !s.phase.Idle?)
  }

  lemma InvMinds(s: State, b: Batch)
    requires Inv(s)
    ensures Minded(s, b)
  {
    hide Copies, Staged;
  }

  lemma TrackedStep(s: State, e: Event, b: Batch, out: bool)
    requires Minded(s, b) && Tracked(s, b, out)
    ensures Tracked(Next(s, e), b, out || TakesOut(s, e, b))
  {
    hide SomeoneInside, Minded, Next, Tracked, TakesOut;
    match e
    case Buffer(c, outcome) => TrackedBuffer(s, c, outcome, b, out);
    case Move(ok) => TrackedMove(s, ok, b, out);
    case RenameTo(outcome) => TrackedRename(s, outcome, b, out);
    case Drain => TrackedDrain(s, b, out);
    case _ => TrackedElse(s, e, b, out);
  }

  lemma TrackedBuffer(s: State, c: Batch, outcome: Commit, b: Batch, out: bool)
    requires Minded(s, b) && Tracked(s, b, out)
    ensures Tracked(Next(s, Buffer(c, outcome)), b, out) && !TakesOut(s, Buffer(c, outcome), b)
  {
  }

  lemma TrackedMove(s: State, ok: bool, b: Batch, out: bool)
    requires Minded(s, b) && Tracked(s, b, out)
    ensures Tracked(Next(s, Move(ok)), b, out) && !TakesOut(s, Move(ok), b)
  {
  }

  lemma TrackedRename(s: State, outcome: Rename, b: Batch, out: bool)
    requires Minded(s, b) && Tracked(s, b, out)
    ensures Tracked(Next(s, RenameTo(outcome)), b, out) && !TakesOut(s, RenameTo(outcome), b)
  {
  }

  lemma TrackedDrain(s: State, b: Batch, out: bool)
    requires Minded(s, b) && Tracked(s, b, out)
    ensures Tracked(Next(s, Drain), b, out || TakesOut(s, Drain, b))
  {
  }

  lemma TrackedElse(s: State, e: Event, b: Batch, out: bool)
    requires Minded(s, b) && Tracked(s, b, out)
    requires !e.Buffer? && !e.Move? && !e.RenameTo? && !e.Drain?
    ensures Tracked(Next(s, e), b, out) && !TakesOut(s, e, b)
  {
    hide SomeoneInside;
  }

  lemma {:induction false} TrackedRun(s: State, events: seq<Event>, b: Batch, out: bool)
    requires Inv(s) && Tracked(s, b, out)
    ensures Tracked(Run(s, events), b, out || DrainedWhileHeld(s, events, b))
    decreases |events|
  {
    hide Inv, Next, Tracked, TakesOut;
    if events != [] {
      var e := events[0];
      NextKeepsInv(s, e);
      InvMinds(s, b);
      TrackedStep(s, e, b, out);
      TrackedRun(Next(s, e), events[1..], b, out || TakesOut(s, e, b));
    }
  }

  /**
    Over every interleaving, an acknowledged batch is lost if and only if the
    rename committed and another drain of the target ran while its ingest was
    held, with the batch already acknowledged. Otherwise it is there once.
  */
  lemma LostExactly(s: State, events: seq<Event>, b: Batch)
    requires Fresh(s) && b in Run(s, events).acked
    ensures var end := Run(s, events);
            Copies(end.named, b) == if end.renamed && DrainedWhileHeld(s, events, b) then 0 else 1
  {
    hide Next, Run;
    TrackedRun(s, events, b, false);
    HeldExactlyOnce(s, events, b);
  }

  lemma {:induction false} UndisturbedTakesNothingOut(s: State, events: seq<Event>, b: Batch)
    requires Undisturbed(s, events)
    ensures !DrainedWhileHeld(s, events, b)
    decreases |events|
  {
    hide Next;
    if events != [] {
      UndisturbedTakesNothingOut(Next(s, events[0]), events[1..], b);
    }
  }

  /** Undisturbed, nothing acknowledged is lost, whichever way the import ends and wherever it stops. */
  lemma UndisturbedLosesNothing(s: State, events: seq<Event>, b: Batch)
    requires Fresh(s) && Undisturbed(s, events) && b in Run(s, events).acked
    ensures Copies(Run(s, events).named, b) == 1
  {
    hide Run;
    UndisturbedTakesNothingOut(s, events, b);
    LostExactly(s, events, b);
  }

  /** Such a run: a drain of the target while it is held, then a swap. Every batch acknowledged so far is lost. */
  lemma ADrainThenASwapLoses(s: State, b: Batch)
    requires Inv(s) && s.phase.Loading? && !SomeoneInside(s) && b in s.acked
    ensures var end := Run(s, [Drain, ShutForSwap, Move(true), RenameTo(Renamed)]);
            b in end.acked && Copies(end.named, b) == 0
  {
    hide Inv, SomeoneInside;
    var s1 := Next(s, Drain);
    var s2 := Next(s1, ShutForSwap);
    assert SomeoneInside(s1) == SomeoneInside(s) by {
      SameWriters(s, s1);
    }
    var s3 := Next(s2, Move(true));
    var s4 := Next(s3, RenameTo(Renamed));
    NextKeepsInv(s, Drain);
    NextKeepsInv(s1, ShutForSwap);
    NextKeepsInv(s2, Move(true));
    NextKeepsInv(s3, RenameTo(Renamed));
    assert b in s3.drained && s4.renamed;
    InvAt(s4, b);
    Unrolled(s, Drain, [ShutForSwap, Move(true), RenameTo(Renamed)]);
    Unrolled(s1, ShutForSwap, [Move(true), RenameTo(Renamed)]);
    Unrolled(s2, Move(true), [RenameTo(Renamed)]);
    Unrolled(s3, RenameTo(Renamed), []);
  }

  lemma SameWriters(s: State, s': State)
    requires s.writers == s'.writers
    ensures SomeoneInside(s) == SomeoneInside(s')
  {
  }

  lemma InvAt(s: State, b: Batch)
    requires Inv(s) && b in s.acked
    ensures Copies(s.named, b) == if s.renamed && b in s.drained then 0 else 1
  {
  }

  /** Such a state is four events from a fresh start. */
  lemma AHeldBatch(b: Batch)
    ensures var empty := Database(multiset{}, multiset{});
            var s := State(empty, empty, Idle, map[], {}, {}, false, false, {});
            var held := Run(s, [Begin, Route(b), Enter(b), Buffer(b, Acked)]);
            Fresh(s) && Inv(held) && held.phase.Loading? && !SomeoneInside(held) && b in held.acked
  {
    var empty := Database(multiset{}, multiset{});
    var s := State(empty, empty, Idle, map[], {}, {}, false, false, {});
    var s1 := Next(s, Begin);
    var s2 := Next(s1, Route(b));
    var s3 := Next(s2, Enter(b));
    assert s3.writers == map[b := Inside];
    var s4 := Next(s3, Buffer(b, Acked));
    assert s4.writers == map[] && s4.acked == {b};
    RunKeepsInv(s, [Begin, Route(b), Enter(b), Buffer(b, Acked)]);
    Unrolled(s, Begin, [Route(b), Enter(b), Buffer(b, Acked)]);
    Unrolled(s1, Route(b), [Enter(b), Buffer(b, Acked)]);
    Unrolled(s2, Enter(b), [Buffer(b, Acked)]);
    Unrolled(s3, Buffer(b, Acked), []);
  }

  lemma Unrolled(s: State, e: Event, rest: seq<Event>)
    ensures Run(s, [e] + rest) == Run(Next(s, e), rest)
  {
  }

  /** A write routed live before the claim and stored after it is replaced with the rest of the database. */
  lemma ALiveWriteIsReplaced(b: Batch)
    ensures var empty := Database(multiset{}, multiset{});
            var s := State(empty, empty, Idle, map[], {}, {}, false, false, {});
            var events := [Begin, LiveWrite(b), ShutForSwap, Move(true), RenameTo(Renamed)];
            Fresh(s) && Copies(Run(s, events[..2]).named, b) == 1 && Copies(Run(s, events).named, b) == 0
  {
    var empty := Database(multiset{}, multiset{});
    var s := State(empty, empty, Idle, map[], {}, {}, false, false, {});
    var events := [Begin, LiveWrite(b), ShutForSwap, Move(true), RenameTo(Renamed)];
    var s1 := Next(s, Begin);
    var s2 := Next(s1, LiveWrite(b));
    assert s2.named == Database(multiset{b}, multiset{});
    var s3 := Next(s2, ShutForSwap);
    assert s3.phase == SwapShut;
    var s4 := Next(s3, Move(true));
    var s5 := Next(s4, RenameTo(Renamed));
    assert s5.named == empty;
    assert events[..2] == [Begin, LiveWrite(b)];
    Unrolled(s, Begin, [LiveWrite(b)]);
    Unrolled(s1, LiveWrite(b), []);
    Unrolled(s, Begin, [LiveWrite(b), ShutForSwap, Move(true), RenameTo(Renamed)]);
    Unrolled(s1, LiveWrite(b), [ShutForSwap, Move(true), RenameTo(Renamed)]);
    Unrolled(s2, ShutForSwap, [Move(true), RenameTo(Renamed)]);
    Unrolled(s3, Move(true), [RenameTo(Renamed)]);
    Unrolled(s4, RenameTo(Renamed), []);
  }

  // -------------------------------------------------------------------------
  // The archive's own rows

  predicate TakesIn(s: State, e: Event, b: Batch)
  {
    e.Load? && s.phase.Loading? && e.rows !! s.used && b in e.rows
  }

  /** Some load put `b` into the staging database. */
  ghost predicate LoadedIn(s: State, events: seq<Event>, b: Batch)
    decreases |events|
  {
    && events != []
    && (TakesIn(s, events[0], b) || LoadedIn(Next(s, events[0]), events[1..], b))
  }

  /** Where a row that was loaded is. */
  predicate Arrived(s: State, b: Batch)
  {
    && b in s.used && b !in s.writers && b !in s.acked && !s.phase.Idle?
    && Copies(s.named, b) == (if s.renamed then 1 else 0)
    && (Registered(s.phase) ==> Copies(s.staging, b) == 1 && !s.renamed)
  }

  /** What the invariant says of a batch nobody has used. */
  predicate Unused(s: State, b: Batch)
  {
    && Copies(s.named, b) == 0 && b !in s.writers && b !in s.acked
    && (s.phase.Loading? ==> Copies(s.staging, b) == 0 && !s.renamed)
  }

  lemma InvUnused(s: State, b: Batch)
    requires Inv(s) && b !in s.used
    ensures Unused(s, b)
  {
  }

  lemma ArrivedAtLoad(s: State, e: Event, b: Batch)
    requires Unused(s, b) && b !in s.used && TakesIn(s, e, b)
    ensures Arrived(Next(s, e), b)
  {
  }

  lemma ArrivedStep(s: State, e: Event, b: Batch)
    requires Arrived(s, b)
    ensures Arrived(Next(s, e), b)
  {
    hide SomeoneInside;
    if e.Move? {
      ArrivedMove(s, e.ok, b);
    } else if e.Load? {
      ArrivedLoad(s, e.rows, b);
    }
  }

  lemma ArrivedMove(s: State, ok: bool, b: Batch)
    requires Arrived(s, b)
    ensures Arrived(Next(s, Move(ok)), b)
  {
  }

  lemma ArrivedLoad(s: State, rows: set<Batch>, b: Batch)
    requires Arrived(s, b)
    ensures Arrived(Next(s, Load(rows)), b)
  {
  }

  lemma {:induction false} ArrivedRun(s: State, events: seq<Event>, b: Batch)
    requires Inv(s) && (Arrived(s, b) || LoadedIn(s, events, b))
    ensures Arrived(Run(s, events), b)
    decreases |events|
  {
    hide Inv, Next, Arrived;
    if events != [] {
      var e := events[0];
      NextKeepsInv(s, e);
      if Arrived(s, b) {
        ArrivedStep(s, e, b);
      } else if TakesIn(s, e, b) {
        InvUnused(s, b);
        ArrivedAtLoad(s, e, b);
      }
      ArrivedRun(Next(s, e), events[1..], b);
    }
  }

  /** A loaded row is in the named database exactly once if the rename committed, and otherwise not at all. */
  lemma LoadedExactlyOnce(s: State, events: seq<Event>, b: Batch)
    requires Fresh(s) && LoadedIn(s, events, b)
    ensures var end := Run(s, events); Copies(end.named, b) == if end.renamed then 1 else 0
  {
    hide Next, Run, LoadedIn;
    ArrivedRun(s, events, b);
  }

  /** An import that fails is abandoned: a batch held meanwhile is served by the original. */
  lemma AnImportIsAbandoned(b: Batch)
    ensures var empty := Database(multiset{}, multiset{});
            var s := State(empty, empty, Idle, map[], {}, {}, false, false, {});
            var held := Run(s, [Begin, Route(b), Enter(b), Buffer(b, Acked)]);
            var end := Run(held, [LoadFails, ShutToAbandon, AbandonDrain(true)]);
            end.phase == Abandoned && !end.renamed && end.named == Database(multiset{b}, multiset{})
  {
    var empty := Database(multiset{}, multiset{});
    var s := State(empty, empty, Idle, map[], {}, {}, false, false, {});
    var events := [Begin, Route(b), Enter(b), Buffer(b, Acked)];
    AHeldBatch(b);
    var held := Run(s, events);
    HeldPending(b);
    var s1 := Next(held, LoadFails);
    assert SomeoneInside(s1) == SomeoneInside(held) by {
      SameWriters(held, s1);
    }
    var s2 := Next(s1, ShutToAbandon);
    assert s2.phase == AbandonShut;
    var s3 := Next(s2, AbandonDrain(true));
    assert s3.named == Drained(held.named);
    Unrolled(held, LoadFails, [ShutToAbandon, AbandonDrain(true)]);
    Unrolled(s1, ShutToAbandon, [AbandonDrain(true)]);
    Unrolled(s2, AbandonDrain(true), []);
  }

  lemma HeldPending(b: Batch)
    ensures var empty := Database(multiset{}, multiset{});
            var s := State(empty, empty, Idle, map[], {}, {}, false, false, {});
            var held := Run(s, [Begin, Route(b), Enter(b), Buffer(b, Acked)]);
            held.named == Database(multiset{}, multiset{b}) && !held.renamed
  {
    var empty := Database(multiset{}, multiset{});
    var s := State(empty, empty, Idle, map[], {}, {}, false, false, {});
    var s1 := Next(s, Begin);
    var s2 := Next(s1, Route(b));
    var s3 := Next(s2, Enter(b));
    assert s3.writers == map[b := Inside];
    var s4 := Next(s3, Buffer(b, Acked));
    assert s4.named == Database(multiset{}, multiset{b});
    Unrolled(s, Begin, [Route(b), Enter(b), Buffer(b, Acked)]);
    Unrolled(s1, Route(b), [Enter(b), Buffer(b, Acked)]);
    Unrolled(s2, Enter(b), [Buffer(b, Acked)]);
    Unrolled(s3, Buffer(b, Acked), []);
  }

  /** An import that nothing disturbs swaps in: its row and a batch held meanwhile are served, each once. */
  lemma AnImportSwapsIn(row: Batch, b: Batch)
    requires row != b
    ensures var empty := Database(multiset{}, multiset{});
            var s := State(empty, empty, Idle, map[], {}, {}, false, false, {});
            var end := Run(s, [Begin, Load({row}), Route(b), Enter(b), Buffer(b, Acked),
                               ShutForSwap, Move(true), RenameTo(Renamed)]);
            && Fresh(s) && end.renamed && b in end.acked
            && end.named.live == multiset{row} && end.named.pending == multiset{b}
  {
    var empty := Database(multiset{}, multiset{});
    var s := State(empty, empty, Idle, map[], {}, {}, false, false, {});
    var e := [Begin, Load({row}), Route(b), Enter(b), Buffer(b, Acked), ShutForSwap, Move(true), RenameTo(Renamed)];
    var loaded := Next(Next(s, Begin), Load({row}));
    assert loaded == State(empty, Database(multiset{row}, multiset{}), Loading, map[], {row}, {}, false, false, {});
    HeldSwapsIn(loaded, row, b);
    assert e == [e[0]] + e[1..] && e[1..] == [e[1]] + e[2..];
    Unrolled(s, e[0], e[1..]);
    Unrolled(Next(s, e[0]), e[1], e[2..]);
    assert e[2..] == [Route(b), Enter(b), Buffer(b, Acked), ShutForSwap, Move(true), RenameTo(Renamed)];
  }

  lemma HeldSwapsIn(s: State, row: Batch, b: Batch)
    requires var empty := Database(multiset{}, multiset{});
             s == State(empty, Database(multiset{row}, multiset{}), Loading, map[], {row}, {}, false, false, {})
    requires row != b
    ensures var end := Run(s, [Route(b), Enter(b), Buffer(b, Acked), ShutForSwap, Move(true), RenameTo(Renamed)]);
            end.renamed && b in end.acked && end.named.live == multiset{row} && end.named.pending == multiset{b}
  {
    var s3 := Next(Next(Next(s, Route(b)), Enter(b)), Buffer(b, Acked));
    assert s3 == State(Database(multiset{}, multiset{b}), s.staging, Loading, map[], {row, b}, {b},
                       false, false, {}) by {
      assert Next(Next(s, Route(b)), Enter(b)).writers == map[b := Inside];
      assert s3.writers == map[];
    }
    hide Next, Run;
    var swap := [ShutForSwap, Move(true), RenameTo(Renamed)];
    SwapsIn(s3, row, b);
    assert [Route(b), Enter(b), Buffer(b, Acked), ShutForSwap, Move(true), RenameTo(Renamed)]
        == [Route(b)] + ([Enter(b)] + ([Buffer(b, Acked)] + swap));
    Unrolled(s, Route(b), [Enter(b)] + ([Buffer(b, Acked)] + swap));
    Unrolled(Next(s, Route(b)), Enter(b), [Buffer(b, Acked)] + swap);
    Unrolled(Next(Next(s, Route(b)), Enter(b)), Buffer(b, Acked), swap);
  }

  lemma SwapsIn(s: State, row: Batch, b: Batch)
    requires s == State(Database(multiset{}, multiset{b}), Database(multiset{row}, multiset{}), Loading,
                        map[], {row, b}, {b}, false, false, {})
    ensures var end := Run(s, [ShutForSwap, Move(true), RenameTo(Renamed)]);
            end.renamed && b in end.acked && end.named.live == multiset{row} && end.named.pending == multiset{b}
  {
    var s1 := Next(s, ShutForSwap);
    assert s1.phase == SwapShut;
    var s2 := Next(s1, Move(true));
    assert s2.staging == Database(multiset{row}, multiset{b});
    Unrolled(s, ShutForSwap, [Move(true), RenameTo(Renamed)]);
    Unrolled(s1, Move(true), [RenameTo(Renamed)]);
    Unrolled(s2, RenameTo(Renamed), []);
  }
}
