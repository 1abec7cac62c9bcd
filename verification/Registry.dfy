/**
  The gate in front of one capture database: its schema state, its cached
  pool, and the tasks that move them. Each task advances one lock section at a
  time, so any interleaving of state changes, migrations, rechecks, retries
  and pool requests is a sequence of `Event`s. What the label says is set
  against `upToDate`, whether the database itself has the current schema.
*/
module Registry {

  import opened Wrappers

  /** `Unknown` is a database with no entry yet. */
  datatype Schema = Unknown | Current | Pending | Migrating | Failed

  /** What a task does once its `set_state` is done. */
  datatype Then = Done | Migrate | Unlock

  datatype Task =
    // pool_if_current: wants the pools lock, holds it, has seen `Current` under it
    | PoolAsk
    | PoolHeld
    | PoolSeen
    // set_state: wants the pools lock, holds it with the pool evicted
    | SetWant(target: Schema, after: Then)
    | SetHeld(target: Schema, after: Then)
    // migrate_from and migrate_holding
    | MigrateWait
    | MigrateProbe
    | MigrateWork
    // start_migration
    | StartAsk
    | StartChecked
    | StartLocked
    | StartProbed(current: bool)
    // recheck_if_behind
    | RecheckAsk
    | RecheckProbe
    | RecheckDecided(target: Schema)
    // migrate_all, on its way round every database
    | SweepProbe

  /**
    The outcome of whatever a task waits for: whether it worked, whether work
    that failed had brought the schema forward all the same, and whether a
    retry is due or, for the sweep, a buffer was left.
  */
  datatype Outcome = Outcome(ok: bool, forward: bool, due: bool)

  datatype State = State(
    upToDate: bool,
    schema: Schema,
    pool: bool,
    poolsLock: Option<nat>,
    migrationLock: Option<nat>,
    tasks: map<nat, Task>)

  datatype Event =
    | Spawn(id: nat, task: Task)
    | Advance(id: nat, outcome: Outcome)
    | Evict
    | ByHand

  /** The points a task may start from. */
  predicate Entry(t: Task)
  {
    || t.PoolAsk? || t.MigrateWait? || t.StartAsk? || t.RecheckAsk? || t.SweepProbe?
    || (t.SetWant? && t.after.Done? && (t.target.Pending? || t.target.Migrating?))
  }

  predicate Settled(s: Schema)
  {
    s.Current? || s.Migrating?
  }

  predicate Behind(s: Schema, due: bool)
  {
    s.Pending? || ((s.Failed? || s.Unknown?) && due)
  }

  function At(s: State, id: nat, t: Task): State
  {
    s.(tasks := s.tasks[id := t])
  }

  function End(s: State, id: nat): State
  {
    s.(tasks := s.tasks - {id})
  }

  /** One lock section of one task; a task that must wait does nothing. */
  function Act(s: State, id: nat, o: Outcome): State
    requires id in s.tasks
  {
    match s.tasks[id]
    case PoolAsk =>
      if s.poolsLock.Some? then s else At(s.(poolsLock := Some(id)), id, PoolHeld)
    case PoolHeld =>
      if s.schema.Current? then At(s, id, PoolSeen)
      else if s.schema.Failed? && o.due then
        // Claimed under the state lock, and retried by a task of its own.
        At(s.(schema := Migrating, poolsLock := None), id, MigrateWait)
      else if s.schema.Unknown? && o.due then At(s.(poolsLock := None), id, MigrateWait)
      else End(s.(poolsLock := None), id)
    case PoolSeen =>
      End(s.(pool := s.pool || o.ok, poolsLock := None), id)
    case SetWant(target, after) =>
      if s.poolsLock.Some? then s
      else At(s.(poolsLock := Some(id), pool := s.pool && target.Current?), id, SetHeld(target, after))
    case SetHeld(target, after) =>
      var set0 := s.(schema := target, poolsLock := None);
      (match after
       case Done => End(set0, id)
       case Migrate => At(set0, id, MigrateWork)
       case Unlock => End(set0.(migrationLock := None), id))
    case MigrateWait =>
      if s.migrationLock.Some? then s else At(s.(migrationLock := Some(id)), id, MigrateProbe)
    case MigrateProbe =>
      if !o.ok then At(s, id, SetWant(Failed, Unlock))
      else if s.upToDate then At(s, id, MigrateWork)
      else At(s, id, SetWant(Migrating, Migrate))
    case MigrateWork =>
      var worked := s.(upToDate := s.upToDate || o.ok || o.forward);
      At(worked, id, SetWant(if o.ok then Current else Failed, Unlock))
    case StartAsk =>
      if Settled(s.schema) then End(s, id) else At(s, id, StartChecked)
    case StartChecked =>
      if s.migrationLock.Some? then End(s, id) else At(s.(migrationLock := Some(id)), id, StartLocked)
    case StartLocked =>
      if o.ok then At(s, id, StartProbed(s.upToDate)) else End(s.(migrationLock := None), id)
    case StartProbed(current) =>
      if Settled(s.schema) then End(s.(migrationLock := None), id)
      else if current then At(s.(schema := Migrating), id, MigrateWork)
      else At(s.(schema := Migrating), id, SetWant(Migrating, Migrate))
    case RecheckAsk =>
      if Behind(s.schema, o.due) then At(s, id, RecheckProbe) else End(s, id)
    case RecheckProbe =>
      if o.ok then At(s, id, RecheckDecided(if s.upToDate then Current else Pending)) else End(s, id)
    case RecheckDecided(target) =>
      if Behind(s.schema, o.due) then End(s.(schema := target), id) else End(s, id)
    case SweepProbe =>
      At(s, id, SetWant(if !o.ok then Failed else if s.upToDate && !o.due then Current else Pending, Done))
  }

  function Next(s: State, e: Event): State
  {
    match e
    case Spawn(id, task) => if id in s.tasks || !Entry(task) then s else At(s, id, task)
    case Advance(id, o) => if id in s.tasks then Act(s, id, o) else s
    case Evict => if s.poolsLock.Some? then s else s.(pool := false)
    case ByHand => s.(upToDate := true)
  }

  function Run(s: State, events: seq<Event>): State
    decreases |events|
  {
    if events == [] then s else Run(Next(s, events[0]), events[1..])
  }

  function Initial(upToDate: bool): State
  {
    State(upToDate, Unknown, false, None, None, map[])
  }

  // -------------------------------------------------------------------------

  predicate HoldsPools(t: Task)
  {
    t.PoolHeld? || t.PoolSeen? || t.SetHeld?
  }

  /** A migration under way: from taking its lock to giving it back. */
  predicate Migrates(t: Task)
  {
    || t.MigrateProbe? || t.MigrateWork? || t.StartLocked? || t.StartProbed?
    || ((t.SetWant? || t.SetHeld?) && !t.after.Done?)
  }

  ghost predicate Inv(s: State)
  {
    && (s.pool ==> s.schema == Current)
    && (s.schema == Current ==> s.upToDate)
    && (forall id :: id in s.tasks ==> Placed(s, id, s.tasks[id]))
    && (s.poolsLock.Some? ==> s.poolsLock.value in s.tasks && HoldsPools(s.tasks[s.poolsLock.value]))
    && (s.migrationLock.Some? ==> s.migrationLock.value in s.tasks && Migrates(s.tasks[s.migrationLock.value]))
  }

  /** What each task's position promises. */
  ghost predicate Placed(s: State, id: nat, t: Task)
  {
    && (HoldsPools(t) ==> s.poolsLock == Some(id))
    && (Migrates(t) ==> s.migrationLock == Some(id))
    && (t.PoolSeen? ==> s.schema == Current)
    && (t.SetHeld? && t.target != Current ==> !s.pool)
    && (t.RecheckDecided? ==> t.target == Current || t.target == Pending)
    && ((t.RecheckDecided? || t.SetWant? || t.SetHeld?) && t.target == Current ==> s.upToDate)
  }

  lemma PoolKeepsInv(s: State, id: nat, o: Outcome)
    requires Inv(s) && id in s.tasks
    requires var t := s.tasks[id]; t.PoolAsk? || t.PoolHeld? || t.PoolSeen?
    ensures Inv(Act(s, id, o))
  {
  }

  lemma SetKeepsInv(s: State, id: nat, o: Outcome)
    requires Inv(s) && id in s.tasks
    requires var t := s.tasks[id]; t.SetWant? || t.SetHeld?
    ensures Inv(Act(s, id, o))
  {
  }

  lemma MigrateKeepsInv(s: State, id: nat, o: Outcome)
    requires Inv(s) && id in s.tasks
    requires var t := s.tasks[id]; t.MigrateWait? || t.MigrateProbe? || t.MigrateWork?
    ensures Inv(Act(s, id, o))
  {
  }

  lemma StartKeepsInv(s: State, id: nat, o: Outcome)
    requires Inv(s) && id in s.tasks
    requires var t := s.tasks[id]; t.StartAsk? || t.StartChecked? || t.StartLocked? || t.StartProbed?
    ensures Inv(Act(s, id, o))
  {
    hide Inv, Act;
    var t := s.tasks[id];
    if t.StartProbed? {
      StartProbedKeepsInv(s, id, o);
    } else {
      StartLockingKeepsInv(s, id, o);
    }
  }

  lemma StartProbedKeepsInv(s: State, id: nat, o: Outcome)
    requires Inv(s) && id in s.tasks && s.tasks[id].StartProbed?
    ensures Inv(Act(s, id, o))
  {
  }

  lemma StartLockingKeepsInv(s: State, id: nat, o: Outcome)
    requires Inv(s) && id in s.tasks
    requires var t := s.tasks[id]; t.StartAsk? || t.StartChecked? || t.StartLocked?
    ensures Inv(Act(s, id, o))
  {
  }

  lemma RecheckKeepsInv(s: State, id: nat, o: Outcome)
    requires Inv(s) && id in s.tasks
    requires var t := s.tasks[id]; t.RecheckAsk? || t.RecheckProbe? || t.RecheckDecided? || t.SweepProbe?
    ensures Inv(Act(s, id, o))
  {
    hide Inv, Act;
    if s.tasks[id].RecheckDecided? {
      RecheckDecidedKeepsInv(s, id, o);
    } else {
      ProbeKeepsInv(s, id, o);
    }
  }

  lemma RecheckDecidedKeepsInv(s: State, id: nat, o: Outcome)
    requires Inv(s) && id in s.tasks && s.tasks[id].RecheckDecided?
    ensures Inv(Act(s, id, o))
  {
  }

  lemma ProbeKeepsInv(s: State, id: nat, o: Outcome)
    requires Inv(s) && id in s.tasks
    requires var t := s.tasks[id]; t.RecheckAsk? || t.RecheckProbe? || t.SweepProbe?
    ensures Inv(Act(s, id, o))
  {
  }

  lemma ActKeepsInv(s: State, id: nat, o: Outcome)
    requires Inv(s) && id in s.tasks
    ensures Inv(Act(s, id, o))
  {
    hide Inv, Act;
    var t := s.tasks[id];
    if t.PoolAsk? || t.PoolHeld? || t.PoolSeen? {
      PoolKeepsInv(s, id, o);
    } else if t.SetWant? || t.SetHeld? {
      SetKeepsInv(s, id, o);
    } else if t.MigrateWait? || t.MigrateProbe? || t.MigrateWork? {
      MigrateKeepsInv(s, id, o);
    } else if t.RecheckAsk? || t.RecheckProbe? || t.RecheckDecided? || t.SweepProbe? {
      RecheckKeepsInv(s, id, o);
    } else {
      StartKeepsInv(s, id, o);
    }
  }

  lemma NextKeepsInv(s: State, e: Event)
    requires Inv(s)
    ensures Inv(Next(s, e))
  {
    hide Act;
    match e
    case Spawn(id, task) =>
      var s' := Next(s, e);
      forall other | other in s'.tasks ensures Placed(s', other, s'.tasks[other]) {
        if other in s.tasks {
          assert Placed(s, other, s.tasks[other]);
        }
      }
    case Advance(id, o) =>
      if id in s.tasks {
        ActKeepsInv(s, id, o);
      }
    case _ =>
      var s' := Next(s, e);
      forall other | other in s'.tasks ensures Placed(s', other, s'.tasks[other]) {
        assert Placed(s, other, s.tasks[other]);
      }
  }

  lemma {:induction false} RunKeepsInv(s: State, events: seq<Event>)
    requires Inv(s)
    ensures Inv(Run(s, events))
    decreases |events|
  {
    if events != [] {
      NextKeepsInv(s, events[0]);
      RunKeepsInv(Next(s, events[0]), events[1..]);
    }
  }

  /** Whatever the interleaving, a cached pool means a database labelled current, and one so labelled is. */
  lemma PoolImpliesCurrent(upToDate: bool, events: seq<Event>)
    ensures var s := Run(Initial(upToDate), events);
            (s.pool ==> s.schema == Current) && (s.schema == Current ==> s.upToDate)
  {
    RunKeepsInv(Initial(upToDate), events);
  }

  /** And at most one migration of it runs. */
  lemma OneMigration(upToDate: bool, events: seq<Event>, i: nat, j: nat)
    requires var tasks := Run(Initial(upToDate), events).tasks;
             i in tasks && j in tasks && Migrates(tasks[i]) && Migrates(tasks[j])
    ensures i == j
  {
    var s := Run(Initial(upToDate), events);
    RunKeepsInv(Initial(upToDate), events);
    assert Placed(s, i, s.tasks[i]) && Placed(s, j, s.tasks[j]);
  }

  /** No pool appears out of thin air: one is cached only by a request that found the database current. */
  lemma PoolAppearsOnlyWhenCurrent(s: State, e: Event)
    requires Inv(s) && !s.pool && Next(s, e).pool
    ensures e.Advance? && e.id in s.tasks && s.tasks[e.id].PoolSeen? && s.schema == Current
  {
  }

  // -------------------------------------------------------------------------
  // What each task comes to, left to itself

  /** Three lock sections of one task. */
  function Thrice(s: State, id: nat, a: Outcome, b: Outcome, c: Outcome): State
  {
    Run(s, [Advance(id, a), Advance(id, b), Advance(id, c)])
  }

  lemma ThriceSteps(s: State, id: nat, a: Outcome, b: Outcome, c: Outcome)
    ensures Thrice(s, id, a, b, c) == Next(Next(Next(s, Advance(id, a)), Advance(id, b)), Advance(id, c))
  {
    hide Next;
    var last := [Advance(id, c)];
    var two := [Advance(id, b)] + last;
    var s1 := Next(s, Advance(id, a));
    var s2 := Next(s1, Advance(id, b));
    assert [Advance(id, a), Advance(id, b), Advance(id, c)] == [Advance(id, a)] + two;
    RunFirst(s, Advance(id, a), two);
    RunFirst(s1, Advance(id, b), last);
    assert last == last + [] && last == [Advance(id, c)] + [];
    RunFirst(s2, Advance(id, c), []);
  }

  lemma RunFirst(s: State, e: Event, rest: seq<Event>)
    ensures Run(s, [e] + rest) == Run(Next(s, e), rest)
  {
    hide Next;
    assert ([e] + rest)[1..] == rest;
  }

  /** A migration whose work succeeds leaves the database current and up to date, and one whose work fails, failed. */
  lemma MigrationDecides(s: State, id: nat, a: Outcome, b: Outcome, c: Outcome)
    requires id in s.tasks && s.tasks[id] == MigrateWork && s.migrationLock == Some(id) && s.poolsLock == None
    ensures var end := Thrice(s, id, a, b, c);
            && end.schema == (if a.ok then Current else Failed) && (a.ok ==> end.upToDate)
            && end.pool == (s.pool && a.ok)
            && id !in end.tasks && end.migrationLock == None && end.poolsLock == None
  {
    ThriceSteps(s, id, a, b, c);
  }

  /** A recheck of a database left behind labels it by what it is. */
  lemma RecheckDecides(s: State, id: nat, a: Outcome, b: Outcome, c: Outcome)
    requires id in s.tasks && s.tasks[id] == RecheckAsk && s.schema == Pending && b.ok
    ensures Thrice(s, id, a, b, c).schema == if s.upToDate then Current else Pending
  {
    ThriceSteps(s, id, a, b, c);
  }

  /** A recheck leaves alone a current or migrating database, and a failed or unknown one until it is due. */
  lemma RecheckSkips(s: State, id: nat, a: Outcome)
    requires id in s.tasks && s.tasks[id] == RecheckAsk
    ensures Next(s, Advance(id, a)) ==
            if s.schema == Pending || ((s.schema == Failed || s.schema == Unknown) && a.due)
            then At(s, id, RecheckProbe)
            else End(s, id)
  {
  }

  /** The sweep labels it so too, but leaves one with a buffer for later. */
  lemma SweepDecides(s: State, id: nat, a: Outcome, b: Outcome, c: Outcome)
    requires id in s.tasks && s.tasks[id] == SweepProbe && s.poolsLock == None
    ensures Thrice(s, id, a, b, c).schema ==
            if !a.ok then Failed else if s.upToDate && !a.due then Current else Pending
  {
    ThriceSteps(s, id, a, b, c);
  }

  /** A request for the pool of a current database gets one; of any other it gets none. */
  lemma PoolRequestDecides(s: State, id: nat, a: Outcome, b: Outcome, c: Outcome)
    requires id in s.tasks && s.tasks[id] == PoolAsk && s.poolsLock == None && Inv(s) && c.ok
    ensures s.schema == Current ==> Thrice(s, id, a, b, c).pool
    ensures !Thrice(s, id, a, b, c).pool ==> s.schema != Current
    ensures s.schema != Current ==> Next(Next(s, Advance(id, a)), Advance(id, b)).poolsLock == None
  {
    ThriceSteps(s, id, a, b, c);
  }

  /** A migration that finds the database behind says so before it works; one that finds it current works at once. */
  lemma MigrationMarks(s: State, id: nat, a: Outcome, b: Outcome, c: Outcome)
    requires id in s.tasks && s.tasks[id] == MigrateProbe && s.poolsLock == None && a.ok
    ensures s.upToDate ==> Next(s, Advance(id, a)) == At(s, id, MigrateWork)
    ensures !s.upToDate ==> var end := Thrice(s, id, a, b, c);
              end.schema == Migrating && !end.pool && id in end.tasks && end.tasks[id] == MigrateWork
  {
    ThriceSteps(s, id, a, b, c);
  }

  /** An operator's start claims a database that is behind, and is refused one that is current or at it already. */
  lemma StartDecides(s: State, id: nat, a: Outcome, b: Outcome, c: Outcome, d: Outcome)
    requires id in s.tasks && s.tasks[id] == StartAsk && s.migrationLock == None && c.ok
    ensures s.schema == Current || s.schema == Migrating ==> Next(s, Advance(id, a)) == End(s, id)
    ensures s.schema == Pending || s.schema == Failed || s.schema == Unknown ==>
              var end := Next(Thrice(s, id, a, b, c), Advance(id, d));
              && end.schema == Migrating && end.migrationLock == Some(id) && end.pool == s.pool && id in end.tasks
              && end.tasks[id] == if s.upToDate then MigrateWork else SetWant(Migrating, Migrate)
  {
    ThriceSteps(s, id, a, b, c);
  }

  /** A request that finds a failed database due, or with no entry one to be migrated, sets a migration going. */
  lemma RequestRetries(s: State, id: nat, a: Outcome, b: Outcome)
    requires id in s.tasks && s.tasks[id] == PoolAsk && s.poolsLock == None && b.due
    requires s.schema == Failed || s.schema == Unknown
    ensures var end := Next(Next(s, Advance(id, a)), Advance(id, b));
            && id in end.tasks && end.tasks[id] == MigrateWait && end.poolsLock == None
            && end.schema == if s.schema == Failed then Migrating else Unknown
  {
  }
}
