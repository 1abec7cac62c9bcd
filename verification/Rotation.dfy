/**
  Rotating the gateway's database password. The new password is staged beside
  the password file, then set by `ALTER ROLE`, then promoted over the file; a
  start that finds a staged password promotes or discards it. The gateway can
  stop between any two steps, and the reply to `ALTER ROLE` can be lost.
*/
module Rotation {

  import opened Wrappers

  type Password = nat

  /** What the gateway process is doing, with the credential it holds in memory. */
  datatype Process =
    | Off
    | Starting(memory: Password)
    | Serving(memory: Password)
    | StagedNew(memory: Password, candidate: Password)
    | AlteredTo(memory: Password)

  /** The role's password in PostgreSQL, the file, the `.next` beside it, and the process. */
  datatype World = World(role: Password, file: Password, staged: Option<Password>, process: Process)

  /** `ALTER ROLE` took and said so, took without the reply arriving, or did not take. */
  datatype Alter = Took | TookUnheard | Refused

  datatype Step =
    | Boot
    | Reach(reachable: bool, moved: bool)
    | Stage(candidate: Password)
    | AlterRole(outcome: Alter)
    | Promote(moved: bool)
    | Crash

  /** One connection attempt of `reach_postgres`; `moved` is whether its promote or discard succeeded. */
  function ReachPostgres(w: World, memory: Password, reachable: bool, moved: bool): World
  {
    if !reachable then w
    else if w.staged.None? then
      if memory == w.role then w.(process := Serving(memory)) else w
    else if memory == w.role then
      // The credential in memory opens the role, so the staged file goes.
      if moved then w.(staged := None, process := Serving(memory)) else w
    else if w.staged.value != w.role then w
    else if moved then w.(file := w.staged.value, staged := None, process := Serving(w.staged.value))
    else w.(process := Starting(w.staged.value))
  }

  function Next(w: World, s: Step): World
  {
    match (w.process, s)
    case (Off, Boot) => w.(process := Starting(w.file))
    case (Starting(m), Reach(reachable, moved)) => ReachPostgres(w, m, reachable, moved)
    case (Serving(m), Stage(p)) =>
      // Staged over a connection, which the credential must open.
      if m == w.role then w.(staged := Some(p), process := StagedNew(m, p)) else w
    case (StagedNew(m, p), AlterRole(Took)) => w.(role := p, process := AlteredTo(p))
    case (StagedNew(m, p), AlterRole(TookUnheard)) => w.(role := p, process := Serving(m))
    case (StagedNew(m, p), AlterRole(Refused)) => w.(process := Serving(m))
    case (AlteredTo(p), Promote(moved)) =>
      if moved && w.staged.Some? then w.(file := w.staged.value, staged := None, process := Serving(p))
      else w.(process := Serving(p))
    case (_, Crash) => w.(process := Off)
    case _ => w
  }

  /** The next start can get in: the role's password is the file's or the staged file's. */
  predicate Recoverable(w: World)
  {
    w.role == w.file || w.staged == Some(w.role)
  }

  /** A new password is none of those around. */
  ghost predicate Fresh(w: World, p: Password)
  {
    p != w.role && p != w.file && w.staged != Some(p)
  }

  ghost predicate Plausible(w: World)
  {
    match w.process
    case StagedNew(m, p) => w.staged == Some(p) && m == w.role
    case AlteredTo(p) => w.staged == Some(p) && w.role == p
    case _ => true
  }

  /** The file holds the credential in memory: what a caller can look at first. */
  predicate FileUpToDate(w: World)
  {
    match w.process
    case Starting(m) => m == w.file
    case Serving(m) => m == w.file
    case _ => true
  }

  ghost predicate Sensible(w: World, s: Step)
  {
    s.Stage? ==> Fresh(w, s.candidate)
  }

  /** What a step does that can lose the password: stage over a promotion still owed, or discard one. */
  predicate Overwrites(w: World, s: Step)
  {
    match (w.process, s)
    case (Serving(m), Stage(_)) => m == w.role
    case (Starting(m), Reach(reachable, moved)) => reachable && moved && w.staged.Some? && m == w.role
    case _ => false
  }

  /**
    Exactly when one step keeps the gateway recoverable: unless it stages or
    discards while the file is behind the credential in memory.
  */
  lemma StepRecoverable(w: World, s: Step)
    requires Plausible(w) && Recoverable(w) && Sensible(w, s)
    ensures Plausible(Next(w, s))
    ensures Recoverable(Next(w, s)) <==> (Overwrites(w, s) ==> FileUpToDate(w))
  {
  }

  /** Whether every promotion in a step succeeds. */
  predicate Promotes(s: Step)
  {
    (s.Promote? ==> s.moved) && (s.Reach? ==> s.moved)
  }

  function Run(w: World, steps: seq<Step>): World
    decreases |steps|
  {
    if steps == [] then w else Run(Next(w, steps[0]), steps[1..])
  }

  ghost predicate AllSensible(w: World, steps: seq<Step>)
    decreases |steps|
  {
    steps != [] ==> Sensible(w, steps[0]) && AllSensible(Next(w, steps[0]), steps[1..])
  }

  /** The guarded form of a run: the file is looked at before each step that could overwrite it. */
  ghost predicate AllGuarded(w: World, steps: seq<Step>)
    decreases |steps|
  {
    steps != [] ==>
      (Overwrites(w, steps[0]) ==> FileUpToDate(w)) && AllGuarded(Next(w, steps[0]), steps[1..])
  }

  /** The gateway could be started again after the last step of `steps` and after every one before. */
  ghost predicate AlwaysRecoverable(w: World, steps: seq<Step>)
    decreases |steps|
  {
    Recoverable(w) && (steps != [] ==> AlwaysRecoverable(Next(w, steps[0]), steps[1..]))
  }

  /**
    Over any rotations, lost replies, failed promotions and crashes, the role's
    password is always in one of the two files exactly when each step that
    could overwrite it was taken with the file up to date.
  */
  lemma {:induction false} RecoverableExactlyWhenGuarded(w: World, steps: seq<Step>)
    requires Plausible(w) && Recoverable(w) && AllSensible(w, steps)
    ensures AlwaysRecoverable(w, steps) <==> AllGuarded(w, steps)
    decreases |steps|
  {
    if steps != [] {
      StepRecoverable(w, steps[0]);
      if Recoverable(Next(w, steps[0])) {
        RecoverableExactlyWhenGuarded(Next(w, steps[0]), steps[1..]);
      }
    }
  }

  /** Every run whose promotions succeed is guarded, wherever it crashes and whatever reply is lost. */
  lemma {:induction false} PromotingRunGuarded(w: World, steps: seq<Step>)
    requires Plausible(w) && Recoverable(w) && FileUpToDate(w) && AllSensible(w, steps)
    requires match w.process case StagedNew(m, _) => m == w.file case _ => true
    requires forall i :: 0 <= i < |steps| ==> Promotes(steps[i])
    ensures AllGuarded(w, steps)
    decreases |steps|
  {
    if steps != [] {
      StepRecoverable(w, steps[0]);
      PromotingRunGuarded(Next(w, steps[0]), steps[1..]);
    }
  }

  /** So such a run leaves the gateway recoverable at its every step. */
  lemma PromotingRunRecoverable(w: World, steps: seq<Step>)
    requires w.process == Off && w.role == w.file && AllSensible(w, steps)
    requires forall i :: 0 <= i < |steps| ==> Promotes(steps[i])
    ensures AlwaysRecoverable(w, steps)
  {
    PromotingRunGuarded(w, steps);
    RecoverableExactlyWhenGuarded(w, steps);
  }

  /** A rotation that goes through changes the role's password and the file's, and the one in memory. */
  lemma RotationTakes(w: World, p: Password)
    requires w.process == Serving(w.role)
    ensures Run(w, [Stage(p), AlterRole(Took), Promote(true)]) == World(p, p, None, Serving(p))
  {
    var s1 := Next(w, Stage(p));
    var s2 := Next(s1, AlterRole(Took));
    assert [Stage(p), AlterRole(Took), Promote(true)][1..] == [AlterRole(Took), Promote(true)];
    assert [AlterRole(Took), Promote(true)][1..] == [Promote(true)];
    assert [Promote(true)][1..] == [];
    assert Run(s2, [Promote(true)]) == Next(s2, Promote(true));
    assert Run(s1, [AlterRole(Took), Promote(true)]) == Run(s2, [Promote(true)]);
  }

  /** One that PostgreSQL refuses leaves the old password in force everywhere, and one whose reply is lost, the new. */
  lemma RotationFails(w: World, p: Password)
    requires w.process == Serving(w.role)
    ensures Run(w, [Stage(p), AlterRole(Refused)]) == w.(staged := Some(p))
    ensures Run(w, [Stage(p), AlterRole(TookUnheard)]) == w.(staged := Some(p), role := p)
  {
    var s1 := Next(w, Stage(p));
    assert [Stage(p), AlterRole(Refused)][1..] == [AlterRole(Refused)] && [AlterRole(Refused)][1..] == [];
    assert [Stage(p), AlterRole(TookUnheard)][1..] == [AlterRole(TookUnheard)];
    assert [AlterRole(TookUnheard)][1..] == [];
    assert Run(s1, [AlterRole(Refused)]) == Next(s1, AlterRole(Refused));
    assert Run(s1, [AlterRole(TookUnheard)]) == Next(s1, AlterRole(TookUnheard));
  }

  /** The next start connects, and leaves the file and the role equal and nothing staged. */
  lemma StartRecovers(w: World)
    requires Recoverable(w)
    ensures var after := Run(w, [Crash, Boot, Reach(true, true)]);
            after.process == Serving(after.role) && after.role == w.role && after.file == w.role
            && after.staged == None
  {
  }

  /**
    A promotion that fails leaves the new password only in the staged file;
    a second rotation then stages over it, and stopping there shuts the
    gateway out: the role's password is in neither file.
  */
  lemma SecondRotationAfterFailedPromote(old0: Password, p: Password, q: Password)
    requires old0 != p && p != q && q != old0
    ensures var w := World(old0, old0, None, Serving(old0));
            var steps := [Stage(p), AlterRole(Took), Promote(false), Stage(q), Crash];
            AllSensible(w, steps) && !Recoverable(Run(w, steps))
  {
    var w := World(old0, old0, None, Serving(old0));
    var steps := [Stage(p), AlterRole(Took), Promote(false), Stage(q), Crash];
    var w1 := Next(w, steps[0]);
    var w2 := Next(w1, steps[1]);
    var w3 := Next(w2, steps[2]);
    var w4 := Next(w3, steps[3]);
    var w5 := Next(w4, steps[4]);
    assert w3 == World(p, old0, Some(p), Serving(p));
    assert w5 == World(p, old0, Some(q), Off);
    assert steps[1..] == [AlterRole(Took), Promote(false), Stage(q), Crash];
    assert steps[2..] == [Promote(false), Stage(q), Crash];
    assert steps[3..] == [Stage(q), Crash];
    assert steps[4..] == [Crash];
    assert steps[1..][1..] == steps[2..] && steps[2..][1..] == steps[3..] && steps[3..][1..] == steps[4..];
    assert Run(w4, steps[4..]) == w5;
    assert Run(w3, steps[3..]) == w5;
    assert Run(w2, steps[2..]) == w5;
    assert Run(w1, steps[1..]) == w5;
    assert AllSensible(w3, steps[3..]);
    assert AllSensible(w2, steps[2..]);
    assert AllSensible(w1, steps[1..]);
  }

  /**
    A start that promotes the staged password and fails to is retried by the
    same process with that password still in memory: it now connects, and
    discards the only copy on disk.
  */
  lemma RetriedStartDiscards(old0: Password, p: Password)
    requires old0 != p
    ensures var w := World(p, old0, Some(p), Off);
            var steps := [Boot, Reach(true, false), Reach(true, true)];
            Recoverable(w) && AllSensible(w, steps)
            && Run(w, steps) == World(p, old0, None, Serving(p)) && !Recoverable(Run(w, steps))
  {
  }
}
