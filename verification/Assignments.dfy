/**
  The assignment of catalogues to serial lines, as values: memory, the state
  directory, and the events that move them. Proved of every run: what a
  restart rebuilds, and that sessions of different databases do not disturb
  each other.
*/
module Assignments {

  import opened Wrappers

  type Blob = seq<bv8>
  datatype Refusal = FetchFailed | HashMismatch | DidNotParse

  datatype LineCatalogue = LineCatalogue(path: string, name: string, sha: string, codes: seq<nat>)

  datatype Rules = Gateway(sha: string, catalogue: LineCatalogue) | Etc(catalogue: LineCatalogue) | NoRules

  datatype Update = Assigned(sha: string, catalogue: LineCatalogue) | Cleared | Refused(sha: string, refusal: Refusal)

  /** A framed line: where its stream lands, and its `/etc` catalogue. */
  datatype Line = Line(database: string, etc: Option<LineCatalogue>)

  /** The blob hash, and the parse of a blob cached under a hash; neither is modelled further. */
  datatype Codec = Codec(hash: Blob -> string, parse: (string, Blob) -> Option<LineCatalogue>)

  /** What does not change while the program runs. */
  datatype Site = Site(hasDir: bool, lines: map<string, Line>, codec: Codec)

  /** The state directory: `assignments.json`, and the blobs by hash. */
  datatype Disk = Disk(assignments: map<string, string>, blobs: map<string, Blob>)

  datatype Memory = Memory(
    remembered: map<string, string>, rules: map<string, Rules>, refused: map<string, (string, Refusal)>)

  function Fallback(etc: Option<LineCatalogue>): Rules
  {
    match etc case None => NoRules case Some(c) => Etc(c)
  }

  function Checked(codec: Codec, sha: string, blob: Blob): Result<LineCatalogue, Refusal>
  {
    if codec.hash(blob) != sha then Failure(HashMismatch)
    else match codec.parse(sha, blob) case None => Failure(DidNotParse) case Some(c) => Success(c)
  }

  function Cached(site: Site, blobs: map<string, Blob>, sha: string): Result<LineCatalogue, Refusal>
  {
    if !site.hasDir || sha !in blobs then Failure(FetchFailed) else Checked(site.codec, sha, blobs[sha])
  }

  /** The rules a start gives line `i` when it finds `remembered` and `blobs`. */
  function RememberedRules(site: Site, remembered: map<string, string>, blobs: map<string, Blob>, i: string): Rules
    requires i in site.lines
  {
    if i in remembered && Cached(site, blobs, remembered[i]).Success? then
      Gateway(remembered[i], Cached(site, blobs, remembered[i]).value)
    else Fallback(site.lines[i].etc)
  }

  function Rebuild(site: Site, disk: Disk): Memory
  {
    var remembered := if site.hasDir then disk.assignments else map[];
    Memory(remembered, map i | i in site.lines :: RememberedRules(site, remembered, disk.blobs, i), map[])
  }

  // -------------------------------------------------------------------------
  // Applying one session's updates

  function ApplyOne(site: Site, m: Memory, i: string, u: Update): Memory
  {
    if i !in site.lines then m
    else match u
      case Assigned(sha, c) => Memory(m.remembered[i := sha], m.rules[i := Gateway(sha, c)], m.refused - {i})
      case Cleared => Memory(m.remembered - {i}, m.rules[i := Fallback(site.lines[i].etc)], m.refused - {i})
      case Refused(sha, refusal) => m.(refused := m.refused[i := (sha, refusal)])
  }

  function ApplyAll(site: Site, m: Memory, us: seq<(string, Update)>): Memory
    decreases |us|
  {
    if us == [] then m
    else ApplyOne(site, ApplyAll(site, m, us[..|us| - 1]), us[|us| - 1].0, us[|us| - 1].1)
  }

  /** What memory holds about one line. */
  datatype Entry = Entry(remembered: Option<string>, rules: Option<Rules>, refused: Option<(string, Refusal)>)

  function At<T>(m: map<string, T>, i: string): Option<T>
  {
    if i in m then Some(m[i]) else None
  }

  function EntryOf(m: Memory, i: string): Entry
  {
    Entry(At(m.remembered, i), At(m.rules, i), At(m.refused, i))
  }

  lemma SameEntries(a: Memory, b: Memory)
    requires forall i :: EntryOf(a, i) == EntryOf(b, i)
    ensures a == b
  {
    forall i ensures At(a.remembered, i) == At(b.remembered, i) && At(a.rules, i) == At(b.rules, i)
                     && At(a.refused, i) == At(b.refused, i)
    {
      assert EntryOf(a, i) == EntryOf(b, i);
    }
    SameMap(a.remembered, b.remembered);
    SameMap(a.rules, b.rules);
    SameMap(a.refused, b.refused);
  }

  lemma SameMap<T>(a: map<string, T>, b: map<string, T>)
    requires forall i :: At(a, i) == At(b, i)
    ensures a == b
  {
    forall i ensures i in a <==> i in b {
      assert At(a, i) == At(b, i);
    }
    forall i | i in a ensures a[i] == b[i] {
      assert At(a, i) == At(b, i);
    }
  }

  /** One line's updates, in order: what the last one that took effect left. */
  function Follow(line: Line, e: Entry, us: seq<(string, Update)>, i: string): Entry
    decreases |us|
  {
    if us == [] then e
    else
      var before := Follow(line, e, us[..|us| - 1], i);
      var last := us[|us| - 1];
      if last.0 != i then before
      else match last.1
        case Assigned(sha, c) => Entry(Some(sha), Some(Gateway(sha, c)), None)
        case Cleared => Entry(None, Some(Fallback(line.etc)), None)
        case Refused(sha, refusal) => before.(refused := Some((sha, refusal)))
  }

  /** A line's entry depends on its own updates alone, and a name that is no line's is passed over. */
  lemma {:induction false} ApplyIsPerLine(site: Site, m: Memory, us: seq<(string, Update)>, i: string)
    ensures EntryOf(ApplyAll(site, m, us), i) ==
            if i in site.lines then Follow(site.lines[i], EntryOf(m, i), us, i) else EntryOf(m, i)
    decreases |us|
  {
    if us != [] {
      ApplyIsPerLine(site, m, us[..|us| - 1], i);
    }
  }

  predicate Names(us: seq<(string, Update)>, i: string)
  {
    exists k :: 0 <= k < |us| && us[k].0 == i
  }

  lemma {:induction false} FollowUnnamed(line: Line, e: Entry, us: seq<(string, Update)>, i: string)
    requires !Names(us, i)
    ensures Follow(line, e, us, i) == e
    decreases |us|
  {
    if us != [] {
      assert us[|us| - 1].0 != i;
      FollowUnnamed(line, e, us[..|us| - 1], i);
    }
  }

  /** A second application of the same updates leaves a line where the first did. */
  lemma {:induction false} FollowTwice(line: Line, e: Entry, us: seq<(string, Update)>,
                                       done: seq<(string, Update)>, i: string)
    requires us <= done
    ensures var once, again := Follow(line, e, done, i), Follow(line, Follow(line, e, done, i), us, i);
            && (Settles(us, i) ==> again == Follow(line, e, us, i))
            && (!Settles(us, i) ==> again.remembered == once.remembered && again.rules == once.rules)
            && (!Settles(us, i) && Names(us, i) ==> again.refused == Follow(line, e, us, i).refused)
            && (!Names(us, i) ==> again == once)
    decreases |us|
  {
    if us != [] {
      var p, last := us[..|us| - 1], us[|us| - 1];
      FollowTwice(line, e, p, done, i);
      SettlesLast(us, i);
    }
  }

  /** Some update of line `i` is an assignment or a clearing. */
  predicate Settles(us: seq<(string, Update)>, i: string)
  {
    exists k :: 0 <= k < |us| && us[k].0 == i && !us[k].1.Refused?
  }

  lemma SettlesLast(us: seq<(string, Update)>, i: string)
    requires us != []
    ensures var p, last := us[..|us| - 1], us[|us| - 1];
            && (Settles(us, i) <==> Settles(p, i) || (last.0 == i && !last.1.Refused?))
            && (Names(us, i) <==> Names(p, i) || last.0 == i)
  {
  }

  lemma {:induction false} FollowUnsettled(line: Line, e: Entry, us: seq<(string, Update)>, i: string)
    requires !Settles(us, i)
    ensures Follow(line, e, us, i).remembered == e.remembered && Follow(line, e, us, i).rules == e.rules
    decreases |us|
  {
    if us != [] {
      SettlesLast(us, i);
      FollowUnsettled(line, e, us[..|us| - 1], i);
    }
  }

  /** Applying what is already in force changes nothing. */
  lemma ApplyTwice(site: Site, m: Memory, us: seq<(string, Update)>)
    ensures ApplyAll(site, ApplyAll(site, m, us), us) == ApplyAll(site, m, us)
  {
    var once := ApplyAll(site, m, us);
    var again := ApplyAll(site, once, us);
    forall i ensures EntryOf(again, i) == EntryOf(once, i) {
      ApplyIsPerLine(site, m, us, i);
      ApplyIsPerLine(site, once, us, i);
      if i in site.lines {
        FollowTwice(site.lines[i], EntryOf(m, i), us, us, i);
      }
    }
    SameEntries(again, once);
  }

  /** Every update is for a line of `database`. */
  predicate OwnedBy(site: Site, us: seq<(string, Update)>, database: string)
  {
    forall k :: 0 <= k < |us| ==> us[k].0 in site.lines && site.lines[us[k].0].database == database
  }

  /** Updates from sessions that own different databases commute. */
  lemma SessionsCommute(site: Site, m: Memory, us: seq<(string, Update)>, a: string,
                        vs: seq<(string, Update)>, b: string)
    requires a != b && OwnedBy(site, us, a) && OwnedBy(site, vs, b)
    ensures ApplyAll(site, ApplyAll(site, m, us), vs) == ApplyAll(site, ApplyAll(site, m, vs), us)
  {
    var mu, mv := ApplyAll(site, m, us), ApplyAll(site, m, vs);
    forall i ensures EntryOf(ApplyAll(site, mu, vs), i) == EntryOf(ApplyAll(site, mv, us), i) {
      ApplyIsPerLine(site, m, us, i);
      ApplyIsPerLine(site, m, vs, i);
      ApplyIsPerLine(site, mu, vs, i);
      ApplyIsPerLine(site, mv, us, i);
      if i in site.lines {
        var line := site.lines[i];
        if Names(us, i) {
          assert !Names(vs, i);
          FollowUnnamed(line, EntryOf(m, i), vs, i);
          FollowUnnamed(line, EntryOf(mu, i), vs, i);
        } else {
          FollowUnnamed(line, EntryOf(m, i), us, i);
          FollowUnnamed(line, EntryOf(mv, i), us, i);
        }
      }
    }
    SameEntries(ApplyAll(site, mu, vs), ApplyAll(site, mv, us));
  }

  // -------------------------------------------------------------------------
  // Runs: what the sessions do between two starts

  datatype World = World(mem: Memory, disk: Disk)

  /** A blob stored, or one session's updates applied, and whether the file was written. */
  datatype Event = Store(sha: string, blob: Blob, written: bool) | Apply(us: seq<(string, Update)>, written: bool)

  function Start(site: Site, disk: Disk): World
  {
    World(Rebuild(site, disk), disk)
  }

  function Next(site: Site, w: World, e: Event): World
  {
    match e
    case Store(sha, blob, written) =>
      if site.hasDir && Checked(site.codec, sha, blob).Success? && written then
        w.(disk := w.disk.(blobs := w.disk.blobs[sha := blob]))
      else w
    case Apply(us, written) =>
      var m := ApplyAll(site, w.mem, us);
      if m.remembered != w.mem.remembered && site.hasDir && written then
        World(m, w.disk.(assignments := m.remembered))
      else World(m, w.disk)
  }

  /** An assignment carries the catalogue that is cached under its hash. */
  predicate Backed(site: Site, blobs: map<string, Blob>, us: seq<(string, Update)>)
  {
    forall k :: 0 <= k < |us| && us[k].1.Assigned? ==> Cached(site, blobs, us[k].1.sha) == Success(us[k].1.catalogue)
  }

  /** A blob that is stored again is the same catalogue: no two blobs with one hash are met. */
  predicate NoCollision(site: Site, blobs: map<string, Blob>, sha: string, blob: Blob)
  {
    Cached(site, blobs, sha).Success? && Checked(site.codec, sha, blob).Success? ==>
      Cached(site, blobs, sha) == Checked(site.codec, sha, blob)
  }

  predicate Possible(site: Site, w: World, e: Event)
  {
    match e
    case Store(sha, blob, _) => NoCollision(site, w.disk.blobs, sha, blob)
    case Apply(us, _) => Backed(site, w.disk.blobs, us)
  }

  function Run(site: Site, w: World, es: seq<Event>): World
    decreases |es|
  {
    if es == [] then w else Next(site, Run(site, w, es[..|es| - 1]), es[|es| - 1])
  }

  predicate PossibleRun(site: Site, w: World, es: seq<Event>)
    decreases |es|
  {
    es == [] ||
    (PossibleRun(site, w, es[..|es| - 1]) && Possible(site, Run(site, w, es[..|es| - 1]), es[|es| - 1]))
  }

  /** A blob is usable exactly when it hashes to the name it goes by and parses; what is wrong is said in that order. */
  lemma CheckedExactly(codec: Codec, sha: string, blob: Blob)
    ensures Checked(codec, sha, blob) ==
            if codec.hash(blob) != sha then Failure(HashMismatch)
            else if codec.parse(sha, blob).None? then Failure(DidNotParse)
            else Success(codec.parse(sha, blob).value)
  {
  }

  /** Every blob a run put into the cache hashes to the name it is kept under, and parses. */
  lemma {:induction false} StoredBlobsHash(site: Site, w: World, es: seq<Event>, sha: string)
    ensures var now := Run(site, w, es).disk.blobs;
            sha in now && !(sha in w.disk.blobs && now[sha] == w.disk.blobs[sha]) ==>
              site.hasDir && site.codec.hash(now[sha]) == sha && site.codec.parse(sha, now[sha]).Some?
    decreases |es|
  {
    hide ApplyAll;
    if es != [] {
      StoredBlobsHash(site, w, es[..|es| - 1], sha);
    }
  }

  /** A line with nothing remembered has its `/etc` catalogue if there is one, and no rules if there is none. */
  lemma UnassignedUsesEtc(site: Site, disk: Disk, es: seq<Event>, i: string)
    requires i in site.lines && PossibleRun(site, Start(site, disk), es)
    requires i !in Run(site, Start(site, disk), es).mem.remembered
    ensures var m := Run(site, Start(site, disk), es).mem;
            && i in m.rules
            && (site.lines[i].etc.Some? ==> m.rules[i] == Etc(site.lines[i].etc.value))
            && (site.lines[i].etc.None? ==> m.rules[i] == NoRules)
  {
    hide Run, PossibleRun;
    InForceMeansRemembered(site, disk, es, i);
  }

  /** What was cached stays cached, so an update backed when a session prepared it is backed when it applies it. */
  lemma BackedStays(site: Site, w: World, e: Event, us: seq<(string, Update)>)
    requires Possible(site, w, e) && Backed(site, w.disk.blobs, us)
    ensures Backed(site, Next(site, w, e).disk.blobs, us)
  {
  }

  // What memory says of a line is either borne out by the cache, or the line
  // was remembered at the start with a blob that could not be used.

  predicate Sound(site: Site, blobs: map<string, Blob>, line: Line, e: Entry)
  {
    match e.remembered
    case None => e.rules == Some(Fallback(line.etc))
    case Some(sha) => Cached(site, blobs, sha).Success? && e.rules == Some(Gateway(sha, Cached(site, blobs, sha).value))
  }

  predicate Starved(line: Line, e: Entry)
  {
    e.remembered.Some? && e.rules == Some(Fallback(line.etc))
  }

  lemma {:induction false} FollowSettles(site: Site, blobs: map<string, Blob>, line: Line, e: Entry,
                                         us: seq<(string, Update)>, i: string)
    requires Backed(site, blobs, us) && Settles(us, i)
    ensures Sound(site, blobs, line, Follow(line, e, us, i))
    decreases |us|
  {
    var p, last := us[..|us| - 1], us[|us| - 1];
    SettlesLast(us, i);
    if !(last.0 == i && !last.1.Refused?) {
      assert Backed(site, blobs, p) by {
        forall k | 0 <= k < |p| && p[k].1.Assigned?
          ensures Cached(site, blobs, p[k].1.sha) == Success(p[k].1.catalogue)
        {
          assert us[k] == p[k];
        }
      }
      FollowSettles(site, blobs, line, e, p, i);
    }
  }

  /** Some update in the run assigned the line or cleared it. */
  predicate SettledIn(es: seq<Event>, i: string)
    decreases |es|
  {
    es != [] && (SettledIn(es[..|es| - 1], i) || (es[|es| - 1].Apply? && Settles(es[|es| - 1].us, i)))
  }

  /** Some store in the run kept a usable blob under the hash. */
  predicate StoredIn(site: Site, es: seq<Event>, sha: string)
    decreases |es|
  {
    && es != []
    && var e := es[|es| - 1];
       || StoredIn(site, es[..|es| - 1], sha)
       || (e.Store? && e.sha == sha && e.written && site.hasDir && Checked(site.codec, sha, e.blob).Success?)
  }

  lemma {:induction false} CacheGrows(site: Site, w: World, es: seq<Event>, sha: string)
    requires PossibleRun(site, w, es)
    ensures var was, now := Cached(site, w.disk.blobs, sha), Cached(site, Run(site, w, es).disk.blobs, sha);
            && (now.Success? <==> was.Success? || StoredIn(site, es, sha))
            && (was.Success? ==> now == was)
    decreases |es|
  {
    hide ApplyAll;
    if es != [] {
      CacheGrows(site, w, es[..|es| - 1], sha);
    }
  }

  /** How one event moves a line's entry. */
  lemma EntryStep(site: Site, w: World, e: Event, i: string)
    requires Possible(site, w, e) && i in site.lines
    ensures var was, now, blobs := EntryOf(w.mem, i), EntryOf(Next(site, w, e).mem, i), Next(site, w, e).disk.blobs;
            if e.Apply? && Settles(e.us, i) then Sound(site, blobs, site.lines[i], now)
            else now.remembered == was.remembered && now.rules == was.rules
                 && (Sound(site, w.disk.blobs, site.lines[i], was) ==> Sound(site, blobs, site.lines[i], now))
  {
    hide ApplyAll, Follow, EntryOf;
    if e.Apply? {
      var was := EntryOf(w.mem, i);
      ApplyIsPerLine(site, w.mem, e.us, i);
      if Settles(e.us, i) {
        FollowSettles(site, w.disk.blobs, site.lines[i], was, e.us, i);
      } else {
        FollowUnsettled(site.lines[i], was, e.us, i);
      }
    }
  }

  lemma StartEntry(site: Site, disk: Disk, i: string)
    requires i in site.lines
    ensures var e := EntryOf(Start(site, disk).mem, i);
            Sound(site, disk.blobs, site.lines[i], e) ||
            (Starved(site.lines[i], e) && Cached(site, disk.blobs, e.remembered.value).Failure?)
  {
  }

  /** Where a run leaves a line. */
  lemma {:induction false} RunEntry(site: Site, disk: Disk, es: seq<Event>, i: string)
    requires i in site.lines && PossibleRun(site, Start(site, disk), es)
    ensures var was, w := EntryOf(Start(site, disk).mem, i), Run(site, Start(site, disk), es);
            var now := EntryOf(w.mem, i);
            && (SettledIn(es, i) || Sound(site, disk.blobs, site.lines[i], was) ==>
                  Sound(site, w.disk.blobs, site.lines[i], now))
            && (!SettledIn(es, i) ==> now.remembered == was.remembered && now.rules == was.rules)
    decreases |es|
  {
    hide Next, Rebuild, EntryOf, Possible, Sound, Settles;
    if es != [] {
      var p := es[..|es| - 1];
      RunEntry(site, disk, p, i);
      EntryStep(site, Run(site, Start(site, disk), p), es[|es| - 1], i);
    }
  }

  /** The gateway's rules are in force only for a remembered hash, and a line with none has its fallback. */
  lemma InForceMeansRemembered(site: Site, disk: Disk, es: seq<Event>, i: string)
    requires i in site.lines && PossibleRun(site, Start(site, disk), es)
    ensures var m := Run(site, Start(site, disk), es).mem;
            && i in m.rules
            && (m.rules[i].Gateway? ==>
                  i in m.remembered && m.remembered[i] == m.rules[i].sha &&
                  Cached(site, Run(site, Start(site, disk), es).disk.blobs, m.rules[i].sha)
                  == Success(m.rules[i].catalogue))
            && (!m.rules[i].Gateway? ==> m.rules[i] == Fallback(site.lines[i].etc))
            && (i !in m.remembered ==> m.rules[i] == Fallback(site.lines[i].etc))
  {
    hide Run, PossibleRun;
    RunEntry(site, disk, es, i);
    StartEntry(site, disk, i);
    if !SettledIn(es, i) {
      var w0, w := Start(site, disk), Run(site, Start(site, disk), es);
      assert EntryOf(w.mem, i).rules == EntryOf(w0.mem, i).rules;
    }
  }

  predicate AllWritten(es: seq<Event>)
  {
    forall k :: 0 <= k < |es| ==> es[k].written
  }

  /** While every write succeeds, the file says what memory does. */
  lemma {:induction false} FileInStep(site: Site, disk: Disk, es: seq<Event>)
    requires site.hasDir && AllWritten(es)
    ensures Run(site, Start(site, disk), es).disk.assignments == Run(site, Start(site, disk), es).mem.remembered
    decreases |es|
  {
    hide ApplyAll;
    if es != [] {
      var p := es[..|es| - 1];
      FileInStep(site, disk, p);
    }
  }

  /** Without a state directory nothing is ever remembered. */
  lemma {:induction false} NothingWithoutADirectory(site: Site, disk: Disk, es: seq<Event>, i: string)
    requires !site.hasDir && i in site.lines && PossibleRun(site, Start(site, disk), es)
    ensures var m := Run(site, Start(site, disk), es).mem;
            i !in m.remembered && i in m.rules && m.rules[i] == Fallback(site.lines[i].etc)
    decreases |es|
  {
    RunEntry(site, disk, es, i);
    InForceMeansRemembered(site, disk, es, i);
  }

  /**
    The line was remembered at the start with a blob that could not be used,
    and the blob has been stored since by a session that did not settle the line.
  */
  predicate Overtaken(site: Site, disk: Disk, es: seq<Event>, i: string)
  {
    && site.hasDir && i in disk.assignments && Cached(site, disk.blobs, disk.assignments[i]).Failure?
    && !SettledIn(es, i) && StoredIn(site, es, disk.assignments[i])
  }

  /** A restart after any run whose writes succeed frames a line as before exactly when it was not overtaken. */
  lemma RestartExactly(site: Site, disk: Disk, es: seq<Event>, i: string)
    requires i in site.lines && PossibleRun(site, Start(site, disk), es) && AllWritten(es)
    ensures var w := Run(site, Start(site, disk), es);
            i in w.mem.rules && (Rebuild(site, w.disk).rules[i] == w.mem.rules[i] <==> !Overtaken(site, disk, es, i))
  {
    hide Run, PossibleRun, SettledIn, StoredIn;
    var w0, w := Start(site, disk), Run(site, Start(site, disk), es);
    var was, now := EntryOf(w0.mem, i), EntryOf(w.mem, i);
    InForceMeansRemembered(site, disk, es, i);
    if !site.hasDir {
      NothingWithoutADirectory(site, disk, es, i);
    } else {
      FileInStep(site, disk, es);
      RunEntry(site, disk, es, i);
      StartEntry(site, disk, i);
      if i in disk.assignments {
        CacheGrows(site, w0, es, disk.assignments[i]);
      }
    }
  }

  /** In particular where every remembered blob was usable at the start: the whole site comes back. */
  lemma RestartFramesAsBefore(site: Site, disk: Disk, es: seq<Event>)
    requires PossibleRun(site, Start(site, disk), es) && AllWritten(es)
    requires forall i :: i in site.lines && i in disk.assignments ==>
               Cached(site, disk.blobs, disk.assignments[i]).Success?
    ensures Rebuild(site, Run(site, Start(site, disk), es).disk).rules == Run(site, Start(site, disk), es).mem.rules
  {
    RunKeepsLines(site, Start(site, disk), es);
    forall i | i in site.lines
      ensures Rebuild(site, Run(site, Start(site, disk), es).disk).rules[i]
           == Run(site, Start(site, disk), es).mem.rules[i]
    {
      RestartExactly(site, disk, es, i);
    }
  }

  lemma {:induction false} ApplyKeepsLines(site: Site, m: Memory, us: seq<(string, Update)>)
    requires m.rules.Keys == site.lines.Keys
    ensures ApplyAll(site, m, us).rules.Keys == site.lines.Keys
    decreases |us|
  {
    if us != [] {
      ApplyKeepsLines(site, m, us[..|us| - 1]);
    }
  }

  lemma {:induction false} RunKeepsLines(site: Site, w: World, es: seq<Event>)
    requires w.mem.rules.Keys == site.lines.Keys
    ensures Run(site, w, es).mem.rules.Keys == site.lines.Keys
    decreases |es|
  {
    hide ApplyAll;
    if es != [] {
      var p, e := es[..|es| - 1], es[|es| - 1];
      RunKeepsLines(site, w, p);
      if e.Apply? {
        ApplyKeepsLines(site, Run(site, w, p).mem, e.us);
      }
    }
  }

  /** An assignment the file missed is not written again by the updates that brought it. */
  lemma FailedWriteIsNotRetried(site: Site, w: World, us: seq<(string, Update)>)
    ensures var failed := Next(site, w, Apply(us, false));
            Next(site, failed, Apply(us, true)) == failed
  {
    hide ApplyAll;
    ApplyTwice(site, w.mem, us);
  }

  /** Two sessions' updates, in either order, leave the same memory and the same file. */
  lemma SessionsCommuteOnDisk(site: Site, w: World, us: seq<(string, Update)>, a: string,
                              vs: seq<(string, Update)>, b: string)
    requires a != b && OwnedBy(site, us, a) && OwnedBy(site, vs, b)
    requires w.disk.assignments == w.mem.remembered
    ensures Next(site, Next(site, w, Apply(us, true)), Apply(vs, true)) ==
            Next(site, Next(site, w, Apply(vs, true)), Apply(us, true))
  {
    hide ApplyAll, OwnedBy;
    SessionsCommute(site, w.mem, us, a, vs, b);
  }

  /** A start whose blob is missing, and another database's session that then fetches the same blob. */
  lemma ALineIsOvertaken(site: Site, disk: Disk, blob: Blob)
    requires site.hasDir && disk == Disk(map["a" := site.codec.hash(blob)], map[])
    requires site.lines == map["a" := Line("site", None), "b" := Line("rs485", None)]
    requires site.codec.parse(site.codec.hash(blob), blob).Some?
    ensures var sha := site.codec.hash(blob);
            var es := [Store(sha, blob, true),
                       Apply([("b", Assigned(sha, site.codec.parse(sha, blob).value))], true)];
            && PossibleRun(site, Start(site, disk), es) && AllWritten(es)
            && At(Run(site, Start(site, disk), es).mem.rules, "a") == Some(NoRules)
            && Rebuild(site, Run(site, Start(site, disk), es).disk).rules["a"].Gateway?
  {
    var sha := site.codec.hash(blob);
    var first := Store(sha, blob, true);
    var us := [("b", Assigned(sha, site.codec.parse(sha, blob).value))];
    var es := [first, Apply(us, true)];
    var w := Start(site, disk);
    assert es[..1] == [first] && [first][..0] == [];
    assert Run(site, w, []) == w && PossibleRun(site, w, []);
    assert Run(site, w, [first]) == Next(site, w, first);
    assert PossibleRun(site, w, [first]);
    assert PossibleRun(site, w, es);
    assert !Settles(us, "a");
    assert !SettledIn([], "a") && !SettledIn([first], "a") && !SettledIn(es, "a");
    assert StoredIn(site, [first], sha) && StoredIn(site, es, sha);
    RestartExactly(site, disk, es, "a");
    RunEntry(site, disk, es, "a");
  }

  // -------------------------------------------------------------------------
  // What the sessions are told

  /** Whether `us` has an update that moves a line's rules or refusal. */
  predicate Ticks(site: Site, m: Memory, us: seq<(string, Update)>)
    decreases |us|
  {
    && us != []
    && var before, after := ApplyAll(site, m, us[..|us| - 1]), ApplyAll(site, m, us);
       Ticks(site, m, us[..|us| - 1]) || before.rules != after.rules || before.refused != after.refused
  }

  predicate Distinct(us: seq<(string, Update)>)
  {
    forall j, k :: 0 <= j < k < |us| ==> us[j].0 != us[k].0
  }

  /** With each line named once, the sessions hear of it exactly when a line's rules or refusal changed. */
  lemma {:induction false} TicksExactly(site: Site, m: Memory, us: seq<(string, Update)>)
    ensures ApplyAll(site, m, us).rules != m.rules || ApplyAll(site, m, us).refused != m.refused ==> Ticks(site, m, us)
    ensures Distinct(us) && Ticks(site, m, us) ==>
              ApplyAll(site, m, us).rules != m.rules || ApplyAll(site, m, us).refused != m.refused
    decreases |us|
  {
    hide ApplyOne;
    if us != [] {
      var p, last := us[..|us| - 1], us[|us| - 1];
      TicksExactly(site, m, p);
      var before, after := ApplyAll(site, m, p), ApplyAll(site, m, us);
      if Distinct(us) && Ticks(site, m, us) {
        assert Distinct(p);
        if before.rules != after.rules || before.refused != after.refused {
          var i := MovedLine(site, before, last);
          assert !Names(p, i);
          Untouched(site, m, p, i);
          assert EntryOf(before, i) == EntryOf(m, i);
          assert At(after.rules, i) != At(m.rules, i) || At(after.refused, i) != At(m.refused, i);
        } else {
          var i := Moved(before, m);
          assert EntryOf(after, i).rules == EntryOf(before, i).rules;
          assert EntryOf(after, i).refused == EntryOf(before, i).refused;
        }
      }
    }
  }

  lemma MovedLine(site: Site, m: Memory, u: (string, Update)) returns (i: string)
    ensures i == u.0
    ensures var n := ApplyOne(site, m, u.0, u.1);
            n.rules != m.rules || n.refused != m.refused ==>
              At(n.rules, i) != At(m.rules, i) || At(n.refused, i) != At(m.refused, i)
  {
    i := u.0;
    var n := ApplyOne(site, m, u.0, u.1);
    if At(n.rules, i) == At(m.rules, i) && At(n.refused, i) == At(m.refused, i) {
      forall j ensures At(n.rules, j) == At(m.rules, j) && At(n.refused, j) == At(m.refused, j) {
      }
      SameMap(n.rules, m.rules);
      SameMap(n.refused, m.refused);
    }
  }

  lemma Moved(a: Memory, b: Memory) returns (i: string)
    requires a.rules != b.rules || a.refused != b.refused
    ensures At(a.rules, i) != At(b.rules, i) || At(a.refused, i) != At(b.refused, i)
  {
    if forall j :: At(a.rules, j) == At(b.rules, j) && At(a.refused, j) == At(b.refused, j) {
      SameMap(a.rules, b.rules);
      SameMap(a.refused, b.refused);
    }
    i :| At(a.rules, i) != At(b.rules, i) || At(a.refused, i) != At(b.refused, i);
  }

  lemma Untouched(site: Site, m: Memory, us: seq<(string, Update)>, i: string)
    requires !Names(us, i)
    ensures EntryOf(ApplyAll(site, m, us), i) == EntryOf(m, i)
  {
  }

  lemma {:induction false} FollowOnly(line: Line, e: Entry, us: seq<(string, Update)>, i: string, k: nat)
    requires Distinct(us) && k < |us| && us[k].0 == i
    ensures Follow(line, e, us, i) == Follow(line, e, [us[k]], i)
    decreases |us|
  {
    var p := us[..|us| - 1];
    if k == |us| - 1 {
      assert !Names(p, i);
      FollowUnnamed(line, e, p, i);
      assert [us[k]][..0] == [];
    } else {
      assert p[k] == us[k];
      FollowOnly(line, e, p, i, k);
    }
  }

  lemma {:induction false} RunConcat(site: Site, w: World, a: seq<Event>, b: seq<Event>)
    ensures Run(site, w, a + b) == Run(site, Run(site, w, a), b)
    ensures PossibleRun(site, w, a + b) <==> PossibleRun(site, w, a) && PossibleRun(site, Run(site, w, a), b)
    decreases |b|
  {
    hide Next, Possible;
    if b == [] {
      assert a + b == a;
    } else {
      var p := b[..|b| - 1];
      assert (a + b)[..|a + b| - 1] == a + p && (a + b)[|a + b| - 1] == b[|b| - 1];
      RunConcat(site, w, a, p);
    }
  }
}
