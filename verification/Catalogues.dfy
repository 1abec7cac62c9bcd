/**
  The catalogues as the sessions share them: one object over one state directory.
*/
module Catalogues {
  import opened Wrappers
  import opened Assignments

  /** The state directory; a write replaces a file or leaves it. */
  class StateDir {
    var assignments: map<string, string>
    var blobs: map<string, Blob>

    method WriteAssignments(a: map<string, string>) returns (ok: bool)
      modifies this`assignments
      ensures assignments == if ok then a else old(assignments)
    {
      ok := *;
      if ok {
        assignments := a;
      }
    }

    method WriteBlob(sha: string, blob: Blob) returns (ok: bool)
      modifies this`blobs
      ensures blobs == if ok then old(blobs)[sha := blob] else old(blobs)
    {
      ok := *;
      if ok {
        blobs := blobs[sha := blob];
      }
    }
  }

  /** `Rebuild`'s rules, line by line. */
  method StartingRules(site: Site, disk: Disk) returns (rules: map<string, Rules>)
    requires !site.hasDir ==> disk.assignments == map[]
    ensures rules == Rebuild(site, disk).rules
  {
    hide RememberedRules;
    rules := map[];
    var todo := site.lines.Keys;
    while todo != {}
      invariant todo <= site.lines.Keys && rules.Keys == site.lines.Keys - todo
      invariant forall i :: i in rules ==> rules[i] == RememberedRules(site, disk.assignments, disk.blobs, i)
      decreases |todo|
    {
      var i :| i in todo;
      rules := rules[i := RememberedRules(site, disk.assignments, disk.blobs, i)];
      todo := todo - {i};
    }
  }

  class Catalogues {
    const dir: StateDir?
    const lines: map<string, Line>
    const codec: Codec
    var remembered: map<string, string>
    var rules: map<string, Rules>
    var refused: map<string, (string, Refusal)>
    /** How often the sessions were told to look again. */
    var changes: nat

    function TheSite(): Site
    {
      Site(dir != null, lines, codec)
    }

    function Mem(): Memory
      reads this
    {
      Memory(remembered, rules, refused)
    }

    function OnDisk(): Disk
      reads dir
    {
      if dir == null then Disk(map[], map[]) else Disk(dir.assignments, dir.blobs)
    }

    function Now(): World
      reads this, dir
    {
      World(Mem(), OnDisk())
    }

    ghost predicate Valid()
      reads this`rules
    {
      rules.Keys == lines.Keys
    }

    constructor (dir: StateDir?, lines: map<string, Line>, codec: Codec)
      ensures Valid() && TheSite() == Site(dir != null, lines, codec) && this.dir == dir
      ensures Now() == Start(TheSite(), OnDisk())
    {
      this.dir, this.lines, this.codec := dir, lines, codec;
      var disk := if dir == null then Disk(map[], map[]) else Disk(dir.assignments, dir.blobs);
      var site := Site(dir != null, lines, codec);
      this.remembered, this.refused, this.changes := disk.assignments, map[], 0;
      var starting := StartingRules(site, disk);
      this.rules := starting;
    }

    /** The `Store` event, if the blob passes and the write succeeds; otherwise a refusal and no event. */
    method StoreBlob(sha: string, blob: Blob) returns (r: Result<LineCatalogue, Refusal>)
      modifies if dir == null then {} else {dir}
      ensures Now() == if r.Success? then Next(TheSite(), old(Now()), Store(sha, blob, true)) else old(Now())
      ensures r.Success? ==> Cached(TheSite(), OnDisk().blobs, sha) == r == Checked(codec, sha, blob)
      ensures r.Success? ==> codec.hash(blob) == sha && codec.parse(sha, blob) == Some(r.value)
      ensures dir == null ==> r == Failure(FetchFailed)
      ensures dir != null && codec.hash(blob) != sha ==> r == Failure(HashMismatch)
      ensures dir != null && codec.hash(blob) == sha && codec.parse(sha, blob).None? ==> r == Failure(DidNotParse)
    {
      if dir == null {
        return Failure(FetchFailed);
      }
      r := Checked(codec, sha, blob);
      if r.Success? {
        var ok := dir.WriteBlob(sha, blob);
        if !ok {
          r := Failure(FetchFailed);
        }
      }
    }

    /** The `Apply` event, whether or not the file is written, and a tick if it `Ticks`. */
    method Apply(us: seq<(string, Update)>)
      requires Valid()
      modifies this, if dir == null then {} else {dir}
      ensures Valid()
      ensures Now() == Next(TheSite(), old(Now()), Event.Apply(us, true))
              || Now() == Next(TheSite(), old(Now()), Event.Apply(us, false))
      ensures changes == old(changes) + if Ticks(TheSite(), old(Mem()), us) then 1 else 0
    {
      hide ApplyOne, Valid;
      var before := remembered;
      var changed := false;
      ghost var was := Mem();
      var k := 0;
      assert us[..0] == [];
      while k < |us|
        invariant 0 <= k <= |us| && Valid() && OnDisk() == old(OnDisk()) && changes == old(changes)
        invariant Mem() == ApplyAll(TheSite(), was, us[..k])
        invariant changed <==> Ticks(TheSite(), was, us[..k])
      {
        assert us[..k + 1][..k] == us[..k];
        var moved := ApplyUpdate(us[k].0, us[k].1);
        changed := changed || moved;
        k := k + 1;
      }
      assert us[..k] == us;
      if changed {
        changes := changes + 1;
      }
      if remembered != before && dir != null {
        var _ := dir.WriteAssignments(remembered);
      }
    }

    /** One update, and whether it moved the line's rules or refusal. */
    method ApplyUpdate(i: string, u: Update) returns (moved: bool)
      requires Valid()
      modifies this`remembered, this`rules, this`refused
      ensures Valid() && Mem() == ApplyOne(TheSite(), old(Mem()), i, u)
      ensures moved <==> rules != old(rules) || refused != old(refused)
    {
      if i !in lines {
        return false;
      }
      if u.Refused? {
        moved := i !in refused || refused[i] != (u.sha, u.refusal);
        refused := refused[i := (u.sha, u.refusal)];
        assert !moved ==> refused == old(refused);
      } else {
        moved := i in refused;
        refused := refused - {i};
        assert !moved ==> refused == old(refused);
        var now;
        if u.Assigned? {
          remembered := remembered[i := u.sha];
          now := Gateway(u.sha, u.catalogue);
        } else {
          remembered := remembered - {i};
          now := Fallback(lines[i].etc);
        }
        assert rules[i] == now ==> rules[i := now] == rules;
        moved := moved || rules[i] != now;
        rules := rules[i := now];
      }
    }

    /**
      Other sessions, meanwhile: they store blobs, and apply updates of other
      databases' lines that the cache backs.
    */
    method Others(database: string) returns (ghost es: seq<Event>)
      requires Valid() && CollisionFree(codec)
      modifies this, if dir == null then {} else {dir}
      ensures Valid() && changes >= old(changes)
      ensures PossibleRun(TheSite(), old(Now()), es) && Now() == Run(TheSite(), old(Now()), es)
      ensures ByOthers(TheSite(), es, database)
      ensures forall i :: i in lines && lines[i].database == database ==> EntryOf(Mem(), i) == old(EntryOf(Mem(), i))
      ensures forall us :: Backed(TheSite(), old(OnDisk()).blobs, us) ==> Backed(TheSite(), OnDisk().blobs, us)
    {
      hide Valid, Next, Possible, Backed, EntryOf;
      ghost var w := Now();
      es := [];
      var turns: nat := *;
      while turns > 0
        invariant Valid() && changes >= old(changes)
        invariant PossibleRun(TheSite(), w, es) && Now() == Run(TheSite(), w, es)
        invariant ByOthers(TheSite(), es, database)
        invariant forall i :: i in lines && lines[i].database == database ==> EntryOf(Mem(), i) == EntryOf(w.mem, i)
        invariant forall us :: Backed(TheSite(), w.disk.blobs, us) ==> Backed(TheSite(), OnDisk().blobs, us)
      {
        var e: Event := *;
        ghost var more := Another(e, database);
        RunConcat(TheSite(), w, es, more);
        es := es + more;
        turns := turns - 1;
      }
    }

    /** One event of another session, if it is one such a session could cause. */
    method Another(e: Event, database: string) returns (ghost es: seq<Event>)
      requires Valid() && CollisionFree(codec)
      modifies this, if dir == null then {} else {dir}
      ensures Valid() && changes >= old(changes)
      ensures PossibleRun(TheSite(), old(Now()), es) && Now() == Run(TheSite(), old(Now()), es)
      ensures ByOthers(TheSite(), es, database)
      ensures forall i :: i in lines && lines[i].database == database ==> EntryOf(Mem(), i) == old(EntryOf(Mem(), i))
      ensures forall us :: Backed(TheSite(), old(OnDisk()).blobs, us) ==> Backed(TheSite(), OnDisk().blobs, us)
    {
      ghost var w := Now();
      es := [];
      if e.Store? {
        var r := StoreBlob(e.sha, e.blob);
        if r.Success? {
          es := OneEvent(TheSite(), w, Store(e.sha, e.blob, true));
        }
      } else if Foreign(TheSite(), e.us, database) && Backed(TheSite(), OnDisk().blobs, e.us) {
        Apply(e.us);
        ghost var written: bool :| Now() == Next(TheSite(), w, Event.Apply(e.us, written));
        es := OneEvent(TheSite(), w, Event.Apply(e.us, written));
        forall i | i in lines && lines[i].database == database ensures EntryOf(Mem(), i) == EntryOf(w.mem, i) {
          Untouched(TheSite(), w.mem, e.us, i);
        }
      }
    }

    /**
      The catalogue for a hash: from the cache, or fetched and stored;
      `fetched` is what the gateway answers, while other sessions go on.
    */
    method Obtain(sha: string, fetched: Option<Blob>, database: string)
      returns (r: Result<LineCatalogue, Refusal>, ghost es: seq<Event>)
      requires Valid() && CollisionFree(codec)
      modifies this, if dir == null then {} else {dir}
      ensures Valid() && changes >= old(changes)
      ensures PossibleRun(TheSite(), old(Now()), es) && Now() == Run(TheSite(), old(Now()), es)
      ensures ByOthers(TheSite(), es, database)
      ensures forall i :: i in lines && lines[i].database == database ==> EntryOf(Mem(), i) == old(EntryOf(Mem(), i))
      ensures r.Success? ==> Cached(TheSite(), OnDisk().blobs, sha) == r
      // What is cached is not asked for.
      ensures Cached(TheSite(), old(OnDisk()).blobs, sha).Success? ==>
                r == Cached(TheSite(), old(OnDisk()).blobs, sha) && es == []
      ensures forall us :: Backed(TheSite(), old(OnDisk()).blobs, us) ==> Backed(TheSite(), OnDisk().blobs, us)
    {
      hide Valid;
      es := [];
      r := if dir == null then Failure(FetchFailed) else Cached(TheSite(), dir.blobs, sha);
      if r.Success? {
        return;
      }
      es := Others(database);
      if fetched.None? {
        return Failure(FetchFailed), es;
      }
      ghost var w := Now();
      r := StoreBlob(sha, fetched.value);
      if r.Success? {
        ghost var one := OneEvent(TheSite(), w, Store(sha, fetched.value, true));
        RunConcat(TheSite(), old(Now()), es, one);
        es := es + one;
      }
    }

    /**
      Settle every line of one database by what the gateway assigned it in
      `wanted`, other sessions going on all the while; `fetched` is what the
      gateway would answer for each hash. `es` is all that happened, ending
      with this session's own updates; `told` counts the changes announced
      before those.
    */
    method Pull(database: string, wanted: map<string, string>, fetched: map<string, Blob>)
      returns (ghost es: seq<Event>, ghost told: nat)
      requires Valid() && CollisionFree(codec)
      modifies this, if dir == null then {} else {dir}
      ensures Valid()
      ensures PossibleRun(TheSite(), old(Now()), es) && Now() == Run(TheSite(), old(Now()), es)
      ensures es != [] && ByOthers(TheSite(), es[..|es| - 1], database)
      ensures forall i :: i in lines && lines[i].database == database ==>
                Served(old(EntryOf(Mem(), i)), EntryOf(Mem(), i), i, wanted)
      // A catalogue that is cached already is framed with.
      ensures forall i :: i in lines && lines[i].database == database && i in wanted
                          && Cached(TheSite(), old(OnDisk()).blobs, wanted[i]).Success? ==>
                i in remembered && remembered[i] == wanted[i] && i in rules && rules[i].Gateway?
      // Of other databases' lines it changes nothing: they are as the others left them.
      ensures var others := Run(TheSite(), old(Now()), es[..|es| - 1]).mem;
              && (forall i :: !(i in lines && lines[i].database == database) ==>
                    EntryOf(Mem(), i) == EntryOf(others, i))
              && (changes == told <==> rules == others.rules && refused == others.refused)
    {
      hide Valid, Next, Possible, Backed, Run, PossibleRun, ApplyAll, Ticks, EntryOf, Served, Asks, ByOthers,
        UsesKnown, Cached;
      ghost var w := Now();
      var us: seq<(string, Update)>;
      us, es := Prepare(database, wanted, fetched);
      ghost var prepared := Now();
      told := changes;
      ghost var own := ApplyPrepared(us);
      RunConcat(TheSite(), w, es, own);
      assert (es + own)[..|es + own| - 1] == es;
      es := es + own;
      AsksDistinct(TheSite(), us, database, wanted);
      TicksExactly(TheSite(), prepared.mem, us);
      forall i | i in lines && lines[i].database == database && i in wanted
                 && Cached(TheSite(), w.disk.blobs, wanted[i]).Success?
        ensures i in remembered && remembered[i] == wanted[i] && i in rules && rules[i].Gateway?
      {
        OutcomeKnown(TheSite(), prepared.mem, us, i, database, wanted, w.disk.blobs);
      }
      forall i ensures if i in lines && lines[i].database == database
                       then Served(EntryOf(prepared.mem, i), EntryOf(Mem(), i), i, wanted)
                       else EntryOf(Mem(), i) == EntryOf(prepared.mem, i)
      {
        Outcome(TheSite(), prepared.mem, us, i, database, wanted);
      }
    }

    method ApplyPrepared(us: seq<(string, Update)>) returns (ghost own: seq<Event>)
      requires Valid() && Backed(TheSite(), OnDisk().blobs, us)
      modifies this, if dir == null then {} else {dir}
      ensures Valid() && |own| == 1
      ensures PossibleRun(TheSite(), old(Now()), own) && Now() == Run(TheSite(), old(Now()), own)
      ensures Mem() == ApplyAll(TheSite(), old(Mem()), us)
      ensures changes == old(changes) + if Ticks(TheSite(), old(Mem()), us) then 1 else 0
    {
      ghost var w := Now();
      Apply(us);
      ghost var written: bool :| Now() == Next(TheSite(), w, Event.Apply(us, written));
      own := OneEvent(TheSite(), w, Event.Apply(us, written));
    }

    /** The update one line is to have. */
    method AnswerFor(i: string, wanted: map<string, string>, fetched: map<string, Blob>, database: string)
      returns (u: Update, ghost es: seq<Event>)
      requires Valid() && CollisionFree(codec)
      modifies this, if dir == null then {} else {dir}
      ensures Valid() && changes >= old(changes)
      ensures PossibleRun(TheSite(), old(Now()), es) && Now() == Run(TheSite(), old(Now()), es)
      ensures ByOthers(TheSite(), es, database)
      ensures forall i :: i in lines && lines[i].database == database ==> EntryOf(Mem(), i) == old(EntryOf(Mem(), i))
      ensures forall us :: Backed(TheSite(), old(OnDisk()).blobs, us) ==> Backed(TheSite(), OnDisk().blobs, us)
      ensures i in wanted && Cached(TheSite(), old(OnDisk()).blobs, wanted[i]).Success? ==> u.Assigned?
      ensures Answers(u, i, wanted) && Backed(TheSite(), OnDisk().blobs, [(i, u)])
    {
      hide Valid, Cached, EntryOf, CollisionFree;
      if i !in wanted {
        return Cleared, [];
      }
      var sha := wanted[i];
      var r;
      r, es := Obtain(sha, if sha in fetched then Some(fetched[sha]) else None, database);
      u := match r case Success(c) => Assigned(sha, c) case Failure(why) => Refused(sha, why);
    }

    /** One update for each line of the database, and the blobs they need. */
    method Prepare(database: string, wanted: map<string, string>, fetched: map<string, Blob>)
      returns (us: seq<(string, Update)>, ghost es: seq<Event>)
      requires Valid() && CollisionFree(codec)
      modifies this, if dir == null then {} else {dir}
      ensures Valid() && changes >= old(changes)
      ensures PossibleRun(TheSite(), old(Now()), es) && Now() == Run(TheSite(), old(Now()), es)
      ensures ByOthers(TheSite(), es, database)
      ensures forall i :: i in lines && lines[i].database == database ==> EntryOf(Mem(), i) == old(EntryOf(Mem(), i))
      ensures Backed(TheSite(), OnDisk().blobs, us)
      ensures Asks(TheSite(), us, database, wanted)
      ensures UsesKnown(TheSite(), old(OnDisk()).blobs, us, wanted)
    {
      hide Valid, Backed, Run, PossibleRun, EntryOf, CollisionFree, Foreign, Answers, Names, Distinct;
      hide UsesKnown, Cached;
      NoneNamed();
      us, es := [], [];
      assert Run(TheSite(), Now(), []) == Now() && PossibleRun(TheSite(), Now(), []) by {
        NothingYet(TheSite(), Now());
      }
      NoneBacked(TheSite(), OnDisk().blobs);
      NoneUsed(TheSite(), OnDisk().blobs, wanted);
      ghost var w := Now();
      var todo := set i | i in lines && lines[i].database == database;
      ghost var owned := todo;
      while todo != {}
        invariant Valid() && changes >= old(changes)
        invariant PossibleRun(TheSite(), w, es) && Now() == Run(TheSite(), w, es)
        invariant ByOthers(TheSite(), es, database)
        invariant forall i :: i in owned ==> EntryOf(Mem(), i) == EntryOf(w.mem, i)
        invariant Backed(TheSite(), OnDisk().blobs, us)
        invariant forall us :: Backed(TheSite(), w.disk.blobs, us) ==> Backed(TheSite(), OnDisk().blobs, us)
        invariant UsesKnown(TheSite(), w.disk.blobs, us, wanted)
        invariant todo <= owned && Distinct(us)
        invariant forall i :: Names(us, i) <==> i in owned - todo
        invariant forall k :: 0 <= k < |us| ==> Answers(us[k].1, us[k].0, wanted)
        decreases |todo|
      {
        var i :| i in todo;
        var u;
        ghost var more;
        if i in wanted {
          StillCached(TheSite(), w.disk.blobs, OnDisk().blobs, wanted[i]);
        }
        u, more := AnswerFor(i, wanted, fetched, database);
        UsesKnownMore(TheSite(), w.disk.blobs, us, (i, u), wanted);
        RunConcat(TheSite(), w, es, more);
        es := es + more;
        BackedMore(TheSite(), OnDisk().blobs, us, (i, u));
        NamesMore(us, (i, u));
        us := us + [(i, u)];
        todo := todo - {i};
      }
      assert owned - todo == owned;
    }
  }

  /** No two blobs with one hash read differently. */
  ghost predicate CollisionFree(codec: Codec)
  {
    forall sha, a, b :: Checked(codec, sha, a).Success? && Checked(codec, sha, b).Success? ==>
      Checked(codec, sha, a) == Checked(codec, sha, b)
  }

  /** No update is for a line of `database`. */
  predicate Foreign(site: Site, us: seq<(string, Update)>, database: string)
  {
    forall k :: 0 <= k < |us| && us[k].0 in site.lines ==> site.lines[us[k].0].database != database
  }

  ghost predicate ByOthers(site: Site, es: seq<Event>, database: string)
  {
    forall k :: 0 <= k < |es| && es[k].Apply? ==> Foreign(site, es[k].us, database)
  }

  /** A run of one event. */
  ghost function OneEvent(site: Site, w: World, e: Event): (es: seq<Event>)
    ensures es == [e] && Run(site, w, es) == Next(site, w, e)
    ensures PossibleRun(site, w, es) <==> Possible(site, w, e)
    ensures Possible(site, w, e) ==>
              forall us :: Backed(site, w.disk.blobs, us) ==> Backed(site, Next(site, w, e).disk.blobs, us)
  {
    assert [e][..0] == [] && [e][0] == e;
    assert Run(site, w, []) == w && PossibleRun(site, w, []);
    BackedStaysAll(site, w, e);
    [e]
  }

  lemma BackedStaysAll(site: Site, w: World, e: Event)
    ensures Possible(site, w, e) ==>
              forall us :: Backed(site, w.disk.blobs, us) ==> Backed(site, Next(site, w, e).disk.blobs, us)
  {
    if Possible(site, w, e) {
      forall us | Backed(site, w.disk.blobs, us) ensures Backed(site, Next(site, w, e).disk.blobs, us) {
        BackedStays(site, w, e, us);
      }
    }
  }

  /** A line whose catalogue is cached already is assigned it. */
  predicate UsesKnown(site: Site, blobs: map<string, Blob>, us: seq<(string, Update)>, wanted: map<string, string>)
  {
    forall k :: 0 <= k < |us| && us[k].0 in wanted && Cached(site, blobs, wanted[us[k].0]).Success? ==>
      us[k].1.Assigned?
  }

  lemma NoneUsed(site: Site, blobs: map<string, Blob>, wanted: map<string, string>)
    ensures UsesKnown(site, blobs, [], wanted)
  {
  }

  lemma UsesKnownMore(site: Site, blobs: map<string, Blob>, us: seq<(string, Update)>, last: (string, Update),
                      wanted: map<string, string>)
    requires UsesKnown(site, blobs, us, wanted)
    requires last.0 in wanted && Cached(site, blobs, wanted[last.0]).Success? ==> last.1.Assigned?
    ensures UsesKnown(site, blobs, us + [last], wanted)
  {
  }

  /** What keeps every update backed keeps what is cached cached. */
  lemma StillCached(site: Site, before: map<string, Blob>, now: map<string, Blob>, sha: string)
    requires forall us :: Backed(site, before, us) ==> Backed(site, now, us)
    ensures Cached(site, before, sha).Success? ==> Cached(site, now, sha).Success?
  {
    if Cached(site, before, sha).Success? {
      var us := [("", Assigned(sha, Cached(site, before, sha).value))];
      assert Backed(site, before, us);
      assert us[0].1.Assigned?;
    }
  }

  lemma OutcomeKnown(site: Site, m: Memory, us: seq<(string, Update)>, i: string, database: string,
                     wanted: map<string, string>, blobs: map<string, Blob>)
    requires Asks(site, us, database, wanted) && UsesKnown(site, blobs, us, wanted)
    requires i in site.lines && site.lines[i].database == database && i in wanted
    requires Cached(site, blobs, wanted[i]).Success?
    ensures var now := ApplyAll(site, m, us);
            i in now.remembered && now.remembered[i] == wanted[i] && i in now.rules && now.rules[i].Gateway?
  {
    hide ApplyAll;
    assert Names(us, i);
    var k :| 0 <= k < |us| && us[k].0 == i;
    ApplyIsPerLine(site, m, us, i);
    FollowOnly(site.lines[i], EntryOf(m, i), us, i, k);
    assert [us[k]][..0] == [];
    assert Answers(us[k].1, us[k].0, wanted);
  }

  lemma NoneNamed()
    ensures Distinct([]) && forall i :: !Names([], i)
  {
  }

  lemma NothingYet(site: Site, w: World)
    ensures Run(site, w, []) == w && PossibleRun(site, w, [])
  {
  }

  lemma NoneBacked(site: Site, blobs: map<string, Blob>)
    ensures Backed(site, blobs, [])
  {
  }

  lemma BackedMore(site: Site, blobs: map<string, Blob>, us: seq<(string, Update)>, last: (string, Update))
    requires Backed(site, blobs, us) && Backed(site, blobs, [last])
    ensures Backed(site, blobs, us + [last])
  {
    assert [last][0] == last;
  }

  lemma AsksDistinct(site: Site, us: seq<(string, Update)>, database: string, wanted: map<string, string>)
    requires Asks(site, us, database, wanted)
    ensures Distinct(us)
  {
  }

  /** What a pull makes of a line of its database. */
  predicate Served(was: Entry, now: Entry, i: string, wanted: map<string, string>)
  {
    if i !in wanted then now.remembered.None? && now.refused.None? && now.rules.Some? && !now.rules.value.Gateway?
    else
      || (&& now.remembered == Some(wanted[i]) && now.refused.None?
          && now.rules.Some? && now.rules.value.Gateway? && now.rules.value.sha == wanted[i])
      || (&& now.remembered == was.remembered && now.rules == was.rules
          && now.refused.Some? && now.refused.value.0 == wanted[i])
  }

  predicate Answers(u: Update, i: string, wanted: map<string, string>)
  {
    if i !in wanted then u.Cleared? else !u.Cleared? && u.sha == wanted[i]
  }

  /** One answer for each line of the database, and for no other. */
  ghost predicate Asks(site: Site, us: seq<(string, Update)>, database: string, wanted: map<string, string>)
  {
    && Distinct(us)
    && (forall i :: Names(us, i) <==> i in site.lines && site.lines[i].database == database)
    && (forall k :: 0 <= k < |us| ==> Answers(us[k].1, us[k].0, wanted))
  }

  lemma NamesMore(us: seq<(string, Update)>, last: (string, Update))
    ensures forall i :: Names(us + [last], i) <==> Names(us, i) || i == last.0
    ensures Distinct(us) && !Names(us, last.0) ==> Distinct(us + [last])
  {
    var more := us + [last];
    assert more[..|more| - 1] == us && more[|more| - 1] == last;
    forall i ensures Names(more, i) <==> Names(us, i) || i == last.0 {
      SettlesLast(more, i);
    }
  }

  lemma Outcome(site: Site, m: Memory, us: seq<(string, Update)>, i: string,
                database: string, wanted: map<string, string>)
    requires Asks(site, us, database, wanted)
    ensures var was, now := EntryOf(m, i), EntryOf(ApplyAll(site, m, us), i);
            if i in site.lines && site.lines[i].database == database then Served(was, now, i, wanted) else now == was
  {
    hide ApplyAll;
    var was := EntryOf(m, i);
    if i in site.lines && site.lines[i].database == database {
      assert Names(us, i);
      var k :| 0 <= k < |us| && us[k].0 == i;
      ApplyIsPerLine(site, m, us, i);
      FollowOnly(site.lines[i], was, us, i, k);
      assert [us[k]][..0] == [];
      assert Answers(us[k].1, us[k].0, wanted);
    } else {
      assert !Names(us, i);
      Untouched(site, m, us, i);
    }
  }
}
