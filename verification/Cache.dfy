/**
  The disk cache as a first-in first-out sequence: a table of frames keyed by
  an ever-growing id, a row count tracked beside it, and a second such file
  that may be taken over at a start.

  Every operation may fail, as any SQLite call may. All but two are single
  transactions, and a failure changes nothing in the file; but a reset or a takeover that
  fails half way leaves the cache without a file to work on.
*/
module Cache {
  import opened Wrappers
  import opened Ledger
  import opened Adoption

  /** Why an operation failed is only logged. */
  datatype CacheError = DiskError

  type CacheResult<+T> = Result<T, CacheError>

  datatype Row = Row(id: nat, frame: Frame)

  /** Rows in insertion order: ids grow along the table and stay below `next`. */
  ghost predicate Ordered(table: seq<Row>, next: nat)
  {
    && (forall i, j :: 0 <= i < j < |table| ==> table[i].id < table[j].id)
    && (forall i :: 0 <= i < |table| ==> table[i].id < next)
  }

  function FramesOf(table: seq<Row>): (fs: seq<Frame>)
    ensures |fs| == |table| && forall i :: 0 <= i < |fs| ==> fs[i] == table[i].frame
  {
    seq(|table|, i requires 0 <= i < |table| => table[i].frame)
  }

  lemma FramesOfPrefix(rows: seq<Row>, table: seq<Row>)
    requires rows <= table
    ensures FramesOf(rows) == FramesOf(table)[..|rows|]
  {
  }

  function Ids(batch: seq<Row>): set<nat>
  {
    set r | r in batch :: r.id
  }

  /** `DELETE FROM frames WHERE id IN (…)`. */
  function Deleted(table: seq<Row>, ids: set<nat>): seq<Row>
  {
    if table == [] then []
    else (if table[0].id in ids then [] else [table[0]]) + Deleted(table[1..], ids)
  }

  lemma {:induction false} DeletedNone(table: seq<Row>, ids: set<nat>)
    requires forall r :: r in table ==> r.id !in ids
    ensures Deleted(table, ids) == table
  {
    if table != [] {
      DeletedNone(table[1..], ids);
    }
  }

  lemma {:induction false} DeletedPrefix(table: seq<Row>, k: nat, next: nat, ids: set<nat>)
    requires Ordered(table, next) && k <= |table|
    requires forall i :: 0 <= i < k ==> table[i].id in ids
    requires forall i :: k <= i < |table| ==> table[i].id !in ids
    ensures Deleted(table, ids) == table[k..]
    decreases k
  {
    if k == 0 {
      DeletedNone(table, ids);
      assert table[0..] == table;
    } else {
      DeletedPrefix(table[1..], k - 1, next, ids);
      assert table[1..][k - 1..] == table[k..];
    }
  }

  /** Deleting the oldest `k` rows by their ids leaves the rest, in order. */
  lemma DeletingTheOldest(table: seq<Row>, k: nat, next: nat)
    requires Ordered(table, next) && k <= |table|
    ensures Deleted(table, Ids(table[..k])) == table[k..]
  {
    var ids := Ids(table[..k]);
    forall i | 0 <= i < k ensures table[i].id in ids {
      assert table[i] in table[..k];
    }
    forall i | k <= i < |table| ensures table[i].id !in ids {
      forall r | r in table[..k] ensures r.id < table[i].id {
        var j :| 0 <= j < k && table[j] == r;
      }
    }
    DeletedPrefix(table, k, next, ids);
  }

  lemma {:induction false} DeletedSubset(table: seq<Row>, ids: set<nat>)
    ensures forall r :: r in Deleted(table, ids) ==> r in table
    ensures |Deleted(table, ids)| <= |table|
  {
    if table != [] {
      DeletedSubset(table[1..], ids);
      assert forall r :: r in table[1..] ==> r in table;
    }
  }

  lemma OrderedTail(table: seq<Row>, next: nat)
    requires Ordered(table, next) && table != []
    ensures Ordered(table[1..], next) && table[0].id < next
    ensures forall r :: r in table[1..] ==> table[0].id < r.id
  {
  }

  lemma OrderedCons(row: Row, table: seq<Row>, next: nat)
    requires Ordered(table, next) && row.id < next
    requires forall r :: r in table ==> row.id < r.id
    ensures Ordered([row] + table, next)
  {
    var more := [row] + table;
    forall i | 0 < i < |more| ensures more[i] == table[i - 1] && row.id < more[i].id {
      assert table[i - 1] in table;
    }
  }

  lemma {:induction false} DeletedOrdered(table: seq<Row>, next: nat, ids: set<nat>)
    requires Ordered(table, next)
    ensures Ordered(Deleted(table, ids), next)
  {
    hide Ordered;
    if table == [] {
      assert Deleted(table, ids) == table;
    } else {
      var left := Deleted(table[1..], ids);
      OrderedTail(table, next);
      DeletedOrdered(table[1..], next, ids);
      DeletedSubset(table[1..], ids);
      OrderedCons(table[0], left, next);
      assert [] + left == left;
    }
  }

  function SaturatingSub(a: nat, b: nat): nat
  {
    if b <= a then a - b else 0
  }

  class SqliteCache {
    /** The file: its rows, and the next id it will give. */
    var table: seq<Row>
    var nextId: nat
    /** The row count as the cache tracks it. */
    var rows: nat
    /** How many more operations on this file will fail. */
    var faults: nat
    /** Whether the connection is to the file, and not to a placeholder. */
    var attached: bool
    /** Rows this build has no sample for. */
    var undecodable: set<nat>

    ghost predicate OnDisk()
      reads this`table, this`nextId
    {
      Ordered(table, nextId)
    }

    ghost predicate Valid()
      reads this`table, this`nextId, this`rows
    {
      OnDisk() && rows == |table|
    }

    ghost function Contents(): seq<Frame>
      reads this`table
    {
      FramesOf(table)
    }

    /** Nothing is wrong with this cache, and nothing will be. */
    predicate Perfect()
      reads this`faults, this`attached, this`undecodable
    {
      faults == 0 && attached && undecodable == {}
    }

    constructor (faults: nat)
      ensures Valid() && table == [] && this.faults == faults && attached && undecodable == {}
    {
      table, nextId, rows, this.faults := [], 0, 0, faults;
      attached, undecodable := true, {};
    }

    /** Something outside goes wrong: it may, while faults are left. */
    method Fault() returns (broken: bool)
      modifies this`faults
      ensures faults == if broken then old(faults) - 1 else old(faults)
    {
      broken := *;
      broken := broken && faults > 0;
      if broken {
        faults := faults - 1;
      }
    }

    /** Whether the next operation fails: always, on a placeholder. */
    method Breaks() returns (broken: bool)
      modifies this`faults
      ensures faults <= old(faults)
      ensures if broken then !attached || faults < old(faults) else attached && faults == old(faults)
    {
      broken := Fault();
      broken := broken || !attached;
    }

    /** A process opens the file, and counts its rows. */
    method Open()
      requires OnDisk()
      modifies this`rows, this`attached
      ensures Valid() && attached
    {
      rows, attached := |table|, true;
    }

    method Append(frames: seq<Frame>) returns (r: CacheResult<nat>)
      requires Valid()
      modifies this`table, this`nextId, this`rows, this`faults
      ensures Valid() && faults <= old(faults)
      ensures r.Success? ==> r.value == |frames| && Contents() == old(Contents()) + frames
                             && old(table) <= table
      ensures r.Failure? ==> table == old(table) && frames != [] && (!attached || faults < old(faults))
      ensures !attached && frames != [] ==> r.Failure?
    {
      if frames == [] {
        return Success(0);
      }
      var broken := Breaks();
      if broken {
        return Failure(DiskError);
      }
      var inserted, id := table, nextId;
      for i := 0 to |frames|
        invariant id == nextId + i && |inserted| == |table| + i
        invariant table <= inserted
        invariant Ordered(inserted, id)
        invariant FramesOf(inserted) == FramesOf(table) + frames[..i]
      {
        inserted := inserted + [Row(id, frames[i])];
        id := id + 1;
      }
      table, nextId := inserted, id;
      rows := rows + |frames|;
      return Success(|frames|);
    }

    /** The rows one read asks for. */
    function First(limit: nat): seq<Row>
      reads this`table
    {
      table[..if limit < |table| then limit else |table|]
    }

    predicate Decodes(batch: seq<Row>)
      reads this`undecodable
    {
      forall i :: 0 <= i < |batch| ==> batch[i].id !in undecodable
    }

    /** One row that does not decode fails the whole read, now and every time. */
    method Oldest(limit: nat) returns (r: CacheResult<seq<Row>>)
      requires Valid()
      modifies this`faults
      ensures Valid() && faults <= old(faults)
      ensures r.Success? ==> r.value == First(limit) && Decodes(First(limit)) && attached
      ensures r.Failure? ==> !attached || faults < old(faults) || !Decodes(First(limit))
    {
      var broken := Breaks();
      if broken || !Decodes(First(limit)) {
        return Failure(DiskError);
      }
      return Success(First(limit));
    }

    /** Forget rows by id; the count falls by however many were there. */
    method Remove(batch: seq<Row>) returns (r: CacheResult<()>)
      requires Valid()
      modifies this`table, this`rows, this`faults
      ensures Valid() && faults <= old(faults)
      ensures r.Failure? ==> table == old(table) && batch != [] && (!attached || faults < old(faults))
      ensures r.Success? ==> table == Deleted(old(table), Ids(batch))
      ensures r.Success? && batch <= old(table) ==> table == old(table)[|batch|..]
    {
      if batch == [] {
        DeletedNone(table, Ids(batch));
        return Success(());
      }
      var broken := Breaks();
      if broken {
        return Failure(DiskError);
      }
      hide Ordered, Deleted, FramesOf;
      DeletedOrdered(table, nextId, Ids(batch));
      DeletedSubset(table, Ids(batch));
      if batch <= table {
        DeletingTheOldest(table, |batch|, nextId);
        assert table[..|batch|] == batch;
      }
      var left := Deleted(table, Ids(batch));
      var removed := |table| - |left|;
      table := left;
      rows := SaturatingSub(rows, removed);
      return Success(());
    }

    /**
      A new file in place of the old. A failure may come before anything is
      done, or with the old file still there or already gone; in the last two
      the cache is left on a placeholder, and its count as it was.
    */
    method Reset() returns (r: CacheResult<()>)
      requires Valid()
      modifies this
      ensures OnDisk() && faults <= old(faults)
      ensures r.Success? ==> Valid() && table == [] && nextId == 0 && attached && undecodable == {}
      ensures r.Failure? ==> faults < old(faults) && rows == old(rows)
      ensures r.Failure? ==> (table == old(table) && undecodable == old(undecodable)) || (table == [] && !attached)
      ensures r.Failure? && attached ==> old(attached)
      ensures old(table) == [] ==> Valid() && table == []
    {
      var broken := Fault();
      if broken {
        return Failure(DiskError);
      }
      attached := false;
      broken := Fault();
      if broken {
        return Failure(DiskError);
      }
      table, nextId, undecodable := [], 0, {};
      broken := Fault();
      if broken {
        return Failure(DiskError);
      }
      attached, rows := true, 0;
      return Success(());
    }

    /** What this file and another hold. */
    ghost function Both(legacy: SqliteCache): Files
      reads this`table, legacy`table
    {
      Files(Contents(), legacy.Contents())
    }

    /**
      Put the other cache's file where this one's is. `Success(false)` is a
      rename that was refused; a failure leaves this cache on a placeholder,
      the rename done or not.
    */
    method TakeOver(other: SqliteCache) returns (r: CacheResult<bool>, ghost a: Attempt)
      requires Valid() && other.Valid() && other != this && table == []
      modifies this, other
      ensures OnDisk() && other.OnDisk() && Both(other) == Adopted(old(Both(other)), a)
      ensures a.Renamed? || a.Stopped?
      ensures r.Success? ==> Valid() && (r.value <==> a.Renamed?)
      ensures a.Renamed? ==> table == old(other.table) && other.table == []
      ensures a.Stopped? ==> table == [] && other.table == old(other.table)
      ensures r.Failure? ==> !attached
      // It succeeds over files with nothing wrong.
      ensures old(Perfect() && other.Perfect()) ==> r.Success? && Perfect() && other.Perfect()
    {
      var moved := other.rows;
      var renamed: bool := *;
      attached := false;
      if renamed {
        table, nextId, undecodable := other.table, other.nextId, other.undecodable;
        other.table, other.nextId := [], 0;
      }
      a := if renamed then Renamed else Stopped;
      var broken := Fault();
      if broken {
        return Failure(DiskError), a;
      }
      attached := true;
      rows := if renamed then moved else 0;
      return Success(renamed), a;
    }

    /**
      Copy one batch, then delete it from its source. It is in both files
      afterwards exactly when the append was made and the delete was not.
    */
    method MoveBatch(legacy: SqliteCache) returns (r: CacheResult<bool>, ghost a: Attempt)
      requires Valid() && legacy.Valid() && legacy != this
      modifies this, legacy
      ensures Valid() && legacy.Valid() && Both(legacy) == Adopted(old(Both(legacy)), a)
      ensures a.Undeleted? <==> |table| > |old(table)| && legacy.table == old(legacy.table)
      ensures r == Success(true) ==> a.Moved? && |legacy.table| < |old(legacy.table)|
      ensures r == Success(false) ==> a.Stopped? && legacy.table == []
      ensures r.Failure? ==> a.Stopped? || a.Undeleted?
      // It succeeds over files with nothing wrong.
      ensures old(Perfect() && legacy.Perfect()) ==> r.Success? && Perfect() && legacy.Perfect()
    {
      hide Ordered, Deleted;
      a := Stopped;
      ghost var before := Both(legacy);
      var batch := legacy.Oldest(ADOPT_BATCH);
      assert Both(legacy) == before;
      if batch.Failure? {
        return Failure(DiskError), a;
      }
      var n := |batch.value|;
      if n == 0 {
        return Success(false), a;
      }
      var frames := FramesOf(batch.value);
      FramesOfPrefix(batch.value, legacy.table);
      assert n == BatchSize(before) && frames == before.theirs[..n];
      var stored := Append(frames);
      assert legacy.Contents() == before.theirs;
      if stored.Failure? {
        return Failure(DiskError), a;
      }
      a := Undeleted;
      assert |FramesOf(table)| > |FramesOf(old(table))|;
      var gone := legacy.Remove(batch.value);
      if gone.Failure? {
        return Failure(DiskError), a;
      }
      a := Moved;
      assert legacy.Contents() == before.theirs[n..];
      return Success(true), a;
    }

    /** Batch after batch, until the source is empty or something fails. */
    method CopyAll(legacy: SqliteCache) returns (r: CacheResult<()>, ghost tries: seq<Attempt>)
      requires Valid() && legacy.Valid() && legacy != this
      modifies this, legacy
      ensures Valid() && legacy.Valid() && Both(legacy) == AdoptedAll(old(Both(legacy)), tries)
      ensures OnePass(tries, r.Success?)
      ensures r.Success? ==> legacy.table == []
      // It succeeds over files with nothing wrong.
      ensures old(Perfect() && legacy.Perfect()) ==> r.Success? && Perfect() && legacy.Perfect()
    {
      hide Ordered, FramesOf, Adopted;
      ghost var before := Both(legacy);
      tries := [];
      while true
        invariant Valid() && legacy.Valid() && Both(legacy) == AdoptedAll(before, tries)
        invariant forall k :: 0 <= k < |tries| ==> tries[k].Moved?
        invariant old(Perfect() && legacy.Perfect()) ==> Perfect() && legacy.Perfect()
        decreases |legacy.table|
      {
        ghost var a;
        var more;
        more, a := MoveBatch(legacy);
        assert (tries + [a])[..|tries|] == tries;
        tries := tries + [a];
        if more.Failure? {
          return Failure(DiskError), tries;
        }
        if !more.value {
          return Success(()), tries;
        }
      }
    }

    /** Empty an older install's cache into this one. */
    method Adopt(legacy: SqliteCache) returns (r: CacheResult<nat>, ghost tries: seq<Attempt>)
      requires Valid() && legacy.OnDisk() && legacy != this
      modifies this, legacy
      ensures OnDisk() && legacy.OnDisk() && Both(legacy) == AdoptedAll(old(Both(legacy)), tries)
      // Into an empty cache a rename is tried before anything is copied.
      ensures old(rows) == 0 && tries != [] ==> tries[0].Renamed? || tries[0].Stopped?
      ensures OnePass(tries, r.Success?)
      ensures r.Success? ==> Valid() && r.value == |old(legacy.table)| && legacy.table == []
      // It succeeds over files with nothing wrong.
      ensures old(Perfect() && legacy.Perfect()) ==> r.Success? && Perfect() && legacy.Perfect()
    {
      hide Ordered, FramesOf, Adopted, AdoptedAll;
      ghost var before := Both(legacy);
      tries := [];
      legacy.Open();
      var moved := legacy.rows;
      var broken := Fault();
      AdoptedOne(before, Stopped);
      if moved == 0 {
        return if broken then Failure(DiskError) else Success(0), tries;
      }
      if rows == 0 {
        var took;
        ghost var a;
        took, a := TakeOver(legacy);
        tries := [a];
        AdoptedOne(before, a);
        if took.Failure? {
          return Failure(DiskError), tries;
        }
        if took.value {
          return Success(moved), tries;
        }
        legacy.Open();
      }
      ghost var renaming := tries;
      var done;
      done, tries := CopyAll(legacy);
      AdoptedConcat(before, renaming, tries);
      tries := renaming + tries;
      return if broken || done.Failure? then Failure(DiskError) else Success(moved), tries;
    }

    /**
      Adoption over any number of starts, each picking up where the last
      stopped. Every legacy frame arrives in its order; what is in both files
      at the end is one batch at most; and the frames that came twice are those
      whose delete failed after their append, one batch at most for each start
      that failed.
    */
    method AdoptOverStarts(legacy: SqliteCache, starts: nat) returns (r: CacheResult<nat>, ghost tries: seq<Attempt>)
      requires Valid() && legacy.OnDisk() && legacy != this
      modifies this, legacy
      ensures OnDisk() && legacy.OnDisk() && Both(legacy) == AdoptedAll(old(Both(legacy)), tries)
      ensures Undeletions(tries) <= starts
      ensures r.Success? ==> legacy.table == []
      ensures old(Perfect() && legacy.Perfect()) && starts > 0 ==> r.Success?
      ensures Distinct(old(legacy.Contents())) ==> exists left: nat, reached: nat ::
                Reached(old(Both(legacy)), Both(legacy), left, reached) && reached <= left + ADOPT_BATCH
    {
      hide Ordered, FramesOf, Adopted, AdoptedAll, Reached;
      AdoptedOne(Both(legacy), Stopped);
      ghost var before := Both(legacy);
      tries, r := [], Failure(DiskError);
      var k := 0;
      while k < starts && r.Failure?
        invariant 0 <= k <= starts && OnDisk() && legacy.OnDisk()
        invariant Both(legacy) == AdoptedAll(before, tries)
        invariant Undeletions(tries) <= k
        invariant old(Perfect() && legacy.Perfect()) ==> Perfect() && legacy.Perfect() && (k > 0 ==> r.Success?)
        invariant r.Success? ==> legacy.table == []
      {
        Open();
        ghost var more;
        r, more := Adopt(legacy);
        AdoptedConcat(before, tries, more);
        UndeletionsConcat(tries, more);
        OnePassUndeletes(more, r.Success?);
        tries := tries + more;
        k := k + 1;
      }
      if Distinct(before.theirs) {
        ghost var left, reached := AdoptionKeepsOrder(before, tries);
        assert Reached(before, Both(legacy), left, reached);
      }
    }
  }

  /** The steps of one start: it goes on only past what was moved, and stops at its first failure. */
  ghost predicate OnePass(tries: seq<Attempt>, done: bool)
  {
    forall k :: 0 <= k < |tries| && tries[k].Undeleted? ==> !done && k == |tries| - 1
  }

  ghost function Undeletions(tries: seq<Attempt>): nat
  {
    if tries == [] then 0 else Undeletions(tries[..|tries| - 1]) + if tries[|tries| - 1].Undeleted? then 1 else 0
  }

  lemma {:induction false} UndeletionsConcat(a: seq<Attempt>, b: seq<Attempt>)
    ensures Undeletions(a + b) == Undeletions(a) + Undeletions(b)
    decreases |b|
  {
    if b == [] {
      assert a + b == a;
    } else {
      assert (a + b)[..|a + b| - 1] == a + b[..|b| - 1];
      UndeletionsConcat(a, b[..|b| - 1]);
    }
  }

  lemma {:induction false} NoUndeletions(tries: seq<Attempt>)
    requires forall k :: 0 <= k < |tries| ==> !tries[k].Undeleted?
    ensures Undeletions(tries) == 0
  {
    if tries != [] {
      NoUndeletions(tries[..|tries| - 1]);
    }
  }

  lemma OnePassUndeletes(tries: seq<Attempt>, done: bool)
    requires OnePass(tries, done)
    ensures Undeletions(tries) <= if done then 0 else 1
  {
    if tries != [] {
      NoUndeletions(tries[..|tries| - 1]);
    }
  }
}
