/**
  Replay pages over a table with no unique key: the cursor is a timestamp and
  how many rows at exactly that timestamp have been given out already.
*/
module Pagination {

  import opened Wrappers

  datatype Row = Row(ts: int, data: seq<nat>)

  datatype Cursor = Start | After(ts: int, skip: nat)

  datatype Page = Page(frames: seq<Row>, next: Option<Cursor>)

  /** `ORDER BY ts ASC`, ties in an order that does not change. */
  ghost predicate Sorted(t: seq<Row>)
  {
    forall i, j :: 0 <= i < j < |t| ==> t[i].ts <= t[j].ts
  }

  /** `WHERE ts >= …`. */
  function AtLeast(t: seq<Row>, ts: int): seq<Row>
  {
    if t == [] then []
    else AtLeast(t[..|t| - 1], ts) + if t[|t| - 1].ts >= ts then [t[|t| - 1]] else []
  }

  function Limited(t: seq<Row>, n: nat): seq<Row>
  {
    if n < |t| then t[..n] else t
  }

  /** How many of the last rows share the timestamp `ts`. */
  function Ties(frames: seq<Row>, ts: int): nat
  {
    if frames == [] || frames[|frames| - 1].ts != ts then 0 else 1 + Ties(frames[..|frames| - 1], ts)
  }

  function Skip(c: Cursor): nat
  {
    if c.After? then c.skip else 0
  }

  /** The rows a query returns: the limit covers those it will skip. */
  function Selected(t: seq<Row>, c: Cursor, limit: nat): seq<Row>
  {
    Limited(if c.After? then AtLeast(t, c.ts) else t, limit + Skip(c))
  }

  /** Where the page just given out leaves off. */
  function NextCursor(frames: seq<Row>, c: Cursor): Cursor
    requires frames != []
  {
    var last := frames[|frames| - 1].ts;
    var carried := if c.After? && c.ts == last then c.skip else 0;
    After(last, (Ties(frames, last) + carried) % 0x1_0000_0000)
  }

  function FramesBatch(t: seq<Row>, c: Cursor, limit: nat): Page
  {
    var rows := Selected(t, c, limit);
    var exhausted := |rows| < limit + Skip(c);
    var frames := if Skip(c) < |rows| then rows[Skip(c)..] else [];
    if exhausted || frames == [] then Page(frames, None)
    else Page(frames, Some(NextCursor(frames, c)))
  }

  // -------------------------------------------------------------------------

  /** How many rows are before `ts`. */
  ghost function Below(t: seq<Row>, ts: int): (k: nat)
    ensures k <= |t|
  {
    if t == [] then 0 else Below(t[..|t| - 1], ts) + if t[|t| - 1].ts < ts then 1 else 0
  }

  lemma {:induction false} BelowAt(t: seq<Row>, ts: int, i: nat)
    requires Sorted(t) && i < |t|
    ensures t[i].ts < ts <==> i < Below(t, ts)
  {
    var n := |t| - 1;
    if t[n].ts < ts {
      AllBelow(t, ts);
    } else if i < n {
      BelowAt(t[..n], ts, i);
    } else {
      assert Below(t, ts) == Below(t[..n], ts) <= n;
    }
  }

  lemma {:induction false} AllBelow(t: seq<Row>, ts: int)
    requires forall i :: 0 <= i < |t| ==> t[i].ts <= ts - 1
    ensures Below(t, ts) == |t|
  {
    if t != [] {
      AllBelow(t[..|t| - 1], ts);
    }
  }

  lemma BelowSplits(t: seq<Row>, ts: int)
    requires Sorted(t)
    ensures forall i :: 0 <= i < |t| ==> (t[i].ts < ts <==> i < Below(t, ts))
  {
  }

  /** In a sorted table the rows from `ts` on are a suffix. */
  lemma {:induction false} AtLeastSuffix(t: seq<Row>, ts: int)
    requires Sorted(t)
    ensures AtLeast(t, ts) == t[Below(t, ts)..]
  {
    if t != [] {
      var n := |t| - 1;
      AtLeastSuffix(t[..n], ts);
      var k := Below(t[..n], ts);
      if t[n].ts < ts {
        AllBelow(t, ts);
        assert t[..n][n..] == [];
      } else {
        assert t[k..] == t[..n][k..] + [t[n]];
      }
    }
  }

  /** How many of the first `p` rows share the timestamp of the last of them. */
  ghost function Group(t: seq<Row>, p: nat): int
    requires 0 < p <= |t|
  {
    p - Below(t, t[p - 1].ts)
  }

  /** No timestamp is shared by so many rows that their count does not fit the cursor. */
  ghost predicate Countable(t: seq<Row>)
  {
    forall p :: 0 < p <= |t| ==> Group(t, p) < 0x1_0000_0000
  }

  /** The cursor stands after exactly the first `p` rows. */
  ghost predicate Stands(t: seq<Row>, c: Cursor, p: nat)
  {
    match c
    case Start => p == 0
    case After(ts, skip) => 0 < p <= |t| && t[p - 1].ts == ts && skip == Group(t, p)
  }

  lemma SliceFront(t: seq<Row>, p: nat, q: nat)
    requires p < q <= |t|
    ensures |t[p..q]| == q - p && t[p..q][q - p - 1] == t[q - 1]
    ensures t[p..q][..q - p - 1] == t[p..q - 1]
  {
  }

  lemma {:induction false} TiesCount(t: seq<Row>, p: nat, q: nat, ts: int)
    requires Sorted(t) && p <= q <= |t|
    requires p < q ==> t[q - 1].ts <= ts
    ensures var k := Below(t, ts);
            Ties(t[p..q], ts) == if q <= k then 0 else if p < k then q - k else q - p
    decreases q
  {
    if p < q {
      BelowAt(t, ts, q - 1);
      SliceFront(t, p, q);
      if t[q - 1].ts == ts {
        TiesCount(t, p, q - 1, ts);
      }
    }
  }

  /** The rows selected, less those skipped, are the next ones from where the cursor stands. */
  lemma SelectedRows(t: seq<Row>, c: Cursor, p: nat, limit: nat)
    requires Sorted(t) && Stands(t, c, p)
    ensures Skip(c) <= p <= |t|
    ensures Selected(t, c, limit) == t[p - Skip(c)..if p + limit <= |t| then p + limit else |t|]
  {
    hide Below, AtLeast;
    if c.After? {
      AtLeastSuffix(t, c.ts);
    }
  }

  /** The cursor after rows `p` to `q` stands at `q`, when the count fits. */
  lemma CursorStands(t: seq<Row>, c: Cursor, p: nat, q: nat)
    requires Sorted(t) && Stands(t, c, p) && p < q <= |t|
    ensures Group(t, q) > 0 && NextCursor(t[p..q], c) == After(t[q - 1].ts, Group(t, q) % 0x1_0000_0000)
    ensures Stands(t, NextCursor(t[p..q], c), q) <==> Group(t, q) < 0x1_0000_0000
  {
    hide Below, Ties;
    var last := t[q - 1].ts;
    assert t[p..q][q - p - 1] == t[q - 1];
    TiesCount(t, p, q, last);
    BelowAt(t, last, q - 1);
    if p > 0 {
      BelowAt(t, last, p - 1);
      assert t[p - 1].ts <= last;
    }
  }

  /** One page: the next rows from where the cursor stands, and a cursor that stands after them. */
  lemma PageStep(t: seq<Row>, c: Cursor, p: nat, limit: nat)
    requires Sorted(t) && Countable(t) && Stands(t, c, p) && 1 <= limit
    ensures var page := FramesBatch(t, c, limit);
            if p + limit <= |t| then
              page.frames == t[p..p + limit] && page.next.Some? && Stands(t, page.next.value, p + limit)
            else
              page.frames == t[p..] && page.next.None?
  {
    hide Below, Stands, NextCursor, Selected;
    SelectedRows(t, c, p, limit);
    var rows := Selected(t, c, limit);
    if p + limit <= |t| {
      assert rows[Skip(c)..] == t[p..p + limit];
      CursorStands(t, c, p, p + limit);
      assert Group(t, p + limit) < 0x1_0000_0000;
    } else if Skip(c) < |rows| {
      assert rows[Skip(c)..] == t[p..];
    } else {
      assert t[p..] == [];
    }
  }

  // -------------------------------------------------------------------------
  // Following the cursor while the table grows

  /** Rows were added, or not, but none at or before the cursor's timestamp. */
  ghost predicate Grows(t: seq<Row>, t': seq<Row>, c: Cursor)
  {
    && Sorted(t') && Countable(t')
    && (c.After? ==>
          var k := Below(t, c.ts + 1);
          k == Below(t', c.ts + 1) && t[..k] == t'[..k])
  }

  lemma GrowsKeepsPlace(t: seq<Row>, t': seq<Row>, c: Cursor, p: nat)
    requires Sorted(t) && Stands(t, c, p) && Grows(t, t', c)
    ensures p <= |t'| && t'[..p] == t[..p] && Stands(t', c, p)
  {
    if c.After? {
      var k := Below(t, c.ts + 1);
      BelowSplits(t, c.ts + 1);
      BelowSplits(t', c.ts + 1);
      assert p - 1 < k;
      assert t[..k][..p] == t[..p] && t'[..k][..p] == t'[..p];
      assert t'[p - 1] == t'[..k][p - 1] == t[p - 1];
      SameBelow(t, t', k, c.ts);
    }
  }

  lemma SameBelow(t: seq<Row>, t': seq<Row>, k: nat, ts: int)
    requires Sorted(t) && Sorted(t') && k <= |t| && k <= |t'| && t[..k] == t'[..k]
    requires Below(t, ts + 1) == k == Below(t', ts + 1)
    ensures Below(t, ts) == Below(t', ts)
  {
    NoFewerBelow(t, t', k, ts);
    NoFewerBelow(t', t, k, ts);
  }

  lemma NoFewerBelow(t: seq<Row>, t': seq<Row>, k: nat, ts: int)
    requires Sorted(t) && Sorted(t') && k <= |t| && k <= |t'| && t[..k] == t'[..k]
    requires Below(t, ts + 1) == k
    ensures Below(t, ts) <= Below(t', ts)
  {
    var a := Below(t, ts);
    if a > 0 {
      BelowAt(t, ts, a - 1);
      BelowAt(t, ts + 1, a - 1);
      assert t[a - 1] == t[..k][a - 1] == t'[..k][a - 1] == t'[a - 1];
      BelowAt(t', ts, a - 1);
    }
  }

  /** Pages read one after another, the i-th from the i-th table, until one has no next cursor. */
  datatype Fetched = Fetched(rows: seq<Row>, done: bool, last: seq<Row>)

  ghost function Fetch(tables: seq<seq<Row>>, c: Cursor, limit: nat): Fetched
    requires tables != []
    decreases |tables|
  {
    var page := FramesBatch(tables[0], c, limit);
    if page.next.None? || |tables| == 1 then Fetched(page.frames, page.next.None?, tables[0])
    else
      var rest := Fetch(tables[1..], page.next.value, limit);
      rest.(rows := page.frames + rest.rows)
  }

  /** Between pages the table only grows, above the cursor just given out. */
  ghost predicate AllGrow(tables: seq<seq<Row>>, c: Cursor, limit: nat)
    requires tables != []
    decreases |tables|
  {
    var page := FramesBatch(tables[0], c, limit);
    && Sorted(tables[0]) && Countable(tables[0])
    && (page.next.Some? && |tables| > 1 ==>
          Grows(tables[0], tables[1], page.next.value) && AllGrow(tables[1..], page.next.value, limit))
  }

  /**
    Following the cursor yields each row once, in order: what has been given
    out so far is always the front of the table, and all of it at the end.
  */
  lemma {:induction false} FetchIsComplete(tables: seq<seq<Row>>, c: Cursor, p: nat, limit: nat)
    requires tables != [] && AllGrow(tables, c, limit) && Stands(tables[0], c, p) && 1 <= limit
    requires p <= |tables[0]|
    ensures var f := Fetch(tables, c, limit);
            && p + |f.rows| <= |f.last|
            && tables[0][..p] + f.rows == f.last[..p + |f.rows|]
            && (f.done ==> tables[0][..p] + f.rows == f.last)
    decreases |tables|
  {
    hide Below, Stands, FramesBatch, Sorted, Countable, Grows;
    var t := tables[0];
    var page := FramesBatch(t, c, limit);
    PageStep(t, c, p, limit);
    if p + limit > |t| {
      assert t[..p] + t[p..] == t;
      assert t[..p + |t[p..]|] == t;
    } else {
      var q := p + limit;
      assert t[..p] + t[p..q] == t[..q];
      if |tables| > 1 {
        GrowsKeepsPlace(t, tables[1], page.next.value, q);
        FetchIsComplete(tables[1..], page.next.value, q, limit);
        var rest := Fetch(tables[1..], page.next.value, limit);
        assert t[..p] + (t[p..q] + rest.rows) == t[..q] + rest.rows;
      }
    }
  }

  /** From the start: the rows given out when the last page says so are the table, no more and no less. */
  lemma FollowingYieldsTheTable(tables: seq<seq<Row>>, limit: nat)
    requires tables != [] && AllGrow(tables, Start, limit) && 1 <= limit
    requires Fetch(tables, Start, limit).done
    ensures Fetch(tables, Start, limit).rows == Fetch(tables, Start, limit).last
  {
    hide Fetch, AllGrow, FramesBatch;
    FetchIsComplete(tables, Start, 0, limit);
    assert tables[0][..0] == [];
  }

  lemma {:induction false} FetchEndsUnchanged(tables: seq<seq<Row>>, c: Cursor, p: nat, limit: nat)
    requires tables != [] && Sorted(tables[0]) && Countable(tables[0])
    requires forall i :: 0 <= i < |tables| ==> tables[i] == tables[0]
    requires Stands(tables[0], c, p) && 1 <= limit && p <= |tables[0]|
    requires |tables| > |tables[0]| - p
    ensures Fetch(tables, c, limit).done
    decreases |tables|
  {
    PageStep(tables[0], c, p, limit);
    if p + limit <= |tables[0]| {
      FetchEndsUnchanged(tables[1..], FramesBatch(tables[0], c, limit).next.value, p + limit, limit);
    }
  }

  /**
    However rows are added above the cursor in the first `j` pages, once
    additions stop the following ends: within as many further pages as the
    table then has rows, and one.
  */
  lemma {:induction false} FetchEnds(tables: seq<seq<Row>>, c: Cursor, p: nat, limit: nat, j: nat)
    requires tables != [] && AllGrow(tables, c, limit) && Stands(tables[0], c, p) && 1 <= limit
    requires p <= |tables[0]| && j < |tables|
    requires forall i :: j <= i < |tables| ==> tables[i] == tables[j]
    requires |tables| - j > |tables[j]|
    ensures Fetch(tables, c, limit).done
    decreases j
  {
    hide Below, Stands, Countable, FramesBatch, Grows;
    if j == 0 {
      FetchEndsUnchanged(tables, c, p, limit);
    } else {
      var page := FramesBatch(tables[0], c, limit);
      PageStep(tables[0], c, p, limit);
      if page.next.Some? {
        var rest := tables[1..];
        GrowsKeepsPlace(tables[0], rest[0], page.next.value, p + limit);
        assert forall i :: j - 1 <= i < |rest| ==> rest[i] == tables[i + 1];
        FetchEnds(rest, page.next.value, p + limit, limit, j - 1);
      }
    }
  }

  /** From the start, with additions that stop: every row of the table it ends on, once and in order. */
  lemma FollowingEndsWithTheTable(tables: seq<seq<Row>>, limit: nat, j: nat)
    requires tables != [] && AllGrow(tables, Start, limit) && 1 <= limit && j < |tables|
    requires forall i :: j <= i < |tables| ==> tables[i] == tables[j]
    requires |tables| - j > |tables[j]|
    ensures var f := Fetch(tables, Start, limit); f.done && f.rows == f.last && f.last in tables
  {
    FetchEnds(tables, Start, 0, limit, j);
    FollowingYieldsTheTable(tables, limit);
    LastIsOne(tables, Start, limit);
  }

  lemma {:induction false} LastIsOne(tables: seq<seq<Row>>, c: Cursor, limit: nat)
    requires tables != []
    ensures Fetch(tables, c, limit).last in tables
    decreases |tables|
  {
    var page := FramesBatch(tables[0], c, limit);
    if page.next.Some? && |tables| > 1 {
      LastIsOne(tables[1..], page.next.value, limit);
    }
  }

  /** Exactly when a page's cursor keeps its place: the rows sharing the last timestamp can be counted. */
  lemma PlaceKeptExactly(t: seq<Row>, c: Cursor, p: nat, limit: nat)
    requires Sorted(t) && Stands(t, c, p) && 1 <= limit && p + limit <= |t|
    ensures var page := FramesBatch(t, c, limit);
            page.next.Some? && (Stands(t, page.next.value, p + limit) <==> Group(t, p + limit) < 0x1_0000_0000)
  {
    hide Below, Stands, NextCursor, Selected;
    SelectedRows(t, c, p, limit);
    assert Selected(t, c, limit)[Skip(c)..] == t[p..p + limit];
    CursorStands(t, c, p, p + limit);
  }

  /** How far into the last timestamp's group the cursor's 32 bits say the first `q` rows reach. */
  ghost function Said(t: seq<Row>, q: nat): nat
    requires 0 < q <= |t|
  {
    Group(t, q) % 0x1_0000_0000
  }

  lemma SaidWithin(t: seq<Row>, q: nat)
    requires Sorted(t) && 0 < q <= |t|
    ensures Below(t, t[q - 1].ts) + Said(t, q) <= q
  {
    hide Below;
    BelowAt(t, t[q - 1].ts, q - 1);
  }

  /** Where the next page begins, whatever the ties: as far into the group as the cursor says. */
  lemma NextPageBegins(t: seq<Row>, c: Cursor, p: nat, limit: nat)
    requires Sorted(t) && Stands(t, c, p) && 1 <= limit && p + limit <= |t|
    ensures var page, from := FramesBatch(t, c, limit), Below(t, t[p + limit - 1].ts) + Said(t, p + limit);
            && page.next == Some(After(t[p + limit - 1].ts, Said(t, p + limit)))
            && from <= p + limit
            && FramesBatch(t, page.next.value, limit).frames == t[from..Upto(t, from, limit)]
  {
    hide Below, Said, FramesBatch;
    NextPageCursor(t, c, p, limit);
    SaidWithin(t, p + limit);
    FromCursor(t, t[p + limit - 1].ts, Said(t, p + limit), limit);
  }

  function Upto(t: seq<Row>, from: nat, limit: nat): (n: nat)
    requires from <= |t|
    ensures from <= n <= |t|
  {
    if from + limit <= |t| then from + limit else |t|
  }

  lemma NextPageCursor(t: seq<Row>, c: Cursor, p: nat, limit: nat)
    requires Sorted(t) && Stands(t, c, p) && 1 <= limit && p + limit <= |t|
    ensures FramesBatch(t, c, limit).next == Some(After(t[p + limit - 1].ts, Said(t, p + limit)))
  {
    hide Below, Stands, NextCursor, Selected, Group;
    SelectedRows(t, c, p, limit);
    assert Selected(t, c, limit)[Skip(c)..] == t[p..p + limit];
    CursorStands(t, c, p, p + limit);
  }

  lemma FromCursor(t: seq<Row>, ts: int, skip: nat, limit: nat)
    requires Sorted(t) && Below(t, ts) + skip <= |t|
    ensures var from := Below(t, ts) + skip;
            FramesBatch(t, After(ts, skip), limit).frames == t[from..Upto(t, from, limit)]
  {
    hide Below, AtLeast, NextCursor;
    AtLeastSuffix(t, ts);
    var k := Below(t, ts);
    var upto := Upto(t, k + skip, limit);
    assert Selected(t, After(ts, skip), limit) == t[k..upto];
    assert t[k..upto][skip..] == t[k + skip..upto];
  }

  /** So after exactly 2^32 rows of one timestamp the next page is the group's first rows again. */
  lemma AFullGroupRepeats(t: seq<Row>, c: Cursor, p: nat, limit: nat)
    requires Sorted(t) && Stands(t, c, p) && 1 <= limit && p + limit <= |t|
    requires Group(t, p + limit) == 0x1_0000_0000
    ensures var ts := t[p + limit - 1].ts;
            var k := Below(t, ts);
            && FramesBatch(t, c, limit).next == Some(After(ts, 0))
            && k == p + limit - 0x1_0000_0000 && t[k].ts == ts
            && FramesBatch(t, After(ts, 0), limit).frames == t[k..Upto(t, k, limit)]
  {
    hide Below, Stands, FramesBatch;
    NextPageBegins(t, c, p, limit);
    var ts := t[p + limit - 1].ts;
    BelowAt(t, ts, Below(t, ts));
    BelowAt(t, ts, p + limit - 1);
  }
}
