/**
  Writing an archive's sections as rows arrive, and reading an upload back as
  its chunks arrive, cut anywhere. gzip is any streaming decoder: what it has
  put out for the front of a stream is the front of what it puts out for all.
*/
module ArchiveWriter {
  import opened Wrappers
  import opened ArchiveFormat

  /** Sections one after another. */
  ghost function Sections(pieces: seq<seq<byte>>): seq<byte>
    requires Sized(pieces, 0xffff_ffff)
  {
    if pieces == [] then [] else Sections(pieces[..|pieces| - 1]) + Section(pieces[|pieces| - 1])
  }

  lemma {:induction false} TableOfSections(pieces: seq<seq<byte>>, k: nat)
    requires Sized(pieces, 0xffff_ffff) && k <= |pieces|
    ensures Sized(pieces[..k], 0xffff_ffff) && Sized(pieces[k..], 0xffff_ffff)
    ensures Sections(pieces[..k]) + Table(pieces[k..]) == Sections(pieces) + Section([])
    decreases |pieces| - k
  {
    hide Section, Sections, Table;
    if k == |pieces| {
      assert pieces[..k] == pieces && pieces[k..] == [];
      NoTable();
    } else {
      TableOfSections(pieces, k + 1);
      SectionsNext(pieces, k);
      TableNext(pieces, k);
      var front, next, rest := Sections(pieces[..k]), Section(pieces[k]), Table(pieces[k + 1..]);
      assert front + (next + rest) == (front + next) + rest;
    }
  }

  lemma NoTable()
    ensures Sized([], 0xffff_ffff) && Table([]) == Section([])
  {
  }

  lemma SectionsNext(pieces: seq<seq<byte>>, k: nat)
    requires Sized(pieces, 0xffff_ffff) && k < |pieces|
    ensures Sized(pieces[..k], 0xffff_ffff) && Sized(pieces[..k + 1], 0xffff_ffff)
    ensures Sections(pieces[..k + 1]) == Sections(pieces[..k]) + Section(pieces[k])
  {
    hide Section;
    assert pieces[..k + 1][..k] == pieces[..k];
  }

  lemma TableNext(pieces: seq<seq<byte>>, k: nat)
    requires Sized(pieces, 0xffff_ffff) && k < |pieces|
    ensures Sized(pieces[k..], 0xffff_ffff) && Sized(pieces[k + 1..], 0xffff_ffff)
    ensures Table(pieces[k..]) == Section(pieces[k]) + Table(pieces[k + 1..])
  {
    hide Section;
    assert pieces[k..][1..] == pieces[k + 1..];
  }

  lemma Pushed(pieces: seq<seq<byte>>, piece: seq<byte>)
    requires Sized(pieces, 0xffff_ffff) && 0 < |piece| <= 0xffff_ffff
    ensures Sized(pieces + [piece], 0xffff_ffff)
    ensures Sections(pieces + [piece]) == Sections(pieces) + Section(piece)
    ensures Joined(pieces + [piece]) == Joined(pieces) + piece
  {
    hide Section, Joined;
    assert (pieces + [piece])[..|pieces|] == pieces;
    JoinedSnoc(pieces, piece);
  }

  lemma JoinedNone()
    ensures Joined([]) == [] && Sections([]) == []
  {
  }

  lemma JoinedNext(rows: seq<seq<byte>>, i: nat)
    requires i < |rows|
    ensures Joined(rows[..i + 1]) == Joined(rows[..i]) + rows[i]
  {
    JoinedSnoc(rows[..i], rows[i]);
    assert rows[..i] + [rows[i]] == rows[..i + 1];
  }

  /** No row is so long that it could overfill a section. */
  ghost predicate Fit(rows: seq<seq<byte>>)
  {
    forall i :: 0 <= i < |rows| ==> |rows[i]| <= MAX_CHUNK - PIECE
  }

  lemma ReadBack(pieces: seq<seq<byte>>)
    requires Sized(pieces, MAX_CHUNK)
    ensures ReadTable(Table(pieces)) == Read(pieces, [])
  {
    hide Table, ReadTable;
    ReadTableOf(pieces, []);
    assert Table(pieces) + [] == Table(pieces);
  }

  /**
    One table's sections: rows are gathered until a piece is large enough, and
    a row is never cut. `None` is a piece whose length does not fit its field.
  */
  method WriteTable(rows: seq<seq<byte>>) returns (r: Option<seq<byte>>, ghost pieces: seq<seq<byte>>)
    ensures r.Some? ==> Sized(pieces, 0xffff_ffff) && r.value == Table(pieces) && Joined(pieces) == Joined(rows)
    // Rows are gathered: only the last section is short.
    ensures r.Some? ==> forall i :: 0 <= i < |pieces| - 1 ==> |pieces[i]| >= PIECE
    // Rows within bounds keep every section within what the reader takes.
    ensures Fit(rows) ==> r.Some? && Sized(pieces, MAX_CHUNK)
    // So that the reader gets the rows back, however they were cut.
    ensures Fit(rows) ==>
              r.Some? && var t := ReadTable(r.value); t.Read? && t.rest == [] && Joined(t.value) == Joined(rows)
  {
    hide Section, ReadTable, Sections, Table, Joined;
    pieces := [];
    JoinedNone();
    var out: seq<byte> := [];
    var piece: seq<byte> := [];
    for i := 0 to |rows|
      invariant Sized(pieces, 0xffff_ffff) && out == Sections(pieces) && |piece| < PIECE
      invariant Joined(pieces) + piece == Joined(rows[..i])
      invariant Fit(rows) ==> Sized(pieces, MAX_CHUNK)
      invariant forall k :: 0 <= k < |pieces| ==> |pieces[k]| >= PIECE
    {
      JoinedNext(rows, i);
      piece := piece + rows[i];
      if |piece| >= PIECE {
        if |piece| > 0xffff_ffff {
          return None, pieces;
        }
        Pushed(pieces, piece);
        out := out + Section(piece);
        pieces := pieces + [piece];
        piece := [];
      }
    }
    assert rows[..|rows|] == rows;
    if piece != [] {
      Pushed(pieces, piece);
      out := out + Section(piece);
      pieces := pieces + [piece];
    }
    TableOfSections(pieces, 0);
    assert pieces[..0] == [] && pieces[0..] == pieces;
    if Fit(rows) {
      ReadBack(pieces);
    }
    return Some(out + Section([])), pieces;
  }
}

/** What an archive says it holds, and when the gateway believes it. */
module ArchiveManifest {
  import opened Wrappers
  import opened ArchiveFormat

  const SCHEMA_VERSION: int := 5

  /** The tables of an archive at that version, in order, with their columns. */
  const LAYOUT: seq<(string, seq<string>)> :=
    [("capture_frame",
      ["ts", "ingest_ts", "protocol", "id", "dlc", "data_bytes", "bus", "flags", "unit", "func", "crc_valid"]),
     ("events", ["id", "ts", "duration_us", "note", "created_at", "updated_at"])]

  datatype TableManifest = TableManifest(name: string, columns: seq<string>, rows: nat)

  datatype Manifest = Manifest(schemaVersion: int, database: string, tables: seq<TableManifest>)

  /** The manifest's parser, and how many rows a table's pieces load as, if they load. */
  datatype Loader = Loader(parse: seq<byte> -> Option<Manifest>, copy: (string, seq<seq<byte>>) -> Option<nat>)

  datatype Archive = Archive(manifest: Manifest, tables: seq<seq<seq<byte>>>)

  predicate Loadable(m: Manifest)
  {
    && m.schemaVersion == SCHEMA_VERSION && |m.tables| == |LAYOUT|
    && forall i :: 0 <= i < |LAYOUT| ==> m.tables[i].name == LAYOUT[i].0 && m.tables[i].columns == LAYOUT[i].1
  }

  /** Table `i` loads as many rows as the manifest says. */
  predicate RowsMatch(loader: Loader, m: Manifest, pieces: seq<seq<byte>>, i: nat)
    requires i < |LAYOUT| && i < |m.tables|
  {
    loader.copy(LAYOUT[i].0, pieces) == Some(m.tables[i].rows)
  }

  /** What the gateway makes of what an upload holds. */
  function Accepted(loader: Loader, held: Option<Contents>): Option<Archive>
  {
    if held.None? then None
    else
      var c, m := held.value, loader.parse(held.value.manifest);
      if m.None? || !Loadable(m.value) || |c.tables| != |LAYOUT| then None
      else if forall i :: 0 <= i < |LAYOUT| ==> RowsMatch(loader, m.value, c.tables[i], i) then
        Some(Archive(m.value, c.tables))
      else None
  }

  lemma LayoutCount()
    ensures |LAYOUT| == TABLES
  {
  }

  /** A manifest that cannot be believed sinks the upload, whatever follows it. */
  lemma UnbelievedRefused(loader: Loader, held: Option<Contents>, raw: seq<byte>)
    requires held.Some? ==> held.value.manifest == raw
    requires loader.parse(raw).None? || !Loadable(loader.parse(raw).value)
    ensures Accepted(loader, held) == None
  {
  }

  /** And so does one table with other rows than it says. */
  lemma MiscountRefused(loader: Loader, held: Option<Contents>, m: Manifest, pieces: seq<seq<byte>>, i: nat)
    requires held.Some? ==> loader.parse(held.value.manifest) == Some(m)
    requires i < |LAYOUT| && i < |m.tables| && !RowsMatch(loader, m, pieces, i)
    requires held.Some? ==> i < |held.value.tables| && held.value.tables[i] == pieces
    ensures Accepted(loader, held) == None
  {
    hide LAYOUT, RowsMatch;
  }
}

module ArchiveReader {
  import opened Wrappers
  import opened ArchiveFormat
  import opened ArchiveManifest

  datatype Inflated = Corrupt | Good(out: seq<byte>)

  /** `"WTAR"` and format version 1. */
  const HEADER: seq<byte> := [0x57, 0x54, 0x41, 0x52, 1]

  const INFLATE_AT: nat := 0x2000

  /** What is asked of the decoder, as it is fed and as it is told the end has come. */
  ghost predicate Streaming(inflate: seq<byte> -> Inflated, finish: seq<byte> -> Inflated)
  {
    && inflate([]) == Good([])
    && (forall c: seq<byte>, d: seq<byte> :: inflate(c + d).Good? ==>
          inflate(c).Good? && inflate(c).out <= inflate(c + d).out)
    && (forall c: seq<byte> :: finish(c).Good? ==> inflate(c).Good? && inflate(c).out <= finish(c).out)
  }

  /** The checks made on as much of the header as has arrived. */
  predicate HeaderOk(header: seq<byte>)
  {
    header <= HEADER
  }

  /** An upload no reader of it could accept: it fails, is too short, is not an archive, or does not decompress. */
  ghost predicate Unreadable(whole: seq<byte>, breaks: bool, finish: seq<byte> -> Inflated)
  {
    breaks || |whole| < 5 || whole[..5] != HEADER || finish(whole[5..]).Corrupt?
  }

  ghost function Decompressed(whole: seq<byte>, breaks: bool, finish: seq<byte> -> Inflated): seq<byte>
    requires !Unreadable(whole, breaks, finish)
  {
    finish(whole[5..]).out
  }

  /** What an upload holds, whatever chunks it came in. */
  ghost function Uploaded(whole: seq<byte>, breaks: bool, finish: seq<byte> -> Inflated): Option<Contents>
  {
    if Unreadable(whole, breaks, finish) then None else ReadArchive(Decompressed(whole, breaks, finish))
  }

  datatype Filled = More | AtEnd | Bad

  /** The upload has moved on: fewer chunks to come, or less of one, or its end reached. */
  predicate MovedOn(body: nat, received: nat, ended: bool, body0: nat, received0: nat, ended0: bool)
  {
    body < body0 || (body == body0 && (received < received0 || (received == received0 && ended && !ended0)))
  }

  /** Reading on after `pieces` have been read. */
  ghost function Prepend<T>(pieces: seq<T>, r: Read<seq<T>>): Read<seq<T>>
  {
    if r.Nothing? then Nothing else Read(pieces + r.value, r.rest)
  }

  lemma PrependTwice<T>(a: seq<T>, b: seq<T>, r: Read<seq<T>>)
    ensures Prepend(a, Prepend(b, r)) == Prepend(a + b, r)
  {
    if r.Read? {
      assert a + (b + r.value) == a + b + r.value;
    }
  }

  class Reader {
    const inflate: seq<byte> -> Inflated
    const finish: seq<byte> -> Inflated
    /** The upload fails once its chunks are through. */
    const breaks: bool
    ghost const whole: seq<byte>

    var body: seq<seq<byte>>
    var header: seq<byte>
    var received: seq<byte>
    /** What the decoder has been fed. */
    var fed: seq<byte>
    var decoded: seq<byte>
    var ended: bool
    ghost var taken: seq<byte>

    ghost predicate Valid()
      reads this
    {
      && Streaming(inflate, finish)
      && header + fed + received + Joined(body) == whole
      && HeaderOk(header) && |header| <= 5
      && (|header| < 5 ==> fed == [] && received == [])
      && if ended then
           body == [] && received == [] && |header| == 5 && !breaks
           && finish(fed).Good? && taken + decoded == finish(fed).out
         else
           inflate(fed).Good? && taken + decoded == inflate(fed).out
    }

    ghost predicate Hopeless()
    {
      Unreadable(whole, breaks, finish)
    }

    /** What is still to be read, of an upload that can be. */
    ghost function Left(): seq<byte>
      requires Valid() && !Hopeless()
      reads this
    {
      TakenFromWhole();
      Decompressed(whole, breaks, finish)[|taken|..]
    }

    /** What has been put out so far is the front of all there is. */
    lemma TakenFromWhole()
      requires Valid() && !Hopeless()
      ensures taken + decoded <= Decompressed(whole, breaks, finish)
      ensures |taken| + |decoded| <= |Decompressed(whole, breaks, finish)|
      ensures ended ==> taken + decoded == Decompressed(whole, breaks, finish)
    {
      var compressed := whole[5..];
      if |header| < 5 {
        assert header + fed + received == header;
        assert fed == [];
        assert [] + compressed == compressed;
        assert inflate([] + compressed).Good?;
      } else {
        assert whole == header + (fed + received + Joined(body));
        assert compressed == fed + (received + Joined(body));
        assert ended ==> compressed == fed by {
          if ended {
            assert received + Joined(body) == [];
            assert fed + [] == fed;
          }
        }
      }
    }

    constructor (inflate: seq<byte> -> Inflated, finish: seq<byte> -> Inflated, body: seq<seq<byte>>, breaks: bool)
      requires Streaming(inflate, finish)
      ensures Valid() && taken == [] && whole == Joined(body)
      ensures this.inflate == inflate && this.finish == finish && this.breaks == breaks
    {
      this.inflate, this.finish, this.breaks, this.body := inflate, finish, breaks, body;
      header, received, fed, decoded, ended := [], [], [], [], false;
      whole, taken := Joined(body), [];
      new;
      assert header + fed + received + Joined(body) == Joined(body);
    }

    /** One look at the body: a chunk comes in, or it is found to be over. */
    method Receive() returns (ok: bool)
      requires Valid() && !ended && received == []
      modifies this`body, this`header, this`received, this`decoded, this`ended
      ensures ok ==> Valid() && old(decoded) <= decoded && |body| <= old(|body|)
      ensures ok ==> ended || (|body| < old(|body|) && decoded == old(decoded))
      ensures !ok ==> Hopeless()
    {
      if body == [] {
        ok := EndOfUpload();
      } else {
        ok := NextChunk();
      }
    }

    method EndOfUpload() returns (ok: bool)
      requires Valid() && !ended && received == [] && body == []
      modifies this`decoded, this`ended
      ensures ok ==> Valid() && ended && old(decoded) <= decoded
      ensures !ok ==> Hopeless()
    {
      hide Streaming;
      assert whole == header + fed;
      if breaks || |header| < 5 {
        return false;
      }
      assert whole[..5] == header && whole[5..] == fed;
      var last := finish(fed);
      if last.Corrupt? {
        return false;
      }
      FinishGrows(inflate, finish, fed);
      ended := true;
      decoded := decoded + last.out[|inflate(fed).out|..];
      return true;
    }

    method NextChunk() returns (ok: bool)
      requires Valid() && !ended && received == [] && body != []
      modifies this`body, this`header, this`received
      ensures ok ==> Valid() && |body| < old(|body|)
      ensures !ok ==> Hopeless()
    {
      hide Streaming, HeaderOk;
      var bytes := body[0];
      ghost var rest := Joined(body[1..]);
      var wanted := if |header| < 5 then 5 - |header| else 0;
      var n := if wanted < |bytes| then wanted else |bytes|;
      var head := header + bytes[..n];
      Moved(header, fed, bytes, n, rest);
      if !HeaderOk(head) {
        HeaderWrong(whole, breaks, finish, head, fed + bytes[n..] + rest);
        return false;
      }
      header := head;
      body := body[1..];
      received := bytes[n..];
      return true;
    }

    /** Feed the decoder the next piece. */
    method Inflate() returns (ok: bool)
      requires Valid() && !ended && received != []
      modifies this`received, this`fed, this`decoded
      ensures ok ==> Valid() && old(decoded) <= decoded && |received| < old(|received|)
      ensures !ok ==> Hopeless()
    {
      hide Streaming, HeaderOk, Joined;
      var n := if |received| < INFLATE_AT then |received| else INFLATE_AT;
      var piece := received[..n];
      Fed(header, fed, received, n, Joined(body));
      var out := inflate(fed + piece);
      if out.Corrupt? {
        CorruptFront(whole, breaks, inflate, finish, header, fed + piece, received[n..] + Joined(body));
        return false;
      }
      InflateGrows(inflate, finish, fed, piece);
      decoded := decoded + out.out[|inflate(fed).out|..];
      received := received[n..];
      fed := fed + piece;
      return true;
    }

    /** Advance until `decoded` grows; `AtEnd` if it cannot any more, `Bad` if the upload is hopeless. */
    method Fill() returns (r: Filled)
      requires Valid()
      modifies this`body, this`header, this`received, this`fed, this`decoded, this`ended
      ensures !r.Bad? ==> Valid() && old(decoded) <= decoded
      ensures r.More? ==> |decoded| > old(|decoded|)
      ensures r.More? ==> MovedOn(|body|, |received|, ended, old(|body|), old(|received|), old(ended))
      ensures r.AtEnd? ==> ended && decoded == old(decoded)
      ensures r.Bad? ==> Hopeless()
    {
      hide Streaming, HeaderOk, Joined;
      var before := |decoded|;
      while !ended
        invariant Valid() && decoded == old(decoded)
        invariant MovedOn(|body|, |received|, ended, old(|body|), old(|received|), old(ended))
                  || (|body| == old(|body|) && |received| == old(|received|) && ended == old(ended))
        decreases |body|, |received|, !ended
      {
        var ok;
        if received == [] {
          ok := Receive();
        } else {
          ok := Inflate();
        }
        if !ok {
          return Bad;
        }
        if |decoded| > before {
          return More;
        }
      }
      return AtEnd;
    }

    /** The next `n` bytes, or nothing from an upload that does not hold them. */
    method Take(n: nat) returns (r: Option<seq<byte>>)
      requires Valid()
      modifies this
      ensures r.Some? ==> Valid() && |r.value| == n && taken == old(taken) + r.value
      ensures !Hopeless() ==> (r.Some? <==> n <= |old(Left())|)
      ensures !Hopeless() && r.Some? ==> r.value == old(Left())[..n] && Left() == old(Left())[n..]
      ensures r.Some? ==> MovedOn(|body|, |received|, ended, old(|body|), old(|received|), old(ended))
                          || (|body| == old(|body|) && |received| == old(|received|) && ended == old(ended)
                              && |decoded| == old(|decoded|) - n)
    {
      hide Streaming, HeaderOk, Joined;
      while |decoded| < n
        invariant Valid() && taken == old(taken)
        invariant MovedOn(|body|, |received|, ended, old(|body|), old(|received|), old(ended))
                  || (|body| == old(|body|) && |received| == old(|received|) && ended == old(ended)
                      && decoded == old(decoded))
        decreases n - |decoded|
      {
        var more := Fill();
        if !more.More? {
          if !Hopeless() {
            TakenFromWhole();
          }
          return None;
        }
      }
      var bytes := TakeReady(n);
      return Some(bytes);
    }

    /** Bytes that are decoded already. */
    method TakeReady(n: nat) returns (bytes: seq<byte>)
      requires Valid() && n <= |decoded|
      modifies this`taken, this`decoded
      ensures Valid() && bytes == old(decoded)[..n] && decoded == old(decoded)[n..] && taken == old(taken) + bytes
      ensures !Hopeless() ==> n <= |old(Left())| && bytes == old(Left())[..n] && Left() == old(Left())[n..]
    {
      hide Streaming, HeaderOk, Joined;
      bytes := decoded[..n];
      ghost var before := taken + decoded;
      if !Hopeless() {
        TakenFromWhole();
        assert before[|taken|..|taken| + n] == bytes;
      }
      taken := taken + bytes;
      decoded := decoded[n..];
      assert taken + decoded == before;
    }

    /** One section. */
    method Section(max: nat) returns (r: Option<seq<byte>>)
      requires Valid()
      modifies this
      ensures r.Some? ==> Valid() && |r.value| <= max
      ensures !Hopeless() ==> (r.Some? <==> ReadSection(old(Left()), max).Read?)
      ensures !Hopeless() && r.Some? ==> ReadSection(old(Left()), max) == Read(r.value, Left())
      ensures r.Some? ==> MovedOn(|body|, |received|, ended, old(|body|), old(|received|), old(ended))
                          || (|body| == old(|body|) && |received| == old(|received|) && ended == old(ended)
                              && |decoded| < old(|decoded|))
    {
      hide Valid, Left, FromBigEndian;
      ghost var left := if Hopeless() then [] else Left();
      var head := Take(4);
      if head.None? {
        return None;
      }
      var len := FromBigEndian(head.value);
      if len > max {
        return None;
      }
      r := Take(len);
      if !Hopeless() && r.Some? {
        assert left[4..][..len] == left[4..4 + len];
        assert left[4..][len..] == left[4 + len..];
      }
    }

    /** One table's sections, to the empty one that ends it. */
    method LoadTable() returns (r: Option<seq<seq<byte>>>)
      requires Valid()
      modifies this
      ensures r.Some? ==> Valid()
      ensures !Hopeless() ==> (r.Some? <==> ReadTable(old(Left())).Read?)
      ensures !Hopeless() && r.Some? ==> ReadTable(old(Left())) == Read(r.value, Left())
    {
      hide Valid, Left, ReadSection, Prepend;
      ghost var start := if Hopeless() then [] else Left();
      var pieces: seq<seq<byte>> := [];
      PrependNone(ReadTable(start));
      while true
        invariant Valid()
        invariant !Hopeless() ==> ReadTable(start) == Prepend(pieces, ReadTable(Left()))
        decreases |body|, |received|, !ended, |decoded|
      {
        ghost var left := if Hopeless() then [] else Left();
        var chunk := Section(MAX_CHUNK);
        if !Hopeless() {
          TableStep(left, pieces);
        }
        if chunk.None? {
          return None;
        }
        if chunk.value == [] {
          return Some(pieces);
        }
        pieces := pieces + [chunk.value];
      }
    }

    /**
      The whole upload, table by table into the database. The result depends
      on the upload's bytes alone: it is the archive that the one stream of
      them holds, if its manifest is one this gateway loads and every table has
      the rows it says, or nothing.
    */
    method Load(loader: Loader) returns (r: Option<Archive>)
      requires Valid() && taken == []
      modifies this
      ensures r == Accepted(loader, Uploaded(whole, breaks, finish))
    {
      hide Valid, Left, ReadSection, ReadTable, Prepend, LAYOUT, Loadable, RowsMatch;
      FromTheStart();
      LayoutCount();
      ghost var held := Uploaded(whole, breaks, finish);
      var raw := Section(MAX_MANIFEST);
      if raw.None? {
        return None;
      }
      assert held.Some? ==> held.value.manifest == raw.value;
      var m := loader.parse(raw.value);
      if m.None? || !Loadable(m.value) {
        UnbelievedRefused(loader, held, raw.value);
        return None;
      }
      assert |m.value.tables| == TABLES by {
        LoadableCount(m.value);
      }
      ghost var start := if Hopeless() then [] else Left();
      assert held.Some? ==> ReadTables(start, TABLES).Read? && held.value.tables == ReadTables(start, TABLES).value;
      var tables: seq<seq<seq<byte>>> := [];
      PrependNone(ReadTables(start, TABLES));
      for i := 0 to TABLES
        invariant Valid() && |tables| == i
        invariant !Hopeless() ==> ReadTables(start, TABLES) == Prepend(tables, ReadTables(Left(), TABLES - i))
        invariant forall k :: 0 <= k < i ==> RowsMatch(loader, m.value, tables[k], k)
      {
        ghost var left := if Hopeless() then [] else Left();
        var table := LoadTable();
        if !Hopeless() {
          TablesStep(left, tables, TABLES - i);
        }
        if table.None? {
          return None;
        }
        tables := tables + [table.value];
        if !RowsMatch(loader, m.value, table.value, i) {
          if held.Some? {
            Prepended(tables, ReadTables(Left(), TABLES - i - 1));
          }
          MiscountRefused(loader, held, m.value, table.value, i);
          return None;
        }
      }
      ReadTablesDone(tables, if Hopeless() then [] else Left());
      var over := Finished();
      return if over then Some(Archive(m.value, tables)) else None;
    }

    static lemma LoadableCount(m: Manifest)
      requires Loadable(m)
      ensures |m.tables| == |LAYOUT|
    {
    }

    lemma FromTheStart()
      requires Valid() && taken == []
      ensures !Hopeless() ==> Left() == Decompressed(whole, breaks, finish)
    {
    }

    /** Whether the stream is used up, in `decoded` and beyond it. */
    method Finished() returns (over: bool)
      requires Valid()
      modifies this
      ensures over ==> Valid() && !Hopeless()
      ensures !Hopeless() ==> (over <==> old(Left()) == [])
      ensures over ==> Left() == old(Left())
    {
      hide Streaming, HeaderOk, Joined;
      if decoded != [] {
        if !Hopeless() {
          TakenFromWhole();
        }
        return false;
      }
      var more := Fill();
      if !more.Bad? && !Hopeless() {
        TakenFromWhole();
      }
      if more.AtEnd? {
        EndedIsReadable();
      }
      return more.AtEnd?;
    }

    lemma EndedIsReadable()
      requires Valid() && ended
      ensures !Hopeless()
    {
      hide Streaming;
      assert Joined(body) == [];
      assert whole == header + fed;
      assert whole[..5] == header && whole[5..] == fed;
    }
  }

  lemma Prepended<T>(a: seq<T>, r: Read<seq<T>>)
    ensures Prepend(a, r).Read? ==> a <= Prepend(a, r).value
  {
  }

  lemma PrependNone<T>(r: Read<seq<T>>)
    ensures Prepend([], r) == r
  {
    if r.Read? {
      assert [] + r.value == r.value;
    }
  }

  lemma TableStep(left: seq<byte>, pieces: seq<seq<byte>>)
    ensures var s := ReadSection(left, MAX_CHUNK);
            Prepend(pieces, ReadTable(left)) ==
              if s.Nothing? then Nothing
              else if s.value == [] then Read(pieces, s.rest)
              else Prepend(pieces + [s.value], ReadTable(s.rest))
  {
    var s := ReadSection(left, MAX_CHUNK);
    if s.Read? && s.value == [] {
      assert pieces + [] == pieces;
    } else if s.Read? {
      assert ReadTable(left) == Prepend([s.value], ReadTable(s.rest));
      PrependTwice(pieces, [s.value], ReadTable(s.rest));
    }
  }

  lemma TablesStep(left: seq<byte>, tables: seq<seq<seq<byte>>>, n: nat)
    requires n > 0
    ensures var t := ReadTable(left);
            Prepend(tables, ReadTables(left, n)) ==
              if t.Nothing? then Nothing else Prepend(tables + [t.value], ReadTables(t.rest, n - 1))
  {
    var t := ReadTable(left);
    if t.Read? {
      assert ReadTables(left, n) == Prepend([t.value], ReadTables(t.rest, n - 1));
      PrependTwice(tables, [t.value], ReadTables(t.rest, n - 1));
    }
  }

  lemma ReadTablesDone(tables: seq<seq<seq<byte>>>, left: seq<byte>)
    ensures Prepend(tables, ReadTables(left, 0)) == Read(tables, left)
  {
    assert tables + [] == tables;
  }

  lemma InflateGrows(inflate: seq<byte> -> Inflated, finish: seq<byte> -> Inflated, c: seq<byte>, d: seq<byte>)
    requires Streaming(inflate, finish) && inflate(c + d).Good?
    ensures inflate(c).Good? && inflate(c).out <= inflate(c + d).out
  {
  }

  lemma FinishGrows(inflate: seq<byte> -> Inflated, finish: seq<byte> -> Inflated, c: seq<byte>)
    requires Streaming(inflate, finish) && finish(c).Good?
    ensures inflate(c).Good? && inflate(c).out <= finish(c).out
  {
  }

  lemma Moved(header: seq<byte>, fed: seq<byte>, bytes: seq<byte>, n: nat, rest: seq<byte>)
    requires n <= |bytes| && (n > 0 ==> fed == [])
    ensures header + fed + [] + (bytes + rest) == header + bytes[..n] + fed + bytes[n..] + rest
    ensures header + fed + [] + (bytes + rest) == (header + bytes[..n]) + (fed + bytes[n..] + rest)
  {
  }

  lemma Fed(header: seq<byte>, fed: seq<byte>, received: seq<byte>, n: nat, rest: seq<byte>)
    requires n <= |received|
    ensures header + fed + received + rest == header + (fed + received[..n]) + received[n..] + rest
    ensures header + fed + received + rest == header + ((fed + received[..n]) + (received[n..] + rest))
  {
  }

  lemma HeaderWrong(whole: seq<byte>, breaks: bool, finish: seq<byte> -> Inflated, head: seq<byte>, after: seq<byte>)
    requires whole == head + after && |head| <= 5
    ensures !HeaderOk(head) ==> Unreadable(whole, breaks, finish)
  {
  }

  lemma CorruptFront(whole: seq<byte>, breaks: bool, inflate: seq<byte> -> Inflated, finish: seq<byte> -> Inflated,
                     header: seq<byte>, front: seq<byte>, after: seq<byte>)
    requires Streaming(inflate, finish) && |header| == 5 && whole == header + (front + after)
    ensures inflate(front).Corrupt? ==> Unreadable(whole, breaks, finish)
  {
  }

  /** An archive as it is written, uploaded in any chunks, is accepted as what was written. */
  lemma WrittenIsUploaded(raw: seq<byte>, m: Manifest, tables: seq<seq<seq<byte>>>, compressed: seq<byte>,
                          finish: seq<byte> -> Inflated, chunks: seq<seq<byte>>, loader: Loader)
    requires |raw| <= MAX_MANIFEST && |tables| == TABLES && AllSized(tables, MAX_CHUNK)
    requires finish(compressed) == Good(Payload(raw, tables))
    requires Joined(chunks) == HEADER + compressed
    // The manifest parses as it was written: at this schema, with its tables and columns in order.
    requires loader.parse(raw) == Some(m) && m.schemaVersion == SCHEMA_VERSION && |m.tables| == |LAYOUT| == |tables|
    requires forall i :: 0 <= i < |LAYOUT| ==> m.tables[i].name == LAYOUT[i].0 && m.tables[i].columns == LAYOUT[i].1
    // And it says how many rows each table loads as.
    requires forall i :: 0 <= i < |LAYOUT| ==> loader.copy(LAYOUT[i].0, tables[i]) == Some(m.tables[i].rows)
    ensures Uploaded(Joined(chunks), false, finish) == Some(Contents(raw, tables))
    ensures Accepted(loader, Uploaded(Joined(chunks), false, finish)) == Some(Archive(m, tables))
  {
    hide LAYOUT;
    var whole := HEADER + compressed;
    assert whole[..5] == HEADER && whole[5..] == compressed;
    ArchiveRoundTrip(raw, tables);
    LayoutCount();
  }

  /** Whatever is accepted has the layout of this gateway's schema, and in every table the rows it says. */
  lemma AcceptedHoldsItsRows(whole: seq<byte>, breaks: bool, finish: seq<byte> -> Inflated, loader: Loader)
    requires Accepted(loader, Uploaded(whole, breaks, finish)).Some?
    ensures var a := Accepted(loader, Uploaded(whole, breaks, finish)).value;
            && a.manifest.schemaVersion == SCHEMA_VERSION && |a.tables| == |LAYOUT| == |a.manifest.tables|
            && (forall i :: 0 <= i < |LAYOUT| ==>
                  a.manifest.tables[i].name == LAYOUT[i].0 && a.manifest.tables[i].columns == LAYOUT[i].1)
            && (forall i :: 0 <= i < |LAYOUT| ==>
                  loader.copy(LAYOUT[i].0, a.tables[i]) == Some(a.manifest.tables[i].rows))
            && !breaks && whole[..5] == HEADER
            && exists raw :: |raw| <= MAX_MANIFEST && AllSized(a.tables, MAX_CHUNK)
                             && loader.parse(raw) == Some(a.manifest)
                             && Decompressed(whole, breaks, finish) == Payload(raw, a.tables)
  {
    hide LAYOUT, Payload;
    AcceptedIsWritten(Decompressed(whole, breaks, finish));
    var c := Uploaded(whole, breaks, finish).value;
    assert loader.parse(c.manifest) == Some(Accepted(loader, Some(c)).value.manifest);
  }

  /** A table that fails to load, or loads other rows than it says, refuses the archive. */
  lemma MiscountedIsRefused(whole: seq<byte>, breaks: bool, finish: seq<byte> -> Inflated, loader: Loader, i: nat)
    requires Uploaded(whole, breaks, finish).Some? && i < |LAYOUT|
    requires var c := Uploaded(whole, breaks, finish).value;
             && i < |c.tables|
             && (loader.parse(c.manifest).Some? && i < |loader.parse(c.manifest).value.tables| ==>
                   loader.copy(LAYOUT[i].0, c.tables[i]) != Some(loader.parse(c.manifest).value.tables[i].rows))
    ensures Accepted(loader, Uploaded(whole, breaks, finish)) == None
  {
    hide LAYOUT, Uploaded;
    var c := Uploaded(whole, breaks, finish).value;
    var m := loader.parse(c.manifest);
    if m.Some? && Loadable(m.value) {
      assert !RowsMatch(loader, m.value, c.tables[i], i);
    }
  }

  /** Two uploads accepted of which one's decompressed stream begins the other's are the same archive. */
  lemma NoPartIsUploaded(whole: seq<byte>, whole': seq<byte>, finish: seq<byte> -> Inflated)
    requires Uploaded(whole, false, finish).Some? && Uploaded(whole', false, finish).Some?
    requires Decompressed(whole, false, finish) <= Decompressed(whole', false, finish)
    ensures Uploaded(whole, false, finish) == Uploaded(whole', false, finish)
  {
    PrefixFree(Decompressed(whole, false, finish), Decompressed(whole', false, finish));
  }
}
