/**
  The archive's framing, as `docs/archive.md` lays it out: sections of a
  four-byte big-endian length and that many bytes; a manifest; then each
  table's pieces, ended by an empty section; with the last table it is over.
*/
module ArchiveFormat {

  import opened Wrappers

  type byte = n: nat | n < 256

  const MAX_CHUNK: nat := 0x100_0000
  const MAX_MANIFEST: nat := 0x10_0000
  const PIECE: nat := 0x1_0000
  /** `capture_frame`, then `events`. */
  const TABLES: nat := 2

  /** Chunks, or pieces, end to end. */
  ghost function Joined(parts: seq<seq<byte>>): seq<byte>
  {
    if parts == [] then [] else parts[0] + Joined(parts[1..])
  }

  lemma {:induction false} JoinedSnoc(parts: seq<seq<byte>>, last: seq<byte>)
    ensures Joined(parts + [last]) == Joined(parts) + last
  {
    if parts == [] {
      assert ([last])[1..] == [];
    } else {
      JoinedSnoc(parts[1..], last);
      assert (parts + [last])[1..] == parts[1..] + [last];
    }
  }

  function BigEndian(n: nat): (bs: seq<byte>)
    requires n < 0x1_0000_0000
    ensures |bs| == 4
  {
    [n / 0x100_0000, n / 0x1_0000 % 0x100, n / 0x100 % 0x100, n % 0x100]
  }

  function FromBigEndian(bs: seq<byte>): nat
    requires |bs| == 4
  {
    Number(bs[0], bs[1], bs[2], bs[3])
  }

  function Number(a: nat, b: nat, c: nat, d: nat): nat
  {
    ((a * 0x100 + b) * 0x100 + c) * 0x100 + d
  }

  lemma BigEndianRoundTrip(n: nat)
    requires n < 0x1_0000_0000
    ensures FromBigEndian(BigEndian(n)) == n
  {
    var x, y := n / 0x100, n / 0x1_0000;
    assert n == x * 0x100 + n % 0x100;
    assert x == y * 0x100 + x % 0x100;
    assert y == n / 0x100_0000 * 0x100 + y % 0x100;
  }

  lemma FromBigEndianRoundTrip(bs: seq<byte>)
    requires |bs| == 4
    ensures FromBigEndian(bs) < 0x1_0000_0000 && BigEndian(FromBigEndian(bs)) == bs
  {
    NumberParts(bs[0], bs[1], bs[2], bs[3]);
  }

  /** The weights of a length's four bytes, the heaviest first. */
  lemma LengthWeights(bytes: seq<byte>)
    requires |bytes| < 0x1_0000_0000
    ensures var s := Section(bytes);
            && |s| == 4 + |bytes| && s[4..] == bytes
            && (s[0] as int) * 16777216 + (s[1] as int) * 65536 + (s[2] as int) * 256 + (s[3] as int) == |bytes|
  {
    hide BigEndian;
    var s := Section(bytes);
    BigEndianRoundTrip(|bytes|);
    assert s[..4] == BigEndian(|bytes|);
    assert s[0] == s[..4][0] && s[1] == s[..4][1] && s[2] == s[..4][2] && s[3] == s[..4][3];
  }

  lemma NumberParts(a: nat, b: nat, c: nat, d: nat)
    requires a < 256 && b < 256 && c < 256 && d < 256
    ensures var n := Number(a, b, c, d);
            n < 0x1_0000_0000 && n / 0x100_0000 == a && n / 0x1_0000 % 0x100 == b
            && n / 0x100 % 0x100 == c && n % 0x100 == d
  {
    var n := Number(a, b, c, d);
    assert n / 0x100 == (a * 0x100 + b) * 0x100 + c;
    assert n / 0x1_0000 == a * 0x100 + b;
    assert n / 0x100_0000 == a;
  }

  /** How a piece of `bytes` stands in the stream. */
  function Section(bytes: seq<byte>): seq<byte>
    requires |bytes| < 0x1_0000_0000
  {
    BigEndian(|bytes|) + bytes
  }

  ghost predicate Sized(pieces: seq<seq<byte>>, max: nat)
  {
    forall i :: 0 <= i < |pieces| ==> 0 < |pieces[i]| <= max
  }

  /** A table: its pieces, then an empty section. */
  function Table(pieces: seq<seq<byte>>): seq<byte>
    requires Sized(pieces, 0xffff_ffff)
  {
    if pieces == [] then Section([]) else Section(pieces[0]) + Table(pieces[1..])
  }

  ghost predicate AllSized(tables: seq<seq<seq<byte>>>, max: nat)
  {
    forall i :: 0 <= i < |tables| ==> Sized(tables[i], max)
  }

  function Tables(tables: seq<seq<seq<byte>>>): seq<byte>
    requires AllSized(tables, 0xffff_ffff)
  {
    if tables == [] then [] else Table(tables[0]) + Tables(tables[1..])
  }

  /** Everything under the compression. */
  function Payload(manifest: seq<byte>, tables: seq<seq<seq<byte>>>): seq<byte>
    requires |manifest| < 0x1_0000_0000 && AllSized(tables, 0xffff_ffff)
  {
    Section(manifest) + Tables(tables)
  }

  // -------------------------------------------------------------------------
  // Reading it back

  datatype Read<T> = Nothing | Read(value: T, rest: seq<byte>)

  function ReadSection(p: seq<byte>, max: nat): (r: Read<seq<byte>>)
    ensures r.Read? ==> |r.rest| + 4 <= |p| && |r.value| <= max
  {
    if |p| < 4 then Nothing
    else
      var len := FromBigEndian(p[..4]);
      if len > max || |p| < 4 + len then Nothing else Read(p[4..4 + len], p[4 + len..])
  }

  function ReadTable(p: seq<byte>): Read<seq<seq<byte>>>
    decreases |p|
  {
    var s := ReadSection(p, MAX_CHUNK);
    if s.Nothing? then Nothing
    else if s.value == [] then Read([], s.rest)
    else
      var more := ReadTable(s.rest);
      if more.Nothing? then Nothing else Read([s.value] + more.value, more.rest)
  }

  function ReadTables(p: seq<byte>, n: nat): Read<seq<seq<seq<byte>>>>
    decreases n
  {
    if n == 0 then Read([], p)
    else
      var t := ReadTable(p);
      if t.Nothing? then Nothing
      else
        var more := ReadTables(t.rest, n - 1);
        if more.Nothing? then Nothing else Read([t.value] + more.value, more.rest)
  }

  datatype Contents = Contents(manifest: seq<byte>, tables: seq<seq<seq<byte>>>)

  function ReadArchive(p: seq<byte>): Option<Contents>
  {
    var m := ReadSection(p, MAX_MANIFEST);
    if m.Nothing? then None
    else
      var t := ReadTables(m.rest, TABLES);
      if t.Nothing? || t.rest != [] then None else Some(Contents(m.value, t.value))
  }

  lemma ReadSectionOf(bytes: seq<byte>, rest: seq<byte>, max: nat)
    requires |bytes| <= max < 0x1_0000_0000
    ensures ReadSection(Section(bytes) + rest, max) == Read(bytes, rest)
  {
    hide BigEndian, FromBigEndian;
    var p := Section(bytes) + rest;
    assert p[..4] == BigEndian(|bytes|);
    BigEndianRoundTrip(|bytes|);
    assert p[4..4 + |bytes|] == bytes && p[4 + |bytes|..] == rest;
  }

  /** A section is read only from its own bytes. */
  lemma SectionRead(p: seq<byte>, max: nat)
    requires max < 0x1_0000_0000 && ReadSection(p, max).Read?
    ensures p == Section(ReadSection(p, max).value) + ReadSection(p, max).rest
  {
    hide BigEndian, FromBigEndian;
    var len := FromBigEndian(p[..4]);
    FromBigEndianRoundTrip(p[..4]);
    assert p == p[..4] + p[4..4 + len] + p[4 + len..];
  }

  lemma {:induction false} ReadTableOf(pieces: seq<seq<byte>>, rest: seq<byte>)
    requires Sized(pieces, MAX_CHUNK)
    ensures ReadTable(Table(pieces) + rest) == Read(pieces, rest)
    decreases |pieces|
  {
    hide ReadSection, Section;
    if pieces == [] {
      ReadSectionOf([], rest, MAX_CHUNK);
    } else {
      var after := Table(pieces[1..]) + rest;
      ReadSectionOf(pieces[0], after, MAX_CHUNK);
      assert Table(pieces) + rest == Section(pieces[0]) + after;
      ReadTableOf(pieces[1..], rest);
      assert pieces == [pieces[0]] + pieces[1..];
    }
  }

  lemma EmptyTable()
    ensures Sized([], MAX_CHUNK) && Table([]) == Section([])
  {
  }

  lemma TableExtends(piece: seq<byte>, pieces: seq<seq<byte>>, rest: seq<byte>)
    requires 0 < |piece| <= MAX_CHUNK && Sized(pieces, MAX_CHUNK)
    ensures Sized([piece] + pieces, MAX_CHUNK)
    ensures Section(piece) + (Table(pieces) + rest) == Table([piece] + pieces) + rest
  {
  }

  lemma {:induction false} TableRead(p: seq<byte>)
    requires ReadTable(p).Read?
    ensures Sized(ReadTable(p).value, MAX_CHUNK)
    ensures p == Table(ReadTable(p).value) + ReadTable(p).rest
    decreases |p|
  {
    hide Section, Table, ReadSection, Sized;
    var s := ReadSection(p, MAX_CHUNK);
    SectionRead(p, MAX_CHUNK);
    EmptyTable();
    if s.value != [] {
      TableRead(s.rest);
      var more := ReadTable(s.rest);
      TableExtends(s.value, more.value, more.rest);
    }
  }

  lemma {:induction false} ReadTablesOf(tables: seq<seq<seq<byte>>>, rest: seq<byte>)
    requires AllSized(tables, MAX_CHUNK)
    ensures ReadTables(Tables(tables) + rest, |tables|) == Read(tables, rest)
    decreases |tables|
  {
    hide ReadTable, Table;
    if tables == [] {
      assert Tables(tables) + rest == rest;
    } else {
      var after := Tables(tables[1..]) + rest;
      ReadTableOf(tables[0], after);
      assert Tables(tables) + rest == Table(tables[0]) + after;
      ReadTablesOf(tables[1..], rest);
      assert tables == [tables[0]] + tables[1..];
    }
  }

  lemma {:induction false} TablesRead(p: seq<byte>, n: nat)
    requires ReadTables(p, n).Read?
    ensures var r := ReadTables(p, n);
            |r.value| == n && AllSized(r.value, MAX_CHUNK) && p == Tables(r.value) + r.rest
    decreases n
  {
    hide ReadTable, Table;
    if n > 0 {
      TableRead(p);
      var t := ReadTable(p);
      TablesRead(t.rest, n - 1);
      var more := ReadTables(t.rest, n - 1);
      var tables := [t.value] + more.value;
      assert tables[1..] == more.value;
      assert Table(t.value) + (Tables(more.value) + more.rest) == Tables(tables) + more.rest;
    }
  }

  /** Every archive that is written is read back, exactly. */
  lemma ArchiveRoundTrip(manifest: seq<byte>, tables: seq<seq<seq<byte>>>)
    requires |manifest| <= MAX_MANIFEST && |tables| == TABLES && AllSized(tables, MAX_CHUNK)
    ensures ReadArchive(Payload(manifest, tables)) == Some(Contents(manifest, tables))
  {
    hide ReadSection, Section, ReadTables, Tables;
    ReadSectionOf(manifest, Tables(tables), MAX_MANIFEST);
    ReadTablesOf(tables, []);
    assert Tables(tables) + [] == Tables(tables);
  }

  /** And whatever is accepted is exactly the writing of what it was read as. */
  lemma AcceptedIsWritten(p: seq<byte>)
    requires ReadArchive(p).Some?
    ensures var c := ReadArchive(p).value;
            |c.manifest| <= MAX_MANIFEST && |c.tables| == TABLES && AllSized(c.tables, MAX_CHUNK)
            && p == Payload(c.manifest, c.tables)
  {
    hide Section, Tables, ReadTables;
    SectionRead(p, MAX_MANIFEST);
    var m := ReadSection(p, MAX_MANIFEST);
    TablesRead(m.rest, TABLES);
    var t := ReadTables(m.rest, TABLES);
    assert Tables(t.value) + [] == Tables(t.value);
  }

  /** Reading a longer stream reads the shorter one first. */
  lemma SectionPrefix(p: seq<byte>, q: seq<byte>, max: nat)
    requires p <= q && ReadSection(p, max).Read?
    ensures var r, r' := ReadSection(p, max), ReadSection(q, max);
            r'.Read? && r'.value == r.value && r.rest <= r'.rest && |r'.rest| - |r.rest| == |q| - |p|
  {
  }

  lemma {:induction false} TablePrefix(p: seq<byte>, q: seq<byte>)
    requires p <= q && ReadTable(p).Read?
    ensures var r, r' := ReadTable(p), ReadTable(q);
            r'.Read? && r'.value == r.value && r.rest <= r'.rest && |r'.rest| - |r.rest| == |q| - |p|
    decreases |p|
  {
    SectionPrefix(p, q, MAX_CHUNK);
    var s := ReadSection(p, MAX_CHUNK);
    if s.value != [] {
      TablePrefix(s.rest, ReadSection(q, MAX_CHUNK).rest);
    }
  }

  lemma {:induction false} TablesPrefix(p: seq<byte>, q: seq<byte>, n: nat)
    requires p <= q && ReadTables(p, n).Read?
    ensures var r, r' := ReadTables(p, n), ReadTables(q, n);
            r'.Read? && |r'.rest| - |r.rest| == |q| - |p|
    decreases n
  {
    hide ReadTable;
    if n > 0 {
      TablePrefix(p, q);
      TablesPrefix(ReadTable(p).rest, ReadTable(q).rest, n - 1);
    }
  }

  /** No proper prefix, and no extension, of an accepted stream is accepted. */
  lemma PrefixFree(p: seq<byte>, q: seq<byte>)
    requires p <= q && ReadArchive(p).Some? && ReadArchive(q).Some?
    ensures p == q
  {
    hide ReadSection, ReadTables;
    SectionPrefix(p, q, MAX_MANIFEST);
    TablesPrefix(ReadSection(p, MAX_MANIFEST).rest, ReadSection(q, MAX_MANIFEST).rest, TABLES);
  }
}
