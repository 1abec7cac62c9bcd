/**
  What splitting preserves: a statement's text scans again exactly as it did
  in the script it came from, so the statements joined with ";\n" split back
  into themselves, unless one begins with a backslash.
*/
module SqlResplit {
  import opened Wrappers
  import opened SqlSplit

  /** `s` is all kept from mode `m`: no comment, meta-command or cut in it. */
  predicate Clean(s: string, m: Mode)
    decreases |s|
  {
    s == "" || (Step(s, m).0.Keep? && Clean(s[Size(s, m)..], Step(s, m).1))
  }

  /** The mode after the whole of `s`. */
  function Final(s: string, m: Mode): Mode
    decreases |s|
  {
    if s == "" then m else Final(s[Size(s, m)..], Step(s, m).1)
  }

  /** A dollar tag is `$`, tag characters, `$`. */
  predicate WellTagged(m: Mode)
  {
    m.Dollar? ==> |m.tag| >= 2 && forall i :: 0 <= i < |m.tag| ==> IsTagChar(m.tag[i]) || m.tag[i] == '$'
  }

  lemma {:induction false} TagRunAll(s: string)
    ensures forall i :: 0 <= i < TagRun(s) ==> IsTagChar(s[i])
  {
    if s != "" && IsTagChar(s[0]) {
      TagRunAll(s[1..]);
      forall i | 0 <= i < TagRun(s) ensures IsTagChar(s[i]) {
        if i > 0 {
          assert s[i] == s[1..][i - 1];
        }
      }
    }
  }

  lemma StepWellTagged(s: string, m: Mode)
    requires s != "" && WellTagged(m)
    ensures WellTagged(Step(s, m).1)
  {
    if m.Top? && s[0] == '$' && DollarTag(s).Some? {
      TagRunAll(s[1..]);
      var tag := DollarTag(s).value;
      forall i | 0 <= i < |tag| ensures IsTagChar(tag[i]) || tag[i] == '$' {
        if 0 < i < |tag| - 1 {
          assert tag[i] == s[1..][i - 1];
        }
      }
    }
  }

  // -------------------------------------------------------------------------
  // A step looks no further than it needs

  /** Text that cannot lengthen what is before it: not a dash, a dollar or a tag character. */
  predicate Harmless(u: string)
  {
    u == "" || (u[0] != '-' && u[0] != '$' && !IsTagChar(u[0]))
  }

  lemma {:induction false} RunLocal(s: string, u: string)
    requires Harmless(u)
    ensures TagRun(s + u) == TagRun(s) && TagNext(s + u) == TagNext(s)
  {
    if s == "" {
      assert s + u == u;
    } else {
      assert (s + u)[1..] == s[1..] + u;
      RunLocal(s[1..], u);
    }
  }

  lemma PrefixLocal(tag: string, s: string, u: string)
    requires Harmless(u) && forall i :: 0 <= i < |tag| ==> IsTagChar(tag[i]) || tag[i] == '$'
    ensures tag <= s + u <==> tag <= s
  {
    if |s| < |tag| <= |s + u| {
      assert (s + u)[|s|] == u[0];
    }
  }

  lemma DollarLocal(s: string, u: string)
    requires s != "" && s[0] == '$' && Harmless(u)
    ensures DollarTag(s + u) == DollarTag(s)
  {
    assert (s + u)[1..] == s[1..] + u;
    RunLocal(s[1..], u);
    if TagNext(s[1..]) {
      var n := TagRun(s[1..]) + 2;
      assert (s + u)[..n] == s[..n];
    }
  }

  /** What harmlessly follows `s` does not change its next step. */
  lemma Local(s: string, u: string, m: Mode)
    requires s != "" && Harmless(u) && WellTagged(m) && !m.Comment?
    requires !(m == Top(true) && s[0] == '\\')
    ensures Step(s + u, m) == Step(s, m)
  {
    assert (s + u)[0] == s[0];
    match m
    case Dollar(tag) => PrefixLocal(tag, s, u);
    case Quoted =>
    case Top(_) =>
      if s[0] == '$' {
        DollarLocal(s, u);
      } else if s[0] == '-' {
        assert |s| > 1 ==> (s + u)[1] == s[1];
      }
  }

  // -------------------------------------------------------------------------
  // Kept text scans again as it did

  /** The first of what is kept from the middle of a line. */
  lemma FirstKept(r: string)
    requires r != ""
    ensures var k := Kept(r, Top(false));
            if r[0] == ';' then k == ""
            else if r[0] == '-' && |r| > 1 && r[1] == '-' then k == "" || k[0] == '\n'
            else k != "" && k[0] == r[0]
  {
    if r[0] == '-' && |r| > 1 && r[1] == '-' {
      assert Kept(r, Top(false)) == Kept(r[1..], Comment);
      var _ := CommentKept(r[1..]);
    } else {
      KeptStep(r, Top(false));
      StepText(r, Top(false));
    }
  }

  /** Out of a comment: nothing, or the newline that ended it and what follows. */
  lemma {:induction false} CommentKept(s: string) returns (rest: Option<string>)
    ensures rest.None? ==> Kept(s, Comment) == "" && Beyond(s, Comment) == None
    ensures rest.Some? ==> |rest.value| < |s| && Kept(s, Comment) == "\n" + Kept(rest.value, Top(true))
                           && Beyond(s, Comment) == Beyond(rest.value, Top(true))
    decreases |s|
  {
    if s == "" {
      return None;
    }
    KeptStep(s, Comment);
    if s[0] == '\n' {
      return Some(s[1..]);
    }
    rest := CommentKept(s[1..]);
  }

  lemma {:induction false} TagKept(r: string)
    ensures var k := Kept(r, Top(false)); TagRun(k) == TagRun(r) && TagNext(k) == TagNext(r)
    decreases |r|
  {
    hide Kept, Beyond, Step;
    if r == "" {
      EndOfScript(Top(false));
    } else {
      FirstKept(r);
      if IsTagChar(r[0]) {
        TagCharKept(r);
        assert Kept(r, Top(false))[1..] == Kept(r[1..], Top(false));
        TagKept(r[1..]);
      }
    }
  }

  lemma TagCharKept(r: string)
    requires r != "" && IsTagChar(r[0])
    ensures Kept(r, Top(false)) == [r[0]] + Kept(r[1..], Top(false))
  {
    hide Kept, Beyond, DollarTag;
    KeptStep(r, Top(false));
  }

  lemma {:induction false} TagRunLocal(a: string, b: string)
    requires TagNext(a)
    requires TagRun(a) < |b| && a[..TagRun(a) + 1] == b[..TagRun(a) + 1]
    ensures TagRun(b) == TagRun(a) && TagNext(b)
  {
    var n := TagRun(a);
    assert forall i :: 0 <= i <= n ==> a[..n + 1][i] == a[i] && b[..n + 1][i] == b[i];
    assert a[0] == b[0];
    if n > 0 {
      assert a[1..][..n] == a[..n + 1][1..] == b[..n + 1][1..] == b[1..][..n];
      TagRunLocal(a[1..], b[1..]);
    }
  }

  /** A dollar-quoted body is kept as it stands, at least as far as a closing tag would reach. */
  lemma {:induction false} DollarCommon(s: string, tag: string)
    requires tag != ""
    ensures var k := Kept(s, Dollar(tag)); k == s || (|tag| <= |k| && |tag| <= |s| && k[..|tag|] == s[..|tag|])
    decreases |s|
  {
    hide Kept, Beyond, Step;
    if s == "" {
      EndOfScript(Dollar(tag));
    } else {
      var k, k' := Kept(s, Dollar(tag)), Kept(s[1..], Dollar(tag));
      KeptStep(s, Dollar(tag));
      StepCases(s, Dollar(tag));
      if !(tag <= s) {
        assert k == [s[0]] + k' && s == [s[0]] + s[1..];
        DollarCommon(s[1..], tag);
        if k' != s[1..] {
          assert k[..|tag| + 1] == [s[0]] + k'[..|tag|] == s[..|tag| + 1];
          assert k[..|tag|] == k[..|tag| + 1][..|tag|] == s[..|tag|];
        }
      }
    }
  }

  lemma SameDollar(s: string, tag: string)
    requires s != "" && tag != ""
    ensures Kept(s, Dollar(tag)) != "" && Step(Kept(s, Dollar(tag)), Dollar(tag)) == Step(s, Dollar(tag))
  {
    var k := Kept(s, Dollar(tag));
    KeptStep(s, Dollar(tag));
    DollarCommon(s, tag);
    assert tag <= s <==> |tag| <= |s| && s[..|tag|] == tag;
    assert tag <= k <==> |tag| <= |k| && k[..|tag|] == tag;
  }

  lemma SameOpener(s: string, lineStart: bool)
    requires s != "" && s[0] == '$'
    ensures var k := Kept(s, Top(lineStart)); k != "" && k[0] == '$' && DollarTag(k) == DollarTag(s)
  {
    var m := Top(lineStart);
    var k := Kept(s, m);
    KeptStep(s, m);
    if TagNext(s[1..]) {
      var n := TagRun(s[1..]);
      assert k[..n + 2] == s[..n + 2];
      assert s[1..][..n + 1] == s[..n + 2][1..] == k[..n + 2][1..] == k[1..][..n + 1];
      TagRunLocal(s[1..], k[1..]);
    } else {
      assert k == "$" + Kept(s[1..], Top(false));
      assert k[1..] == Kept(s[1..], Top(false));
      TagKept(s[1..]);
    }
  }

  /** A kept token is the next token of the kept text. */
  lemma SameStep(s: string, m: Mode)
    requires s != "" && WellTagged(m) && !m.Comment? && Step(s, m).0.Keep?
    ensures Kept(s, m) != "" && Step(Kept(s, m), m) == Step(s, m)
  {
    hide Kept, Beyond, DollarTag;
    var k := Kept(s, m);
    KeptStep(s, m);
    StepText(s, m);
    match m
    case Dollar(tag) => SameDollar(s, tag);
    case Quoted =>
    case Top(lineStart) =>
      if s[0] == '$' {
        SameOpener(s, lineStart);
      } else if s[0] == '-' {
        assert k == "-" + Kept(s[1..], Top(false));
        if |s| > 1 {
          FirstKept(s[1..]);
        } else {
          EndOfScript(Top(false));
        }
      }
  }

  /** The kept text of a segment is clean, and ends at top level where a cut ended it. */
  lemma {:induction false} Relex(s: string, m: Mode)
    requires WellTagged(m) && !m.Comment?
    ensures Clean(Kept(s, m), m)
    ensures Beyond(s, m).Some? ==> Final(Kept(s, m), m).Top?
    decreases |s|
  {
    hide Kept, Beyond, Step, WellTagged;
    if s == "" {
      EndOfScript(m);
      return;
    }
    var (t, next) := Step(s, m);
    var k, rest := Kept(s, m), s[Size(s, m)..];
    KeptStep(s, m);
    StepText(s, m);
    StepKinds(s, m);
    if t.Keep? {
      SameStep(s, m);
      StepWellTagged(s, m);
      Relex(rest, next);
      assert k[|t.text|..] == Kept(rest, next);
    } else if t.Drop? {
      if next.Comment? {
        var after := CommentKept(rest);
        if after.Some? {
          Relex(after.value, Top(true));
          assert k[1..] == Kept(after.value, Top(true));
          NewlineFirst(k, m);
        }
      } else {
        Relex(rest, next);
      }
    }
  }

  /** What a step can be, outside a comment. */
  lemma StepKinds(s: string, m: Mode)
    requires s != "" && !m.Comment?
    ensures var (t, next) := Step(s, m);
            && (t.Keep? ==> !next.Comment?)
            && (t.Drop? ==> m.Top? && (next.Comment? || next == m == Top(true)))
            && (t.Cut? ==> m.Top?)
            && WellTagged(Top(true))
  {
    hide DollarTag, Line;
  }

  lemma NewlineFirst(k: string, m: Mode)
    requires k != "" && k[0] == '\n' && m.Top?
    ensures Clean(k, m) == Clean(k[1..], Top(true)) && Final(k, m) == Final(k[1..], Top(true))
  {
    hide DollarTag, Line;
  }

  lemma EndOfScript(m: Mode)
    ensures Kept("", m) == "" && Beyond("", m) == None
  {
  }

  // -------------------------------------------------------------------------
  // Trimming a segment

  /** Leading whitespace keeps the scan at top level. */
  lemma {:induction false} CleanTrimStart(s: string, lineStart: bool) returns (after: bool)
    requires Clean(s, Top(lineStart))
    ensures var r := TrimStart(s);
            Clean(r, Top(after)) && Final(r, Top(after)) == Final(s, Top(lineStart))
    ensures !lineStart && TrimStart(s) == s ==> !after
  {
    if s != "" && IsWhitespace(s[0]) {
      after := CleanTrimStart(s[1..], LineStart(s[0], lineStart));
      TrimStartShortens(s[1..]);
    } else {
      after := lineStart;
    }
  }

  lemma {:induction false} TrimStartShortens(s: string)
    ensures |TrimStart(s)| <= |s|
    ensures TrimStart(s) != "" ==> !IsWhitespace(TrimStart(s)[0])
    ensures s != "" && IsWhitespace(s[0]) ==> |TrimStart(s)| < |s|
  {
    if s != "" && IsWhitespace(s[0]) {
      TrimStartShortens(s[1..]);
    }
  }

  /** A segment that begins with a token does not care where on the line it is, unless it is a backslash. */
  lemma AnywhereOnLine(s: string, a: bool, b: bool)
    requires s != "" && !IsWhitespace(s[0]) && s[0] != '\\'
    ensures Clean(s, Top(a)) == Clean(s, Top(b)) && Final(s, Top(a)) == Final(s, Top(b))
  {
  }

  /** Dropping a last whitespace character. */
  lemma {:induction false} CleanDropLast(p: string, w: char, m: Mode)
    requires IsWhitespace(w) && WellTagged(m) && !m.Comment? && Clean(p + [w], m)
    ensures Clean(p, m) && (Final(p + [w], m).Top? ==> Final(p, m).Top?)
    decreases |p|
  {
    hide DollarTag, Line, TagRun;
    var s := p + [w];
    if p == "" {
      assert s == [w] && s[Size(s, m)..] == "";
    } else {
      assert s[0] == p[0];
      Local(p, [w], m);
      StepWellTagged(p, m);
      StepText(p, m);
      var n := Size(p, m);
      assert s[n..] == p[n..] + [w];
      CleanDropLast(p[n..], w, Step(p, m).1);
    }
  }

  lemma {:induction false} CleanTrimEnd(s: string, m: Mode)
    requires WellTagged(m) && !m.Comment? && Clean(s, m)
    ensures Clean(TrimEnd(s), m) && (Final(s, m).Top? ==> Final(TrimEnd(s), m).Top?)
    decreases |s|
  {
    hide Clean, Final;
    if s != "" && IsWhitespace(s[|s| - 1]) {
      var p := s[..|s| - 1];
      assert s == p + [s[|s| - 1]];
      CleanDropLast(p, s[|s| - 1], m);
      CleanTrimEnd(p, m);
    }
  }

  // -------------------------------------------------------------------------
  // Joining statements and splitting them again

  /** A clean statement stands up to a semicolon put after it. */
  lemma {:induction false} KeptBeforeCut(st: string, m: Mode, more: string)
    requires WellTagged(m) && !m.Comment? && Clean(st, m) && Final(st, m).Top?
    ensures Kept(st + ";" + more, m) == st && Beyond(st + ";" + more, m) == Some(more)
    decreases |st|
  {
    hide Kept, Beyond, Step, WellTagged;
    var s := st + ";" + more;
    KeptStep(s, m);
    if st == "" {
      StepCases(s, m);
      assert s[1..] == more;
    } else {
      CleanStep(st, m);
      assert s == st + (";" + more);
      Local(st, ";" + more, m);
      StepText(st, m);
      var n, next := Size(st, m), Step(st, m).1;
      assert s[n..] == st[n..] + ";" + more;
      KeptBeforeCut(st[n..], next, more);
      assert st == st[..n] + st[n..];
    }
  }

  lemma CleanStep(st: string, m: Mode)
    requires st != "" && Clean(st, m) && WellTagged(m) && !m.Comment?
    ensures Step(st, m).0.Keep? && !Step(st, m).1.Comment? && WellTagged(Step(st, m).1)
    ensures !(m == Top(true) && st[0] == '\\')
  {
    StepWellTagged(st, m);
  }

  lemma {:induction false} KeptToTheEnd(st: string, m: Mode)
    requires Clean(st, m)
    ensures Kept(st, m) == st && Beyond(st, m) == None
    decreases |st|
  {
    hide Step;
    if st != "" {
      StepText(st, m);
      KeptToTheEnd(st[Size(st, m)..], Step(st, m).1);
    }
  }

  /** A statement as the split leaves it: trimmed, not blank, and all of it kept in the middle of a line. */
  predicate Statement(st: string)
  {
    st != "" && Trim(st) == st && Clean(st, Top(false))
  }

  /** No quoted string or dollar-quoted body is left open. */
  predicate Closed(st: string)
  {
    Final(st, Top(false)).Top?
  }

  /** Statements of which all but the last are closed. */
  predicate Statements(sts: seq<string>)
  {
    && (forall i :: 0 <= i < |sts| ==> Statement(sts[i]))
    && (forall i :: 0 <= i < |sts| - 1 ==> Closed(sts[i]))
  }

  predicate Backslashed(st: string)
  {
    st != "" && st[0] == '\\'
  }

  lemma TrimTwice(s: string)
    ensures Trim(Trim(s)) == Trim(s)
  {
    TrimStartShortens(s);
    var r := TrimStart(s);
    TrimEndKeeps(r);
    assert TrimStart(TrimEnd(r)) == TrimEnd(r);
  }

  lemma {:induction false} TrimEndKeeps(s: string)
    ensures TrimEnd(s) <= s && TrimEnd(TrimEnd(s)) == TrimEnd(s)
    decreases |s|
  {
    if s != "" && IsWhitespace(s[|s| - 1]) {
      TrimEndKeeps(s[..|s| - 1]);
    }
  }

  /** A segment of the script, trimmed, is a statement; closed if a cut ended it. */
  lemma SegmentIsStatement(s: string, lineStart: bool)
    ensures var st := Trim(Kept(s, Top(lineStart)));
            st != "" ==> Statement(st) && (Beyond(s, Top(lineStart)).Some? ==> Closed(st))
  {
    hide Kept, Beyond, Clean, Final, TrimStart, TrimEnd;
    var k := Kept(s, Top(lineStart));
    var r := TrimStart(k);
    var st := Trim(k);
    Relex(s, Top(lineStart));
    TrimTwice(k);
    TrimStartShortens(k);
    TrimEndKeeps(r);
    var after := CleanTrimStart(k, lineStart);
    CleanTrimEnd(r, Top(after));
    if st != "" {
      assert st[0] == r[0];
      if st[0] == '\\' {
        BackslashMidLine(st, after);
      } else {
        AnywhereOnLine(st, after, false);
      }
    }
  }

  /** A backslash at the start of a line is never kept. */
  lemma BackslashMidLine(s: string, lineStart: bool)
    requires s != "" && s[0] == '\\' && Clean(s, Top(lineStart))
    ensures !lineStart
  {
  }

  /** What a split returns: statements cut only where no quoted body was open. */
  lemma {:induction false} SplitYieldsStatements(s: string, lineStart: bool)
    ensures Statements(SplitFrom(s, Top(lineStart), ""))
    decreases |s|
  {
    hide Kept, Beyond, Trim, Statement, Closed;
    var m := Top(lineStart);
    SegmentIsStatement(s, lineStart);
    assert "" + Kept(s, m) == Kept(s, m);
    var b := Beyond(s, m);
    if b.Some? {
      SplitYieldsStatements(b.value, false);
    }
  }

  function Join(sts: seq<string>): string
  {
    if sts == [] then "" else if |sts| == 1 then sts[0] else sts[0] + ";\n" + Join(sts[1..])
  }

  /** The first statement of a joined script is read back, and the scan is at a new line for the next. */
  lemma ReadBackFirst(sts: seq<string>, lead: string)
    requires sts != [] && Statements(sts) && !Backslashed(sts[0]) && lead in {"", "\n"}
    ensures |sts| == 1 ==> SplitFrom(Join(sts), Top(true), lead) == [sts[0]]
    ensures |sts| > 1 ==> SplitFrom(Join(sts), Top(true), lead) ==
                          [sts[0]] + SplitFrom(Join(sts[1..]), Top(true), "\n")
  {
    hide Clean, Final, Kept, Beyond, Trim, Emit, Step, SplitFrom;
    var st := sts[0];
    assert Statement(st);
    FirstNotBlank(st);
    AnywhereOnLine(st, true, false);
    EmitLed(st, lead);
    if |sts| == 1 {
      KeptToTheEnd(st, Top(true));
      SegmentSplits(st, Top(true), lead);
    } else {
      var rest := Join(sts[1..]);
      var more := "\n" + rest;
      assert Closed(st);
      assert Join(sts) == st + ";" + more;
      KeptBeforeCut(st, Top(true), more);
      SegmentSplits(Join(sts), Top(true), lead);
      NewLine(rest);
    }
  }

  lemma SegmentSplits(s: string, m: Mode, lead: string)
    ensures Beyond(s, m).None? ==> SplitFrom(s, m, lead) == Emit(lead + Kept(s, m))
    ensures Beyond(s, m).Some? ==>
              SplitFrom(s, m, lead) == Emit(lead + Kept(s, m)) + SplitFrom(Beyond(s, m).value, Top(false), "")
  {
  }

  lemma NewLine(rest: string)
    ensures SplitFrom("\n" + rest, Top(false), "") == SplitFrom(rest, Top(true), "\n")
  {
    hide SplitFrom;
    var s := "\n" + rest;
    SplitStep(s, Top(false), "");
    assert s[1..] == rest && "" + "\n" == "\n";
  }

  lemma FirstNotBlank(st: string)
    requires st != "" && Trim(st) == st
    ensures !IsWhitespace(st[0])
  {
    TrimStartShortens(st);
    TrimEndKeeps(TrimStart(st));
  }

  lemma EmitLed(st: string, lead: string)
    requires st != "" && Trim(st) == st && lead in {"", "\n"}
    ensures Emit(lead + st) == [st]
  {
    if lead == "" {
      assert lead + st == st;
    } else {
      assert (lead + st)[1..] == st;
      assert TrimStart(lead + st) == TrimStart(st);
    }
  }

  lemma {:induction false} SplitJoin(sts: seq<string>, lead: string)
    requires Statements(sts) && lead in {"", "\n"}
    requires forall i :: 0 <= i < |sts| ==> !Backslashed(sts[i])
    ensures SplitFrom(Join(sts), Top(true), lead) == sts
    decreases |sts|
  {
    hide Statement, Closed, Kept, Beyond;
    if sts == [] {
      BlankLead(lead);
    } else {
      ReadBackFirst(sts, lead);
      if |sts| > 1 {
        SplitJoin(sts[1..], "\n");
        assert sts == [sts[0]] + sts[1..];
      }
    }
  }

  lemma BlankLead(lead: string)
    requires lead in {"", "\n"}
    ensures SplitFrom("", Top(true), lead) == []
  {
    assert lead + "" == lead;
    assert TrimStart(lead) == "";
  }

  // -------------------------------------------------------------------------
  // A statement that begins with a backslash does not survive

  function Backslashes(s: string): nat
  {
    multiset(s)['\\']
  }

  function AllBackslashes(sts: seq<string>): nat
  {
    if sts == [] then 0 else Backslashes(sts[0]) + AllBackslashes(sts[1..])
  }

  lemma {:induction false} AllBackslashesConcat(a: seq<string>, b: seq<string>)
    ensures AllBackslashes(a + b) == AllBackslashes(a) + AllBackslashes(b)
  {
    if a == [] {
      assert a + b == b;
    } else {
      assert (a + b)[1..] == a[1..] + b;
      AllBackslashesConcat(a[1..], b);
    }
  }

  lemma {:induction false} JoinBackslashes(sts: seq<string>)
    ensures Backslashes(Join(sts)) == AllBackslashes(sts)
  {
    if |sts| == 1 {
      assert AllBackslashes(sts[1..]) == 0;
    } else if sts != [] {
      JoinBackslashes(sts[1..]);
    }
  }

  lemma {:induction false} TrimStartBackslashes(s: string)
    ensures Backslashes(TrimStart(s)) <= Backslashes(s)
  {
    if s != "" && IsWhitespace(s[0]) {
      assert s == [s[0]] + s[1..];
      TrimStartBackslashes(s[1..]);
    }
  }

  lemma EmitBackslashes(s: string)
    ensures AllBackslashes(Emit(s)) <= Backslashes(s)
  {
    var r := TrimStart(s);
    TrimStartBackslashes(s);
    TrimEndKeeps(r);
    assert r == TrimEnd(r) + r[|TrimEnd(r)|..];
    assert AllBackslashes([Trim(s)]) == Backslashes(Trim(s));
  }

  /** A split adds no backslash. */
  lemma {:induction false} SplitBackslashes(s: string, m: Mode, current: string)
    ensures AllBackslashes(SplitFrom(s, m, current)) <= Backslashes(current) + Backslashes(s)
    decreases |s|
  {
    hide Step, SplitFrom, Emit;
    if s == "" {
      SplitEnd(m, current);
      EmitBackslashes(current);
    } else {
      SplitStep(s, m, current);
      StepText(s, m);
      var n := Size(s, m);
      assert s == s[..n] + s[n..];
      var t := Step(s, m).0;
      if t.Keep? {
        SplitBackslashes(s[n..], Step(s, m).1, current + t.text);
      } else if t.Drop? {
        SplitBackslashes(s[n..], Step(s, m).1, current);
      } else {
        EmitBackslashes(current);
        SplitBackslashes(s[1..], Top(false), "");
        AllBackslashesConcat(Emit(current), SplitFrom(s[1..], Top(false), ""));
      }
    }
  }

  /** A meta-command line goes, and its backslash with it. */
  lemma MetaLineLost(s: string, lead: string)
    requires Backslashed(s) && lead in {"", "\n"}
    ensures AllBackslashes(SplitFrom(s, Top(true), lead)) < Backslashes(s)
  {
    hide Step, SplitFrom, Emit, Line;
    StepCases(s, Top(true));
    SplitStep(s, Top(true), lead);
    StepText(s, Top(true));
    var n := Size(s, Top(true));
    SplitBackslashes(s[n..], Top(true), lead);
    assert s == [s[0]] + s[1..n] + s[n..];
  }

  lemma {:induction false} JoinLoses(sts: seq<string>, lead: string, i: nat)
    requires Statements(sts) && lead in {"", "\n"} && i < |sts| && Backslashed(sts[i])
    ensures SplitFrom(Join(sts), Top(true), lead) != sts
    decreases |sts|
  {
    hide Statement, Closed, SplitFrom;
    if Backslashed(sts[0]) {
      assert Backslashed(Join(sts));
      MetaLineLost(Join(sts), lead);
      JoinBackslashes(sts);
    } else {
      ReadBackFirst(sts, lead);
      JoinLoses(sts[1..], "\n", i - 1);
      var tail := SplitFrom(Join(sts[1..]), Top(true), "\n");
      assert ([sts[0]] + tail)[1..] == tail;
    }
  }

  /** Statements joined with ";\n" split back into themselves exactly when none begins with a backslash. */
  lemma SplitAgain(sql: string)
    ensures Split(Join(Split(sql))) == Split(sql) <==>
            forall i :: 0 <= i < |Split(sql)| ==> !Backslashed(Split(sql)[i])
  {
    hide SplitFrom, Join;
    var sts := Split(sql);
    SplitYieldsStatements(sql, true);
    if i :| 0 <= i < |sts| && Backslashed(sts[i]) {
      JoinLoses(sts, "", i);
    } else {
      SplitJoin(sts, "");
    }
  }

  /** Such a script: the backslash follows a cut on its own line, so it was kept as a statement. */
  lemma NotEveryScriptSplitsAgain()
    ensures Split(";\\") == ["\\"] && Split(Join(["\\"])) == []
  {
    hide SplitFrom, Emit, Step;
    ABackslashKept();
    ABackslashDropped();
    var s, b := ";\\", "\\";
    SplitStep(s, Top(true), "");
    StepCases(s, Top(true));
    assert s[1..] == b && Emit("") == [] by {
      ABackslashKept();
    }
  }

  lemma ABackslashKept()
    ensures SplitFrom("\\", Top(false), "") == ["\\"] && Emit("") == []
  {
    hide SplitFrom, DollarTag, TagRun;
    var b := "\\";
    assert Emit("") == [] && Emit(b) == [b];
    SplitStep(b, Top(false), "");
    assert "" + b == b && b[1..] == "";
    SplitEnd(Top(false), b);
  }

  lemma ABackslashDropped()
    ensures SplitFrom("\\", Top(true), "") == []
  {
    hide SplitFrom, DollarTag, TagRun;
    var b := "\\";
    assert Emit("") == [] && Line(b) == b && b[1..] == "";
    SplitStep(b, Top(true), "");
    SplitEnd(Top(true), "");
  }
}
