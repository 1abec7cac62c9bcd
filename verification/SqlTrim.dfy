/**
  What the splitter takes for whitespace and for a dollar tag, pinned to the
  characters themselves, and what that makes of ordinary text.
*/
module SqlTrim {
  import opened Wrappers
  import opened SqlSplit
  import opened SqlQuoting

  /** The code points with the Unicode property White_Space. */
  const BLANKS: set<int> := {
    0x09, 0x0a, 0x0b, 0x0c, 0x0d, 0x20, 0x85, 0xa0, 0x1680,
    0x2000, 0x2001, 0x2002, 0x2003, 0x2004, 0x2005, 0x2006, 0x2007, 0x2008, 0x2009, 0x200a,
    0x2028, 0x2029, 0x202f, 0x205f, 0x3000}

  /** The code points a dollar tag's name is made of: 0 to 9, A to Z, the underscore, a to z. */
  predicate InTagAlphabet(n: int)
  {
    0x30 <= n <= 0x39 || 0x41 <= n <= 0x5a || n == 0x5f || 0x61 <= n <= 0x7a
  }

  predicate Blank(s: string)
  {
    forall i :: 0 <= i < |s| ==> s[i] as int in BLANKS
  }

  lemma WhitespaceIsBlank(c: char)
    ensures IsWhitespace(c) <==> c as int in BLANKS
  {
  }

  // -------------------------------------------------------------------------
  // A statement is its segment without the blanks at its ends

  lemma {:induction false} TrimStartDrops(s: string) returns (i: nat)
    ensures i <= |s| && TrimStart(s) == s[i..] && Blank(s[..i])
    ensures i < |s| ==> s[i] as int !in BLANKS
  {
    hide IsWhitespace, BLANKS;
    if s == "" {
      return 0;
    }
    WhitespaceIsBlank(s[0]);
    if !IsWhitespace(s[0]) {
      assert s[0..] == s;
      return 0;
    }
    var j := TrimStartDrops(s[1..]);
    i := j + 1;
    assert s[1..][j..] == s[i..];
    forall k | 0 <= k < i ensures s[k] as int in BLANKS {
      if k > 0 {
        assert s[k] == s[1..][..j][k - 1];
      }
    }
  }

  lemma {:induction false} TrimEndDrops(s: string) returns (j: nat)
    ensures j <= |s| && TrimEnd(s) == s[..j] && Blank(s[j..])
    ensures j > 0 ==> s[j - 1] as int !in BLANKS
    decreases |s|
  {
    hide IsWhitespace, BLANKS;
    if s == "" {
      return 0;
    }
    var n := |s| - 1;
    WhitespaceIsBlank(s[n]);
    if !IsWhitespace(s[n]) {
      assert s[..|s|] == s;
      return |s|;
    }
    j := TrimEndDrops(s[..n]);
    assert s[..n][..j] == s[..j];
    forall k | j <= k < |s| ensures s[k] as int in BLANKS {
      if k < n {
        assert s[k] == s[..n][j..][k - j];
      }
    }
  }

  /**
    A segment of blanks alone gives no statement; any other gives one, which
    is the segment from its first to its last character that is not a blank.
  */
  lemma EmitSlices(s: string) returns (i: nat, j: nat)
    ensures i <= j <= |s| && Blank(s[..i]) && Blank(s[j..])
    ensures Emit(s) == if i == j then [] else [s[i..j]]
    ensures i < j ==> s[i] as int !in BLANKS && s[j - 1] as int !in BLANKS
  {
    hide BLANKS, Blank, TrimStart, TrimEnd;
    i := TrimStartDrops(s);
    var r := s[i..];
    var k := TrimEndDrops(r);
    j := i + k;
    assert r[..k] == s[i..j] && r[k..] == s[j..];
    if i < j {
      LeadStays(s, i, r, k);
      assert s[j - 1] == r[k - 1];
    }
  }

  lemma LeadStays(s: string, i: nat, r: string, k: nat)
    requires i < |s| && r == s[i..] && 0 < k <= |r|
    ensures r[..k] != "" && r[0] == s[i]
  {
  }

  /** So a segment gives nothing exactly when it is blank. */
  lemma EmitsNothingExactly(s: string)
    ensures Emit(s) == [] <==> Blank(s)
  {
    hide BLANKS, Emit;
    var i, j := EmitSlices(s);
    if i < j {
      assert s[i] as int !in BLANKS;
    } else {
      forall k | 0 <= k < |s| ensures s[k] as int in BLANKS {
        if k < i {
          assert s[k] == s[..i][k];
        } else {
          assert s[k] == s[j..][k - j];
        }
      }
    }
  }

  // -------------------------------------------------------------------------
  // Ordinary text

  /** Printable ASCII that means nothing to the splitter: no quote, dash, dollar, semicolon or backslash. */
  predicate Plain(c: char)
  {
    ' ' <= c <= '~' && c !in {'\'', '-', '$', ';', '\\'}
  }

  lemma {:induction false} PlainKept(s: string, lineStart: bool)
    requires forall i :: 0 <= i < |s| ==> Plain(s[i])
    ensures Kept(s, Top(lineStart)) == s && Beyond(s, Top(lineStart)) == None
    decreases |s|
  {
    hide Kept, Beyond;
    if s == "" {
      NothingKept(Top(lineStart));
    } else {
      KeptStep(s, Top(lineStart));
      PlainKept(s[1..], LineStart(s[0], lineStart));
    }
  }

  lemma NothingKept(m: Mode)
    ensures Kept("", m) == "" && Beyond("", m) == None
  {
  }

  /** Plain text with no space at either end splits to itself. */
  lemma PlainTextSplitsToItself(s: string)
    requires s != "" && s[0] != ' ' && s[|s| - 1] != ' '
    requires forall i :: 0 <= i < |s| ==> Plain(s[i])
    ensures Split(s) == [s]
  {
    hide Kept, Beyond, Emit;
    PlainKept(s, true);
    assert "" + s == s;
    var i, j := EmitSlices(s);
    PlainNotBlank(s[0]);
    PlainNotBlank(s[|s| - 1]);
    BlankEnds(s, i, j);
    assert s[0..|s|] == s;
  }

  lemma BlankEnds(s: string, i: nat, j: nat)
    requires i <= j <= |s| && Blank(s[..i]) && Blank(s[j..])
    ensures i > 0 ==> s[0] as int in BLANKS
    ensures j < |s| ==> s[|s| - 1] as int in BLANKS
  {
    hide BLANKS;
    if i > 0 {
      assert s[..i][0] == s[0];
    }
    if j < |s| {
      assert s[j..][|s| - 1 - j] == s[|s| - 1];
    }
  }

  lemma PlainNotBlank(c: char)
    requires Plain(c) && c != ' '
    ensures c as int !in BLANKS
  {
  }

  // -------------------------------------------------------------------------
  // Dollar tags

  lemma TagCharIsListed(c: char)
    ensures IsTagChar(c) <==> InTagAlphabet(c as int)
  {
    if c as int == 0x5f {
      assert c == 0x5f as char == '_';
    }
  }

  /** A body between two tags of letters, digits and underscores passes whole. */
  lemma NamedBodyWhole(name: string, body: string, rest: string, lineStart: bool)
    requires forall i :: 0 <= i < |name| ==> InTagAlphabet(name[i] as int)
    requires FirstClosesAt(body, "$" + name + "$")
    ensures var tag := "$" + name + "$";
            Passes(tag + body + tag + rest, Top(lineStart), tag + body + tag, rest, Top(false))
  {
    hide Passes, IsTagChar, InTagAlphabet, FirstClosesAt;
    forall i | 0 <= i < |name| ensures IsTagChar(name[i]) {
      TagCharIsListed(name[i]);
    }
    DollarBodyWhole(name, body, rest, lineStart);
  }

  lemma {:induction false} RunStops(name: string, c: char, rest: string)
    requires TagName(name) && !IsTagChar(c)
    ensures TagRun(name + [c] + rest) == |name|
    decreases |name|
  {
    var s := name + [c] + rest;
    if name != "" {
      assert s[1..] == name[1..] + [c] + rest;
      RunStops(name[1..], c, rest);
    }
  }

  /** A dollar whose name runs into any other character opens nothing: it is one character of the statement. */
  lemma NotAnOpener(name: string, c: char, rest: string, lineStart: bool)
    requires forall i :: 0 <= i < |name| ==> InTagAlphabet(name[i] as int)
    requires !InTagAlphabet(c as int) && c != '$'
    ensures Passes("$" + name + [c] + rest, Top(lineStart), "$", name + [c] + rest, Top(false))
  {
    hide IsTagChar, InTagAlphabet, Kept, Beyond, TagRun;
    var s := "$" + name + [c] + rest;
    forall i | 0 <= i < |name| ensures IsTagChar(name[i]) {
      TagCharIsListed(name[i]);
    }
    TagCharIsListed(c);
    RunStops(name, c, rest);
    assert s[1..] == name + [c] + rest;
    KeptStep(s, Top(lineStart));
  }

  // -------------------------------------------------------------------------
  // Where a line begins, and where it does not

  /** A newline opens a line; a blank leaves it as it was; anything plain closes it. */
  lemma NewlineOpensLine(rest: string, lineStart: bool)
    ensures Passes("\n" + rest, Top(lineStart), "\n", rest, Top(true))
  {
    hide Kept, Beyond;
    var s := "\n" + rest;
    KeptStep(s, Top(lineStart));
    assert s[1..] == rest;
  }

  lemma BlankKeepsLine(c: char, rest: string, lineStart: bool)
    requires c as int in BLANKS && c != '\n'
    ensures Passes([c] + rest, Top(lineStart), [c], rest, Top(lineStart))
  {
    hide Kept, Beyond, IsWhitespace;
    WhitespaceIsBlank(c);
    var s := [c] + rest;
    BlankMeansNothing(c);
    KeptStep(s, Top(lineStart));
    assert s[1..] == rest;
  }

  lemma BlankMeansNothing(c: char)
    requires c as int in BLANKS
    ensures c !in {'\'', '-', '$', ';', '\\'}
  {
  }

  lemma PlainClosesLine(c: char, rest: string, lineStart: bool)
    requires Plain(c) && c != ' '
    ensures Passes([c] + rest, Top(lineStart), [c], rest, Top(false))
  {
    hide Kept, Beyond;
    var s := [c] + rest;
    KeptStep(s, Top(lineStart));
    assert s[1..] == rest;
  }

  /** An indented meta-command goes as one at the margin does; its indent stays. */
  lemma {:induction false} IndentedMetaCommandDropped(indent: string, line: string, rest: string)
    requires forall i :: 0 <= i < |indent| ==> indent[i] as int in BLANKS && indent[i] != '\n'
    requires forall i :: 0 <= i < |line| ==> line[i] != '\n'
    ensures Passes(indent + "\\" + line + "\n" + rest, Top(true), indent, rest, Top(true))
    decreases |indent|
  {
    hide Passes, BLANKS;
    var s := indent + "\\" + line + "\n" + rest;
    if indent == "" {
      MetaCommandDropped(line, rest);
      assert s == "\\" + line + "\n" + rest;
    } else {
      var more := indent[1..] + "\\" + line + "\n" + rest;
      BlankKeepsLine(indent[0], more, true);
      IndentedMetaCommandDropped(indent[1..], line, rest);
      assert s == [indent[0]] + more && indent == [indent[0]] + indent[1..];
      PassesOn(s, Top(true), [indent[0]], more, Top(true), indent[1..], rest, Top(true));
    }
  }

  /** In the middle of a line a backslash is a character like any other, and so is a dash with none after it. */
  lemma MidLineBackslashKept(rest: string)
    ensures Passes("\\" + rest, Top(false), "\\", rest, Top(false))
  {
    hide Kept, Beyond;
    var s := "\\" + rest;
    KeptStep(s, Top(false));
    assert s[1..] == rest;
  }

  lemma LoneDashKept(rest: string, lineStart: bool)
    requires rest == "" || rest[0] != '-'
    ensures Passes("-" + rest, Top(lineStart), "-", rest, Top(false))
  {
    hide Kept, Beyond;
    var s := "-" + rest;
    KeptStep(s, Top(lineStart));
    assert s[1..] == rest;
  }

  // -------------------------------------------------------------------------
  // What is never closed runs to the end

  lemma {:induction false} UnclosedString(body: string)
    requires forall i :: 0 <= i < |body| ==> body[i] != '\''
    ensures Kept(body, Quoted) == body && Beyond(body, Quoted) == None
    decreases |body|
  {
    hide Kept, Beyond;
    if body == "" {
      NothingKept(Quoted);
    } else {
      KeptStep(body, Quoted);
      UnclosedString(body[1..]);
    }
  }

  lemma {:induction false} UnclosedComment(line: string)
    requires forall i :: 0 <= i < |line| ==> line[i] != '\n'
    ensures Kept(line, Comment) == "" && Beyond(line, Comment) == None
    decreases |line|
  {
    hide Kept, Beyond;
    if line == "" {
      NothingKept(Comment);
    } else {
      KeptStep(line, Comment);
      UnclosedComment(line[1..]);
    }
  }

  lemma {:induction false} UnclosedDollars(body: string, tag: string)
    requires tag != "" && forall i :: 0 <= i <= |body| ==> !(tag <= body[i..])
    ensures Kept(body, Dollar(tag)) == body && Beyond(body, Dollar(tag)) == None
    decreases |body|
  {
    hide Kept, Beyond;
    if body == "" {
      NothingKept(Dollar(tag));
    } else {
      KeptStep(body, Dollar(tag));
      assert body[0..] == body;
      forall i | 0 <= i <= |body[1..]| ensures !(tag <= body[1..][i..]) {
        assert body[1..][i..] == body[i + 1..];
      }
      UnclosedDollars(body[1..], tag);
    }
  }
}
