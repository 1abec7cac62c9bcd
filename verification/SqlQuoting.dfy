/**
  What the splitter makes of each construct of a script, said of the text
  itself: strings and dollar-quoted bodies pass whole whatever is in them,
  comments and meta-command lines go, and a bare semicolon cuts.
*/
module SqlQuoting {
  import opened Wrappers
  import opened SqlSplit

  /** The scan of `s` from `m` keeps `text`, then goes on with `rest` from `next`. */
  ghost predicate Passes(s: string, m: Mode, text: string, rest: string, next: Mode)
  {
    Kept(s, m) == text + Kept(rest, next) && Beyond(s, m) == Beyond(rest, next)
  }

  lemma PassesOn(s: string, m: Mode, a: string, r: string, n: Mode, b: string, rest: string, next: Mode)
    requires Passes(s, m, a, r, n) && Passes(r, n, b, rest, next)
    ensures Passes(s, m, a + b, rest, next)
  {
    hide Kept, Beyond;
    assert a + (b + Kept(rest, next)) == (a + b) + Kept(rest, next);
  }

  // -------------------------------------------------------------------------
  // Strings

  lemma {:induction false} InString(body: string, rest: string)
    requires forall i :: 0 <= i < |body| ==> body[i] != '\''
    ensures Passes(body + "'" + rest, Quoted, body + "'", rest, Top(false))
    decreases |body|
  {
    hide Kept, Beyond;
    var s := body + "'" + rest;
    KeptStep(s, Quoted);
    if body == "" {
      assert s[1..] == rest && body + "'" == "'";
    } else {
      assert s[1..] == body[1..] + "'" + rest;
      InString(body[1..], rest);
      assert body + "'" == [body[0]] + (body[1..] + "'");
      PassesOn(s, Quoted, [body[0]], s[1..], Quoted, body[1..] + "'", rest, Top(false));
    }
  }

  /** A string is kept whole: no semicolon, comment, dollar or backslash in it means anything. */
  lemma StringWhole(body: string, rest: string, lineStart: bool)
    requires forall i :: 0 <= i < |body| ==> body[i] != '\''
    ensures Passes("'" + body + "'" + rest, Top(lineStart), "'" + body + "'", rest, Top(false))
  {
    hide Kept, Beyond, DollarTag, Line;
    var s := "'" + body + "'" + rest;
    KeptStep(s, Top(lineStart));
    assert s[1..] == body + "'" + rest;
    InString(body, rest);
    PassesOn(s, Top(lineStart), "'", s[1..], Quoted, body + "'", rest, Top(false));
    assert "'" + (body + "'") == "'" + body + "'";
  }

  // -------------------------------------------------------------------------
  // Dollar-quoted bodies

  predicate TagName(name: string)
  {
    forall i :: 0 <= i < |name| ==> IsTagChar(name[i])
  }

  lemma {:induction false} NameRun(name: string, after: string)
    requires TagName(name)
    ensures TagRun(name + "$" + after) == |name| && TagNext(name + "$" + after)
    decreases |name|
  {
    var s := name + "$" + after;
    if name != "" {
      assert s[1..] == name[1..] + "$" + after;
      NameRun(name[1..], after);
    }
  }

  lemma Opener(name: string, after: string)
    requires TagName(name)
    ensures DollarTag("$" + name + "$" + after) == Some("$" + name + "$")
  {
    var s := "$" + name + "$" + after;
    assert s[1..] == name + "$" + after;
    NameRun(name, after);
    assert s[..|name| + 2] == "$" + name + "$";
  }

  /** The closing tag is the first occurrence of `tag` after the body begins. */
  predicate FirstClosesAt(body: string, tag: string)
  {
    forall i :: 0 <= i < |body| ==> !(tag <= (body + tag)[i..])
  }

  lemma {:induction false} InDollars(body: string, tag: string, rest: string)
    requires tag != "" && FirstClosesAt(body, tag)
    ensures Passes(body + tag + rest, Dollar(tag), body + tag, rest, Top(false))
    decreases |body|
  {
    hide Kept, Beyond, Step;
    var s := body + tag + rest;
    KeptStep(s, Dollar(tag));
    StepCases(s, Dollar(tag));
    if body == "" {
      assert s == tag + rest && s[..|tag|] == tag && s[|tag|..] == rest && body + tag == tag;
    } else {
      NotYet(body, tag, rest);
      assert s[1..] == body[1..] + tag + rest;
      Later(body, tag);
      InDollars(body[1..], tag, rest);
      assert body + tag == [body[0]] + (body[1..] + tag);
      PassesOn(s, Dollar(tag), [body[0]], s[1..], Dollar(tag), body[1..] + tag, rest, Top(false));
    }
  }

  lemma NotYet(body: string, tag: string, rest: string)
    requires body != "" && FirstClosesAt(body, tag)
    ensures !(tag <= body + tag + rest)
  {
    assert (body + tag)[0..] == body + tag;
    assert (body + tag + rest)[..|tag|] == (body + tag)[..|tag|];
  }

  lemma Later(body: string, tag: string)
    requires body != "" && FirstClosesAt(body, tag)
    ensures FirstClosesAt(body[1..], tag)
  {
    forall i | 0 <= i < |body[1..]| ensures !(tag <= (body[1..] + tag)[i..]) {
      assert (body[1..] + tag)[i..] == (body + tag)[i + 1..];
    }
  }

  /** A dollar-quoted body is kept whole up to the first repeat of its own tag, whatever else is in it. */
  lemma DollarBodyWhole(name: string, body: string, rest: string, lineStart: bool)
    requires TagName(name) && FirstClosesAt(body, "$" + name + "$")
    ensures var tag := "$" + name + "$";
            Passes(tag + body + tag + rest, Top(lineStart), tag + body + tag, rest, Top(false))
  {
    hide Kept, Beyond, DollarTag, Line;
    var tag := "$" + name + "$";
    var s := tag + body + tag + rest;
    assert s == tag + (body + tag + rest);
    Opener(name, body + tag + rest);
    KeptStep(s, Top(lineStart));
    assert Step(s, Top(lineStart)) == (Keep(tag), Dollar(tag));
    assert s[|tag|..] == body + tag + rest;
    InDollars(body, tag, rest);
    PassesOn(s, Top(lineStart), tag, body + tag + rest, Dollar(tag), body + tag, rest, Top(false));
    assert tag + (body + tag) == tag + body + tag;
  }

  // -------------------------------------------------------------------------
  // Comments, meta-commands and cuts

  lemma {:induction false} InComment(line: string, rest: string)
    requires forall i :: 0 <= i < |line| ==> line[i] != '\n'
    ensures Passes(line + "\n" + rest, Comment, "\n", rest, Top(true))
    decreases |line|
  {
    hide Kept, Beyond;
    var s := line + "\n" + rest;
    KeptStep(s, Comment);
    if line == "" {
      assert s[1..] == rest;
    } else {
      assert s[1..] == line[1..] + "\n" + rest;
      InComment(line[1..], rest);
    }
  }

  /** Of a line comment only the newline is kept. */
  lemma CommentDropped(line: string, rest: string, lineStart: bool)
    requires forall i :: 0 <= i < |line| ==> line[i] != '\n'
    ensures Passes("--" + line + "\n" + rest, Top(lineStart), "\n", rest, Top(true))
  {
    hide Kept, Beyond, DollarTag, Line;
    var s := "--" + line + "\n" + rest;
    KeptStep(s, Top(lineStart));
    var dashed := "-" + line;
    assert s[1..] == dashed + "\n" + rest;
    InComment(dashed, rest);
  }

  lemma {:induction false} WholeLine(line: string, rest: string)
    requires forall i :: 0 <= i < |line| ==> line[i] != '\n'
    ensures Line(line + "\n" + rest) == line + "\n"
    decreases |line|
  {
    var s := line + "\n" + rest;
    if line != "" {
      assert s[1..] == line[1..] + "\n" + rest;
      WholeLine(line[1..], rest);
    }
  }

  /** From the start of a line, a backslash drops everything up to and including the newline. */
  lemma MetaCommandDropped(line: string, rest: string)
    requires forall i :: 0 <= i < |line| ==> line[i] != '\n'
    ensures Passes("\\" + line + "\n" + rest, Top(true), "", rest, Top(true))
  {
    hide Kept, Beyond, Line;
    var command := "\\" + line;
    var s := command + "\n" + rest;
    WholeLine(command, rest);
    KeptStep(s, Top(true));
    assert s[|command| + 1..] == rest;
  }

  /** A semicolon at top level ends the statement, and the next begins in the middle of the line. */
  lemma SemicolonCuts(rest: string, lineStart: bool, current: string)
    ensures SplitFrom(";" + rest, Top(lineStart), current) == Emit(current) + SplitFrom(rest, Top(false), "")
  {
    hide SplitFrom, DollarTag, Line;
    var s := ";" + rest;
    SplitStep(s, Top(lineStart), current);
    assert s[1..] == rest;
  }
}
