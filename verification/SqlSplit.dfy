/**
  Splitting an SQL script on its top-level semicolons, keeping quoted strings
  and dollar-quoted bodies whole, and dropping line comments and psql
  meta-command lines.
*/
module SqlSplit {

  import opened Wrappers

  /** Where the scan is; at top level, whether only whitespace has been seen on the line. */
  datatype Mode = Top(lineStart: bool) | Quoted | Dollar(tag: string) | Comment

  /** What the next characters come to. */
  datatype Token = Keep(text: string) | Drop(text: string) | Cut

  /** Unicode White_Space. */
  predicate IsWhitespace(c: char)
  {
    var n := c as int;
    || 0x09 <= n <= 0x0d || n == 0x20 || n == 0x85 || n == 0xa0 || n == 0x1680
    || 0x2000 <= n <= 0x200a || n == 0x2028 || n == 0x2029 || n == 0x202f || n == 0x205f || n == 0x3000
  }

  predicate IsTagChar(c: char)
  {
    'a' <= c <= 'z' || 'A' <= c <= 'Z' || '0' <= c <= '9' || c == '_'
  }

  /** How many tag characters `s` begins with. */
  function TagRun(s: string): (n: nat)
    ensures n <= |s|
  {
    if s == "" || !IsTagChar(s[0]) then 0 else 1 + TagRun(s[1..])
  }

  /** Whether a dollar-quote opener's name, ended by its second `$`, comes next. */
  predicate TagNext(s: string)
  {
    TagRun(s) < |s| && s[TagRun(s)] == '$'
  }

  /** The `$tag$` that `s` begins with, if it does. */
  function DollarTag(s: string): (t: Option<string>)
    requires s != "" && s[0] == '$'
    ensures t.Some? ==> 2 <= |t.value| <= |s| && t.value == s[..|t.value|]
  {
    if TagNext(s[1..]) then Some(s[..TagRun(s[1..]) + 2]) else None
  }

  /** The rest of a line, with its newline. */
  function Line(s: string): (l: string)
    ensures |l| <= |s| && l == s[..|l|] && (s != "" ==> l != "")
  {
    if s == "" then "" else if s[0] == '\n' then "\n" else [s[0]] + Line(s[1..])
  }

  function LineStart(c: char, lineStart: bool): bool
  {
    if !IsWhitespace(c) then false else if c == '\n' then true else lineStart
  }

  /** One step of the scan: the next token, and where it leaves the scan. */
  function Step(s: string, m: Mode): (Token, Mode)
    requires s != ""
  {
    var c := s[0];
    match m
    case Comment => if c == '\n' then (Keep("\n"), Top(true)) else (Drop([c]), Comment)
    case Dollar(tag) => if tag != "" && tag <= s then (Keep(tag), Top(false)) else (Keep([c]), m)
    case Quoted => (Keep([c]), if c == '\'' then Top(false) else Quoted)
    case Top(lineStart) =>
      if lineStart && c == '\\' then (Drop(Line(s)), Top(true))
      else TopStep(s, LineStart(c, lineStart))
  }

  /** At top level, where the line does not begin with a meta-command. */
  function TopStep(s: string, lineStart: bool): (Token, Mode)
    requires s != ""
  {
    var c := s[0];
    if c == '-' && |s| > 1 && s[1] == '-' then (Drop("-"), Comment)
    else if c == '\'' then (Keep([c]), Quoted)
    else if c == '$' then
      (match DollarTag(s) case Some(tag) => (Keep(tag), Dollar(tag)) case None => (Keep([c]), Top(lineStart)))
    else if c == ';' then (Cut, Top(lineStart))
    else (Keep([c]), Top(lineStart))
  }

  function Text(t: Token): string
  {
    if t.Cut? then ";" else t.text
  }

  lemma StepText(s: string, m: Mode)
    requires s != ""
    ensures var t := Text(Step(s, m).0); t != "" && |t| <= |s| && t == s[..|t|]
  {
  }

  function Size(s: string, m: Mode): (n: nat)
    requires s != ""
    ensures 0 < n <= |s|
  {
    StepText(s, m);
    |Text(Step(s, m).0)|
  }

  // -------------------------------------------------------------------------
  // Statements

  /** The text kept up to the next cut, or to the end. */
  function Kept(s: string, m: Mode): string
    decreases |s|
  {
    if s == "" then ""
    else
      var (t, next) := Step(s, m);
      match t
      case Cut => ""
      case Keep(text) => text + Kept(s[Size(s, m)..], next)
      case Drop(_) => Kept(s[Size(s, m)..], next)
  }

  /** What follows the next cut, if there is one. */
  function Beyond(s: string, m: Mode): (r: Option<string>)
    ensures r.Some? ==> |r.value| < |s|
    decreases |s|
  {
    if s == "" then None
    else
      var (t, next) := Step(s, m);
      if t.Cut? then Some(s[1..]) else Beyond(s[Size(s, m)..], next)
  }

  function TrimStart(s: string): string
  {
    if s != "" && IsWhitespace(s[0]) then TrimStart(s[1..]) else s
  }

  function TrimEnd(s: string): string
  {
    if s != "" && IsWhitespace(s[|s| - 1]) then TrimEnd(s[..|s| - 1]) else s
  }

  function Trim(s: string): string
  {
    TrimEnd(TrimStart(s))
  }

  /** A statement, unless it is blank. */
  function Emit(s: string): seq<string>
  {
    if Trim(s) == "" then [] else [Trim(s)]
  }

  /** The statements of `s`, the first of them continuing `current`. */
  function SplitFrom(s: string, m: Mode, current: string): seq<string>
    decreases |s|
  {
    Emit(current + Kept(s, m)) +
    (match Beyond(s, m) case None => [] case Some(rest) => SplitFrom(rest, Top(false), ""))
  }

  function Split(sql: string): seq<string>
  {
    SplitFrom(sql, Top(true), "")
  }

  // -------------------------------------------------------------------------
  // Nothing is made up: the tokens are the input, cut up

  function Tokens(s: string, m: Mode): seq<Token>
    decreases |s|
  {
    if s == "" then [] else [Step(s, m).0] + Tokens(s[Size(s, m)..], Step(s, m).1)
  }

  function Texts(ts: seq<Token>): string
  {
    if ts == [] then "" else Text(ts[0]) + Texts(ts[1..])
  }

  /** Kept text, dropped comments and meta-command lines, and cut semicolons rebuild the input. */
  lemma {:induction false} TokensRebuild(s: string, m: Mode)
    ensures Texts(Tokens(s, m)) == s
    decreases |s|
  {
    hide Step;
    if s != "" {
      StepText(s, m);
      var n := Size(s, m);
      TokensRebuild(s[n..], Step(s, m).1);
      var ts := Tokens(s, m);
      assert ts[1..] == Tokens(s[n..], Step(s, m).1);
      assert s == s[..n] + s[n..];
    }
  }

  /** The statements a token sequence comes to. */
  function Collect(ts: seq<Token>, current: string): seq<string>
    decreases |ts|
  {
    if ts == [] then Emit(current)
    else match ts[0]
      case Keep(text) => Collect(ts[1..], current + text)
      case Drop(_) => Collect(ts[1..], current)
      case Cut => Emit(current) + Collect(ts[1..], "")
  }

  /** And the statements are the kept text between the cuts, trimmed. */
  lemma {:induction false} SplitCollects(s: string, m: Mode, current: string)
    ensures SplitFrom(s, m, current) == Collect(Tokens(s, m), current)
    decreases |s|
  {
    hide Step, SplitFrom, Emit;
    if s == "" {
      SplitEnd(m, current);
    } else {
      var n := Size(s, m);
      var t, next := Step(s, m).0, Step(s, m).1;
      SplitStep(s, m, current);
      assert Tokens(s, m)[1..] == Tokens(s[n..], next);
      if t.Keep? {
        SplitCollects(s[n..], next, current + t.text);
      } else if t.Drop? {
        SplitCollects(s[n..], next, current);
      } else {
        CutStays(s, m);
        SplitCollects(s[1..], Top(false), "");
      }
    }
  }

  lemma CutStays(s: string, m: Mode)
    requires s != "" && Step(s, m).0.Cut?
    ensures s[0] == ';' && m.Top? && Step(s, m).1 == Top(false) && Size(s, m) == 1
  {
  }

  // -------------------------------------------------------------------------
  // The scan as the gateway runs it

  /** The loop's flags as one mode. */
  function ModeOf(inComment: bool, tag: Option<string>, inSingle: bool, lineStart: bool): Mode
  {
    if inComment then Comment
    else if tag.Some? then Dollar(tag.value)
    else if inSingle then Quoted
    else Top(lineStart)
  }

  method SplitStatements(sql: string) returns (out: seq<string>)
    ensures out == Split(sql)
  {
    hide Step, SplitFrom, Emit, DollarTag, Line, Kept, Beyond;
    out := [];
    var current := "";
    var tag: Option<string> := None;
    var inSingle, inComment, lineStart := false, false, true;
    var i := 0;
    assert sql[0..] == sql && [] + Split(sql) == Split(sql);
    while i < |sql|
      invariant 0 <= i <= |sql|
      invariant Flags(inComment, tag, inSingle, lineStart)
      invariant Split(sql) == out + SplitFrom(sql[i..], ModeOf(inComment, tag, inSingle, lineStart), current)
    {
      var c, rest := sql[i], sql[i..];
      ghost var m := ModeOf(inComment, tag, inSingle, lineStart);
      SplitStep(rest, m, current);
      StepCases(rest, m);
      var took := 1;
      if inComment {
        if c == '\n' {
          current := current + [c];
          inComment, lineStart := false, true;
        }
      } else if tag.Some? {
        if tag.value <= rest {
          current := current + tag.value;
          took := |tag.value|;
          tag := None;
        } else {
          current := current + [c];
        }
      } else if inSingle {
        current := current + [c];
        inSingle := c != '\'';
      } else if lineStart && c == '\\' {
        took := |Line(rest)|;
      } else {
        lineStart := LineStart(c, lineStart);
        if c == '-' && |rest| > 1 && rest[1] == '-' {
          inComment := true;
        } else if c == '\'' {
          inSingle := true;
          current := current + [c];
        } else if c == '$' {
          var found := DollarTag(rest);
          if found.Some? {
            current := current + found.value;
            took := |found.value|;
            tag := found;
          } else {
            current := current + [c];
          }
        } else if c == ';' {
          assert out + (Emit(current) + SplitFrom(rest[1..], Top(false), ""))
              == out + Emit(current) + SplitFrom(rest[1..], Top(false), "");
          out := out + Emit(current);
          current := "";
        } else {
          current := current + [c];
        }
      }
      assert sql[i..][took..] == sql[i + took..];
      i := i + took;
    }
    SplitEnd(ModeOf(inComment, tag, inSingle, lineStart), current);
    assert sql[i..] == "";
    out := out + Emit(current);
  }

  /** Only one of the loop's flags is ever up, and a tag in hand is a whole one. */
  predicate Flags(inComment: bool, tag: Option<string>, inSingle: bool, lineStart: bool)
  {
    && (inComment ==> tag.None? && !inSingle && !lineStart)
    && (tag.Some? ==> !inSingle && !lineStart && |tag.value| >= 2)
    && (inSingle ==> !lineStart)
  }

  /** How a step moves the segment it is in. */
  lemma KeptStep(s: string, m: Mode)
    requires s != ""
    ensures var t, next, rest := Step(s, m).0, Step(s, m).1, s[Size(s, m)..];
            && (t.Keep? ==> Kept(s, m) == t.text + Kept(rest, next) && Beyond(s, m) == Beyond(rest, next))
            && (t.Drop? ==> Kept(s, m) == Kept(rest, next) && Beyond(s, m) == Beyond(rest, next))
            && (t.Cut? ==> Kept(s, m) == "" && Beyond(s, m) == Some(s[1..]))
  {
  }

  lemma SplitStep(s: string, m: Mode, current: string)
    requires s != ""
    ensures var t, next, rest := Step(s, m).0, Step(s, m).1, s[Size(s, m)..];
            && (t.Keep? ==> SplitFrom(s, m, current) == SplitFrom(rest, next, current + t.text))
            && (t.Drop? ==> SplitFrom(s, m, current) == SplitFrom(rest, next, current))
            && (t.Cut? ==> SplitFrom(s, m, current) == Emit(current) + SplitFrom(s[1..], Top(false), ""))
  {
    hide Step, Emit, Kept, Beyond;
    var t, next, rest := Step(s, m).0, Step(s, m).1, s[Size(s, m)..];
    KeptStep(s, m);
    if t.Keep? {
      assert current + (t.text + Kept(rest, next)) == current + t.text + Kept(rest, next);
    } else if t.Cut? {
      assert current + "" == current;
    }
  }

  lemma SplitEnd(m: Mode, current: string)
    ensures SplitFrom("", m, current) == Emit(current)
  {
    assert current + "" == current;
  }

  /** `Step`, case by case, with the size of each token. */
  lemma StepCases(s: string, m: Mode)
    requires s != ""
    ensures m.Comment? ==> Step(s, m) == if s[0] == '\n' then (Keep([s[0]]), Top(true)) else (Drop([s[0]]), Comment)
    ensures m.Dollar? && m.tag != "" ==>
              Step(s, m) == if m.tag <= s then (Keep(m.tag), Top(false)) else (Keep([s[0]]), m)
    ensures m.Quoted? ==> Step(s, m) == (Keep([s[0]]), if s[0] == '\'' then Top(false) else Quoted)
    ensures m.Top? && m.lineStart && s[0] == '\\' ==> Step(s, m) == (Drop(Line(s)), Top(true))
    ensures m.Top? && !(m.lineStart && s[0] == '\\') ==>
              Step(s, m) == TopStep(s, LineStart(s[0], m.lineStart))
    ensures Size(s, m) == |Text(Step(s, m).0)|
  {
  }
}
