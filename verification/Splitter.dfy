/** The SQL script splitter of the migration runner (packages/db/src/infra_twin/db/migrate.py).

    The program scans with lookahead: it searches for the end of a dollar tag and for a
    closing tag before it moves. `Split` is the reference: an automaton that reads one
    character at a time and never looks ahead. `SplitStatements` is the program's loop,
    proved to compute the same list; the laws below are about the reference. */
module Splitter {
  import opened Model

  /** `Plain(Tag(t))`: the text since the last unmatched `$` is t, a possible tag name.
      `Dash`: one top-level `-` was read and is not yet emitted. */
  datatype Mode =
    | Plain(pending: Pending)
    | Dash
    | Comment
    | SingleQuoted
    | DoubleQuoted
    | DollarQuoted(tag: string, body: string)

  datatype Pending = NoTag | Tag(name: string)

  datatype Lex = Lex(mode: Mode, buf: string, statements: seq<string>)

  const START := Plain(NoTag)

  /* ---------------------------------------------------------------- characters */

  predicate IsSpace(c: char) {
    c == ' ' || '\t' <= c <= '\r' || '\U{001C}' <= c <= '\U{001F}'
  }

  predicate IsIdentStart(c: char) {
    'a' <= c <= 'z' || 'A' <= c <= 'Z' || c == '_'
  }

  predicate IsIdentPart(c: char) {
    IsIdentStart(c) || '0' <= c <= '9'
  }

  predicate IsTagName(s: string) {
    s == "" || (IsIdentStart(s[0]) && forall k :: 0 <= k < |s| ==> IsIdentPart(s[k]))
  }

  function StripLeft(s: string): (r: string)
    ensures |r| <= |s| && r == s[|s| - |r|..]
    ensures forall k :: 0 <= k < |s| - |r| ==> IsSpace(s[k])
    ensures r != "" ==> !IsSpace(r[0])
  {
    if s != "" && IsSpace(s[0]) then StripLeft(s[1..]) else s
  }

  function StripRight(s: string): (r: string)
    ensures |r| <= |s| && r == s[..|r|]
    ensures forall k :: |r| <= k < |s| ==> IsSpace(s[k])
    ensures r != "" ==> !IsSpace(r[|r| - 1])
  {
    if s != "" && IsSpace(s[|s| - 1]) then StripRight(s[..|s| - 1]) else s
  }

  function Strip(s: string): string { StripRight(StripLeft(s)) }

  predicate EndsWith(s: string, t: string) {
    |t| <= |s| && s[|s| - |t|..] == t
  }

  predicate StartsWithAt(s: string, t: string, i: nat) {
    i + |t| <= |s| && s[i..i + |t|] == t
  }

  /* ---------------------------------------------------------------- the automaton */

  function Extend(p: Pending, c: char): Pending {
    if p.Tag? && IsTagName(p.name + [c]) then Tag(p.name + [c]) else NoTag
  }

  function NextPlain(p: Pending, c: char): Mode {
    if c == '-' then Dash
    else if c == '\'' then SingleQuoted
    else if c == '"' then DoubleQuoted
    else if c == '$' then
      if p.Tag? then DollarQuoted("$" + p.name + "$", "") else Plain(Tag(""))
    else if c == ';' then START
    else Plain(Extend(p, c))
  }

  function Next(m: Mode, c: char): Mode {
    match m
    case Plain(p) => NextPlain(p, c)
    case Dash => if c == '-' then Comment else NextPlain(NoTag, c)
    case Comment => if c == '\n' then START else Comment
    case SingleQuoted => if c == '\'' then START else SingleQuoted
    case DoubleQuoted => if c == '"' then START else DoubleQuoted
    case DollarQuoted(tag, body) =>
      if EndsWith(body + [c], tag) then START else DollarQuoted(tag, body + [c])
  }

  predicate TopLevel(m: Mode) { m.Plain? || m.Dash? }

  /** The text collected so far, with the withheld dash. */
  function Collected(l: Lex): string {
    if l.mode.Dash? then l.buf + "-" else l.buf
  }

  function AddStatement(statements: seq<string>, text: string): seq<string> {
    if Strip(text) == "" then statements else statements + [Strip(text)]
  }

  function Feed(l: Lex, c: char): Lex {
    var m := Next(l.mode, c);
    if TopLevel(l.mode) && c == ';' then
      Lex(m, "", AddStatement(l.statements, Collected(l)))
    else if m.Dash? then Lex(m, Collected(l), l.statements)
    else if m.Comment? then Lex(m, l.buf, l.statements)
    else Lex(m, Collected(l) + [c], l.statements)
  }

  function FeedAll(l: Lex, s: string): Lex {
    if s == "" then l else Feed(FeedAll(l, s[..|s| - 1]), s[|s| - 1])
  }

  function Finish(l: Lex): seq<string> { AddStatement(l.statements, Collected(l)) }

  const FRESH := Lex(START, "", [])

  /** The reference splitter. */
  function Split(sql: string): seq<string> { Finish(FeedAll(FRESH, sql)) }

  function ModeFrom(m: Mode, s: string): Mode {
    if s == "" then m else Next(ModeFrom(m, s[..|s| - 1]), s[|s| - 1])
  }

  /* ---------------------------------------------------------------- what a statement is */

  ghost predicate NoBreakFrom(m: Mode, s: string) {
    && (forall k :: 0 <= k < |s| && TopLevel(ModeFrom(m, s[..k])) ==> s[k] != ';')
    && (forall k :: 0 <= k <= |s| ==> !ModeFrom(m, s[..k]).Comment?)
  }

  ghost predicate Trimmed(s: string) {
    s != "" && !IsSpace(s[0]) && !IsSpace(s[|s| - 1])
  }

  /** Non-empty, trimmed, with no top-level `;` and no comment. */
  ghost predicate Clean(s: string) {
    Trimmed(s) && NoBreakFrom(START, s)
  }

  /** Every quote and dollar quote begun in s is closed in s. */
  ghost predicate Closed(s: string) { TopLevel(ModeFrom(START, s)) }

  ghost predicate Script(list: seq<string>) {
    && (forall k :: 0 <= k < |list| ==> Clean(list[k]))
    && (forall k :: 0 <= k < |list| - 1 ==> Closed(list[k]))
  }

  function Join(list: seq<string>): string {
    if list == [] then ""
    else if |list| == 1 then list[0]
    else Join(list[..|list| - 1]) + ";" + list[|list| - 1]
  }

  /* ---------------------------------------------------------------- folding lemmas */

  lemma {:induction false} FeedAllConcat(l: Lex, a: string, b: string)
    ensures FeedAll(l, a + b) == FeedAll(FeedAll(l, a), b)
    decreases |b|
  {
    hide Feed;
    if b == "" {
      assert a + b == a;
    } else {
      FeedAllConcat(l, a, b[..|b| - 1]);
      assert (a + b)[..|a + b| - 1] == a + b[..|b| - 1];
    }
  }

  lemma {:induction false} ModeConcat(m: Mode, a: string, b: string)
    ensures ModeFrom(m, a + b) == ModeFrom(ModeFrom(m, a), b)
    decreases |b|
  {
    hide Next;
    if b == "" {
      assert a + b == a;
    } else {
      ModeConcat(m, a, b[..|b| - 1]);
      assert (a + b)[..|a + b| - 1] == a + b[..|b| - 1];
    }
  }

  lemma NoBreakExtend(m: Mode, s: string, c: char)
    requires NoBreakFrom(m, s)
    requires TopLevel(ModeFrom(m, s)) ==> c != ';'
    requires !Next(ModeFrom(m, s), c).Comment?
    ensures NoBreakFrom(m, s + [c])
    ensures ModeFrom(m, s + [c]) == Next(ModeFrom(m, s), c)
  {
    var t := s + [c];
    assert t[..|s|] == s && t[|t| - 1] == c && t[..|t|] == t;
    forall k | 0 <= k <= |t|
      ensures k < |t| && TopLevel(ModeFrom(m, t[..k])) ==> t[k] != ';'
      ensures !ModeFrom(m, t[..k]).Comment?
    {
      if k <= |s| { assert t[..k] == s[..k]; }
      if k < |s| { assert t[k] == s[k]; }
      if k == |s| { assert s[..k] == s; }
    }
  }

  lemma NoBreakPrefix(m: Mode, s: string, n: nat)
    requires NoBreakFrom(m, s) && n <= |s|
    ensures NoBreakFrom(m, s[..n])
  {
    var t := s[..n];
    forall k | 0 <= k <= n
      ensures k < n && TopLevel(ModeFrom(m, t[..k])) ==> t[k] != ';'
      ensures !ModeFrom(m, t[..k]).Comment?
    {
      assert t[..k] == s[..k];
    }
  }

  /* ---------------------------------------------------------------- round trip */

  lemma FeedStep(l: Lex, c: char)
    requires !l.mode.Comment? && !Next(l.mode, c).Comment?
    requires TopLevel(l.mode) ==> c != ';'
    ensures var r := Feed(l, c);
            r.mode == Next(l.mode, c) && Collected(r) == Collected(l) + [c] && r.statements == l.statements
  {
  }

  lemma NoBreakLast(m: Mode, s: string)
    requires NoBreakFrom(m, s) && s != ""
    ensures !ModeFrom(m, s).Comment? && !ModeFrom(m, s[..|s| - 1]).Comment?
    ensures TopLevel(ModeFrom(m, s[..|s| - 1])) ==> s[|s| - 1] != ';'
  {
    assert s[..|s|] == s;
  }

  /** Feeding a clean text collects exactly that text. */
  lemma {:induction false} FeedClean(done: seq<string>, s: string)
    requires NoBreakFrom(START, s)
    ensures var l := FeedAll(Lex(START, "", done), s);
            l.mode == ModeFrom(START, s) && Collected(l) == s && l.statements == done
    decreases |s|
  {
    hide Feed, Next, NoBreakFrom;
    if s != "" {
      var t, c := s[..|s| - 1], s[|s| - 1];
      NoBreakPrefix(START, s, |s| - 1);
      NoBreakLast(START, s);
      FeedClean(done, t);
      FeedStep(FeedAll(Lex(START, "", done), t), c);
      assert t + [c] == s;
    }
  }

  lemma StripTrimmed(s: string)
    requires Trimmed(s)
    ensures Strip(s) == s
  {
  }

  lemma FeedSeparator(l: Lex)
    requires TopLevel(l.mode) && Trimmed(Collected(l))
    ensures Feed(l, ';') == Lex(START, "", l.statements + [Collected(l)])
  {
    StripTrimmed(Collected(l));
  }

  lemma FeedOne(l: Lex, s: string, c: char)
    ensures FeedAll(l, s + [c]) == Feed(FeedAll(l, s), c)
  {
    assert (s + [c])[..|s + [c]| - 1] == s;
  }

  lemma ScriptInit(list: seq<string>)
    requires Script(list) && |list| >= 2
    ensures Script(list[..|list| - 1])
    ensures Clean(list[|list| - 1]) && Clean(list[|list| - 2]) && Closed(list[|list| - 2])
  {
  }

  ghost predicate Holds(l: Lex, done: seq<string>, s: string) {
    l.mode == ModeFrom(START, s) && Collected(l) == s && l.statements == done
  }

  lemma HoldsAlone(s: string)
    requires Clean(s)
    ensures Holds(FeedAll(FRESH, s), [], s)
  {
    FeedClean([], s);
  }

  lemma FeedNext(text: string, done: seq<string>, prev: string, last: string)
    requires Clean(prev) && Closed(prev) && Clean(last)
    requires Holds(FeedAll(FRESH, text), done, prev)
    ensures Holds(FeedAll(FRESH, text + ";" + last), done + [prev], last)
  {
    FeedSeparator(FeedAll(FRESH, text));
    FeedOne(FRESH, text, ';');
    FeedAllConcat(FRESH, text + ";", last);
    FeedClean(done + [prev], last);
  }

  /** The lexer state after all but the last statement and their separators. */
  lemma {:induction false} FeedJoin(list: seq<string>)
    requires Script(list) && list != []
    ensures Holds(FeedAll(FRESH, Join(list)), list[..|list| - 1], list[|list| - 1])
    decreases |list|
  {
    hide FeedAll, Feed, Clean, Closed, Strip;
    var last := list[|list| - 1];
    if |list| == 1 {
      assert Join(list) == last && list[..0] == [];
      HoldsAlone(last);
    } else {
      var init := list[..|list| - 1];
      ScriptInit(list);
      FeedJoin(init);
      assert init == init[..|init| - 1] + [list[|list| - 2]];
      assert Join(list) == Join(init) + ";" + last;
      FeedNext(Join(init), init[..|init| - 1], list[|list| - 2], last);
    }
  }

  lemma FinishTrimmed(l: Lex)
    requires Trimmed(Collected(l))
    ensures Finish(l) == l.statements + [Collected(l)]
  {
    StripTrimmed(Collected(l));
  }

  /** Splitting the `;`-join of a script gives back its statements. */
  lemma SplitOfJoin(list: seq<string>)
    requires Script(list)
    ensures Split(Join(list)) == list
  {
    hide FeedAll, Feed, Finish, Script, ModeFrom;
    if list == [] {
      SplitNothing();
    } else {
      var last := list[|list| - 1];
      FeedJoin(list);
      ScriptLast(list);
      FinishTrimmed(FeedAll(FRESH, Join(list)));
      assert list == list[..|list| - 1] + [last];
    }
  }

  lemma ScriptLast(list: seq<string>)
    requires Script(list) && list != []
    ensures Trimmed(list[|list| - 1])
  {
  }

  lemma SplitNothing()
    ensures Split(Join([])) == []
  {
  }

  /* ---------------------------------------------------------------- every output is a script */

  ghost predicate Sound(l: Lex) {
    && Script(l.statements)
    && AllClosed(l.statements)
    && NoBreakFrom(START, l.buf)
    && (if l.mode.Dash? || l.mode.Comment? then ModeFrom(START, l.buf).Plain?
        else ModeFrom(START, l.buf) == l.mode)
  }

  lemma SpaceKeepsTop(m: Mode, c: char)
    requires IsSpace(c) && !m.Comment?
    requires m.DollarQuoted? ==> m.tag != "" && m.tag[|m.tag| - 1] == '$'
    ensures TopLevel(m) <==> TopLevel(Next(m, c))
    ensures m == START ==> Next(m, c) == START
  {
  }

  lemma {:induction false} TagShape(s: string)
    ensures var m := ModeFrom(START, s);
            m.DollarQuoted? ==> m.tag != "" && m.tag[|m.tag| - 1] == '$'
    decreases |s|
  {
    if s != "" { TagShape(s[..|s| - 1]); }
  }

  lemma ModeAfterSpace(ws: string, s: string, k: nat)
    requires (forall i :: 0 <= i < |ws| ==> IsSpace(ws[i])) && k <= |s|
    ensures ModeFrom(START, s[..k]) == ModeFrom(START, (ws + s)[..|ws| + k])
  {
    hide Next;
    SpacesFromStart(ws);
    assert (ws + s)[..|ws| + k] == ws + s[..k];
    ModeConcat(START, ws, s[..k]);
  }

  lemma {:induction false} LeadingSpace(ws: string, s: string)
    requires forall k :: 0 <= k < |ws| ==> IsSpace(ws[k])
    requires NoBreakFrom(START, ws + s)
    ensures NoBreakFrom(START, s) && ModeFrom(START, ws + s) == ModeFrom(START, s)
  {
    hide Next, ModeFrom, TopLevel;
    forall k | 0 <= k <= |s|
      ensures ModeFrom(START, s[..k]) == ModeFrom(START, (ws + s)[..|ws| + k])
    {
      ModeAfterSpace(ws, s, k);
    }
    forall k | 0 <= k < |s| && TopLevel(ModeFrom(START, s[..k]))
      ensures s[k] != ';'
    {
      assert (ws + s)[|ws| + k] == s[k];
    }
    assert s[..|s|] == s && (ws + s)[..|ws + s|] == ws + s;
  }

  lemma {:induction false} SpacesFromStart(ws: string)
    requires forall k :: 0 <= k < |ws| ==> IsSpace(ws[k])
    ensures ModeFrom(START, ws) == START
    decreases |ws|
  {
    if ws != "" {
      SpacesFromStart(ws[..|ws| - 1]);
      SpaceKeepsTop(START, ws[|ws| - 1]);
    }
  }

  lemma {:induction false} TrailingSpace(s: string, n: nat)
    requires n <= |s| && forall k :: n <= k < |s| ==> IsSpace(s[k])
    requires NoBreakFrom(START, s)
    ensures NoBreakFrom(START, s[..n])
    ensures Closed(s) <==> Closed(s[..n])
    decreases |s|
  {
    NoBreakPrefix(START, s, n);
    if n < |s| {
      var t := s[..|s| - 1];
      NoBreakPrefix(START, s, |s| - 1);
      TrailingSpace(t, n);
      assert t[..n] == s[..n] && t[..|t|] == t;
      TagShape(t);
      SpaceKeepsTop(ModeFrom(START, t), s[|s| - 1]);
    } else {
      assert s[..n] == s;
    }
  }

  lemma StripClean(s: string)
    requires NoBreakFrom(START, s) && Strip(s) != ""
    ensures Clean(Strip(s))
    ensures Closed(s) <==> Closed(Strip(s))
  {
    hide Next, ModeFrom, NoBreakFrom, TopLevel;
    var a := StripLeft(s);
    var ws := s[..|s| - |a|];
    assert s == ws + a;
    LeadingSpace(ws, a);
    TrailingSpace(a, |Strip(s)|);
  }

  lemma CollectedSound(l: Lex)
    requires Sound(l)
    ensures NoBreakFrom(START, Collected(l))
    ensures !l.mode.Comment? ==> ModeFrom(START, Collected(l)) == l.mode
  {
    if l.mode.Dash? { NoBreakExtend(START, l.buf, '-'); }
  }

  lemma FeedSound(l: Lex, c: char)
    requires Sound(l)
    ensures Sound(Feed(l, c))
  {
    if TopLevel(l.mode) && c == ';' {
      AddSound(l);
    } else if l.mode.Comment? {
      FeedCommentSound(l, c);
    } else if Next(l.mode, c).Dash? || Next(l.mode, c).Comment? {
      FeedWithheldSound(l, c);
    } else {
      FeedCharSound(l, c);
    }
  }

  lemma FeedWithheldSound(l: Lex, c: char)
    requires Sound(l) && !l.mode.Comment? && !(TopLevel(l.mode) && c == ';')
    requires Next(l.mode, c).Dash? || Next(l.mode, c).Comment?
    ensures Sound(Feed(l, c))
  {
    assert Feed(l, c) == Lex(Next(l.mode, c), l.buf, l.statements);
  }

  lemma FeedCharSound(l: Lex, c: char)
    requires Sound(l) && !l.mode.Comment? && !(TopLevel(l.mode) && c == ';')
    requires !Next(l.mode, c).Dash? && !Next(l.mode, c).Comment?
    ensures Sound(Feed(l, c))
  {
    CollectedSound(l);
    NoBreakExtend(START, Collected(l), c);
    assert Feed(l, c) == Lex(Next(l.mode, c), Collected(l) + [c], l.statements);
  }

  /** The newline that ends a comment is kept, and breaks a pending tag. */
  lemma FeedCommentSound(l: Lex, c: char)
    requires Sound(l) && l.mode.Comment?
    ensures Sound(Feed(l, c))
  {
    if c == '\n' {
      var p := ModeFrom(START, l.buf).pending;
      assert Extend(p, c) == NoTag by {
        if p.Tag? { assert (p.name + [c])[|p.name|] == c; }
      }
      NoBreakExtend(START, l.buf, c);
      assert Feed(l, c) == Lex(START, l.buf + [c], l.statements);
    }
  }

  ghost predicate AllClosed(list: seq<string>) {
    forall k :: 0 <= k < |list| ==> Closed(list[k])
  }

  lemma ScriptAppend(list: seq<string>, s: string)
    requires Script(list) && AllClosed(list) && Clean(s)
    ensures Script(list + [s])
    ensures Closed(s) ==> AllClosed(list + [s])
  {
  }

  lemma AddScript(list: seq<string>, text: string)
    requires Script(list) && AllClosed(list) && NoBreakFrom(START, text)
    ensures Script(AddStatement(list, text))
    ensures Closed(text) ==> AllClosed(AddStatement(list, text))
  {
    if Strip(text) != "" {
      StripClean(text);
      ScriptAppend(list, Strip(text));
    }
  }

  lemma SoundBetween(statements: seq<string>)
    requires Script(statements) && AllClosed(statements)
    ensures Sound(Lex(START, "", statements))
  {
  }

  lemma FeedCut(l: Lex)
    requires TopLevel(l.mode)
    ensures Feed(l, ';') == Lex(START, "", AddStatement(l.statements, Collected(l)))
  {
    hide AddStatement;
  }

  lemma AddSound(l: Lex)
    requires Sound(l) && TopLevel(l.mode)
    ensures Sound(Feed(l, ';'))
  {
    FeedCut(l);
    hide Feed, AddStatement, Script, AllClosed, NoBreakFrom;
    CollectedSound(l);
    AddScript(l.statements, Collected(l));
    SoundBetween(AddStatement(l.statements, Collected(l)));
  }

  lemma {:induction false} FeedAllSound(s: string)
    ensures Sound(FeedAll(FRESH, s))
    decreases |s|
  {
    if s == "" {
      assert NoBreakFrom(START, "");
    } else {
      FeedAllSound(s[..|s| - 1]);
      FeedSound(FeedAll(FRESH, s[..|s| - 1]), s[|s| - 1]);
    }
  }

  /** Whatever the input, every statement is clean and only the last may end inside a quote. */
  lemma SplitIsScript(sql: string)
    ensures Script(Split(sql))
  {
    FeedAllSound(sql);
    var l := FeedAll(FRESH, sql);
    CollectedSound(l);
    AddScript(l.statements, Collected(l));
  }

  /** The lists the splitter can return are exactly the scripts. */
  lemma SplitImage(list: seq<string>)
    ensures Script(list) <==> exists sql :: Split(sql) == list
  {
    if Script(list) {
      SplitOfJoin(list);
      assert Split(Join(list)) == list;
    }
    if sql :| Split(sql) == list {
      SplitIsScript(sql);
    }
  }

  lemma SplitAlone(s: string)
    requires Clean(s)
    ensures Split(s) == [s]
  {
    SplitOfJoin([s]);
  }

  /** Splitting is idempotent: on the joined output, and on each statement alone. */
  lemma SplitIdempotent(sql: string)
    ensures Split(Join(Split(sql))) == Split(sql)
    ensures forall k :: 0 <= k < |Split(sql)| ==> Split(Split(sql)[k]) == [Split(sql)[k]]
  {
    SplitIsScript(sql);
    SplitOfJoin(Split(sql));
    var list := Split(sql);
    forall k | 0 <= k < |list| ensures Split(list[k]) == [list[k]] {
      SplitAlone(list[k]);
    }
  }

  /* ---------------------------------------------------------------- the program's loop */

  /** The index of the first `$` at or after i, or -1. */
  function FindDollar(s: string, i: nat): (j: int)
    requires i <= |s|
    ensures j == -1 || (i <= j < |s| && s[j] == '$')
    ensures forall k :: i <= k < (if j < 0 then |s| else j) ==> s[k] != '$'
    decreases |s| - i
  {
    if i == |s| then -1 else if s[i] == '$' then i else FindDollar(s, i + 1)
  }

  /** Read from i on, the text completes the tag name begun by t. */
  predicate Completes(s: string, i: nat, t: string)
    requires i <= |s|
  {
    var j := FindDollar(s, i);
    j >= 0 && IsTagName(t + s[i..j])
  }

  ghost function After(sql: string, i: nat): Lex
    requires i <= |sql|
  {
    FeedAll(FRESH, sql[..i])
  }

  lemma AfterNone(sql: string)
    ensures After(sql, 0) == FRESH
  {
  }

  lemma AfterNext(sql: string, i: nat)
    requires i < |sql|
    ensures After(sql, i + 1) == Feed(After(sql, i), sql[i])
  {
    assert sql[..i + 1] == sql[..i] + [sql[i]];
    FeedOne(FRESH, sql[..i], sql[i]);
  }

  /** The loop is outside quotes at i: what the automaton withholds agrees with the lookahead. */
  ghost predicate AtTop(m: Mode, sql: string, i: nat)
    requires i <= |sql|
  {
    match m
    case Plain(p) => p.Tag? ==> IsTagName(p.name) && !Completes(sql, i, p.name)
    case Dash => i < |sql| ==> sql[i] != '-'
    case Comment => i < |sql| ==> sql[i] == '\n'
    case _ => false
  }

  ghost predicate NoTagBetween(sql: string, tag: string, from: nat, to: nat) {
    forall p :: from <= p < to ==> !StartsWithAt(sql, tag, p)
  }

  lemma {:induction false} CommentRun(sql: string, i: nat, j: nat)
    requires i + 2 <= j <= |sql| && sql[i] == sql[i + 1] == '-'
    requires After(sql, i).mode.Plain?
    requires forall k :: i <= k < j ==> sql[k] != '\n'
    ensures After(sql, j) == Lex(Comment, After(sql, i).buf, After(sql, i).statements)
    decreases j
  {
    hide FeedAll;
    AfterNext(sql, j - 1);
    if j == i + 2 {
      AfterNext(sql, i);
    } else {
      CommentRun(sql, i, j - 1);
    }
  }

  lemma FeedIdent(l: Lex, name: string, c: char)
    requires l.mode == Plain(Tag(name)) && IsIdentPart(c) && IsTagName(name + [c])
    ensures Feed(l, c) == Lex(Plain(Tag(name + [c])), l.buf + [c], l.statements)
  {
  }

  lemma FeedDollar(l: Lex)
    requires l.mode == START || l.mode == Dash
    ensures Feed(l, '$') == Lex(Plain(Tag("")), Collected(l) + "$", l.statements)
  {
  }

  lemma FeedTagEnd(l: Lex, name: string)
    requires l.mode == Plain(Tag(name))
    ensures Feed(l, '$') == Lex(DollarQuoted("$" + name + "$", ""), l.buf + "$", l.statements)
  {
  }

  lemma FeedBody(l: Lex, tag: string, body: string, c: char)
    requires l.mode == DollarQuoted(tag, body)
    ensures Feed(l, c) == Lex(if EndsWith(body + [c], tag) then START else DollarQuoted(tag, body + [c]),
                              l.buf + [c], l.statements)
  {
  }

  lemma {:induction false} TagRun(sql: string, i: nat, j: nat)
    requires i < j <= |sql| && sql[i] == '$' && IsTagName(sql[i + 1..j])
    requires After(sql, i).mode == START || After(sql, i).mode == Dash
    ensures After(sql, j) == Lex(Plain(Tag(sql[i + 1..j])), Collected(After(sql, i)) + sql[i..j],
                                 After(sql, i).statements)
    decreases j
  {
    hide FeedAll, Feed;
    AfterNext(sql, j - 1);
    if j > i + 1 {
      var name := sql[i + 1..j];
      assert sql[i + 1..j - 1] == name[..|name| - 1] && sql[j - 1] == name[|name| - 1];
      TagRun(sql, i, j - 1);
      assert sql[i + 1..j - 1] + [sql[j - 1]] == name;
      FeedIdent(After(sql, j - 1), sql[i + 1..j - 1], sql[j - 1]);
      assert sql[i..j - 1] + [sql[j - 1]] == sql[i..j];
    } else {
      FeedDollar(After(sql, i));
      assert sql[i..j] == [sql[i]];
    }
  }

  lemma SliceEnds(s: string, i: nat, j: nat)
    requires i < j < |s|
    ensures s[i..j + 1] == s[i..j] + [s[j]] == [s[i]] + s[i + 1..j] + [s[j]]
  {
  }

  lemma SliceConcat(s: string, i: nat, j: nat, k: nat)
    requires i <= j <= k <= |s|
    ensures s[i..j] + s[j..k] == s[i..k]
    ensures |s[i..k]| == k - i && s[i..k][j - i..] == s[j..k]
  {
  }

  /** An accepted lookahead jumps over the whole opening tag. */
  lemma OpenTag(sql: string, i: nat, j: nat)
    requires i < j < |sql| && sql[i] == sql[j] == '$' && IsTagName(sql[i + 1..j])
    requires After(sql, i).mode == START || After(sql, i).mode == Dash
    ensures After(sql, j + 1) == Lex(DollarQuoted(sql[i..j + 1], ""),
                                     Collected(After(sql, i)) + sql[i..j + 1], After(sql, i).statements)
  {
    hide FeedAll, Feed;
    TagRun(sql, i, j);
    AfterNext(sql, j);
    FeedTagEnd(After(sql, j), sql[i + 1..j]);
    SliceEnds(sql, i, j);
  }

  lemma {:induction false} DollarRun(sql: string, o: nat, q: nat, tag: string)
    requires o <= q <= |sql| && |tag| >= 2
    requires After(sql, o).mode == DollarQuoted(tag, "")
    requires forall p :: o <= p < q - |tag| + 1 ==> !StartsWithAt(sql, tag, p)
    ensures After(sql, q) == Lex(DollarQuoted(tag, sql[o..q]), After(sql, o).buf + sql[o..q], After(sql, o).statements)
    decreases q
  {
    hide FeedAll, Feed;
    if q > o {
      DollarRun(sql, o, q - 1, tag);
      AfterNext(sql, q - 1);
      FeedBody(After(sql, q - 1), tag, sql[o..q - 1], sql[q - 1]);
      var body := sql[o..q];
      assert sql[o..q - 1] + [sql[q - 1]] == body;
      if |tag| <= |body| {
        assert !StartsWithAt(sql, tag, q - |tag|);
        assert sql[q - |tag|..q] == body[|body| - |tag|..];
      }
      assert After(sql, o).buf + sql[o..q - 1] + [sql[q - 1]] == After(sql, o).buf + body;
    }
  }

  /** The first occurrence of the tag closes the dollar quote. */
  lemma CloseTag(sql: string, o: nat, i: nat, tag: string)
    requires o <= i && i + |tag| <= |sql| && |tag| >= 2
    requires After(sql, o).mode == DollarQuoted(tag, "")
    requires NoTagBetween(sql, tag, o, i) && StartsWithAt(sql, tag, i)
    ensures After(sql, i + |tag|) == Lex(START, Collected(After(sql, i)) + tag, After(sql, i).statements)
  {
    hide FeedAll, Feed, After, StartsWithAt;
    DollarRun(sql, o, i + |tag| - 1, tag);
    DollarRun(sql, o, i, tag);
    LastOfTag(sql, o, i, tag, After(sql, o).buf, After(sql, o).statements);
  }

  lemma LastOfTag(sql: string, o: nat, i: nat, tag: string, buf: string, statements: seq<string>)
    requires o <= i && i + |tag| <= |sql| && |tag| >= 2 && StartsWithAt(sql, tag, i)
    requires var q := i + |tag| - 1;
             After(sql, q) == Lex(DollarQuoted(tag, sql[o..q]), buf + sql[o..q], statements)
    ensures After(sql, i + |tag|) == Lex(START, buf + sql[o..i] + tag, statements)
  {
    hide FeedAll, Feed, After, StartsWithAt, EndsWith;
    var q := i + |tag| - 1;
    AfterNext(sql, q);
    FeedBody(After(sql, q), tag, sql[o..q], sql[q]);
    TagEnds(sql, o, i, tag);
    assert buf + sql[o..q] + [sql[q]] == buf + (sql[o..q] + [sql[q]]);
    assert buf + (sql[o..i] + tag) == buf + sql[o..i] + tag;
  }

  lemma TagEnds(sql: string, o: nat, i: nat, tag: string)
    requires o <= i && i + |tag| <= |sql| && |tag| >= 2 && StartsWithAt(sql, tag, i)
    ensures var q := i + |tag|;
            sql[o..q - 1] + [sql[q - 1]] == sql[o..i] + tag && EndsWith(sql[o..q - 1] + [sql[q - 1]], tag)
  {
    var q := i + |tag|;
    SliceConcat(sql, o, i, q);
    assert sql[o..q - 1] + [sql[q - 1]] == sql[o..q];
  }

  /** A character that is ordinary for the loop keeps the lookahead fact. */
  lemma KeepLooking(sql: string, i: nat, p: Pending)
    requires i < |sql| && sql[i] != '$'
    requires p.Tag? ==> !Completes(sql, i, p.name)
    ensures var e := Extend(p, sql[i]); e.Tag? ==> IsTagName(e.name) && !Completes(sql, i + 1, e.name)
  {
    var e := Extend(p, sql[i]);
    if e.Tag? {
      var j := FindDollar(sql, i);
      assert j == FindDollar(sql, i + 1);
      if j >= 0 {
        assert p.name + sql[i..j] == e.name + sql[i + 1..j];
      }
    }
  }

  /** What the loop knows at i, outside a dollar quote. */
  ghost predicate Outside(sql: string, i: nat, buf: string, statements: seq<string>, inSquote: bool, inDquote: bool)
    requires i <= |sql|
  {
    && Collected(After(sql, i)) == buf && After(sql, i).statements == statements
    && (if inSquote then !inDquote && After(sql, i).mode == SingleQuoted
        else if inDquote then After(sql, i).mode == DoubleQuoted
        else AtTop(After(sql, i).mode, sql, i))
  }

  /** One ordinary or quote-opening character outside quotes. */
  lemma StepTop(sql: string, i: nat)
    requires i < |sql| && AtTop(After(sql, i).mode, sql, i)
    requires sql[i] != ';' && sql[i] != '$'
    requires sql[i] == '-' && i + 1 < |sql| ==> sql[i + 1] != '-'
    ensures Collected(After(sql, i + 1)) == Collected(After(sql, i)) + [sql[i]]
    ensures After(sql, i + 1).statements == After(sql, i).statements
    ensures sql[i] == '\'' ==> After(sql, i + 1).mode == SingleQuoted
    ensures sql[i] == '"' ==> After(sql, i + 1).mode == DoubleQuoted
    ensures sql[i] != '\'' && sql[i] != '"' ==> AtTop(After(sql, i + 1).mode, sql, i + 1)
  {
    hide FeedAll;
    AfterNext(sql, i);
    var m := After(sql, i).mode;
    if m.Plain? {
      KeepLooking(sql, i, m.pending);
    }
  }

  /** A `$` that opens no tag. */
  lemma StepDollar(sql: string, i: nat)
    requires i < |sql| && AtTop(After(sql, i).mode, sql, i)
    requires sql[i] == '$'
    ensures After(sql, i).mode == START || After(sql, i).mode == Dash
    ensures !Completes(sql, i + 1, "") ==>
      && AtTop(After(sql, i + 1).mode, sql, i + 1)
      && Collected(After(sql, i + 1)) == Collected(After(sql, i)) + "$"
      && After(sql, i + 1).statements == After(sql, i).statements
  {
    hide FeedAll, Feed;
    AfterNext(sql, i);
    var m := After(sql, i).mode;
    FeedDollar(After(sql, i));
  }

  lemma StepCut(sql: string, i: nat)
    requires i < |sql| && AtTop(After(sql, i).mode, sql, i) && sql[i] == ';'
    ensures var l := After(sql, i);
            After(sql, i + 1) == Lex(START, "", AddStatement(l.statements, Collected(l)))
  {
    hide FeedAll;
    AfterNext(sql, i);
  }

  lemma StepQuoted(sql: string, i: nat)
    requires i < |sql| && (After(sql, i).mode.SingleQuoted? || After(sql, i).mode.DoubleQuoted?)
    ensures var l := After(sql, i);
            && After(sql, i + 1) == Lex(Next(l.mode, sql[i]), l.buf + [sql[i]], l.statements)
            && Collected(l) == l.buf
  {
    hide FeedAll;
    AfterNext(sql, i);
  }

  /** `''` inside a quote: the automaton closes it and opens it again. */
  lemma StepDoubled(sql: string, i: nat)
    requires i + 1 < |sql| && After(sql, i).mode.SingleQuoted? && sql[i] == sql[i + 1] == '\''
    ensures var l := After(sql, i);
            After(sql, i + 2) == Lex(SingleQuoted, l.buf + "''", l.statements)
  {
    hide FeedAll;
    StepQuoted(sql, i);
    AfterNext(sql, i + 1);
    assert After(sql, i).buf + ['\''] + ['\''] == After(sql, i).buf + "''";
  }

  lemma StepComment(sql: string, i: nat, j: nat)
    requires i + 2 <= j <= |sql| && sql[i] == sql[i + 1] == '-'
    requires AtTop(After(sql, i).mode, sql, i)
    requires forall k :: i <= k < j ==> sql[k] != '\n'
    requires j < |sql| ==> sql[j] == '\n'
    ensures Collected(After(sql, j)) == Collected(After(sql, i))
    ensures After(sql, j).statements == After(sql, i).statements
    ensures AtTop(After(sql, j).mode, sql, j)
  {
    hide FeedAll, Feed;
    CommentRun(sql, i, j);
  }

  /** What the loop knows at i, inside a dollar quote whose body starts at o. */
  ghost predicate Inside(sql: string, i: nat, buf: string, statements: seq<string>, tag: string, o: nat)
    requires i <= |sql|
  {
    && |tag| >= 2 && o <= i
    && Collected(After(sql, i)) == buf && After(sql, i).statements == statements
    && After(sql, o).mode == DollarQuoted(tag, "")
    && NoTagBetween(sql, tag, o, i)
  }

  lemma TopAtStart(sql: string, i: nat)
    requires i <= |sql| && After(sql, i).mode == START
    ensures AtTop(After(sql, i).mode, sql, i)
  {
  }

  lemma OutsideAtFirst(sql: string)
    ensures Outside(sql, 0, "", [], false, false)
  {
    AfterNone(sql);
  }

  lemma AfterAll(sql: string)
    ensures Split(sql) == Finish(After(sql, |sql|))
  {
    assert sql[..|sql|] == sql;
  }

  lemma StepInside(sql: string, i: nat, buf: string, statements: seq<string>, tag: string, o: nat)
    requires i < |sql| && Inside(sql, i, buf, statements, tag, o)
    ensures |tag| >= 2 && (StartsWithAt(sql, tag, i) ==> i + |tag| <= |sql|)
    ensures if StartsWithAt(sql, tag, i) then Outside(sql, i + |tag|, buf + tag, statements, false, false)
            else Inside(sql, i + 1, buf + [sql[i]], statements, tag, o)
  {
    hide FeedAll, Feed;
    DollarRun(sql, o, i, tag);
    if StartsWithAt(sql, tag, i) {
      CloseTag(sql, o, i, tag);
    } else {
      DollarRun(sql, o, i + 1, tag);
      assert sql[o..i] + [sql[i]] == sql[o..i + 1];
      assert buf + [sql[i]] == After(sql, o).buf + sql[o..i + 1];
    }
  }

  lemma LoopTop(sql: string, i: nat, buf: string, statements: seq<string>)
    requires i < |sql| && Outside(sql, i, buf, statements, false, false)
    requires sql[i] != ';' && sql[i] != '$'
    requires sql[i] == '-' && i + 1 < |sql| ==> sql[i + 1] != '-'
    ensures Outside(sql, i + 1, buf + [sql[i]], statements, sql[i] == '\'', sql[i] == '"')
  {
    hide FeedAll, Feed, AtTop;
    StepTop(sql, i);
  }

  lemma LoopCut(sql: string, i: nat, buf: string, statements: seq<string>)
    requires i < |sql| && Outside(sql, i, buf, statements, false, false) && sql[i] == ';'
    ensures Outside(sql, i + 1, "", AddStatement(statements, buf), false, false)
  {
    hide FeedAll, Feed, AtTop, AddStatement;
    StepCut(sql, i);
    TopAtStart(sql, i + 1);
  }

  lemma LoopDollar(sql: string, i: nat, buf: string, statements: seq<string>)
    requires i < |sql| && Outside(sql, i, buf, statements, false, false) && sql[i] == '$'
    ensures var j := FindDollar(sql, i + 1);
            if j != -1 && IsTagName(sql[i + 1..j]) then
              Inside(sql, j + 1, buf + sql[i..j + 1], statements, sql[i..j + 1], j + 1)
            else Outside(sql, i + 1, buf + "$", statements, false, false)
  {
    hide FeedAll, Feed, AtTop;
    StepDollar(sql, i);
    var j := FindDollar(sql, i + 1);
    if j != -1 {
      assert "" + sql[i + 1..j] == sql[i + 1..j];
      if IsTagName(sql[i + 1..j]) { OpenTag(sql, i, j); }
    }
  }

  lemma LoopQuoted(sql: string, i: nat, buf: string, statements: seq<string>, single: bool)
    requires i < |sql| && Outside(sql, i, buf, statements, single, !single)
    ensures var closes := sql[i] == (if single then '\'' else '"');
            Outside(sql, i + 1, buf + [sql[i]], statements, single && !closes, !single && !closes)
    ensures single && i + 1 < |sql| && sql[i] == sql[i + 1] == '\'' ==>
              Outside(sql, i + 2, buf + [sql[i]] + "'", statements, true, false)
  {
    hide FeedAll, Feed, AtTop;
    StepQuoted(sql, i);
    if After(sql, i + 1).mode == START { TopAtStart(sql, i + 1); }
    if single && i + 1 < |sql| && sql[i] == sql[i + 1] == '\'' {
      StepDoubled(sql, i);
      assert buf + [sql[i]] + "'" == buf + "''";
    }
  }

  lemma LoopComment(sql: string, i: nat, j: nat, buf: string, statements: seq<string>)
    requires i + 2 <= j <= |sql| && sql[i] == sql[i + 1] == '-'
    requires Outside(sql, i, buf, statements, false, false)
    requires forall k :: i <= k < j ==> sql[k] != '\n'
    requires j < |sql| ==> sql[j] == '\n'
    ensures Outside(sql, j, buf, statements, false, false)
  {
    hide FeedAll, Feed, AtTop;
    StepComment(sql, i, j);
  }

  lemma LoopEnd(sql: string, buf: string, statements: seq<string>, inSquote: bool, inDquote: bool)
    requires Outside(sql, |sql|, buf, statements, inSquote, inDquote)
    ensures Split(sql) == AddStatement(statements, buf)
  {
    hide FeedAll, Feed, AtTop, AddStatement;
    AfterAll(sql);
  }

  lemma LoopEndInside(sql: string, buf: string, statements: seq<string>, tag: string, o: nat)
    requires Inside(sql, |sql|, buf, statements, tag, o)
    ensures Split(sql) == AddStatement(statements, buf)
  {
    hide FeedAll, Feed, AtTop, AddStatement;
    AfterAll(sql);
  }

  /** The program: one left-to-right scan with lookahead, four modes and a buffer. */
  method SplitStatements(sql: string) returns (statements: seq<string>)
    ensures statements == Split(sql)
  {
    hide Outside, Inside, Strip, StartsWithAt, Split, FindDollar;
    statements := [];
    var buf := "";
    var i, n := 0, |sql|;
    var inSquote, inDquote := false, false;
    var dollar: Option<string> := None;
    ghost var bodyAt: nat := 0;
    OutsideAtFirst(sql);
    while i < n
      invariant 0 <= i <= n && !(inSquote && inDquote)
      invariant dollar.Some? ==> !inSquote && !inDquote && Inside(sql, i, buf, statements, dollar.value, bodyAt)
      invariant dollar.None? ==> Outside(sql, i, buf, statements, inSquote, inDquote)
      decreases n - i
    {
      var c := sql[i];
      if dollar.Some? {
        StepInside(sql, i, buf, statements, dollar.value, bodyAt);
        if StartsWithAt(sql, dollar.value, i) {
          buf := buf + dollar.value;
          i := i + |dollar.value|;
          dollar := None;
        } else {
          buf := buf + [c];
          i := i + 1;
        }
        continue;
      }
      if inSquote {
        LoopQuoted(sql, i, buf, statements, true);
        buf := buf + [c];
        if c == '\'' {
          if i + 1 < n && sql[i + 1] == '\'' {
            buf := buf + "'";
            i := i + 2;
            continue;
          }
          inSquote := false;
        }
        i := i + 1;
        continue;
      }
      if inDquote {
        LoopQuoted(sql, i, buf, statements, false);
        buf := buf + [c];
        if c == '"' {
          inDquote := false;
        }
        i := i + 1;
        continue;
      }
      if c == '-' && i + 1 < n && sql[i + 1] == '-' {
        ghost var start := i;
        while i < n && sql[i] != '\n'
          invariant start <= i <= n
          invariant forall k :: start <= k < i ==> sql[k] != '\n'
        {
          i := i + 1;
        }
        LoopComment(sql, start, i, buf, statements);
        continue;
      }
      if c == '\'' {
        LoopTop(sql, i, buf, statements);
        inSquote := true;
        buf := buf + [c];
        i := i + 1;
        continue;
      }
      if c == '"' {
        LoopTop(sql, i, buf, statements);
        inDquote := true;
        buf := buf + [c];
        i := i + 1;
        continue;
      }
      if c == '$' {
        LoopDollar(sql, i, buf, statements);
        var j := FindDollar(sql, i + 1);
        if j != -1 && IsTagName(sql[i + 1..j]) {
          dollar := Some(sql[i..j + 1]);
          buf := buf + sql[i..j + 1];
          i := j + 1;
          bodyAt := i;
          continue;
        }
        buf := buf + [c];
        i := i + 1;
        continue;
      }
      if c == ';' {
        LoopCut(sql, i, buf, statements);
        var stmt := Strip(buf);
        if stmt != "" {
          statements := statements + [stmt];
        }
        buf := "";
        i := i + 1;
        continue;
      }
      LoopTop(sql, i, buf, statements);
      buf := buf + [c];
      i := i + 1;
    }
    if dollar.Some? {
      LoopEndInside(sql, buf, statements, dollar.value, bodyAt);
    } else {
      LoopEnd(sql, buf, statements, inSquote, inDquote);
    }
    var tail := Strip(buf);
    if tail != "" {
      statements := statements + [tail];
    }
  }
}
