/** How scripts split, in terms of their characters: what separates statements, what is trimmed and
    what protects a `;` (packages/db/src/infra_twin/db/migrate.py). */
module Scripts {
  import opened Splitter

  /** Space, tab, line feed, vertical tab, form feed, carriage return and U+001C to U+001F. */
  predicate Blank(c: char) {
    || c == ' ' || c == '\t' || c == '\n' || c == '\U{000B}' || c == '\U{000C}' || c == '\r'
    || c == '\U{001C}' || c == '\U{001D}' || c == '\U{001E}' || c == '\U{001F}'
  }

  ghost predicate Blanks(s: string) { forall k :: 0 <= k < |s| ==> Blank(s[k]) }

  lemma BlankIsSpace(c: char)
    ensures Blank(c) <==> IsSpace(c)
  {
  }

  lemma BlanksAreSpaces(s: string)
    ensures Blanks(s) <==> forall k :: 0 <= k < |s| ==> IsSpace(s[k])
  {
    hide IsSpace, Blank;
    forall k | 0 <= k < |s| ensures Blank(s[k]) <==> IsSpace(s[k]) { BlankIsSpace(s[k]); }
  }

  /** The script ends outside quotes and comments. */
  ghost predicate Complete(s: string) { TopLevel(FeedAll(FRESH, s).mode) }

  /* ---------------------------------------------------------------- trimming */

  /** A statement is never empty and never begins or ends with a blank. */
  lemma StatementsAreTrimmed(sql: string)
    ensures forall s :: s in Split(sql) ==> s != "" && !Blank(s[0]) && !Blank(s[|s| - 1])
  {
    hide IsSpace, Blank, Next, Feed, NoBreakFrom;
    SplitIsScript(sql);
    forall s | s in Split(sql) ensures s != "" && !Blank(s[0]) && !Blank(s[|s| - 1]) {
      var k :| 0 <= k < |Split(sql)| && Split(sql)[k] == s;
      BlankIsSpace(s[0]);
      BlankIsSpace(s[|s| - 1]);
    }
  }

  /** Trimming is unique: what is left between blanks is the trimmed text. */
  lemma StripIs(a: string, t: string, b: string)
    requires Blanks(a) && Blanks(b) && (t != "" ==> !Blank(t[0]) && !Blank(t[|t| - 1]))
    ensures Strip(a + t + b) == t
  {
    hide IsSpace, Blank;
    var s := a + t + b;
    BlanksAreSpaces(a);
    BlanksAreSpaces(b);
    if t != "" {
      BlankIsSpace(t[0]);
      BlankIsSpace(t[|t| - 1]);
      AfterLeft(a, t, b);
      BeforeRight(t, b);
    } else {
      NothingLeft(s);
    }
  }

  lemma AfterLeft(a: string, t: string, b: string)
    requires t != "" && !IsSpace(t[0]) && forall k :: 0 <= k < |a| ==> IsSpace(a[k])
    ensures StripLeft(a + t + b) == t + b
  {
    hide IsSpace;
    var s, r := a + t + b, StripLeft(a + t + b);
    assert s[|a|] == t[0];
    assert r != "" ==> r[0] == s[|s| - |r|];
    assert |r| == |t + b|;
    assert s[|a|..] == t + b;
  }

  lemma BeforeRight(t: string, b: string)
    requires t != "" && !IsSpace(t[|t| - 1]) && forall k :: 0 <= k < |b| ==> IsSpace(b[k])
    ensures StripRight(t + b) == t
  {
    hide IsSpace;
    var s, r := t + b, StripRight(t + b);
    assert s[|t| - 1] == t[|t| - 1];
    assert r != "" ==> r[|r| - 1] == s[|r| - 1];
    assert s[..|t|] == t;
  }

  lemma {:induction false} NothingLeft(s: string)
    requires forall k :: 0 <= k < |s| ==> IsSpace(s[k])
    ensures Strip(s) == ""
    decreases |s|
  {
    hide IsSpace;
    if s != "" { NothingLeft(s[1..]); }
  }

  /** Any text is its trimmed part between blanks. */
  lemma StripParts(s: string) returns (a: string, b: string)
    ensures Blanks(a) && Blanks(b) && s == a + Strip(s) + b
    ensures Strip(s) != "" ==> !Blank(Strip(s)[0]) && !Blank(Strip(s)[|Strip(s)| - 1])
  {
    hide IsSpace, Blank, Blanks;
    var l;
    a, l := LeftPart(s);
    var r;
    r, b := RightPart(l);
    Between(s, a, l, r, b);
  }

  lemma Between(s: string, a: string, l: string, r: string, b: string)
    requires s == a + l && l == r + b && (l != "" ==> !Blank(l[0]))
    ensures s == a + r + b && (r != "" ==> !Blank(r[0]))
  {
    hide Blank;
    if r != "" { assert l[0] == r[0]; }
  }

  lemma LeftPart(s: string) returns (a: string, l: string)
    ensures l == StripLeft(s) && Blanks(a) && s == a + l && (l != "" ==> !Blank(l[0]))
  {
    hide IsSpace, Blank, StripLeft;
    l := StripLeft(s);
    a := s[..|s| - |l|];
    BlanksAreSpaces(a);
    if l != "" { BlankIsSpace(l[0]); }
  }

  lemma RightPart(s: string) returns (r: string, b: string)
    ensures r == StripRight(s) && Blanks(b) && s == r + b && (r != "" ==> !Blank(r[|r| - 1]))
  {
    hide IsSpace, Blank, StripRight;
    r := StripRight(s);
    b := s[|r|..];
    BlanksAreSpaces(b);
    if r != "" { BlankIsSpace(r[|r| - 1]); }
  }

  lemma StripAround(a: string, s: string, b: string)
    requires Blanks(a) && Blanks(b)
    ensures Strip(a + s + b) == Strip(s)
  {
    hide Blank, Strip;
    var c, d := StripParts(s);
    assert a + s + b == (a + c) + Strip(s) + (d + b);
    StripIs(a + c, Strip(s), d + b);
  }

  /* ---------------------------------------------------------------- separators */

  /** The statements already cut do not influence the rest. */
  lemma {:induction false} Shifted(done: seq<string>, s: string)
    ensures var l, f := FeedAll(Lex(START, "", done), s), FeedAll(FRESH, s);
            l.mode == f.mode && l.buf == f.buf && l.statements == done + f.statements
    decreases |s|
  {
    hide Next, Strip;
    if s != "" {
      Shifted(done, s[..|s| - 1]);
    }
  }

  lemma CutState(pre: string)
    requires Complete(pre)
    ensures FeedAll(FRESH, pre + ";") == Lex(START, "", Split(pre))
  {
    hide Strip;
    FeedOne(FRESH, pre, ';');
  }

  /** A `;` outside quotes and comments separates: what comes before and after splits on its own. */
  lemma SplitAtSemicolon(pre: string, post: string)
    requires Complete(pre)
    ensures Split(pre + ";" + post) == Split(pre) + Split(post)
  {
    hide Next, Feed, Strip;
    CutState(pre);
    FeedAllConcat(FRESH, pre + ";", post);
    Shifted(Split(pre), post);
    hide FeedAll;
  }

  lemma {:induction false} FeedBlanks(l: Lex, ws: string)
    requires Blanks(ws) && TopLevel(l.mode)
    ensures var r := FeedAll(l, ws);
            TopLevel(r.mode) && Collected(r) == Collected(l) + ws && r.statements == l.statements
    decreases |ws|
  {
    if ws != "" {
      var init, c := ws[..|ws| - 1], ws[|ws| - 1];
      FeedBlanks(l, init);
      assert ws == init + [c];
      FeedBlank(FeedAll(l, init), c);
    }
  }

  lemma FeedBlank(l: Lex, c: char)
    requires TopLevel(l.mode) && Blank(c)
    ensures var r := Feed(l, c);
            TopLevel(r.mode) && Collected(r) == Collected(l) + [c] && r.statements == l.statements
  {
  }

  /** Blanks alone are no statement, and blanks behind a complete script change nothing. */
  lemma TrailingBlanks(pre: string, ws: string)
    requires Complete(pre) && Blanks(ws)
    ensures Complete(pre + ws) && Split(pre + ws) == Split(pre)
  {
    hide Feed, Blank, Strip;
    FeedAllConcat(FRESH, pre, ws);
    FeedBlanks(FeedAll(FRESH, pre), ws);
    hide FeedAll;
    StripAround("", Collected(FeedAll(FRESH, pre)), ws);
    assert "" + Collected(FeedAll(FRESH, pre)) + ws == Collected(FeedAll(FRESH, pre)) + ws;
  }

  /** Two runs that differ in leading blanks of the statement at hand. */
  ghost predicate Alike(l: Lex, r: Lex, ws: string) {
    l.mode == r.mode && l.statements == r.statements && (l.buf == r.buf || l.buf == ws + r.buf)
  }

  lemma AlikeStep(l: Lex, r: Lex, ws: string, c: char)
    requires Alike(l, r, ws) && Blanks(ws)
    ensures Alike(Feed(l, c), Feed(r, c), ws)
  {
    hide Next, Blank, Strip;
    SameStatement(l, r, ws);
    assert l.buf == ws + r.buf ==> l.buf + "-" == ws + (r.buf + "-") && l.buf + [c] == ws + (r.buf + [c])
                                   && l.buf + "-" + [c] == ws + (r.buf + "-" + [c]);
  }

  lemma SameStatement(l: Lex, r: Lex, ws: string)
    requires Alike(l, r, ws) && Blanks(ws)
    ensures Strip(Collected(l)) == Strip(Collected(r))
  {
    hide Blank, Strip;
    if l.buf != r.buf {
      assert Collected(l) == ws + Collected(r) + "";
      StripAround(ws, Collected(r), "");
    }
  }

  lemma {:induction false} AlikeAll(l: Lex, r: Lex, ws: string, s: string)
    requires Alike(l, r, ws) && Blanks(ws)
    ensures Alike(FeedAll(l, s), FeedAll(r, s), ws)
    decreases |s|
  {
    hide Feed, Blank, Alike;
    if s != "" {
      AlikeAll(l, r, ws, s[..|s| - 1]);
      AlikeStep(FeedAll(l, s[..|s| - 1]), FeedAll(r, s[..|s| - 1]), ws, s[|s| - 1]);
    }
  }

  /** Blanks before a script change nothing. */
  lemma LeadingBlanks(ws: string, post: string)
    requires Blanks(ws)
    ensures Split(ws + post) == Split(post)
  {
    hide Feed, Blank, Strip, Next;
    BlankStart(ws);
    FeedAllConcat(FRESH, ws, post);
    var l := FeedAll(FRESH, ws);
    assert Alike(l, FRESH, ws);
    AlikeAll(l, FRESH, ws, post);
    SameStatement(FeedAll(l, post), FeedAll(FRESH, post), ws);
    hide FeedAll;
  }

  lemma {:induction false} BlankStart(ws: string)
    requires Blanks(ws)
    ensures FeedAll(FRESH, ws) == Lex(START, ws, [])
    decreases |ws|
  {
    hide Feed, Blank;
    if ws != "" {
      var init, c := ws[..|ws| - 1], ws[|ws| - 1];
      BlankStart(init);
      BlankFirst(init, c);
      assert init + [c] == ws;
    }
  }

  lemma BlankFirst(ws: string, c: char)
    requires Blank(c)
    ensures Feed(Lex(START, ws, []), c) == Lex(START, ws + [c], [])
  {
  }

  /** Blank runs around a separator add and change no statement. */
  lemma BlanksAroundSemicolon(pre: string, ws: string, more: string, post: string)
    requires Complete(pre) && Blanks(ws) && Blanks(more)
    ensures Split(pre + ws + ";" + more + post) == Split(pre) + Split(post)
  {
    hide Complete, Blanks, Split;
    TrailingBlanks(pre, ws);
    LeadingBlanks(more, post);
    SplitAtSemicolon(pre + ws, more + post);
    assert pre + ws + ";" + more + post == (pre + ws) + ";" + (more + post);
  }

  /* ---------------------------------------------------------------- what protects a `;` */

  /** The text joins the statement at hand as a whole, whatever it holds. */
  ghost predicate Protected(pre: string, text: string) {
    var l := FeedAll(FRESH, pre);
    FeedAll(FRESH, pre + text) == Lex(START, Collected(l) + text, l.statements)
  }

  /** Outside quotes and comments, and not in the middle of a `$tag`. */
  ghost predicate Ready(pre: string) {
    FeedAll(FRESH, pre).mode == START || FeedAll(FRESH, pre).mode == Dash
  }

  /** A letter, a digit or an underscore. */
  predicate Wordy(c: char) { 'a' <= c <= 'z' || 'A' <= c <= 'Z' || '0' <= c <= '9' || c == '_' }

  /** Letters, digits and underscores, not beginning with a digit. */
  ghost predicate Name(s: string) {
    (forall k :: 0 <= k < |s| ==> Wordy(s[k])) && (s != "" ==> !('0' <= s[0] <= '9'))
  }

  lemma NameIsTag(s: string)
    ensures Name(s) <==> IsTagName(s)
  {
  }

  /** A single or double quote protects everything up to the next one of its kind. */
  lemma QuotesProtect(pre: string, q: char, body: string)
    requires (q == '\'' || q == '"') && Ready(pre) && q !in body
    ensures Protected(pre, [q] + body + [q])
  {
    hide Feed, Next;
    var l := FeedAll(FRESH, pre);
    OpenQuote(l, q);
    InQuote(Feed(l, q), q, body);
    CloseQuote(FeedAll(Feed(l, q), body), q);
    var text := [q] + body;
    FeedOne(l, "", q);
    FeedAllConcat(l, [q], body);
    FeedOne(l, text, q);
    FeedAllConcat(FRESH, pre, text + [q]);
    assert "" + [q] == [q] && FeedAll(l, "") == l;
    Glue(Collected(l), [q], body);
  }

  function Quoted(q: char): Mode { if q == '\'' then SingleQuoted else DoubleQuoted }

  lemma OpenQuote(l: Lex, q: char)
    requires (q == '\'' || q == '"') && (l.mode == START || l.mode == Dash)
    ensures Feed(l, q) == Lex(Quoted(q), Collected(l) + [q], l.statements)
  {
  }

  lemma CloseQuote(l: Lex, q: char)
    requires (q == '\'' || q == '"') && l.mode == Quoted(q)
    ensures Feed(l, q) == Lex(START, l.buf + [q], l.statements)
  {
  }

  lemma QuoteKeeps(l: Lex, q: char, c: char)
    requires (q == '\'' || q == '"') && l.mode == Quoted(q) && c != q
    ensures Feed(l, c) == Lex(Quoted(q), l.buf + [c], l.statements)
  {
  }

  lemma {:induction false} InQuote(l: Lex, q: char, body: string)
    requires (q == '\'' || q == '"') && l.mode == Quoted(q) && q !in body
    ensures FeedAll(l, body) == Lex(Quoted(q), l.buf + body, l.statements)
    decreases |body|
  {
    hide Feed;
    if body == "" {
      assert l.buf + body == l.buf;
    } else {
      var init, c := body[..|body| - 1], body[|body| - 1];
      assert body == init + [c];
      InQuote(l, q, init);
      QuoteKeeps(FeedAll(l, init), q, c);
      assert l.buf + init + [c] == l.buf + body;
    }
  }

  /** `$name$` protects everything up to the next `$name$`. */
  lemma DollarsProtect(pre: string, name: string, body: string)
    requires Name(name) && Ready(pre)
    requires var tag := "$" + name + "$"; forall p :: 0 <= p < |body| ==> !StartsWithAt(body + tag, tag, p)
    ensures var tag := "$" + name + "$"; Protected(pre, tag + body + tag)
  {
    hide Feed, FeedAll, IsTagName, Name, After, StartsWithAt, NoTagBetween;
    NameIsTag(name);
    var tag := "$" + name + "$";
    var sql, o := pre + (tag + body + tag), |pre| + |tag|;
    Pieces(pre, tag, body, name);
    AfterPieces(pre, sql);
    OpenTag(sql, |pre|, o - 1);
    NoEarlierTag(pre, tag, body);
    TagClosed(sql, o, body, tag);
    Glue(Collected(FeedAll(FRESH, pre)), tag, body);
  }

  lemma AfterPieces(pre: string, sql: string)
    requires |pre| <= |sql| && sql[..|pre|] == pre
    ensures After(sql, |pre|) == FeedAll(FRESH, pre) && After(sql, |sql|) == FeedAll(FRESH, sql)
  {
    hide FeedAll;
    assert sql[..|sql|] == sql;
  }

  lemma TagClosed(sql: string, o: nat, body: string, tag: string)
    requires o + |body| + |tag| <= |sql| && |tag| >= 2 && sql[o..o + |body|] == body && After(sql, o).mode == DollarQuoted(tag, "")
    requires NoTagBetween(sql, tag, o, o + |body|) && StartsWithAt(sql, tag, o + |body|)
    ensures After(sql, o + |body| + |tag|) == Lex(START, After(sql, o).buf + body + tag, After(sql, o).statements)
  {
    hide Feed, FeedAll, After, StartsWithAt;
    DollarRun(sql, o, o + |body|, tag);
    CloseTag(sql, o, o + |body|, tag);
  }

  lemma Glue(a: string, tag: string, body: string)
    ensures a + tag + body + tag == a + (tag + body + tag)
  {
  }

  lemma Pieces(pre: string, tag: string, body: string, name: string)
    requires tag == "$" + name + "$"
    ensures var sql, i, o := pre + (tag + body + tag), |pre|, |pre| + |tag|;
            && sql[i] == sql[o - 1] == '$' && sql[i + 1..o - 1] == name && sql[i..o] == tag && sql[o..o + |body|] == body
            && StartsWithAt(sql, tag, o + |body|) && o + |body| + |tag| == |sql| && sql[..i] == pre
  {
  }

  lemma NoEarlierTag(pre: string, tag: string, body: string)
    requires forall p :: 0 <= p < |body| ==> !StartsWithAt(body + tag, tag, p)
    ensures NoTagBetween(pre + (tag + body + tag), tag, |pre| + |tag|, |pre| + |tag| + |body|)
  {
    var sql, o := pre + (tag + body + tag), |pre| + |tag|;
    forall p | o <= p < o + |body| ensures !StartsWithAt(sql, tag, p) {
      assert !StartsWithAt(body + tag, tag, p - o);
      assert sql[o..] == body + tag;
      if p + |tag| <= |sql| { assert sql[p..p + |tag|] == (body + tag)[p - o..p - o + |tag|]; }
    }
  }

  /** Protected text that begins a statement and ends it is that statement, `;` and all. */
  lemma ProtectedIsOne(text: string)
    requires Protected("", text) && text != "" && !Blank(text[0]) && !Blank(text[|text| - 1])
    ensures Complete(text) && Split(text) == [text]
  {
    hide Feed, FeedAll, Blank, Strip, Blanks;
    NothingFed();
    AsItIs(text);
    assert "" + text == text;
    hide Protected;
  }

  lemma AsItIs(text: string)
    requires text != "" && !Blank(text[0]) && !Blank(text[|text| - 1])
    ensures Strip(text) == text
  {
    hide Blank, Strip;
    StripIs("", text, "");
    assert "" + text + "" == text;
  }

  lemma NothingFed()
    ensures FeedAll(FRESH, "") == FRESH
  {
  }

  /** A comment counts as its line break. */
  lemma CommentsAreDropped(pre: string, body: string, post: string)
    requires FeedAll(FRESH, pre).mode == START && '\n' !in body
    ensures Split(pre + "--" + body + "\n" + post) == Split(pre + "\n" + post)
  {
    hide Feed, FeedAll, Strip;
    var text := pre + "--" + body;
    var l := FeedAll(FRESH, pre);
    assert text[..|pre|] == pre && text[..|text|] == text;
    assert text[|pre|] == text[|pre| + 1] == '-';
    forall k | |pre| <= k < |text| ensures text[k] != '\n' {
      if k >= |pre| + 2 { assert text[k] == body[k - |pre| - 2]; }
    }
    CommentRun(text, |pre|, |text|);
    FeedOne(FRESH, text, '\n');
    FeedOne(FRESH, pre, '\n');
    LineBreak(l, FeedAll(FRESH, text));
    FeedAllConcat(FRESH, text + "\n", post);
    FeedAllConcat(FRESH, pre + "\n", post);
  }

  lemma LineBreak(l: Lex, m: Lex)
    requires l.mode == START && m == Lex(Comment, l.buf, l.statements)
    ensures Feed(l, '\n') == Feed(m, '\n')
  {
  }

  /** A `$` pair around anything but a name protects nothing. */
  lemma OtherDollarsDoNot(pre: string, word: string, post: string)
    requires Ready(pre) && !Name(word) && forall c :: c in word ==> c !in "$;-'\""
    ensures Split(pre + "$" + word + "$;" + post) == Split(pre + "$" + word + "$") + Split(post)
  {
    hide Feed, FeedAll, IsTagName, Name, Split, Next;
    NameIsTag(word);
    var l := FeedAll(FRESH, pre);
    FeedDollar(l);
    FeedOne(FRESH, pre, '$');
    var d := FeedAll(FRESH, pre + "$");
    WordRun(d, word);
    FeedAllConcat(FRESH, pre + "$", word);
    FeedOne(FRESH, pre + "$" + word, '$');
    PlainDollar(FeedAll(d, word));
    SplitAtSemicolon(pre + "$" + word + "$", post);
    assert pre + "$" + word + "$;" + post == (pre + "$" + word + "$") + ";" + post;
  }

  lemma PlainDollar(l: Lex)
    requires l.mode == START
    ensures TopLevel(Feed(l, '$').mode)
  {
  }

  lemma {:induction false} WordRun(d: Lex, word: string)
    requires d.mode == Plain(Tag("")) && forall c :: c in word ==> c !in "$;-'\""
    ensures FeedAll(d, word).mode == (if IsTagName(word) then Plain(Tag(word)) else START)
    decreases |word|
  {
    hide IsTagName, Feed;
    if word == "" {
      EmptyTag();
    } else {
      var init, c := word[..|word| - 1], word[|word| - 1];
      assert word == init + [c];
      WordRun(d, init);
      WordChar(FeedAll(d, init), init, c);
    }
  }

  lemma EmptyTag()
    ensures IsTagName("")
  {
  }

  lemma WordChar(l: Lex, init: string, c: char)
    requires l.mode == (if IsTagName(init) then Plain(Tag(init)) else START) && c !in "$;-'\""
    ensures Feed(l, c).mode == (if IsTagName(init + [c]) then Plain(Tag(init + [c])) else START)
  {
    TagPrefix(init, c);
    hide IsTagName;
    assert c in "$;-'\"" <==> c == '$' || c == ';' || c == '-' || c == '\'' || c == '"';
  }

  lemma TagPrefix(init: string, c: char)
    ensures IsTagName(init + [c]) ==> IsTagName(init)
  {
    var s := init + [c];
    if IsTagName(s) && init != "" {
      assert s[0] == init[0];
      forall k | 0 <= k < |init| ensures IsIdentPart(init[k]) { assert s[k] == init[k]; }
    }
  }
}
