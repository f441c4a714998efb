/** The pages of one and two short lines, word for word. */
module PageExamples {
  import opened Common
  import opened TagValidator
  import opened TextToHtml
  import opened TextDocument
  import opened TextPage

  /** A word of letters and digits. */
  predicate IsWord(x: string) {
    x != "" && forall i :: 0 <= i < |x| ==> Alphanumeric(x[i])
  }

  /** A line of words: a paragraph, a bulleted or numbered one, or a definition. */
  datatype Line = Plain(x: string) | Starred(x: string) | Numbered(digits: string, x: string) | Defined(x: string, y: string)

  predicate LineOk(l: Line) {
    IsWord(l.x) && (l.Defined? ==> IsWord(l.y))
    && (l.Numbered? ==> l.digits != "" && forall i :: 0 <= i < |l.digits| ==> '0' <= l.digits[i] <= '9')
  }

  function Written(l: Line): string {
    match l
    case Plain(x) => x
    case Starred(x) => "*" + x
    case Numbered(digits, x) => digits + ". " + x
    case Defined(x, y) => "* " + x + " * " + y
  }

  function OpenedList(l: Line): string {
    match l case Plain(_) => "" case Starred(_) => "<ul>\n" case Numbered(_, _) => "<ol>\n" case Defined(_, _) => "<dl>\n"
  }

  function ClosedList(l: Line): string {
    match l case Plain(_) => "" case Starred(_) => "</ul>\n" case Numbered(_, _) => "</ol>\n" case Defined(_, _) => "</dl>\n"
  }

  /** The line between its tags, the last one left open. */
  function OpenedItem(l: Line): string {
    match l
    case Plain(x) => "<p>" + x
    case Starred(x) => "<li>" + x
    case Numbered(_, x) => "<li>" + x
    case Defined(x, y) => "<dt>" + x + "</dt><dd>" + y
  }

  function ClosedItem(l: Line): string {
    match l case Plain(_) => "</p>\n" case Defined(_, _) => "</dd>\n" case _ => "</li>\n"
  }

  predicate SameKind(a: Line, b: Line) {
    (a.Plain? && b.Plain?) || (a.Starred? && b.Starred?) || (a.Numbered? && b.Numbered?) || (a.Defined? && b.Defined?)
  }

  function KindIs(l: Line): Kind {
    match l case Plain(_) => Paragraph case Starred(_) => Bullet case Numbered(_, _) => Number case Defined(_, _) => Definition
  }

  // ----- the content of a line of words -----

  lemma NotBehind(s: string, c: char)
    requires s != "" && c !in s
    ensures s[0] != c && c !in s[1..]
  {
  }

  lemma {:induction false} EscapedSame(s: string)
    requires '&' !in s && '<' !in s && '>' !in s
    ensures Escape(s) == s
  {
    if s != "" {
      NotBehind(s, '&');
      NotBehind(s, '<');
      NotBehind(s, '>');
      EscapeFirst(s[0], s[1..]);
      assert EscapeOf(s[0]) == [s[0]];
      hide *;
      EscapedSame(s[1..]);
      assert s == [s[0]] + s[1..];
    }
  }

  lemma ColonInHead(s: string)
    ensures LinkHead(s) ==> |s| > 5 && (s[4] == ':' || s[5] == ':')
  {
  }

  lemma WordLinks(x: string, more: seq<Piece>)
    requires IsWord(x)
    ensures Links(x) == [Txt(x)] && Emphasis([Txt(x)]) == [Txt(x)]
  {
    forall k | 0 <= k < |x|
      ensures !LinkHead(x[k..])
    {
      ColonInHead(x[k..]);
      assert |x[k..]| > 5 ==> x[k..][4] == x[k + 4] && x[k..][5] == x[k + 5];
    }
    NoAnchor(x);
    assert ':' !in x;
    NothingEmphasised(x, []);
    assert [Txt(x)] + [] == [Txt(x)];
  }

  lemma NoBlankFront(x: string, c: char)
    requires x != "" && x[0] != c
    ensures TrimFront(x, c) == x
  {
  }

  lemma WordNoNumber(x: string)
    requires IsWord(x)
    ensures NumberLength(x) == 0 && !("*" <= x) && !("* " <= x)
  {
    var n := Run(x, Digit);
    assert n < |x| ==> x[n..][0] == x[n];
    assert x[0] != '*';
    hide Run;
  }

  lemma PlainContent(x: string)
    requires IsWord(x)
    ensures KindOf(x) == Paragraph && Content(x) == [Txt(x)]
  {
    WordNoNumber(x);
    WordLinks(x, []);
    hide Emphasis, Links, NumberLength, FindText, IsWord;
  }

  lemma StarredContent(x: string)
    requires IsWord(x)
    ensures KindOf("*" + x) == Bullet && Content("*" + x) == [Txt(x)]
  {
    var e := "*" + x;
    WordLinks(x, []);
    assert e[1..] == x;
    NoBlankFront(x, ' ');
    assert !("* " <= e) by { assert e[1] == x[0]; }
    hide Emphasis, Links, TrimFront;
  }

  lemma NumberIs(digits: string, x: string)
    requires LineOk(Numbered(digits, x))
    ensures var e := digits + ". " + x;
            !("*" <= e) && !("* " <= e) && NumberLength(e) == |digits| && e[|digits| + 1..] == " " + x
  {
    var e, n := digits + ". " + x, |digits|;
    assert e[0] == digits[0] && e[n] == '.';
    assert e[n..] == ". " + x;
    assert forall i :: 0 <= i < n ==> e[i] == digits[i];
    RunIs(e, Digit, n);
  }

  lemma BlankFront(x: string)
    requires x != "" && x[0] != ' '
    ensures TrimFront(" " + x, ' ') == x
  {
    assert (" " + x)[1..] == x;
  }

  lemma NumberedContent(digits: string, x: string)
    requires LineOk(Numbered(digits, x))
    ensures KindOf(digits + ". " + x) == Number && Content(digits + ". " + x) == [Txt(x)]
  {
    NumberIs(digits, x);
    WordLinks(x, []);
    BlankFront(x);
    hide Emphasis, Links, TrimFront, NumberLength;
  }

  lemma WordTrimmed(x: string)
    requires IsWord(x)
    ensures TrimBack(x, ' ') == x && TrimBoth(x) == x
  {
  }

  lemma SecondStarIs(x: string, y: string)
    requires IsWord(x)
    ensures FindText(x + " * " + y, " * ") == Some(|x|)
  {
    var s, pat := x + " * " + y, " * ";
    assert s[|x|..] == pat + y;
    forall k | 0 <= k < |x|
      ensures !(pat <= s[k..])
    {
      assert s[k..][0] == x[k];
    }
    FindIs(s, pat, |x|);
  }

  lemma DefinedParts(x: string, y: string)
    ensures var e := "* " + x + " * " + y;
            "* " <= e && e[2..] == x + " * " + y && |e| >= |x| + 5 && e[2..2 + |x|] == x && e[|x| + 5..] == y
  {
    var e, rest := "* " + x + " * " + y, x + " * " + y;
    assert e == "* " + rest;
    assert rest == x + (" * " + y);
  }

  lemma DefinedAt(x: string, y: string)
    requires IsWord(x)
    ensures var e := "* " + x + " * " + y; DefinitionAt(e) == Some(|x|) && KindOf(e) == Definition
  {
    DefinedParts(x, y);
    SecondStarIs(x, y);
    hide FindText, NumberLength;
  }

  lemma DefinedContent(x: string, y: string)
    requires LineOk(Defined(x, y))
    ensures var e := "* " + x + " * " + y;
            KindOf(e) == Definition && Content(e) == [Txt(x), CloseTag("dt"), OpenTag("dd", ""), Txt(y)]
  {
    DefinedAt(x, y);
    DefinedParts(x, y);
    WordTrimmed(x);
    WordTrimmed(y);
    WordLinks(x, []);
    WordLinks(y, []);
    DefinedPieces("* " + x + " * " + y, x, y);
  }

  lemma DefinedPieces(e: string, x: string, y: string)
    requires KindOf(e) == Definition && DefinitionAt(e) == Some(|x|) && |e| >= |x| + 5 && e[2..2 + |x|] == x && e[|x| + 5..] == y
    requires TrimBack(x, ' ') == x && TrimBoth(y) == y && Links(x) == [Txt(x)] && Links(y) == [Txt(y)]
    requires Emphasis([Txt(x)]) == [Txt(x)]
    ensures Content(e) == [Txt(x), CloseTag("dt"), OpenTag("dd", ""), Txt(y)]
  {
    hide *;
    DefinitionFacts(e);
    assert [Txt(x)] + [CloseTag("dt"), OpenTag("dd", "")] + [Txt(y)] == [Txt(x), CloseTag("dt"), OpenTag("dd", ""), Txt(y)];
  }

  /** What a line of words is put out as. */
  function ContentOf(l: Line): seq<Piece> {
    match l
    case Defined(x, y) => [Txt(x), CloseTag("dt"), OpenTag("dd", ""), Txt(y)]
    case _ => [Txt(l.x)]
  }

  lemma LineContent(l: Line)
    requires LineOk(l)
    ensures Escape(Written(l)) == Written(l) && KindOf(Written(l)) == KindIs(l) && Content(Written(l)) == ContentOf(l)
  {
    hide Escape, KindOf, Content;
    EscapedSame(Written(l));
    match l
    case Plain(x) => PlainContent(x);
    case Starred(x) => StarredContent(x);
    case Numbered(digits, x) => NumberedContent(digits, x);
    case Defined(x, y) => DefinedContent(x, y);
  }

  // ----- the pieces of a line -----

  lemma OneFlat(p: Piece)
    ensures Flat([p]) == Render(p)
  {
    assert [p][1..] == [];
    assert Render(p) + "" == Render(p);
  }

  lemma TwoFlat(a: Piece, b: Piece)
    ensures Flat([a, b]) == Render(a) + Render(b)
  {
    OneFlat(a);
    OneFlat(b);
    FlatSplit([a], [b]);
    assert [a] + [b] == [a, b];
  }

  lemma DefinedFlat(x: string, y: string)
    ensures Flat([Txt(x), CloseTag("dt"), OpenTag("dd", ""), Txt(y)]) == x + "</dt><dd>" + y
  {
    var a, b := [Txt(x), CloseTag("dt")], [OpenTag("dd", ""), Txt(y)];
    TwoFlat(Txt(x), CloseTag("dt"));
    TwoFlat(OpenTag("dd", ""), Txt(y));
    FlatSplit(a, b);
    assert a + b == [Txt(x), CloseTag("dt"), OpenTag("dd", ""), Txt(y)];
    DefinedTags();
    hide *;
    var c, d := Render(CloseTag("dt")), Render(OpenTag("dd", ""));
    assert (x + c) + (d + y) == x + (c + d) + y;
  }

  lemma DefinedTags()
    ensures Render(CloseTag("dt")) + Render(OpenTag("dd", "")) == "</dt><dd>"
  {
  }

  lemma ItemTags(l: Line)
    ensures OpenedItem(l) == Render(OpenTag(KindIs(l).Item(true), ""))
                             + (match l case Defined(x, y) => x + "</dt><dd>" + y case _ => l.x)
  {
    assert Render(OpenTag("p", "")) == "<p>" && Render(OpenTag("li", "")) == "<li>" && Render(OpenTag("dt", "")) == "<dt>";
    match l
    case Defined(x, y) => assert "<dt>" + (x + "</dt><dd>" + y) == "<dt>" + x + "</dt><dd>" + y;
    case _ =>
  }

  lemma ItemFlat(l: Line, n: nat)
    requires LineOk(l)
    ensures Flat([Txt(Spaces(n)), OpenTag(KindIs(l).Item(true), "")] + ContentOf(l)) == Spaces(n) + OpenedItem(l)
  {
    var a, b := Txt(Spaces(n)), OpenTag(KindIs(l).Item(true), "");
    TwoFlat(a, b);
    FlatSplit([a, b], ContentOf(l));
    ItemTags(l);
    if l.Defined? {
      DefinedFlat(l.x, l.y);
    } else {
      OneFlat(Txt(l.x));
    }
    assert Render(a) == Spaces(n) && (!l.Defined? ==> Render(Txt(l.x)) == l.x);
    hide Render, Flat, Spaces, OpenedItem;
    Associate(Spaces(n), Render(b), Flat(ContentOf(l)));
  }

  lemma LineFlat(st: State, l: Line, n: nat)
    requires LineOk(l) && !st.inCode
    ensures var raw := Spaces(n) + Written(l);
            && Flat(LinePieces(st, raw)) == Flat(CloseOrOpen(st.kinds, st.last, n + 1, KindIs(l))) + (Spaces(n) + OpenedItem(l))
            && NextState(st, raw) == State(Set(st.kinds, n + 1, KindIs(l)), n + 1, false)
  {
    var raw := Spaces(n) + Written(l);
    IndentIs(l, n);
    LineContent(l);
    ItemFlat(l, n);
    var close := CloseOrOpen(st.kinds, st.last, n + 1, KindIs(l));
    var open := [Txt(Spaces(n)), OpenTag(KindIs(l).Item(true), "")];
    hide Escape, KindOf, Content, ContentOf, Written, LineText, Indent, CloseOrOpen, Set, OpenedItem;
    assert LinePieces(st, raw) == close + open + ContentOf(l);
    hide LinePieces;
    Associate(close, open, ContentOf(l));
    FlatSplit(close, open + ContentOf(l));
  }

  lemma {:induction false} TrimSpaces(n: nat, s: string)
    requires s != "" && s[0] != ' '
    ensures TrimFront(Spaces(n) + s, ' ') == s
  {
    if n > 0 {
      TrimSpaces(n - 1, s);
      assert (Spaces(n) + s)[1..] == Spaces(n - 1) + s;
    } else {
      assert Spaces(0) + s == s;
    }
  }

  lemma IndentIs(l: Line, n: nat)
    requires LineOk(l)
    ensures var raw := Spaces(n) + Written(l);
            LineText(raw) == Written(l) && Indent(raw) == n + 1 && !("`" <= Written(l))
  {
    assert Written(l) != "" && Written(l)[0] != ' ' && Written(l)[0] != '`';
    hide Written;
    TrimSpaces(n, Written(l));
  }

  // ----- closing and opening, letter by letter -----

  lemma ItemCloses(l: Line)
    ensures Flat(CloseItem(KindIs(l))) == ClosedItem(l)
  {
    TwoFlat(CloseTag(KindIs(l).Item(false)), Txt("\n"));
  }

  lemma ListCloses(l: Line)
    ensures Flat(CloseList(KindIs(l))) == ClosedList(l)
  {
    if KindIs(l).IsList() {
      TwoFlat(CloseTag(KindIs(l).List()), Txt("\n"));
    }
  }

  lemma ListOpens(l: Line)
    ensures Flat(OpenList(KindIs(l))) == OpenedList(l)
  {
    if KindIs(l).IsList() {
      TwoFlat(OpenTag(KindIs(l).List(), ""), Txt("\n"));
    }
  }

  lemma ItemClosed(l: Line)
    ensures Flat(CloseItem(KindIs(l))) == ClosedItem(l) && Flat(CloseList(KindIs(l))) == ClosedList(l)
    ensures Flat(OpenList(KindIs(l))) == OpenedList(l)
  {
    ItemCloses(l);
    ListCloses(l);
    ListOpens(l);
  }

  lemma NothingFlat()
    ensures Flat([]) == "" && CloseItem(Nothing) == [] && CloseList(Nothing) == [] && OpenList(Nothing) == []
  {
  }

  /** From nothing, the list of the first line is opened. */
  lemma FirstOpens(l: Line)
    ensures Flat(CloseOrOpen([], 1, 1, KindIs(l))) == OpenedList(l)
  {
    ItemClosed(l);
    NothingFlat();
    assert CloseOrOpen([], 1, 1, KindIs(l)) == OpenList(KindIs(l));
  }

  /** A line at the same indent closes the line before it, and the lists only if it is of another kind. */
  lemma NextOpens(a: Line, b: Line)
    ensures Flat(CloseOrOpen([KindIs(a)], 1, 1, KindIs(b))) ==
            ClosedItem(a) + if SameKind(a, b) then "" else ClosedList(a) + OpenedList(b)
  {
    ItemClosed(a);
    ItemClosed(b);
    var close := CloseItem(KindIs(a));
    var lists := if SameKind(a, b) then [] else CloseList(KindIs(a)) + OpenList(KindIs(b));
    assert CloseOrOpen([KindIs(a)], 1, 1, KindIs(b)) == close + lists;
    NothingFlat();
    hide Flat, CloseOrOpen, CloseItem, CloseList, OpenList, ClosedItem, ClosedList, OpenedList;
    FlatSplit(close, lists);
    FlatSplit(CloseList(KindIs(a)), OpenList(KindIs(b)));
  }

  /** A deeper line opens its own list inside. */
  lemma DeeperOpens(a: Line, b: Line)
    ensures Flat(CloseOrOpen([KindIs(a)], 1, 2, KindIs(b))) == OpenedList(b)
  {
    ItemClosed(b);
    NothingFlat();
    assert CloseOrOpen([KindIs(a)], 1, 2, KindIs(b)) == OpenList(KindIs(b));
  }

  /** The end closes everything. */
  lemma EndCloses(a: Line)
    ensures Flat(CloseOrOpen([KindIs(a)], 1, 1, Nothing)) == ClosedItem(a) + ClosedList(a)
  {
    ItemClosed(a);
    NothingFlat();
    FlatSplit(CloseItem(KindIs(a)), CloseList(KindIs(a)));
    assert CloseOrOpen([KindIs(a)], 1, 1, Nothing) == CloseItem(KindIs(a)) + CloseList(KindIs(a));
  }

  lemma DeepEndCloses(a: Line, b: Line)
    ensures Flat(CloseOrOpen([KindIs(a), KindIs(b)], 2, 1, Nothing))
            == (ClosedItem(b) + ClosedList(b)) + (ClosedItem(a) + ClosedList(a))
  {
    ItemClosed(a);
    ItemClosed(b);
    NothingFlat();
    var kinds := [KindIs(a), KindIs(b)];
    var inner, outer := CloseItem(KindIs(b)) + CloseList(KindIs(b)), CloseItem(KindIs(a)) + CloseList(KindIs(a));
    assert CloseDown(kinds, 2, 1) == inner by { assert CloseDown(kinds, 1, 1) == []; }
    assert CloseOrOpen(kinds, 2, 1, Nothing) == inner + outer;
    FlatSplit(inner, outer);
    FlatSplit(CloseItem(KindIs(b)), CloseList(KindIs(b)));
    FlatSplit(CloseItem(KindIs(a)), CloseList(KindIs(a)));
  }

  // ----- newlines -----

  /** No newline at the start, and no two together. */
  ghost predicate Tame(s: string) {
    (s != "" ==> s[0] != '\n') && forall i :: 0 < i < |s| ==> !(s[i - 1] == '\n' && s[i] == '\n')
  }

  lemma TameBoth(a: string, b: string)
    requires Tame(a) && Tame(b)
    ensures Tame(a + b)
  {
  }

  lemma {:induction false} NothingSqueezed(s: string)
    requires Tame(s) || (s != "" && Tame(s[1..]) && s[0] == '\n')
    ensures Squeeze(s, '\n') == s
  {
    if |s| >= 2 {
      if Tame(s) && s[1] != '\n' {
        assert Tame(s[1..]);
      }
      if s[1] == '\n' {
        assert Tame(s[2..]) by {
          assert |s| > 2 ==> s[2] != '\n';
          assert forall i :: 0 <= i < |s| - 2 ==> s[2..][i] == s[i + 2];
        }
        assert s[1..][1..] == s[2..];
      }
      NothingSqueezed(s[1..]);
    }
  }

  /** A page that ends in one newline, and is tame, is not changed by trimming. */
  lemma TrimNothing(s: string)
    requires Tame(s) && |s| >= 2 && s[|s| - 1] == '\n'
    ensures TrimNewlines(s) + "\n" == s
  {
    NothingSqueezed(s);
    var front := s[..|s| - 1];
    assert s[|s| - 2] != '\n' && front[|front| - 1] != '\n';
    assert TrimBack(front, '\n') == front;
  }

  lemma ListChunks(l: Line)
    ensures Tame(OpenedList(l)) && Tame(ClosedList(l)) && Tame(ClosedItem(l))
    ensures ClosedItem(l) != "" && ClosedItem(l)[|ClosedItem(l)| - 1] == '\n'
    ensures ClosedList(l) != "" ==> ClosedList(l)[|ClosedList(l)| - 1] == '\n'
  {
  }

  lemma WordTame(x: string)
    requires IsWord(x)
    ensures Tame(x)
  {
  }

  lemma TagsTame()
    ensures Tame("<p>") && Tame("<li>") && Tame("<dt>") && Tame("</dt><dd>")
  {
  }

  lemma ItemChunk(l: Line)
    requires LineOk(l)
    ensures Tame(OpenedItem(l))
  {
    TagsTame();
    WordTame(l.x);
    hide Tame, IsWord;
    match l
    case Plain(x) => TameBoth("<p>", x);
    case Starred(x) => TameBoth("<li>", x);
    case Numbered(_, x) => TameBoth("<li>", x);
    case Defined(x, y) =>
      WordTame(y);
      TameBoth("<dt>", x);
      TameBoth("<dt>" + x, "</dt><dd>");
      TameBoth("<dt>" + x + "</dt><dd>", y);
  }

  lemma Chunks(l: Line)
    requires LineOk(l)
    ensures Tame(OpenedList(l)) && Tame(ClosedList(l)) && Tame(OpenedItem(l)) && Tame(ClosedItem(l))
    ensures ClosedItem(l) != "" && ClosedItem(l)[|ClosedItem(l)| - 1] == '\n'
    ensures ClosedList(l) != "" ==> ClosedList(l)[|ClosedList(l)| - 1] == '\n'
  {
    hide *;
    ListChunks(l);
    ItemChunk(l);
  }

  // ----- the pages -----

  lemma AtMargin(st: State, l: Line)
    requires LineOk(l) && !st.inCode
    ensures Flat(LinePieces(st, Written(l))) == Flat(CloseOrOpen(st.kinds, st.last, 1, KindIs(l))) + OpenedItem(l)
    ensures NextState(st, Written(l)) == State(Set(st.kinds, 1, KindIs(l)), 1, false)
  {
    hide *;
    LineFlat(st, l, 0);
    NoSpaces();
    Without(Written(l));
    Without(OpenedItem(l));
  }

  lemma Without(s: string)
    ensures "" + s == s
  {
  }

  lemma OneKind(kinds: Kinds, k: Kind)
    ensures Set(kinds, 1, k) == [k]
  {
  }

  lemma FirstLine(l: Line)
    requires LineOk(l)
    ensures Flat(LinePieces(State([], 1, false), Written(l))) == OpenedList(l) + OpenedItem(l)
    ensures NextState(State([], 1, false), Written(l)) == State([KindIs(l)], 1, false)
  {
    hide *;
    AtMargin(State([], 1, false), l);
    FirstOpens(l);
    OneKind([], KindIs(l));
  }

  /** One line gives one item in a list of its own. */
  lemma OneLine(a: Line)
    requires LineOk(a)
    ensures Html([Written(a)]) == OpenedList(a) + OpenedItem(a) + ClosedItem(a) + ClosedList(a)
  {
    hide *;
    FirstLine(a);
    EndCloses(a);
    OneLinePieces([Written(a)], State([], 1, false), State([KindIs(a)], 1, false));
    Associate(OpenedList(a) + OpenedItem(a), ClosedItem(a), ClosedList(a));
    OnePage(a);
    HtmlIs([Written(a)]);
  }

  lemma NoSpaces()
    ensures Spaces(0) == "" && Spaces(1) == " "
  {
  }

  lemma HtmlIs(lines: seq<string>)
    ensures Html(lines) == TrimNewlines(Flat(Document(lines))) + "\n"
  {
  }

  lemma OnePage(a: Line)
    requires LineOk(a)
    ensures var page := OpenedList(a) + OpenedItem(a) + ClosedItem(a) + ClosedList(a); TrimNewlines(page) + "\n" == page
  {
    Chunks(a);
    hide OpenedList, OpenedItem, ClosedItem, ClosedList, TrimNewlines, Tame;
    TameBoth(OpenedList(a), OpenedItem(a));
    TameBoth(OpenedList(a) + OpenedItem(a), ClosedItem(a));
    TameBoth(OpenedList(a) + OpenedItem(a) + ClosedItem(a), ClosedList(a));
    ItemText(a);
    TrimNothing(OpenedList(a) + OpenedItem(a) + ClosedItem(a) + ClosedList(a));
  }

  lemma ItemText(a: Line)
    requires LineOk(a)
    ensures OpenedItem(a) != ""
  {
  }

  lemma OneLinePieces(lines: seq<string>, st0: State, st1: State)
    requires |lines| == 1 && st0 == State([], 1, false) && NextState(st0, lines[0]) == st1
    ensures Flat(Document(lines)) == Flat(LinePieces(st0, lines[0])) + Flat(CloseOrOpen(st1.kinds, st1.last, 1, Nothing))
  {
    hide LinePieces, CloseOrOpen, NextState;
    assert StateAfter(lines, 0) == st0 && StateAfter(lines, 1) == st1;
    assert PiecesOf(lines, 0) == [] && PiecesOf(lines, 1) == LinePieces(st0, lines[0]);
    FlatSplit(LinePieces(st0, lines[0]), CloseOrOpen(st1.kinds, st1.last, 1, Nothing));
  }

  lemma TwoLinePieces(lines: seq<string>, st0: State, st1: State, st2: State)
    requires |lines| == 2 && st0 == State([], 1, false)
    requires NextState(st0, lines[0]) == st1 && NextState(st1, lines[1]) == st2
    ensures Flat(Document(lines)) ==
            Flat(LinePieces(st0, lines[0])) + Flat(LinePieces(st1, lines[1])) + Flat(CloseOrOpen(st2.kinds, st2.last, 1, Nothing))
  {
    hide LinePieces, CloseOrOpen, NextState;
    assert StateAfter(lines, 0) == st0;
    assert StateAfter(lines, 1) == st1;
    assert StateAfter(lines, 2) == st2;
    var a, b, c := LinePieces(st0, lines[0]), LinePieces(st1, lines[1]), CloseOrOpen(st2.kinds, st2.last, 1, Nothing);
    assert PiecesOf(lines, 0) == [];
    assert PiecesOf(lines, 1) == a;
    assert PiecesOf(lines, 2) == a + b;
    FlatSplit(a, b);
    FlatSplit(a + b, c);
  }

  lemma SecondLine(a: Line, b: Line)
    requires LineOk(b)
    ensures Flat(LinePieces(State([KindIs(a)], 1, false), Written(b)))
            == (ClosedItem(a) + if SameKind(a, b) then "" else ClosedList(a) + OpenedList(b)) + OpenedItem(b)
    ensures NextState(State([KindIs(a)], 1, false), Written(b)) == State([KindIs(b)], 1, false)
  {
    hide *;
    AtMargin(State([KindIs(a)], 1, false), b);
    NextOpens(a, b);
    OneKind([KindIs(a)], KindIs(b));
  }

  lemma DeeperLine(a: Line, b: Line)
    requires LineOk(b)
    ensures Flat(LinePieces(State([KindIs(a)], 1, false), " " + Written(b))) == OpenedList(b) + (" " + OpenedItem(b))
    ensures NextState(State([KindIs(a)], 1, false), " " + Written(b)) == State([KindIs(a), KindIs(b)], 2, false)
  {
    hide *;
    LineFlat(State([KindIs(a)], 1, false), b, 1);
    DeeperOpens(a, b);
    NoSpaces();
    TwoKinds(KindIs(a), KindIs(b));
  }

  lemma TwoKinds(a: Kind, b: Kind)
    ensures Set([a], 2, b) == [a, b]
  {
  }

  /** What the page of two lines is: one list for two lines of one kind, else two. */
  function TwoItems(a: Line, b: Line): string {
    OpenedList(a) + OpenedItem(a) + ClosedItem(a)
    + (if SameKind(a, b) then "" else ClosedList(a) + OpenedList(b))
    + OpenedItem(b) + ClosedItem(b) + ClosedList(b)
  }

  /** Two lines at one indent are items of one list if they are of the same kind, and else stand in lists of their own. */
  lemma TwoLines(a: Line, b: Line)
    requires LineOk(a) && LineOk(b)
    ensures Html([Written(a), Written(b)]) == TwoItems(a, b)
  {
    hide *;
    FirstLine(a);
    SecondLine(a, b);
    EndCloses(b);
    TwoLinePieces([Written(a), Written(b)], State([], 1, false), State([KindIs(a)], 1, false), State([KindIs(b)], 1, false));
    TwoInOrder(a, b);
    TwoPage(a, b);
    HtmlIs([Written(a), Written(b)]);
  }

  lemma TwoInOrder(a: Line, b: Line)
    ensures (OpenedList(a) + OpenedItem(a))
            + ((ClosedItem(a) + if SameKind(a, b) then "" else ClosedList(a) + OpenedList(b)) + OpenedItem(b))
            + (ClosedItem(b) + ClosedList(b)) == TwoItems(a, b)
  {
    hide OpenedList, OpenedItem, ClosedItem, ClosedList, SameKind;
    var lists := if SameKind(a, b) then "" else ClosedList(a) + OpenedList(b);
    FiveInOrder(OpenedList(a) + OpenedItem(a), ClosedItem(a), lists, OpenedItem(b), ClosedItem(b), ClosedList(b));
  }

  lemma FiveInOrder(a: string, b: string, c: string, d: string, e: string, f: string)
    ensures a + ((b + c) + d) + (e + f) == a + b + c + d + e + f
  {
    Associate(a, b + c, d);
    Associate(a, b, c);
    Associate(a + b + c + d, e, f);
  }

  lemma TwoPage(a: Line, b: Line)
    requires LineOk(a) && LineOk(b)
    ensures TrimNewlines(TwoItems(a, b)) + "\n" == TwoItems(a, b)
  {
    Chunks(a);
    Chunks(b);
    ItemText(a);
    hide OpenedList, OpenedItem, ClosedItem, ClosedList, TrimNewlines, Tame, SameKind;
    var lists := if SameKind(a, b) then "" else ClosedList(a) + OpenedList(b);
    TameNothing();
    TameBoth(ClosedList(a), OpenedList(b));
    var s := OpenedList(a) + OpenedItem(a);
    TameBoth(OpenedList(a), OpenedItem(a));
    TameBoth(s, ClosedItem(a));
    TameBoth(s + ClosedItem(a), lists);
    TameBoth(s + ClosedItem(a) + lists, OpenedItem(b));
    TameBoth(s + ClosedItem(a) + lists + OpenedItem(b), ClosedItem(b));
    TameBoth(s + ClosedItem(a) + lists + OpenedItem(b) + ClosedItem(b), ClosedList(b));
    TrimNothing(TwoItems(a, b));
  }

  lemma TameNothing()
    ensures Tame("") && Tame(" ")
  {
  }

  function NestedItems(a: Line, b: Line): string {
    OpenedList(a) + OpenedItem(a)
    + OpenedList(b) + " " + OpenedItem(b) + ClosedItem(b) + ClosedList(b)
    + ClosedItem(a) + ClosedList(a)
  }

  /** A line that is indented further is a list inside the item before it. */
  lemma NestedLines(a: Line, b: Line)
    requires LineOk(a) && LineOk(b)
    ensures Html([Written(a), " " + Written(b)]) == NestedItems(a, b)
  {
    hide *;
    FirstLine(a);
    DeeperLine(a, b);
    DeepEndCloses(a, b);
    TwoLinePieces([Written(a), " " + Written(b)], State([], 1, false), State([KindIs(a)], 1, false),
                  State([KindIs(a), KindIs(b)], 2, false));
    NestedInOrder(a, b);
    NestedPage(a, b);
    HtmlIs([Written(a), " " + Written(b)]);
  }

  lemma NestedInOrder(a: Line, b: Line)
    ensures (OpenedList(a) + OpenedItem(a)) + (OpenedList(b) + (" " + OpenedItem(b)))
            + ((ClosedItem(b) + ClosedList(b)) + (ClosedItem(a) + ClosedList(a))) == NestedItems(a, b)
  {
    hide OpenedList, OpenedItem, ClosedItem, ClosedList;
    var s := OpenedList(a) + OpenedItem(a);
    Associate(s, OpenedList(b), " " + OpenedItem(b));
    Associate(s + OpenedList(b), " ", OpenedItem(b));
    var t := s + OpenedList(b) + " " + OpenedItem(b);
    Associate(t, ClosedItem(b) + ClosedList(b), ClosedItem(a) + ClosedList(a));
    Associate(t, ClosedItem(b), ClosedList(b));
    Associate(t + ClosedItem(b) + ClosedList(b), ClosedItem(a), ClosedList(a));
  }

  lemma NestedPage(a: Line, b: Line)
    requires LineOk(a) && LineOk(b)
    ensures TrimNewlines(NestedItems(a, b)) + "\n" == NestedItems(a, b)
  {
    Chunks(a);
    Chunks(b);
    ItemText(a);
    hide OpenedList, OpenedItem, ClosedItem, ClosedList, TrimNewlines, Tame;
    TameNothing();
    var s := OpenedList(a) + OpenedItem(a);
    TameBoth(OpenedList(a), OpenedItem(a));
    TameBoth(s, OpenedList(b));
    TameBoth(s + OpenedList(b), " ");
    TameBoth(s + OpenedList(b) + " ", OpenedItem(b));
    var t := s + OpenedList(b) + " " + OpenedItem(b);
    TameBoth(t, ClosedItem(b));
    TameBoth(t + ClosedItem(b), ClosedList(b));
    TameBoth(t + ClosedItem(b) + ClosedList(b), ClosedItem(a));
    TameBoth(t + ClosedItem(b) + ClosedList(b) + ClosedItem(a), ClosedList(a));
    TrimNothing(NestedItems(a, b));
  }
}
