/** The lines of a marked-up text as one HTML document: lists are opened and closed as the indentation
    and the kinds of the lines change.
*/
module TextDocument {
  import opened Common
  import opened TagValidator
  import opened TextToHtml

  /** What a line is: nothing yet, an item of a bulleted or numbered list, a definition, a paragraph. */
  datatype Kind = Nothing | Bullet | Number | Definition | Paragraph {
    /** The tag around the line; a definition opens as a term and closes as the definition itself. */
    function Item(opening: bool): string
      requires !Nothing?
    {
      match this
      case Bullet => "li"
      case Number => "li"
      case Definition => if opening then "dt" else "dd"
      case Paragraph => "p"
    }

    predicate IsList() {
      Bullet? || Number? || Definition?
    }

    function List(): string
      requires IsList()
    {
      match this case Bullet => "ul" case Number => "ol" case Definition => "dl"
    }
  }

  // ----- the kind and the content of a line -----

  function TrimBoth(s: string): string
    decreases |s|
  {
    if s != "" && (s[0] == '*' || s[0] == ' ') then TrimBoth(s[1..])
    else if s != "" && (s[|s| - 1] == '*' || s[|s| - 1] == ' ') then TrimBoth(s[..|s| - 1])
    else s
  }

  /** The length of the number that starts a numbered line, or 0. */
  function NumberLength(line: string): nat {
    var n := Run(line, Digit);
    if n > 0 && ". " <= line[n..] then n else 0
  }

  /** The place of the second star of a definition line, from the end of the first one, if there is one. */
  function DefinitionAt(line: string): Option<nat> {
    if "* " <= line then FindText(line[2..], " * ") else None
  }

  function KindOf(line: string): (k: Kind)
    ensures !k.Nothing?
  {
    if DefinitionAt(line).Some? then Definition
    else if "*" <= line then Bullet
    else if NumberLength(line) > 0 then Number
    else Paragraph
  }

  /** What stands between the tags of a line. */
  function Content(line: string): seq<Piece> {
    match KindOf(line)
    case Definition =>
      var at := DefinitionAt(line).value;
      Emphasis(Links(TrimBack(line[2..][..at], ' '))) + [CloseTag("dt"), OpenTag("dd", "")]
      + Links(TrimBoth(line[2..][at + 3..]))
    case Bullet => Emphasis(Links(TrimFront(line[1..], ' ')))
    case Number => Emphasis(Links(TrimFront(line[NumberLength(line) + 1..], ' ')))
    case _ => Emphasis(Links(line))
  }

  // ----- closing and opening lists -----

  /** The kind of the open line at each indent, from 1; there is nothing beyond the last one. */
  type Kinds = seq<Kind>

  function At(kinds: Kinds, indent: nat): Kind
    requires indent >= 1
  {
    if indent <= |kinds| then kinds[indent - 1] else Nothing
  }

  /** Stores the kind at an indent and cuts off the deeper ones. */
  function Set(kinds: Kinds, indent: nat, k: Kind): (r: Kinds)
    requires indent >= 1
    ensures |r| == indent
    ensures forall i :: 1 <= i <= indent ==> At(r, i) == if i == indent then k else At(kinds, i)
  {
    seq(indent, i requires 0 <= i < indent => if i + 1 == indent then k else At(kinds, i + 1))
  }

  function CloseItem(k: Kind): seq<Piece> {
    if k.Nothing? then [] else [CloseTag(k.Item(false)), Txt("\n")]
  }

  function CloseList(k: Kind): seq<Piece> {
    if k.IsList() then [CloseTag(k.List()), Txt("\n")] else []
  }

  function OpenList(k: Kind): seq<Piece> {
    if k.IsList() then [OpenTag(k.List(), ""), Txt("\n")] else []
  }

  /** Closes everything deeper than `to`. */
  function CloseDown(kinds: Kinds, from: nat, to: nat): seq<Piece>
    requires to >= 1
  {
    if from <= to then [] else CloseItem(At(kinds, from)) + CloseList(At(kinds, from)) + CloseDown(kinds, from - 1, to)
  }

  function CloseOrOpen(kinds: Kinds, last: nat, indent: nat, k: Kind): seq<Piece>
    requires indent >= 1
  {
    var was := At(kinds, indent);
    CloseDown(kinds, last, indent) + CloseItem(was) + if was == k then [] else CloseList(was) + OpenList(k)
  }

  /** The tags that are open when the lines at indents 1 to `n` are open. */
  function OpenTags(kinds: Kinds, n: nat): seq<string> {
    if n == 0 then []
    else OpenTags(kinds, n - 1) + Level(At(kinds, n))
  }

  function Level(k: Kind): seq<string> {
    if k.Nothing? then [] else ListLevel(k) + [k.Item(false)]
  }

  function ListLevel(k: Kind): seq<string> {
    if k.IsList() then [k.List()] else []
  }

  lemma CloseItemLeads(stack: seq<string>, k: Kind)
    ensures Leads(stack + Level(k), CloseItem(k), stack + ListLevel(k))
  {
    hide Leads;
    if k.Nothing? {
      NoPieces(stack);
      assert stack + Level(k) == stack == stack + ListLevel(k);
    } else {
      var outer := stack + ListLevel(k);
      CloseLeads(outer, k.Item(false));
      TextLeads(outer, "\n");
      assert stack + Level(k) == Push(outer, k.Item(false));
      LeadsOn(stack + Level(k), [CloseTag(k.Item(false))], outer, [Txt("\n")], outer);
      assert [CloseTag(k.Item(false))] + [Txt("\n")] == CloseItem(k);
    }
  }

  lemma NoPieces(stack: seq<string>)
    ensures Leads(stack, [], stack)
  {
  }

  lemma CloseListLeads(stack: seq<string>, k: Kind)
    ensures Leads(stack + ListLevel(k), CloseList(k), stack)
  {
    hide Leads;
    if k.IsList() {
      CloseLeads(stack, k.List());
      TextLeads(stack, "\n");
      assert stack + ListLevel(k) == Push(stack, k.List());
      LeadsOn(stack + ListLevel(k), [CloseTag(k.List())], stack, [Txt("\n")], stack);
      assert [CloseTag(k.List())] + [Txt("\n")] == CloseList(k);
    } else {
      NoPieces(stack);
      assert stack + ListLevel(k) == stack;
    }
  }

  lemma OpenListLeads(stack: seq<string>, k: Kind)
    requires Inline(stack)
    ensures Leads(stack, OpenList(k), stack + ListLevel(k))
  {
    hide Leads;
    if k.IsList() {
      var inner := Push(stack, k.List());
      OpenLeads(stack, k.List(), "");
      TextLeads(inner, "\n");
      LeadsOn(stack, [OpenTag(k.List(), "")], inner, [Txt("\n")], inner);
      assert [OpenTag(k.List(), "")] + [Txt("\n")] == OpenList(k);
      assert stack + ListLevel(k) == inner;
    } else {
      NoPieces(stack);
      assert stack + ListLevel(k) == stack;
    }
  }

  /** Between lines only items, definitions and paragraphs are innermost. */
  lemma {:induction false} OpenTagsInline(kinds: Kinds, n: nat)
    ensures Inline(OpenTags(kinds, n))
  {
    if n > 0 {
      OpenTagsInline(kinds, n - 1);
      if At(kinds, n).Nothing? {
        assert OpenTags(kinds, n) == OpenTags(kinds, n - 1);
      }
    }
  }

  lemma {:induction false} CloseDownLeads(kinds: Kinds, from: nat, to: nat)
    requires to >= 1
    ensures from > to ==> Leads(OpenTags(kinds, from), CloseDown(kinds, from, to), OpenTags(kinds, to))
  {
    hide Leads;
    hide CloseItem, CloseList, Level, ListLevel, At;
    if from > to {
      var k, outer := At(kinds, from), OpenTags(kinds, from - 1);
      CloseItemLeads(outer, k);
      CloseListLeads(outer, k);
      LeadsOn(outer + Level(k), CloseItem(k), outer + ListLevel(k), CloseList(k), outer);
      CloseDownLeads(kinds, from - 1, to);
      if from - 1 == to {
        NoPieces(outer);
      }
      LeadsOn(outer + Level(k), CloseItem(k) + CloseList(k), outer, CloseDown(kinds, from - 1, to), OpenTags(kinds, to));
    }
  }

  /** Beyond the last indent there is nothing open. */
  lemma {:induction false} NothingBeyond(kinds: Kinds, last: nat, n: nat)
    requires |kinds| <= last <= n
    ensures OpenTags(kinds, n) == OpenTags(kinds, last)
  {
    if last < n {
      NothingBeyond(kinds, last, n - 1);
    }
  }

  lemma {:induction false} SameBelow(kinds: Kinds, kinds': Kinds, n: nat)
    requires forall i :: 1 <= i <= n ==> At(kinds, i) == At(kinds', i)
    ensures OpenTags(kinds, n) == OpenTags(kinds', n)
  {
    if n > 0 {
      SameBelow(kinds, kinds', n - 1);
    }
  }

  lemma DownLeads(kinds: Kinds, last: nat, indent: nat)
    requires indent >= 1 && |kinds| <= last
    ensures Leads(OpenTags(kinds, last), CloseDown(kinds, last, indent),
                  OpenTags(kinds, indent - 1) + Level(At(kinds, indent)))
  {
    hide Leads, Level;
    if last > indent {
      CloseDownLeads(kinds, last, indent);
    } else {
      NothingBeyond(kinds, last, indent);
      NoPieces(OpenTags(kinds, last));
    }
  }

  /** After closing and opening, the list for the new line is open and waits for it. */
  lemma CloseOrOpenLeads(kinds: Kinds, last: nat, indent: nat, k: Kind)
    requires indent >= 1 && last >= 1 && |kinds| <= last
    ensures Leads(OpenTags(kinds, last), CloseOrOpen(kinds, last, indent, k), OpenTags(kinds, indent - 1) + ListLevel(k))
  {
    hide Leads, OpenTags, CloseDown, CloseItem, CloseList, OpenList, Level;
    var outer, was := OpenTags(kinds, indent - 1), At(kinds, indent);
    var start, down := OpenTags(kinds, last), CloseDown(kinds, last, indent);
    DownLeads(kinds, last, indent);
    CloseItemLeads(outer, was);
    LeadsOn(start, down, outer + Level(was), CloseItem(was), outer + ListLevel(was));
    if was == k {
      assert CloseOrOpen(kinds, last, indent, k) == down + CloseItem(was);
    } else {
      CloseListLeads(outer, was);
      OpenTagsInline(kinds, indent - 1);
      OpenListLeads(outer, k);
      LeadsOn(outer + ListLevel(was), CloseList(was), outer, OpenList(k), outer + ListLevel(k));
      LeadsOn(start, down + CloseItem(was), outer + ListLevel(was), CloseList(was) + OpenList(k), outer + ListLevel(k));
    }
  }

  // ----- the document -----

  datatype State = State(kinds: Kinds, last: nat, inCode: bool)

  function Spaces(n: nat): string {
    seq(n, _ => ' ')
  }

  function LineText(raw: string): string {
    TrimFront(raw, ' ')
  }

  lemma {:induction false} TrimFrontLength(s: string, c: char)
    ensures |TrimFront(s, c)| <= |s|
  {
    if s != "" && s[0] == c {
      TrimFrontLength(s[1..], c);
    }
  }

  /** The indent of a line, from 1. */
  function Indent(raw: string): (n: nat)
    ensures n >= 1
  {
    TrimFrontLength(raw, ' ');
    |raw| - |LineText(raw)| + 1
  }

  predicate EndsInCode(line: string) {
    line != "" && line[|line| - 1] == '`'
  }

  /** Whether a line is copied as it is, because it is in a code block or starts one. */
  predicate IsCode(st: State, raw: string) {
    st.inCode || "`" <= LineText(raw)
  }

  function NextState(st: State, raw: string): State {
    if st.inCode then st.(inCode := !EndsInCode(LineText(raw)))
    else if IsCode(st, raw) then st.(inCode := true)
    else State(Set(st.kinds, Indent(raw), KindOf(Escape(LineText(raw)))), Indent(raw), false)
  }

  /** The tags in a line of code, if all of them are whole. */
  function CodeTags(line: string): seq<Token> {
    if Scan(line).Some? then Scan(line).value else []
  }

  function CodePieces(before: string, indent: nat, line: string): seq<Piece>
    requires indent >= 1
  {
    [Txt(before + Spaces(indent - 1)), Code(line, CodeTags(line)), Txt("\n")]
  }

  function LinePieces(st: State, raw: string): seq<Piece> {
    var indent, line := Indent(raw), LineText(raw);
    if IsCode(st, raw) then CodePieces(if st.inCode then "" else "\n", indent, line)
    else
      var text := Escape(line);
      CloseOrOpen(st.kinds, st.last, indent, KindOf(text))
      + [Txt(Spaces(indent - 1)), OpenTag(KindOf(text).Item(true), "")] + Content(text)
  }

  function StateAfter(lines: seq<string>, n: nat): State
    requires n <= |lines|
  {
    if n == 0 then State([], 1, false) else NextState(StateAfter(lines, n - 1), lines[n - 1])
  }

  function PiecesOf(lines: seq<string>, n: nat): seq<Piece>
    requires n <= |lines|
  {
    if n == 0 then [] else PiecesOf(lines, n - 1) + LinePieces(StateAfter(lines, n - 1), lines[n - 1])
  }

  /** The whole document: all lines, and then everything still open is closed. */
  function Document(lines: seq<string>): seq<Piece> {
    var st := StateAfter(lines, |lines|);
    PiecesOf(lines, |lines|) + CloseOrOpen(st.kinds, st.last, 1, Nothing)
  }

  function Html(lines: seq<string>): string {
    TrimNewlines(Flat(Document(lines))) + "\n"
  }

  // ----- the document is well nested -----

  /** The open tags after n lines: those of the text lines, and on top of them those of the code since; None if
      the code closes a tag that is not open, or has one that is not whole, or, if `strict`, one that may not be a
      child there. */
  function CodeStack(strict: bool, lines: seq<string>, n: nat): Option<seq<string>>
    requires n <= |lines|
  {
    if n == 0 then Some([])
    else if IsCode(StateAfter(lines, n - 1), lines[n - 1]) then
      var before, tags := CodeStack(strict, lines, n - 1), Scan(LineText(lines[n - 1]));
      if before.Some? && tags.Some? then Walk(strict, before.value, tags.value) else None
    else Some(OpenTags(StateAfter(lines, n).kinds, StateAfter(lines, n).last))
  }

  /** The code before line n has closed all the tags that it opened. */
  ghost predicate CodeClosed(strict: bool, lines: seq<string>, n: nat)
    requires n <= |lines|
  {
    CodeStack(strict, lines, n) == Some(OpenTags(StateAfter(lines, n).kinds, StateAfter(lines, n).last))
  }

  /** Every stretch of code, from one line of text to the next, has whole tags that are balanced. */
  ghost predicate CodeBalanced(strict: bool, lines: seq<string>) {
    && (forall n :: 0 <= n <= |lines| ==> CodeStack(strict, lines, n).Some?)
    && (forall n :: 0 <= n < |lines| && !IsCode(StateAfter(lines, n), lines[n]) ==> CodeClosed(strict, lines, n))
    && CodeClosed(strict, lines, |lines|)
  }

  ghost predicate AreLines(lines: seq<string>) {
    forall n :: 0 <= n < |lines| ==> '\n' !in lines[n]
  }

  lemma {:induction false} TrimHas(s: string, c: char, d: char)
    requires d !in s
    ensures d !in TrimFront(s, c) && d !in TrimBack(s, c) && d !in TrimBoth(s)
    decreases |s|
  {
    if s != "" {
      TrimHas(s[1..], c, d);
      TrimHas(s[..|s| - 1], c, d);
    }
  }

  /** The content of a line leads from its opening tag to its closing one. */
  lemma ContentLeads(outer: seq<string>, line: string)
    requires '<' !in line
    ensures Leads(outer + ListLevel(KindOf(line)) + [KindOf(line).Item(true)], Content(line), outer + Level(KindOf(line)))
  {
    hide Leads, Emphasis, Links, TrimFront, TrimBack, TrimBoth;
    var k := KindOf(line);
    var stack := outer + ListLevel(k) + [k.Item(true)];
    assert !k.Definition? ==> stack == outer + Level(k);
    match k
    case Definition =>
      DefinitionLeads(outer, line);
      assert Level(k) == ["dl", "dd"];
      assert stack == outer + ["dl"] + ["dt"];
    case Bullet => TextInside(stack, line[1..], TrimFront(line[1..], ' '));
    case Number =>
      var rest := line[NumberLength(line) + 1..];
      TextInside(stack, rest, TrimFront(rest, ' '));
    case Paragraph =>
      LinksNested(stack, line);
      EmphasisNested(stack, Links(line));
  }

  lemma TextInside(stack: seq<string>, s: string, t: string)
    requires '<' !in s && t == TrimFront(s, ' ') && Inline(stack)
    ensures Leads(stack, Emphasis(Links(t)), stack)
  {
    TrimHas(s, ' ', '<');
    LinksNested(stack, t);
    EmphasisNested(stack, Links(t));
  }

  /** The text of a term, and that of its definition, on either side of the tags between. */
  lemma TermLeads(list: seq<string>, term: string, rest: string)
    requires '<' !in term && '<' !in rest && Top(list, "dl")
    ensures Leads(list + ["dt"], Emphasis(Links(term)) + [CloseTag("dt"), OpenTag("dd", "")] + Links(rest), list + ["dd"])
  {
    hide Leads, Emphasis, Links;
    var dt, dd := list + ["dt"], list + ["dd"];
    InTerm(list);
    LinksNested(dt, term);
    EmphasisNested(dt, Links(term));
    LinksNested(dd, rest);
    TermTags(list);
    LeadsOn(dt, Emphasis(Links(term)), dt, [CloseTag("dt"), OpenTag("dd", "")], dd);
    LeadsOn(dt, Emphasis(Links(term)) + [CloseTag("dt"), OpenTag("dd", "")], dd, Links(rest), dd);
  }

  lemma InTerm(list: seq<string>)
    ensures Inline(list + ["dt"]) && Inline(list + ["dd"])
  {
  }

  lemma TermTags(list: seq<string>)
    requires Top(list, "dl")
    ensures Leads(list + ["dt"], [CloseTag("dt"), OpenTag("dd", "")], list + ["dd"])
  {
    hide Leads;
    CloseLeads(list, "dt");
    OpenLeads(list, "dd", "");
    LeadsOn(list + ["dt"], [CloseTag("dt")], list, [OpenTag("dd", "")], list + ["dd"]);
    assert [CloseTag("dt")] + [OpenTag("dd", "")] == [CloseTag("dt"), OpenTag("dd", "")];
  }

  lemma DefinitionLeads(outer: seq<string>, line: string)
    requires '<' !in line && KindOf(line).Definition?
    ensures Leads(outer + ["dl"] + ["dt"], Content(line), outer + ["dl", "dd"])
  {
    hide Leads, Emphasis, Links, TrimFront, TrimBack, TrimBoth, FindText;
    var at := DefinitionAt(line).value;
    var term, rest := line[2..][..at], line[2..][at + 3..];
    TrimHas(term, ' ', '<');
    TrimHas(rest, ' ', '<');
    TermLeads(outer + ["dl"], TrimBack(term, ' '), TrimBoth(rest));
    assert outer + ["dl"] + ["dd"] == outer + ["dl", "dd"];
  }

  lemma OpenItemLeads(outer: seq<string>, k: Kind, indent: nat)
    requires !k.Nothing? && Inline(outer)
    ensures Leads(outer + ListLevel(k), [Txt(Spaces(indent)), OpenTag(k.Item(true), "")],
                  outer + ListLevel(k) + [k.Item(true)])
  {
    var list := outer + ListLevel(k);
    assert k.IsList() ==> Top(list, k.List());
    assert !k.IsList() ==> list == outer;
    TextLeads(list, Spaces(indent));
    OpenLeads(list, k.Item(true), "");
    LeadsOn(list, [Txt(Spaces(indent))], list, [OpenTag(k.Item(true), "")], list + [k.Item(true)]);
    assert [Txt(Spaces(indent))] + [OpenTag(k.Item(true), "")] == [Txt(Spaces(indent)), OpenTag(k.Item(true), "")];
  }

  ghost predicate StateOk(st: State) {
    st.last >= 1 && |st.kinds| <= st.last
  }

  lemma AfterSet(kinds: Kinds, indent: nat, k: Kind)
    requires indent >= 1
    ensures OpenTags(Set(kinds, indent, k), indent) == OpenTags(kinds, indent - 1) + Level(k)
  {
    var now := Set(kinds, indent, k);
    assert OpenTags(now, indent) == OpenTags(now, indent - 1) + Level(At(now, indent));
    hide OpenTags, Level, Set, At;
    SameBelow(kinds, now, indent - 1);
  }

  lemma TextLineLeads(kinds: Kinds, last: nat, indent: nat, text: string)
    requires last >= 1 && |kinds| <= last && indent >= 1 && '<' !in text
    ensures Leads(OpenTags(kinds, last),
                  CloseOrOpen(kinds, last, indent, KindOf(text))
                  + [Txt(Spaces(indent - 1)), OpenTag(KindOf(text).Item(true), "")] + Content(text),
                  OpenTags(Set(kinds, indent, KindOf(text)), indent))
  {
    hide Leads, Content, CloseOrOpen, KindOf, PieceOk, Set, OpenTags;
    var k, outer, before := KindOf(text), OpenTags(kinds, indent - 1), OpenTags(kinds, last);
    var tag := [Txt(Spaces(indent - 1)), OpenTag(k.Item(true), "")];
    var list := outer + ListLevel(k);
    CloseOrOpenLeads(kinds, last, indent, k);
    OpenTagsInline(kinds, indent - 1);
    OpenItemLeads(outer, k, indent - 1);
    ContentLeads(outer, text);
    LeadsOn(before, CloseOrOpen(kinds, last, indent, k), list, tag, list + [k.Item(true)]);
    LeadsOn(before, CloseOrOpen(kinds, last, indent, k) + tag, list + [k.Item(true)], Content(text), outer + Level(k));
    AfterSet(kinds, indent, k);
  }

  /** One line of text leads from the tags open before it to those open after it. */
  lemma LineLeads(st: State, raw: string)
    requires StateOk(st) && !IsCode(st, raw)
    ensures StateOk(NextState(st, raw))
    ensures Leads(OpenTags(st.kinds, st.last), LinePieces(st, raw),
                  OpenTags(NextState(st, raw).kinds, NextState(st, raw).last))
  {
    hide Leads, Content, CloseOrOpen, LineText, Escape, Indent, KindOf, PieceOk, OpenTags;
    TextLineLeads(st.kinds, st.last, Indent(raw), Escape(LineText(raw)));
  }

  /** A line of code leads as far as its tags do. */
  lemma CodeLeads(strict: bool, stack: seq<string>, before: string, indent: nat, line: string)
    requires indent >= 1 && '<' !in before && '\n' !in line
    requires Scan(line).Some? && Walk(strict, stack, Scan(line).value).Some?
    ensures Steps(strict, stack, CodePieces(before, indent, line), Walk(strict, stack, Scan(line).value).value)
  {
    hide Steps, Scan, Walk, Leads;
    var to := Walk(strict, stack, Scan(line).value).value;
    var first, code, last := [Txt(before + Spaces(indent - 1))], [Code(line, CodeTags(line))], [Txt("\n")];
    TextLeads(stack, before + Spaces(indent - 1));
    LeadsSteps(strict, stack, first, stack);
    OnePieceSteps(strict, stack, Code(line, CodeTags(line)), to);
    TextLeads(to, "\n");
    LeadsSteps(strict, to, last, to);
    StepsOn(strict, stack, first, stack, code, to);
    StepsOn(strict, stack, first + code, to, last, to);
    assert first + code + last == CodePieces(before, indent, line);
  }

  lemma OnePieceSteps(strict: bool, stack: seq<string>, p: Piece, to: seq<string>)
    requires PieceOk(p) && Walk(strict, stack, TokenOf(p)) == Some(to)
    ensures Steps(strict, stack, [p], to)
  {
    TokensOfOne(p);
  }

  lemma TrimNoNewline(raw: string)
    requires '\n' !in raw
    ensures '\n' !in LineText(raw)
  {
    TrimHas(raw, ' ', '\n');
  }

  lemma {:induction false} LinesLead(strict: bool, lines: seq<string>, n: nat)
    requires n <= |lines| && CodeBalanced(strict, lines) && AreLines(lines)
    ensures StateOk(StateAfter(lines, n)) && CodeStack(strict, lines, n).Some?
    ensures Steps(strict, [], PiecesOf(lines, n), CodeStack(strict, lines, n).value)
  {
    hide *;
    if n == 0 {
      NoLines(strict, lines);
    } else {
      LinesLead(strict, lines, n - 1);
      BalancedNext(strict, lines, n - 1);
      NextLineLeads(strict, lines, n - 1);
      NextPieces(lines, n - 1);
      StepsOn(strict, [], PiecesOf(lines, n - 1), CodeStack(strict, lines, n - 1).value,
              LinePieces(StateAfter(lines, n - 1), lines[n - 1]),
              CodeStack(strict, lines, n).value);
    }
  }

  lemma NoLines(strict: bool, lines: seq<string>)
    ensures StateOk(StateAfter(lines, 0)) && CodeStack(strict, lines, 0) == Some([]) && Steps(strict, [], PiecesOf(lines, 0), [])
  {
    NoPieces([]);
    LeadsSteps(strict, [], [], []);
  }

  lemma NextPieces(lines: seq<string>, n: nat)
    requires n < |lines|
    ensures PiecesOf(lines, n + 1) == PiecesOf(lines, n) + LinePieces(StateAfter(lines, n), lines[n])
    ensures StateAfter(lines, n + 1) == NextState(StateAfter(lines, n), lines[n])
  {
    hide LinePieces, NextState;
  }

  lemma BalancedNext(strict: bool, lines: seq<string>, n: nat)
    requires n < |lines| && CodeBalanced(strict, lines)
    ensures CodeStack(strict, lines, n).Some? && CodeStack(strict, lines, n + 1).Some?
    ensures IsCode(StateAfter(lines, n), lines[n]) || CodeClosed(strict, lines, n)
  {
    hide CodeStack, CodeClosed, IsCode, StateAfter;
  }

  /** The next line, of text or code, leads from the tags open before it to those open after it. */
  lemma NextLineLeads(strict: bool, lines: seq<string>, n: nat)
    requires n < |lines| && AreLines(lines) && StateOk(StateAfter(lines, n))
    requires CodeStack(strict, lines, n).Some? && CodeStack(strict, lines, n + 1).Some?
    requires IsCode(StateAfter(lines, n), lines[n]) || CodeClosed(strict, lines, n)
    ensures StateOk(NextState(StateAfter(lines, n), lines[n]))
    ensures Steps(strict, CodeStack(strict, lines, n).value, LinePieces(StateAfter(lines, n), lines[n]),
                  CodeStack(strict, lines, n + 1).value)
  {
    hide Leads, Steps, LinePieces, Walk, Scan, OpenTags, LineText, Indent, KindOf, Set;
    var st, raw := StateAfter(lines, n), lines[n];
    if IsCode(st, raw) {
      TrimNoNewline(raw);
      CodeLeads(strict, CodeStack(strict, lines, n).value, if st.inCode then "" else "\n", Indent(raw), LineText(raw));
      CodeLinePieces(st, raw);
    } else {
      LineLeads(st, raw);
      LeadsSteps(strict, CodeStack(strict, lines, n).value, LinePieces(st, raw), CodeStack(strict, lines, n + 1).value);
    }
  }

  lemma CodeLinePieces(st: State, raw: string)
    requires IsCode(st, raw)
    ensures LinePieces(st, raw) == CodePieces(if st.inCode then "" else "\n", Indent(raw), LineText(raw))
    ensures NextState(st, raw).kinds == st.kinds && NextState(st, raw).last == st.last
  {
  }

  /** For any lines, with any indents and of any kinds, whose stretches of code are balanced, the document closes
      every tag that it opens and the validator accepts the page; if moreover lists have only their own children in
      the code, they have so in the whole document. */
  lemma DocumentWellNested(lines: seq<string>)
    requires AreLines(lines)
    ensures CodeBalanced(false, lines) ==> Scan(Html(lines)) == Some(Tokens(Document(lines))) && Accepted([], Html(lines))
    ensures CodeBalanced(true, lines) ==> CodeBalanced(false, lines) && Nest([], Tokens(Document(lines))) == Some([])
  {
    hide *;
    if CodeBalanced(true, lines) {
      StrictBalanced(lines);
      DocumentSteps(true, lines);
      StepsAre(true, Document(lines));
    }
    if CodeBalanced(false, lines) {
      DocumentSteps(false, lines);
      StepsAre(false, Document(lines));
      TrimKeepsTags(Document(lines));
      PageAccepted(lines);
    }
  }

  lemma DocumentSteps(strict: bool, lines: seq<string>)
    requires AreLines(lines) && CodeBalanced(strict, lines)
    ensures Steps(strict, [], Document(lines), [])
  {
    LinesLead(strict, lines, |lines|);
    assert CodeClosed(strict, lines, |lines|);
    hide Steps, Leads, CloseOrOpen, PiecesOf, StateAfter, CodeBalanced, AreLines, CodeStack, OpenTags;
    var st := StateAfter(lines, |lines|);
    var end := OpenTags(st.kinds, st.last);
    CloseOrOpenLeads(st.kinds, st.last, 1, Nothing);
    NothingOpen(st.kinds);
    LeadsSteps(strict, end, CloseOrOpen(st.kinds, st.last, 1, Nothing), []);
    StepsOn(strict, [], PiecesOf(lines, |lines|), end, CloseOrOpen(st.kinds, st.last, 1, Nothing), []);
  }

  lemma StepsAre(strict: bool, ps: seq<Piece>)
    requires Steps(strict, [], ps, [])
    ensures PiecesOk(ps) && (if strict then Nest([], Tokens(ps)) else Apply([], Tokens(ps))) == Some([])
  {
  }

  lemma PageAccepted(lines: seq<string>)
    requires PiecesOk(Document(lines)) && Apply([], Tokens(Document(lines))) == Some([])
    requires Scan(TrimNewlines(Flat(Document(lines))) + "\n") == Some(Tokens(Document(lines)))
    ensures Scan(Html(lines)) == Some(Tokens(Document(lines))) && Accepted([], Html(lines))
  {
    hide Document, Scan, Flat, TrimNewlines, Apply, Tokens;
  }

  /** Code that keeps to the children of lists is balanced without that too. */
  lemma StrictBalanced(lines: seq<string>)
    requires CodeBalanced(true, lines)
    ensures CodeBalanced(false, lines)
  {
    hide CodeStack, StateAfter, IsCode, OpenTags;
    forall n | 0 <= n <= |lines|
      ensures CodeStack(false, lines, n) == CodeStack(true, lines, n)
    {
      StrictStack(lines, n);
    }
  }

  lemma {:induction false} StrictStack(lines: seq<string>, n: nat)
    requires n <= |lines|
    ensures CodeStack(true, lines, n).Some? ==> CodeStack(false, lines, n) == CodeStack(true, lines, n)
  {
    if n > 0 {
      hide StateAfter, LineText, Scan, Nest, Apply, OpenTags, IsCode;
      StrictStack(lines, n - 1);
      var before, tags := CodeStack(true, lines, n - 1), Scan(LineText(lines[n - 1]));
      if before.Some? && tags.Some? {
        NestIsApply(before.value, tags.value);
      }
    }
  }

  lemma NothingOpen(kinds: Kinds)
    ensures OpenTags(kinds, 0) == [] && OpenTags(kinds, 0) + ListLevel(Nothing) == []
  {
  }

  lemma {:induction false} PlainCodeBalanced(strict: bool, lines: seq<string>, n: nat)
    requires n <= |lines|
    requires forall k :: 0 <= k < |lines| && IsCode(StateAfter(lines, k), lines[k]) ==> '<' !in LineText(lines[k])
    ensures CodeClosed(strict, lines, n)
  {
    hide LineText, Indent, KindOf, Set, Scan, OpenTags, Escape, EndsInCode;
    if n == 0 {
      NothingBeyond([], 0, 1);
      NothingOpen([]);
    } else {
      PlainCodeBalanced(strict, lines, n - 1);
      var st, raw := StateAfter(lines, n - 1), lines[n - 1];
      if IsCode(st, raw) {
        CodeLinePieces(st, raw);
        ScanText(LineText(raw), "");
        assert LineText(raw) + "" == LineText(raw);
        ScanNothing();
      }
    }
  }

  /** Code without less-than signs is well nested in itself. */
  lemma PlainCode(strict: bool, lines: seq<string>)
    requires forall k :: 0 <= k < |lines| && IsCode(StateAfter(lines, k), lines[k]) ==> '<' !in LineText(lines[k])
    ensures CodeBalanced(strict, lines)
  {
    hide CodeStack, StateAfter, LineText;
    forall n | 0 <= n <= |lines|
      ensures CodeClosed(strict, lines, n) && CodeStack(strict, lines, n).Some?
    {
      PlainCodeBalanced(strict, lines, n);
    }
  }

  lemma CodeDocument()
    ensures Document(["`<p>"]) == [Txt("\n"), Code("`<p>", CodeTags("`<p>")), Txt("\n")]
  {
    hide CloseOrOpen, CodeTags;
    var lines := ["`<p>"];
    assert StateAfter(lines, 0) == State([], 1, false);
    assert LineText("`<p>") == "`<p>" && Indent("`<p>") == 1 && Spaces(0) == "";
    CodeLinePieces(State([], 1, false), "`<p>");
    assert "\n" + Spaces(0) == "\n";
    assert PiecesOf(lines, 0) == [];
    assert PiecesOf(lines, 1) == LinePieces(State([], 1, false), "`<p>");
    assert StateAfter(lines, 1) == State([], 1, true);
    NothingToClose();
  }

  lemma NothingToClose()
    ensures CloseOrOpen([], 1, 1, Nothing) == []
  {
  }

  lemma TokensOfTags(text: string, name: string)
    ensures TokenOf(Txt(text)) + TokenOf(OpenTag(name, "")) == [Open(name)]
  {
  }

  lemma OneParagraph()
    ensures Scan("`<p>") == Some([Open("p")])
  {
    hide Scan, TokenOf, Tokens;
    var a, b := Txt("`"), OpenTag("p", "");
    assert [a, b][1..] == [b] && [b][1..] == [];
    assert Flat([]) == "" && Flat([b]) == "<p>";
    assert Flat([a, b]) == "`<p>";
    ScanPieces([a, b]);
    TokensSplit([a], [b]);
    assert [a] + [b] == [a, b];
    TokensOfOne(a);
    TokensOfOne(b);
    TokensOfTags("`", "p");
  }

  /** Code blocks are copied without change, so a tag in one can break the page. */
  lemma CodeCanBreak()
    ensures !Accepted([], Html(["`<p>"]))
  {
    hide Document, Scan, TrimNewlines, Flat;
    var ps := [Txt("\n"), Code("`<p>", CodeTags("`<p>")), Txt("\n")];
    CodeDocument();
    OneParagraph();
    assert ps[1..] == [Code("`<p>", CodeTags("`<p>")), Txt("\n")] && ps[1..][1..] == [Txt("\n")] && ps[1..][1..][1..] == [];
    assert Tokens(ps) == [Open("p")];
    TrimKeepsTags(ps);
    assert [Open("p")][1..] == [];
  }

  // ----- the conversion -----

  lemma NoText()
    ensures Flat([]) == ""
  {
  }

  lemma Appended(s: string, ps: seq<Piece>, qs: seq<Piece>)
    ensures (s + Flat(ps)) + Flat(qs) == s + Flat(ps + qs)
  {
    FlatSplit(ps, qs);
  }

  lemma CloseDownStep(kinds: Kinds, closed: seq<Piece>, from: nat, to: nat)
    requires from > to >= 1
    ensures (closed + (CloseItem(At(kinds, from)) + CloseList(At(kinds, from)))) + CloseDown(kinds, from - 1, to)
            == closed + CloseDown(kinds, from, to)
  {
    hide CloseItem, CloseList, At;
    var a, b := CloseItem(At(kinds, from)) + CloseList(At(kinds, from)), CloseDown(kinds, from - 1, to);
    assert CloseDown(kinds, from, to) == a + b;
    assert (closed + a) + b == closed + (a + b);
  }

  method CloseAndOrOpen(kinds0: Kinds, last0: nat, newIndent: nat, newKind: Kind, outp0: string)
    returns (kinds: Kinds, last: nat, outp: string)
    requires newIndent >= 1
    ensures kinds == Set(kinds0, newIndent, newKind) && last == newIndent
    ensures outp == outp0 + Flat(CloseOrOpen(kinds0, last0, newIndent, newKind))
  {
    hide Flat, CloseItem, CloseList, OpenList, At, Set;
    kinds, last, outp := kinds0, last0, outp0;
    NoText();
    ghost var closed: seq<Piece> := [];
    while last > newIndent
      invariant kinds == kinds0
      invariant closed + CloseDown(kinds, last, newIndent) == CloseDown(kinds, last0, newIndent)
      invariant outp == outp0 + Flat(closed)
    {
      var lastKind := At(kinds, last);
      var ps := CloseItem(lastKind) + CloseList(lastKind);
      outp := outp + Flat(ps);
      Appended(outp0, closed, ps);
      CloseDownStep(kinds, closed, last, newIndent);
      closed := closed + ps;
      last := last - 1;
    }
    assert closed + [] == closed;
    last := newIndent;
    var lastKind := At(kinds, last);
    var ps := CloseItem(lastKind);
    if lastKind != newKind {
      ps := ps + (CloseList(lastKind) + OpenList(newKind));
    }
    outp := outp + Flat(ps);
    Appended(outp0, closed, ps);
    assert closed + ps == CloseOrOpen(kinds0, last0, newIndent, newKind);
    kinds := Set(kinds, newIndent, newKind);
  }

  /** Converts one line that is not code. */
  method ConvertLine(kinds0: Kinds, last0: nat, raw: string, outp0: string)
    returns (kinds: Kinds, last: nat, outp: string)
    requires !IsCode(State(kinds0, last0, false), raw)
    ensures State(kinds, last, false) == NextState(State(kinds0, last0, false), raw)
    ensures outp == outp0 + Flat(LinePieces(State(kinds0, last0, false), raw))
  {
    hide Flat, KindOf, Content, CloseOrOpen, Escape, LineText, Indent, Set;
    var newIndent, line := Indent(raw), Escape(LineText(raw));
    var kind := KindOf(line);
    ghost var opening := CloseOrOpen(kinds0, last0, newIndent, kind);
    kinds, last, outp := CloseAndOrOpen(kinds0, last0, newIndent, kind, outp0);
    var ps := [Txt(Spaces(newIndent - 1)), OpenTag(kind.Item(true), "")] + Content(line);
    outp := outp + Flat(ps);
    Appended(outp0, opening, ps);
    assert LinePieces(State(kinds0, last0, false), raw) == opening + ps;
  }

  lemma CodeText(before: string, indent: nat, line: string)
    requires indent >= 1
    ensures Flat(CodePieces(before, indent, line)) == before + Spaces(indent - 1) + line + "\n"
    ensures "" + Spaces(indent - 1) == Spaces(indent - 1)
  {
    var ps := CodePieces(before, indent, line);
    assert ps[1..] == [Code(line, CodeTags(line)), Txt("\n")] && ps[1..][1..] == [Txt("\n")] && ps[1..][1..][1..] == [];
    assert Flat(ps[1..][1..]) == "\n";
    assert Flat(ps[1..]) == line + "\n";
    var front := before + Spaces(indent - 1);
    assert front + (line + "\n") == front + line + "\n";
  }

  /** Converts the lines of a text to HTML. */
  method Convert(lines: seq<string>) returns (html: string)
    ensures html == Html(lines)
    ensures AreLines(lines) && CodeBalanced(false, lines) ==> Accepted([], html)
  {
    hide Flat, TrimNewlines, Accepted, LineText, Indent, Set, CloseOrOpen, KindOf, Content, CodeBalanced, AreLines, CodePieces;
    var inCode, outp, last, kinds := false, "", 1, [];
    NoText();
    for n := 0 to |lines|
      invariant outp == Flat(PiecesOf(lines, n))
      invariant State(kinds, last, inCode) == StateAfter(lines, n)
    {
      var raw := lines[n];
      var line, newIndent := LineText(raw), Indent(raw);
      FlatSplit(PiecesOf(lines, n), LinePieces(StateAfter(lines, n), raw));
      if inCode {
        if EndsInCode(line) {
          inCode := false;
        }
        CodeText("", newIndent, line);
        outp := outp + (Spaces(newIndent - 1) + line + "\n");
      } else if "`" <= line {
        inCode := true;
        CodeText("\n", newIndent, line);
        outp := outp + ("\n" + Spaces(newIndent - 1) + line + "\n");
      } else {
        kinds, last, outp := ConvertLine(kinds, last, raw, outp);
      }
    }
    FlatSplit(PiecesOf(lines, |lines|), CloseOrOpen(kinds, last, 1, Nothing));
    kinds, last, outp := CloseAndOrOpen(kinds, last, 1, Nothing, outp);
    html := TrimNewlines(outp) + "\n";
    if AreLines(lines) && CodeBalanced(false, lines) {
      DocumentWellNested(lines);
    }
  }
}
