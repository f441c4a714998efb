/** Turning marked-up text into HTML: paragraphs, nested lists, definition lists, links and emphasis.
*/
module TextToHtml {
  import opened Common
  import opened TagValidator

  // ----- pieces of HTML -----

  /** The output is text, opening tags (with attributes), closing tags, and code with the tags in it. */
  datatype Piece =
    | Txt(text: string)
    | OpenTag(name: string, attrs: string)
    | CloseTag(name: string)
    | Code(code: string, tags: seq<Token>)

  function Render(p: Piece): string {
    match p
    case Txt(text) => text
    case OpenTag(name, attrs) => "<" + name + attrs + ">"
    case CloseTag(name) => "</" + name + ">"
    case Code(code, _) => code
  }

  function Flat(ps: seq<Piece>): string {
    if ps == [] then "" else Render(ps[0]) + Flat(ps[1..])
  }

  function TokenOf(p: Piece): seq<Token> {
    match p case Txt(_) => [] case OpenTag(n, _) => [Open(n)] case CloseTag(n) => [Close(n)] case Code(_, tags) => tags
  }

  function Tokens(ps: seq<Piece>): seq<Token> {
    if ps == [] then [] else TokenOf(ps[0]) + Tokens(ps[1..])
  }

  /** The names used: one or two lower-case letters, not those of a self-closing element. */
  predicate TagName(n: string) {
    1 <= |n| <= 2 && (forall k :: 0 <= k < |n| ==> 'a' <= n[k] <= 'z') && n != "br" && n != "hr"
  }

  ghost predicate PieceOk(p: Piece) {
    match p
    case Txt(text) => '<' !in text
    case OpenTag(name, attrs) => TagName(name) && '>' !in attrs && '\n' !in attrs && (attrs != "" ==> attrs[0] == ' ')
    case CloseTag(name) => TagName(name)
    case Code(code, tags) => '\n' !in code && Scan(code) == Some(tags)
  }

  ghost predicate PiecesOk(ps: seq<Piece>) {
    forall i :: 0 <= i < |ps| ==> PieceOk(ps[i])
  }

  lemma {:induction false} FlatSplit(a: seq<Piece>, b: seq<Piece>)
    ensures Flat(a + b) == Flat(a) + Flat(b)
  {
    hide Render;
    if a == [] {
      assert a + b == b;
    } else {
      FlatSplit(a[1..], b);
      assert (a + b)[1..] == a[1..] + b;
      Associate(Render(a[0]), Flat(a[1..]), Flat(b));
    }
  }

  lemma TokensOfOne(p: Piece)
    ensures Tokens([p]) == TokenOf(p)
  {
    assert [p][1..] == [];
    assert TokenOf(p) + [] == TokenOf(p);
  }

  lemma {:induction false} TokensSplit(a: seq<Piece>, b: seq<Piece>)
    ensures Tokens(a + b) == Tokens(a) + Tokens(b)
  {
    if a == [] {
      assert a + b == b;
    } else {
      TokensSplit(a[1..], b);
      assert (a + b)[1..] == a[1..] + b && (a + b)[0] == a[0];
      hide *;
      Associate(TokenOf(a[0]), Tokens(a[1..]), Tokens(b));
    }
  }

  // ----- the validator reads back the tags of the pieces -----

  lemma {:induction false} FindFirst(a: string, c: char, b: string)
    requires c !in a
    ensures Find(a + [c] + b, c) == |a|
  {
    if a != "" {
      FindFirst(a[1..], c, b);
      assert (a + [c] + b)[1..] == a[1..] + [c] + b;
    }
  }

  lemma {:induction false} FindNone(a: string, c: char)
    requires c !in a
    ensures Find(a, c) == |a|
  {
    if a != "" {
      FindNone(a[1..], c);
    }
  }

  lemma {:induction false} LowerLetters(n: string)
    requires forall k :: 0 <= k < |n| ==> 'a' <= n[k] <= 'z'
    ensures LowerName(n) == n && NameChars(n) && ' ' !in n && '>' !in n && '/' !in n && '\n' !in n
  {
    if n != "" {
      LowerLetters(n[1..]);
    }
  }

  lemma NameFacts(n: string)
    requires TagName(n)
    ensures ' ' !in n && '>' !in n && '/' !in n && '\n' !in n && IsAlpha(n[0])
    ensures LowerName(n) == n && ValidName(n) && !SelfClosing(n)
  {
    LowerLetters(n);
    forall m | m in SELF_CLOSING
      ensures |m| > 2 || m == "br" || m == "hr"
    {
    }
  }

  lemma NameOfOpen(name: string, attrs: string)
    requires PieceOk(OpenTag(name, attrs))
    ensures NameOf(name + attrs) == name
  {
    NameFacts(name);
    if attrs == "" {
      assert name + attrs == name;
      FindNone(name, ' ');
    } else {
      FindFirst(name, ' ', attrs[1..]);
      assert name + attrs == name + [' '] + attrs[1..];
    }
  }

  lemma ReadOpen(name: string, attrs: string, rest: string)
    requires PieceOk(OpenTag(name, attrs))
    ensures ReadTag(Render(OpenTag(name, attrs)) + rest) == Emit(Open(name), |Render(OpenTag(name, attrs))|)
  {
    hide NameOf, LowerName, ValidName, SelfClosing;
    NameFacts(name);
    NameOfOpen(name, attrs);
    var content := name + attrs;
    var s := Render(OpenTag(name, attrs)) + rest;
    assert s == ("<" + content) + ['>'] + rest;
    FindFirst("<" + content, '>', rest);
    Between(content, rest);
  }

  lemma Between(content: string, rest: string)
    ensures (("<" + content) + ['>'] + rest)[1..|content| + 1] == content
  {
  }

  lemma CloseShape(name: string, rest: string)
    ensures Render(CloseTag(name)) + rest == ("<" + ("/" + name)) + ['>'] + rest
    ensures ("/" + name)[1..] == name
  {
  }

  lemma ReadClose(name: string, rest: string)
    requires TagName(name)
    ensures ReadTag(Render(CloseTag(name)) + rest) == Emit(Close(name), |Render(CloseTag(name))|)
  {
    hide LowerName, ValidName, SelfClosing, Find, FindText, TagName;
    NameFacts(name);
    var s := Render(CloseTag(name)) + rest;
    CloseShape(name, rest);
    FindFirst("<" + ("/" + name), '>', rest);
    Between("/" + name, rest);
  }

  lemma {:induction false} ScanText(text: string, rest: string)
    requires '<' !in text
    ensures Scan(text + rest) == Scan(rest)
  {
    if text == "" {
      assert text + rest == rest;
    } else {
      ScanText(text[1..], rest);
      assert (text + rest)[1..] == text[1..] + rest;
    }
  }

  lemma {:induction false} FindMore(s: string, c: char, rest: string)
    requires Find(s, c) < |s|
    ensures Find(s + rest, c) == Find(s, c)
  {
    if s[0] != c {
      FindMore(s[1..], c, rest);
      assert (s + rest)[1..] == s[1..] + rest;
    }
  }

  lemma StartsMore(pat: string, s: string, rest: string)
    requires |pat| <= |s|
    ensures pat <= s <==> pat <= s + rest
  {
    if pat <= s + rest {
      assert forall i :: 0 <= i < |pat| ==> (s + rest)[i] == s[i];
    }
  }

  lemma {:induction false} FindTextMore(s: string, pat: string, rest: string)
    requires FindText(s, pat).Some?
    ensures FindText(s + rest, pat) == FindText(s, pat)
    decreases |s|
  {
    if |pat| <= |s| {
      StartsMore(pat, s, rest);
    }
    if !(pat <= s) {
      FindTextMore(s[1..], pat, rest);
      assert (s + rest)[1..] == s[1..] + rest;
    }
  }

  /** A tag, or what is passed over, is read as it is whatever follows. */
  lemma ReadTagMore(s: string, rest: string)
    requires s != "" && s[0] == '<' && !ReadTag(s).Fail?
    ensures ReadTag(s + rest) == ReadTag(s)
  {
    hide NameOf, LowerName, ValidName, SelfClosing, Find, FindText;
    FindMore(s, '>', rest);
    var end := Find(s, '>');
    assert (s + rest)[1..end] == s[1..end];
    if FindText(s, "-->").Some? {
      FindTextMore(s, "-->", rest);
    }
  }

  /** A text of whole tags is scanned alike whatever follows. */
  lemma {:induction false} ScanMore(s: string, rest: string)
    requires Scan(s).Some?
    ensures Scan(s + rest) == Prepend(Scan(s).value, Scan(rest))
    decreases |s|
  {
    if s == "" {
      assert s + rest == rest;
      PrependNothing(Scan(rest));
    } else if s[0] != '<' {
      assert (s + rest)[1..] == s[1..] + rest;
      ScanMore(s[1..], rest);
    } else {
      ScanAtTag(s);
      ReadTagMore(s, rest);
      ScanAtTag(s + rest);
      hide ReadTag, Scan, Prepend;
      var step := ReadTag(s);
      SliceMore(s, step.next, rest);
      ScanMore(s[step.next..], rest);
      if step.Emit? {
        PrependTwice([step.token], Scan(s[step.next..]).value, Scan(rest));
      }
    }
  }

  lemma SliceMore(s: string, n: nat, rest: string)
    requires n <= |s|
    ensures (s + rest)[n..] == s[n..] + rest
  {
  }

  lemma ScanAtTag(s: string)
    requires s != "" && s[0] == '<'
    ensures ReadTag(s).Fail? ==> Scan(s) == None
    ensures ReadTag(s).Skip? ==> Scan(s) == Scan(s[ReadTag(s).next..])
    ensures ReadTag(s).Emit? ==> Scan(s) == Prepend([ReadTag(s).token], Scan(s[ReadTag(s).next..]))
    ensures ReadTag(s).Emit? && Scan(s).Some? ==>
      && Scan(s[ReadTag(s).next..]).Some?
      && Scan(s).value == [ReadTag(s).token] + Scan(s[ReadTag(s).next..]).value
  {
    hide ReadTag;
  }

  lemma PrependNothing(r: Option<seq<Token>>)
    ensures Prepend([], r) == r
  {
    assert r.Some? ==> [] + r.value == r.value;
  }

  lemma PrependTwice(a: seq<Token>, b: seq<Token>, r: Option<seq<Token>>)
    ensures Prepend(a, Prepend(b, r)) == Prepend(a + b, r)
  {
    assert r.Some? ==> a + (b + r.value) == a + b + r.value;
  }

  lemma ScanPiece(p: Piece, rest: string)
    requires PieceOk(p)
    ensures Scan(Render(p) + rest) == Prepend(Tokens([p]), Scan(rest))
  {
    hide ReadTag;
    assert [p][1..] == [];
    assert (Render(p) + rest)[|Render(p)|..] == rest;
    match p
    case Txt(text) =>
      ScanText(text, rest);
      assert Tokens([p]) == [];
      assert Scan(rest).Some? ==> [] + Scan(rest).value == Scan(rest).value;
    case OpenTag(name, attrs) =>
      ReadOpen(name, attrs, rest);
      assert Tokens([p]) == [Open(name)];
    case CloseTag(name) =>
      ReadClose(name, rest);
      assert Tokens([p]) == [Close(name)];
    case Code(code, tags) =>
      ScanMore(code, rest);
      assert Tokens([p]) == tags;
  }

  lemma {:induction false} ScanPieces(ps: seq<Piece>)
    requires PiecesOk(ps)
    ensures Scan(Flat(ps)) == Some(Tokens(ps))
  {
    hide Scan;
    if ps == [] {
      assert Scan("") == Some([]) by {
        ScanNothing();
      }
    } else {
      ScanPieces(ps[1..]);
      ScanPiece(ps[0], Flat(ps[1..]));
      TokensSplit([ps[0]], ps[1..]);
      assert [ps[0]] + ps[1..] == ps;
    }
  }

  lemma ScanNothing()
    ensures Scan("") == Some([])
  {
  }

  // ----- nesting, with the children that lists may have -----

  /** Items are the children of lists and of nothing else, terms and definitions those of definition lists. */
  predicate ChildOk(stack: seq<string>, name: string) {
    && (name == "li" <==> Top(stack, "ul") || Top(stack, "ol"))
    && (name == "dt" || name == "dd" <==> Top(stack, "dl"))
  }

  /** Like `Apply`, but also checks the children of lists. */
  function Nest(stack: seq<string>, toks: seq<Token>): Option<seq<string>>
    decreases |toks|
  {
    if toks == [] then Some(stack)
    else match toks[0]
      case Open(name) => if ChildOk(stack, name) then Nest(Push(stack, name), toks[1..]) else None
      case Close(name) => if Top(stack, name) then Nest(stack[..|stack| - 1], toks[1..]) else None
  }

  lemma {:induction false} NestSplit(stack: seq<string>, a: seq<Token>, b: seq<Token>)
    ensures Nest(stack, a + b) == if Nest(stack, a).Some? then Nest(Nest(stack, a).value, b) else None
    decreases |a|
  {
    if a == [] {
      assert a + b == b;
    } else {
      assert (a + b)[1..] == a[1..] + b;
      match a[0]
      case Open(name) =>
        if ChildOk(stack, name) {
          NestSplit(Push(stack, name), a[1..], b);
        }
      case Close(name) =>
        if Top(stack, name) {
          NestSplit(stack[..|stack| - 1], a[1..], b);
        }
    }
  }

  lemma {:induction false} NestIsApply(stack: seq<string>, toks: seq<Token>)
    ensures Nest(stack, toks).Some? ==> Apply(stack, toks) == Nest(stack, toks)
    decreases |toks|
  {
    if toks != [] {
      match toks[0]
      case Open(name) => NestIsApply(Push(stack, name), toks[1..]);
      case Close(name) =>
        if Top(stack, name) {
          NestIsApply(stack[..|stack| - 1], toks[1..]);
        }
    }
  }

  /** Pieces that are well formed and take one stack of open tags to another. */
  ghost predicate Leads(from: seq<string>, ps: seq<Piece>, to: seq<string>) {
    PiecesOk(ps) && Nest(from, Tokens(ps)) == Some(to)
  }

  lemma LeadsOn(a: seq<string>, ps: seq<Piece>, b: seq<string>, qs: seq<Piece>, c: seq<string>)
    requires Leads(a, ps, b) && Leads(b, qs, c)
    ensures Leads(a, ps + qs, c)
  {
    TokensSplit(ps, qs);
    NestSplit(a, Tokens(ps), Tokens(qs));
  }

  /** The open tags after some tags, with the check of the children of lists or, as the validator does, without it. */
  function Walk(strict: bool, stack: seq<string>, toks: seq<Token>): Option<seq<string>> {
    if strict then Nest(stack, toks) else Apply(stack, toks)
  }

  ghost predicate Steps(strict: bool, from: seq<string>, ps: seq<Piece>, to: seq<string>) {
    PiecesOk(ps) && Walk(strict, from, Tokens(ps)) == Some(to)
  }

  lemma LeadsSteps(strict: bool, from: seq<string>, ps: seq<Piece>, to: seq<string>)
    requires Leads(from, ps, to)
    ensures Steps(strict, from, ps, to)
  {
    hide Nest, Apply;
    NestIsApply(from, Tokens(ps));
  }

  lemma StepsOn(strict: bool, a: seq<string>, ps: seq<Piece>, b: seq<string>, qs: seq<Piece>, c: seq<string>)
    requires Steps(strict, a, ps, b) && Steps(strict, b, qs, c)
    ensures Steps(strict, a, ps + qs, c)
  {
    hide Nest, Apply, Tokens;
    TokensSplit(ps, qs);
    NestSplit(a, Tokens(ps), Tokens(qs));
    ApplySplit(a, Tokens(ps), Tokens(qs));
  }

  // ----- inline markup -----

  function Escape(s: string): (r: string)
    ensures '<' !in r && '>' !in r
  {
    if s == "" then ""
    else (match s[0] case '&' => "&amp;" case '<' => "&lt;" case '>' => "&gt;" case c => [c]) + Escape(s[1..])
  }

  predicate UrlChar(c: char) {
    'a' <= c <= 'z' || 'A' <= c <= 'Z' || '0' <= c <= '9' || c in {'/', '_', '&', '=', '.', ':'}
  }

  predicate WordChar(c: char) {
    'a' <= c <= 'z' || 'A' <= c <= 'Z' || '0' <= c <= '9' || c in {'_', '.', '[', ']'}
  }

  /** How many characters at the start of a text satisfy `f`. */
  function Run(s: string, f: char -> bool): (n: nat)
    ensures n <= |s| && forall k :: 0 <= k < n ==> f(s[k])
  {
    if s == "" || !f(s[0]) then 0 else 1 + Run(s[1..], f)
  }

  predicate UrlText(s: string) {
    '>' !in s && '\n' !in s && '<' !in s
  }

  /** The length of the link at the start of a text, or 0. */
  function LinkLength(s: string): (n: nat)
    ensures n <= |s| && UrlText(s[..n])
  {
    var head := if "http:/" <= s then 6 else if "https:/" <= s then 7 else 0;
    if head == 0 then 0
    else
      var n := Run(s[head..], UrlChar);
      if n == 0 then 0
      else
        assert forall k :: 0 <= k < head + n ==> UrlChar(s[k]) by {
          assert forall k :: head <= k < head + n ==> s[k] == s[head..][k - head];
        }
        head + n
  }

  function FirstLink(s: string): (i: nat)
    ensures i <= |s| && (i < |s| ==> LinkLength(s[i..]) > 0)
  {
    if s == "" || LinkLength(s) > 0 then 0
    else
      var j := FirstLink(s[1..]);
      assert s[j + 1..] == s[1..][j..];
      j + 1
  }

  /** The text with its links made into anchors. */
  function Links(s: string): (ps: seq<Piece>)
    ensures |ps| > 0
    decreases |s|
  {
    var i := FirstLink(s);
    if i == |s| then [Txt(s)]
    else
      var n := LinkLength(s[i..]);
      var url := s[i..i + n];
      [Txt(s[..i]), OpenTag("a", " href=\"" + url + "\""), Txt(url), CloseTag("a")] + Links(s[i + n..])
  }

  /** Emphasised text, and the text that follows it. */
  function Emphasised(text: string, after: string): seq<Piece> {
    [OpenTag("em", ""), Txt(text), CloseTag("em"), Txt(after)]
  }

  /** Emphasises a phrase before a double colon, or else a word before a colon, at the start of a line. */
  function Emphasis(ps: seq<Piece>): seq<Piece> {
    if ps == [] || !ps[0].Txt? then ps
    else
      var t := ps[0].text;
      var n := Run(t, c => WordChar(c) || c == ' ');
      var w := Run(t, WordChar);
      if n > 0 && "::" <= t[n..] && (n + 2 == |t| || t[n + 2] == ' ') then
        Emphasised(t[..n] + ":", t[n + 2..]) + ps[1..]
      else if w > 0 && ":" <= t[w..] then
        Emphasised(t[..w] + ":", " " + if " " <= t[w + 1..] then t[w + 2..] else t[w + 1..]) + ps[1..]
      else ps
  }

  /** No list is open inside an item, so links and emphasis may stand there. */
  predicate Inline(stack: seq<string>) {
    !Top(stack, "ul") && !Top(stack, "ol") && !Top(stack, "dl")
  }

  lemma TextLeads(stack: seq<string>, text: string)
    requires '<' !in text
    ensures Leads(stack, [Txt(text)], stack)
  {
    assert [Txt(text)][1..] == [];
  }

  lemma OpenLeads(stack: seq<string>, name: string, attrs: string)
    requires PieceOk(OpenTag(name, attrs)) && ChildOk(stack, name)
    ensures Leads(stack, [OpenTag(name, attrs)], Push(stack, name))
  {
    assert [OpenTag(name, attrs)][1..] == [];
    assert [Open(name)][1..] == [];
  }

  lemma CloseLeads(stack: seq<string>, name: string)
    requires TagName(name)
    ensures Leads(Push(stack, name), [CloseTag(name)], stack)
  {
    assert [CloseTag(name)][1..] == [];
    assert [Close(name)][1..] == [];
    assert Push(stack, name)[..|stack|] == stack;
  }

  /** Text, and then text between the tags of an inline element. */
  lemma InlineLeads(stack: seq<string>, before: string, name: string, attrs: string, inside: string)
    requires Inline(stack) && '<' !in before && '<' !in inside
    requires name in {"a", "em"} && PieceOk(OpenTag(name, attrs))
    ensures Leads(stack, [Txt(before), OpenTag(name, attrs), Txt(inside), CloseTag(name)], stack)
  {
    hide Leads;
    var inner := Push(stack, name);
    TextLeads(stack, before);
    OpenLeads(stack, name, attrs);
    TextLeads(inner, inside);
    CloseLeads(stack, name);
    LeadsOn(stack, [Txt(before)], stack, [OpenTag(name, attrs)], inner);
    LeadsOn(stack, [Txt(before)] + [OpenTag(name, attrs)], inner, [Txt(inside)], inner);
    LeadsOn(stack, [Txt(before)] + [OpenTag(name, attrs)] + [Txt(inside)], inner, [CloseTag(name)], stack);
    assert [Txt(before)] + [OpenTag(name, attrs)] + [Txt(inside)] + [CloseTag(name)]
        == [Txt(before), OpenTag(name, attrs), Txt(inside), CloseTag(name)];
  }

  /** A link and the text before it. */
  lemma LinkLeads(stack: seq<string>, before: string, url: string)
    requires Inline(stack) && '<' !in before && UrlText(url)
    ensures Leads(stack, [Txt(before), OpenTag("a", " href=\"" + url + "\""), Txt(url), CloseTag("a")], stack)
  {
    InlineLeads(stack, before, "a", " href=\"" + url + "\"", url);
  }

  lemma {:induction false} LinksNested(stack: seq<string>, s: string)
    requires '<' !in s && Inline(stack)
    ensures Leads(stack, Links(s), stack)
    decreases |s|
  {
    hide Leads, LinkLength, FirstLink, Inline;
    var i := FirstLink(s);
    if i < |s| {
      var n := LinkLength(s[i..]);
      var url := s[i..i + n];
      LinksNested(stack, s[i + n..]);
      assert url == s[i..][..n];
      LinkLeads(stack, s[..i], url);
      LeadsOn(stack, [Txt(s[..i]), OpenTag("a", " href=\"" + url + "\""), Txt(url), CloseTag("a")], stack,
              Links(s[i + n..]), stack);
    } else {
      TextLeads(stack, s);
    }
  }

  /** What a reader sees of pieces. */
  function TextOf(ps: seq<Piece>): string {
    if ps == [] then "" else (if ps[0].Txt? then ps[0].text else "") + TextOf(ps[1..])
  }

  /** Making anchors changes nothing of the text. */
  lemma {:induction false} LinksKeepText(s: string)
    ensures TextOf(Links(s)) == s
    decreases |s|
  {
    hide LinkLength, FirstLink;
    var i := FirstLink(s);
    if i < |s| {
      var n := LinkLength(s[i..]);
      var url, rest := s[i..i + n], s[i + n..];
      LinksKeepText(rest);
      FourPieces(Txt(s[..i]), OpenTag("a", " href=\"" + url + "\""), Txt(url), CloseTag("a"), Links(rest));
      assert s == s[..i] + (url + rest);
    } else {
      assert [Txt(s)][1..] == [];
    }
  }

  lemma FourPieces(a: Piece, b: Piece, c: Piece, d: Piece, ps: seq<Piece>)
    requires a.Txt? && !b.Txt? && c.Txt? && !d.Txt?
    ensures TextOf([a, b, c, d] + ps) == a.text + (c.text + TextOf(ps))
  {
    TextOfFirst(d, ps);
    TextOfFirst(c, [d] + ps);
    TextOfFirst(b, [c] + ([d] + ps));
    TextOfFirst(a, [b] + ([c] + ([d] + ps)));
    assert [a, b, c, d] + ps == [a] + ([b] + ([c] + ([d] + ps)));
  }

  lemma TextOfFirst(p: Piece, ps: seq<Piece>)
    ensures TextOf([p] + ps) == if p.Txt? then p.text + TextOf(ps) else TextOf(ps)
  {
    assert ([p] + ps)[1..] == ps;
  }

  lemma SameTokens(stack: seq<string>, ps: seq<Piece>, qs: seq<Piece>)
    requires Leads(stack, ps, stack) && PiecesOk(qs) && Tokens(qs) == Tokens(ps)
    ensures Leads(stack, qs, stack)
  {
  }

  lemma TextFirst(text: string, ps: seq<Piece>)
    ensures Tokens([Txt(text)] + ps) == Tokens(ps)
  {
    assert ([Txt(text)] + ps)[1..] == ps;
    assert [] + Tokens(ps) == Tokens(ps);
  }

  lemma EmphasisedNested(stack: seq<string>, text: string, after: string)
    requires Inline(stack) && '<' !in text && '<' !in after
    ensures Leads(stack, Emphasised(text, after), stack)
  {
    hide Nest, Tokens;
    InlineLeads(stack, "", "em", "", text);
    TextLeads(stack, after);
    var em := [Txt(""), OpenTag("em", ""), Txt(text), CloseTag("em")];
    LeadsOn(stack, em, stack, [Txt(after)], stack);
    assert em + [Txt(after)] == [Txt("")] + Emphasised(text, after);
    TextFirst("", Emphasised(text, after));
    SameTokens(stack, em + [Txt(after)], Emphasised(text, after));
  }

  lemma EmphasisNested(stack: seq<string>, ps: seq<Piece>)
    requires Inline(stack) && Leads(stack, ps, stack)
    ensures Leads(stack, Emphasis(ps), stack)
  {
    hide Nest, Tokens, Run, Emphasised;
    if ps != [] && ps[0].Txt? {
      var t := ps[0].text;
      TextFirst(t, ps[1..]);
      assert [Txt(t)] + ps[1..] == ps;
      SameTokens(stack, ps, ps[1..]);
      var n := Run(t, c => WordChar(c) || c == ' ');
      var w := Run(t, WordChar);
      if n > 0 && "::" <= t[n..] && (n + 2 == |t| || t[n + 2] == ' ') {
        EmphasisedNested(stack, t[..n] + ":", t[n + 2..]);
        LeadsOn(stack, Emphasised(t[..n] + ":", t[n + 2..]), stack, ps[1..], stack);
      } else if w > 0 && ":" <= t[w..] {
        var after := " " + if " " <= t[w + 1..] then t[w + 2..] else t[w + 1..];
        EmphasisedNested(stack, t[..w] + ":", after);
        LeadsOn(stack, Emphasised(t[..w] + ":", after), stack, ps[1..], stack);
      }
    }
  }

  // ----- trimming newlines -----

  /** Whether `t` is `s` with some newlines left out. */
  ghost predicate Deleted(s: string, t: string)
    decreases |s|
  {
    if s == "" then t == ""
    else (t != "" && t[0] == s[0] && Deleted(s[1..], t[1..])) || (s[0] == '\n' && Deleted(s[1..], t))
  }

  function TrimFront(s: string, c: char): string {
    if s != "" && s[0] == c then TrimFront(s[1..], c) else s
  }

  function TrimBack(s: string, c: char): string {
    if s != "" && s[|s| - 1] == c then TrimBack(s[..|s| - 1], c) else s
  }

  /** Repeated characters `c` made into one. */
  function Squeeze(s: string, c: char): string {
    if |s| < 2 then s
    else if s[0] == c && s[1] == c then Squeeze(s[1..], c)
    else [s[0]] + Squeeze(s[1..], c)
  }

  function TrimNewlines(s: string): string {
    TrimBack(Squeeze(TrimFront(s, '\n'), '\n'), '\n')
  }

  lemma {:induction false} NoneDeleted(s: string)
    ensures Deleted(s, s)
  {
    if s != "" {
      NoneDeleted(s[1..]);
    }
  }

  lemma {:induction false} TrimFrontDeletes(s: string)
    ensures Deleted(s, TrimFront(s, '\n'))
  {
    if s != "" && s[0] == '\n' {
      TrimFrontDeletes(s[1..]);
    } else {
      NoneDeleted(s);
    }
  }

  lemma {:induction false} SqueezeDeletes(s: string)
    ensures Deleted(s, Squeeze(s, '\n'))
  {
    if |s| < 2 {
      NoneDeleted(s);
    } else {
      SqueezeDeletes(s[1..]);
      assert ([s[0]] + Squeeze(s[1..], '\n'))[1..] == Squeeze(s[1..], '\n');
    }
  }

  lemma {:induction false} LastDeleted(s: string)
    requires s != "" && s[|s| - 1] == '\n'
    ensures Deleted(s, s[..|s| - 1])
  {
    if |s| > 1 {
      LastDeleted(s[1..]);
      assert s[..|s| - 1][1..] == s[1..][..|s| - 2];
    } else {
      assert s[1..] == "";
    }
  }

  /** Leaving newlines out of pieces leaves the tags as they were: newlines only stand in the text. */
  lemma {:induction false} DeletedSplit(a: string, b: string, t: string) returns (x: string, z: string)
    requires Deleted(a + b, t)
    ensures t == x + z && Deleted(a, x) && Deleted(b, z)
  {
    if a == "" {
      assert a + b == b;
      x, z := "", t;
    } else {
      assert (a + b)[1..] == a[1..] + b;
      if t != "" && t[0] == a[0] && Deleted(a[1..] + b, t[1..]) {
        x, z := DeletedSplit(a[1..], b, t[1..]);
        x := [a[0]] + x;
        assert x[1..] + z == t[1..];
      } else {
        x, z := DeletedSplit(a[1..], b, t);
      }
    }
  }

  lemma {:induction false} NothingToDelete(s: string, t: string)
    requires Deleted(s, t) && '\n' !in s
    ensures t == s
  {
    if s != "" {
      NothingToDelete(s[1..], t[1..]);
    }
  }

  lemma {:induction false} DeletedHas(s: string, t: string, c: char)
    requires Deleted(s, t) && c !in s
    ensures c !in t
  {
    if s != "" {
      if t != "" && t[0] == s[0] && Deleted(s[1..], t[1..]) {
        DeletedHas(s[1..], t[1..], c);
      } else {
        DeletedHas(s[1..], t, c);
      }
    }
  }

  lemma TagHasNoNewline(p: Piece)
    requires PieceOk(p) && !p.Txt?
    ensures '\n' !in Render(p)
  {
    if p.OpenTag? || p.CloseTag? {
      NameFacts(p.name);
    }
  }

  lemma {:induction false} DeletedPieces(ps: seq<Piece>, t: string) returns (qs: seq<Piece>)
    requires PiecesOk(ps) && Deleted(Flat(ps), t)
    ensures PiecesOk(qs) && Flat(qs) == t && Tokens(qs) == Tokens(ps)
  {
    if ps == [] {
      qs := [];
    } else {
      hide Deleted;
      var p := ps[0];
      var x, z := DeletedSplit(Render(p), Flat(ps[1..]), t);
      qs := DeletedPieces(ps[1..], z);
      if p.Txt? {
        DeletedHas(p.text, x, '<');
        p := Txt(x);
      } else {
        TagHasNoNewline(p);
        NothingToDelete(Render(p), x);
      }
      assert ([p] + qs)[1..] == qs;
      qs := [p] + qs;
    }
  }

  lemma {:induction false} TrimBackPieces(ps: seq<Piece>) returns (qs: seq<Piece>)
    requires PiecesOk(ps)
    ensures PiecesOk(qs) && Flat(qs) == TrimBack(Flat(ps), '\n') && Tokens(qs) == Tokens(ps)
    decreases |Flat(ps)|
  {
    hide Flat, PiecesOk, Tokens, Deleted;
    var s := Flat(ps);
    if s != "" && s[|s| - 1] == '\n' {
      LastDeleted(s);
      qs := DeletedPieces(ps, s[..|s| - 1]);
      qs := TrimBackPieces(qs);
    } else {
      qs := ps;
    }
  }

  /** Trimming newlines does not change the tags. */
  lemma TrimKeepsTags(ps: seq<Piece>)
    requires PiecesOk(ps)
    ensures Scan(TrimNewlines(Flat(ps)) + "\n") == Some(Tokens(ps))
  {
    hide Scan, Deleted, Squeeze, TrimFront, TrimBack, PiecesOk;
    TrimFrontDeletes(Flat(ps));
    var qs := DeletedPieces(ps, TrimFront(Flat(ps), '\n'));
    SqueezeDeletes(Flat(qs));
    qs := DeletedPieces(qs, Squeeze(Flat(qs), '\n'));
    qs := TrimBackPieces(qs);
    EndLine(qs);
    ScanPieces(qs + [Txt("\n")]);
  }

  lemma EndLine(ps: seq<Piece>)
    requires PiecesOk(ps)
    ensures PiecesOk(ps + [Txt("\n")]) && Flat(ps + [Txt("\n")]) == Flat(ps) + "\n"
    ensures Tokens(ps + [Txt("\n")]) == Tokens(ps)
  {
    FlatSplit(ps, [Txt("\n")]);
    TokensSplit(ps, [Txt("\n")]);
    assert [Txt("\n")][1..] == [];
    assert Flat([Txt("\n")]) == "\n" && Tokens([Txt("\n")]) == [];
  }
}
