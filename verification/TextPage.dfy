/** What a reader sees of a page: the text of the lines without their markers. */
module TextPage {
  import opened Common
  import opened TagValidator
  import opened TextToHtml
  import opened TextDocument

  // ----- white space aside -----

  /** A text without blanks and newlines. */
  function Solid(s: string): string {
    if s == "" then "" else (if s[0] == ' ' || s[0] == '\n' then "" else [s[0]]) + Solid(s[1..])
  }

  lemma {:induction false} SolidSplit(a: string, b: string)
    ensures Solid(a + b) == Solid(a) + Solid(b)
  {
    if a == "" {
      assert a + b == b;
    } else {
      SolidSplit(a[1..], b);
      assert (a + b)[1..] == a[1..] + b && (a + b)[0] == a[0];
      var first := if a[0] == ' ' || a[0] == '\n' then "" else [a[0]];
      assert Solid(a) == first + Solid(a[1..]) && Solid(a + b) == first + Solid(a[1..] + b);
      hide *;
      Associate(first, Solid(a[1..]), Solid(b));
    }
  }

  lemma SolidThree(a: string, b: string, c: string)
    ensures Solid(a + b + c) == Solid(a) + Solid(b) + Solid(c)
  {
    hide *;
    SolidSplit(a + b, c);
    SolidSplit(a, b);
  }

  predicate IsWhite(s: string) {
    forall i :: 0 <= i < |s| ==> s[i] == ' ' || s[i] == '\n'
  }

  lemma {:induction false} WhiteIsNothing(s: string)
    requires IsWhite(s)
    ensures Solid(s) == ""
  {
    if s != "" {
      WhiteIsNothing(s[1..]);
    }
  }

  lemma {:induction false} FrontTrimmed(s: string)
    ensures Solid(TrimFront(s, ' ')) == Solid(s)
  {
    if s != "" && s[0] == ' ' {
      FrontTrimmed(s[1..]);
    }
  }

  lemma {:induction false} BackTrimmed(s: string)
    ensures Solid(TrimBack(s, ' ')) == Solid(s)
    decreases |s|
  {
    if s != "" && s[|s| - 1] == ' ' {
      BackTrimmed(s[..|s| - 1]);
      assert s == s[..|s| - 1] + " ";
      SolidSplit(s[..|s| - 1], " ");
      WhiteIsNothing(" ");
    }
  }

  // ----- escapes -----

  /** A browser's reading of the escapes of three characters. */
  function Unescaped(s: string): string
    decreases |s|
  {
    if s == "" then ""
    else if "&amp;" <= s then "&" + Unescaped(s[5..])
    else if "&lt;" <= s then "<" + Unescaped(s[4..])
    else if "&gt;" <= s then ">" + Unescaped(s[4..])
    else [s[0]] + Unescaped(s[1..])
  }

  /** What is escaped is read as it was, and no character of it can be taken for a tag. */
  lemma {:induction false} EscapeBack(s: string)
    ensures Unescaped(Escape(s)) == s && '<' !in Escape(s) && '>' !in Escape(s)
  {
    if s != "" {
      EscapeBack(s[1..]);
      EscapeFirst(s[0], s[1..]);
      UnescapeFirst(s[0], Escape(s[1..]));
      hide Unescaped, Escape;
      assert s == [s[0]] + s[1..];
    }
  }

  function EscapeOf(c: char): string {
    match c case '&' => "&amp;" case '<' => "&lt;" case '>' => "&gt;" case _ => [c]
  }

  lemma EscapeFirst(c: char, s: string)
    ensures Escape([c] + s) == EscapeOf(c) + Escape(s)
  {
    assert ([c] + s)[1..] == s;
  }

  lemma UnescapeFirst(c: char, e: string)
    ensures Unescaped(EscapeOf(c) + e) == [c] + Unescaped(e)
  {
    var s := EscapeOf(c) + e;
    if c == '&' {
      assert s[5..] == e;
    } else if c == '<' {
      assert s[1] == 'l' && s[4..] == e;
    } else if c == '>' {
      assert s[1] == 'g' && s[4..] == e;
    } else {
      assert s[0] == c && s[1..] == e;
    }
  }

  // ----- what stands outside tags -----

  /** What stands outside the tags of a page. */
  function Outside(s: string, inTag: bool): string {
    if s == "" then ""
    else if inTag then Outside(s[1..], s[0] != '>')
    else if s[0] == '<' then Outside(s[1..], true)
    else [s[0]] + Outside(s[1..], false)
  }

  function PieceText(p: Piece): string {
    match p case Txt(text) => text case Code(code, _) => code case _ => ""
  }

  /** The text of pieces, and code as it is. */
  function ReadText(ps: seq<Piece>): string {
    if ps == [] then "" else PieceText(ps[0]) + ReadText(ps[1..])
  }

  lemma {:induction false} ReadSplit(a: seq<Piece>, b: seq<Piece>)
    ensures ReadText(a + b) == ReadText(a) + ReadText(b)
  {
    if a == [] {
      assert a + b == b;
    } else {
      ReadSplit(a[1..], b);
      assert (a + b)[1..] == a[1..] + b;
      Associate(PieceText(a[0]), ReadText(a[1..]), ReadText(b));
    }
  }

  lemma ReadOne(p: Piece)
    ensures ReadText([p]) == PieceText(p)
  {
    assert [p][1..] == [];
    assert PieceText(p) + "" == PieceText(p);
  }

  lemma {:induction false} OutsideText(text: string, rest: string)
    requires '<' !in text
    ensures Outside(text + rest, false) == text + Outside(rest, false)
  {
    if text == "" {
      assert text + rest == rest;
    } else {
      OutsideText(text[1..], rest);
      assert (text + rest)[1..] == text[1..] + rest;
      assert [text[0]] + (text[1..] + Outside(rest, false)) == text + Outside(rest, false);
    }
  }

  lemma {:induction false} OutsideTag(inside: string, rest: string)
    requires '>' !in inside
    ensures Outside(inside + ">" + rest, true) == Outside(rest, false)
  {
    if inside == "" {
      assert inside + ">" + rest == ">" + rest && (">" + rest)[1..] == rest;
    } else {
      OutsideTag(inside[1..], rest);
      assert (inside + ">" + rest)[1..] == inside[1..] + ">" + rest;
    }
  }

  ghost predicate PlainPiece(p: Piece) {
    PieceOk(p) && (p.Code? ==> '<' !in p.code)
  }

  lemma OutsideOneTag(content: string, rest: string)
    requires '>' !in content
    ensures Outside(("<" + content + ">") + rest, false) == Outside(rest, false)
  {
    OutsideTag(content, rest);
    assert (("<" + content + ">") + rest)[1..] == content + ">" + rest;
  }

  lemma OutsideOpen(name: string, attrs: string, rest: string)
    requires PieceOk(OpenTag(name, attrs))
    ensures Outside(Render(OpenTag(name, attrs)) + rest, false) == Outside(rest, false)
  {
    NameFacts(name);
    assert Render(OpenTag(name, attrs)) == "<" + (name + attrs) + ">";
    hide *;
    OutsideOneTag(name + attrs, rest);
  }

  lemma OutsideClose(name: string, rest: string)
    requires TagName(name)
    ensures Outside(Render(CloseTag(name)) + rest, false) == Outside(rest, false)
  {
    NameFacts(name);
    assert Render(CloseTag(name)) == "<" + ("/" + name) + ">";
    hide *;
    OutsideOneTag("/" + name, rest);
  }

  lemma OutsidePiece(p: Piece, rest: string)
    requires PlainPiece(p)
    ensures Outside(Render(p) + rest, false) == PieceText(p) + Outside(rest, false)
  {
    hide Outside;
    match p
    case Txt(text) => OutsideText(text, rest);
    case Code(code, _) => OutsideText(code, rest);
    case OpenTag(name, attrs) =>
      OutsideOpen(name, attrs, rest);
      NothingBefore(Outside(rest, false));
      hide Render;
    case CloseTag(name) =>
      OutsideClose(name, rest);
      NothingBefore(Outside(rest, false));
      hide Render;
  }

  lemma NothingBefore(s: string)
    ensures "" + s == s
  {
  }

  /** Outside the tags of rendered pieces stands their text. */
  lemma {:induction false} OutsidePieces(ps: seq<Piece>)
    requires forall i :: 0 <= i < |ps| ==> PlainPiece(ps[i])
    ensures Outside(Flat(ps), false) == ReadText(ps)
  {
    if ps != [] {
      hide Render, PlainPiece, Outside;
      OutsidePieces(ps[1..]);
      OutsidePiece(ps[0], Flat(ps[1..]));
    }
  }

  /** Leaving out newlines does not change what stands outside tags, white space aside. */
  lemma {:induction false} OutsideDeleted(s: string, t: string, inTag: bool)
    requires Deleted(s, t)
    ensures Solid(Outside(t, inTag)) == Solid(Outside(s, inTag))
    decreases |s|
  {
    if s != "" {
      var next := if inTag then s[0] != '>' else s[0] == '<';
      if t != "" && t[0] == s[0] && Deleted(s[1..], t[1..]) {
        OutsideDeleted(s[1..], t[1..], next);
        if !inTag && s[0] != '<' {
          SolidSplit([s[0]], Outside(s[1..], next));
          SolidSplit([s[0]], Outside(t[1..], next));
        }
      } else {
        OutsideDeleted(s[1..], t, next);
        if !inTag {
          WhiteIsNothing("\n");
          SolidSplit("\n", Outside(s[1..], next));
        }
      }
    }
  }

  // ----- links -----

  /** A letter or a digit, by its code. */
  predicate Alphanumeric(c: char) {
    48 <= c as int <= 57 || 65 <= c as int <= 90 || 97 <= c as int <= 122
  }

  predicate InLink(c: char) {
    Alphanumeric(c) || c == '/' || c == '_' || c == '&' || c == '=' || c == '.' || c == ':'
  }

  predicate InWord(c: char) {
    Alphanumeric(c) || c == '_' || c == '.' || c == '[' || c == ']'
  }

  lemma Characters(c: char)
    ensures UrlChar(c) <==> InLink(c)
    ensures WordChar(c) <==> InWord(c)
  {
  }

  predicate LinkHead(s: string) {
    "http:/" <= s || "https:/" <= s
  }

  /** A link as the source's pattern has it. */
  ghost predicate IsLink(url: string) {
    exists n :: (n == 6 || n == 7) && n < |url| && url[..n] == (if n == 6 then "http:/" else "https:/")
                && forall i :: n <= i < |url| ==> InLink(url[i])
  }

  lemma {:induction false} RunIs(s: string, f: char -> bool, n: nat)
    requires n <= |s| && (forall i :: 0 <= i < n ==> f(s[i])) && (n < |s| ==> !f(s[n]))
    ensures Run(s, f) == n
  {
    if n > 0 {
      RunIs(s[1..], f, n - 1);
    }
  }

  lemma UrlRun(s: string, url: string, after: string, n: nat)
    requires s == url + after && n < |url| && (forall i :: n <= i < |url| ==> InLink(url[i]))
    requires after == "" || !InLink(after[0])
    ensures Run(s[n..], UrlChar) == |url| - n
  {
    forall c
      ensures UrlChar(c) <==> InLink(c)
    {
      Characters(c);
    }
    hide UrlChar, InLink;
    assert forall i :: 0 <= i < |url| - n ==> s[n..][i] == url[n + i];
    assert after != "" ==> s[n..][|url| - n] == after[0];
    RunIs(s[n..], UrlChar, |url| - n);
  }

  lemma HeadLength(s: string, url: string, n: nat)
    requires (n == 6 || n == 7) && n < |url| && url <= s && url[..n] == (if n == 6 then "http:/" else "https:/")
    ensures LinkLength(s) == if Run(s[n..], UrlChar) == 0 then 0 else n + Run(s[n..], UrlChar)
  {
    assert s[..n] == url[..n];
    assert s[4] == url[..n][4];
    assert "https:/"[4] == 's' && "http:/"[4] == ':';
    hide Run, UrlChar;
    assert n == 6 ==> "http:/" <= s && !("https:/" <= s);
    assert n == 7 ==> "https:/" <= s && !("http:/" <= s);
  }

  lemma LinkLengthIs(url: string, after: string)
    requires IsLink(url) && (after == "" || !InLink(after[0]))
    ensures LinkLength(url + after) == |url|
  {
    var n :| (n == 6 || n == 7) && n < |url| && url[..n] == (if n == 6 then "http:/" else "https:/")
             && forall i :: n <= i < |url| ==> InLink(url[i]);
    hide *;
    UrlRun(url + after, url, after, n);
    HeadLength(url + after, url, n);
  }

  lemma {:induction false} FirstLinkIs(s: string, i: nat)
    requires i <= |s| && (forall k :: 0 <= k < i ==> !LinkHead(s[k..])) && (i < |s| ==> LinkLength(s[i..]) > 0)
    ensures FirstLink(s) == i
    decreases i
  {
    hide LinkLength;
    if i > 0 {
      assert s[0..] == s && !LinkHead(s);
      NoHeadNoLink(s);
      forall k | 0 <= k < i - 1
        ensures !LinkHead(s[1..][k..])
      {
        assert s[1..][k..] == s[k + 1..];
      }
      assert i < |s| ==> s[1..][i - 1..] == s[i..];
      FirstLinkIs(s[1..], i - 1);
    } else {
      assert s[0..] == s;
    }
  }

  lemma NoHeadNoLink(s: string)
    requires !LinkHead(s)
    ensures LinkLength(s) == 0
  {
  }

  /** The first link of a text becomes an anchor to itself, and the rest goes on so. */
  lemma LinkBecomesAnchor(before: string, url: string, after: string)
    requires IsLink(url) && (after == "" || !InLink(after[0]))
    requires forall k :: 0 <= k < |before| ==> !LinkHead((before + url + after)[k..])
    ensures Links(before + url + after) ==
            [Txt(before), OpenTag("a", " href=\"" + url + "\""), Txt(url), CloseTag("a")] + Links(after)
  {
    hide LinkLength, FirstLink;
    var s, i := before + url + after, |before|;
    LinkLengthIs(url, after);
    assert s[i..] == url + after;
    FirstLinkIs(s, i);
    assert s[..i] == before && s[i..i + |url|] == url && s[i + |url|..] == after;
  }

  /** A text without the beginning of a link stays as it is. */
  lemma NoAnchor(s: string)
    requires forall k :: 0 <= k < |s| ==> !LinkHead(s[k..])
    ensures Links(s) == [Txt(s)]
  {
    hide LinkLength, FirstLink;
    FirstLinkIs(s, |s|);
  }

  // ----- emphasis -----

  /** A phrase before a double colon is emphasised with one colon. */
  lemma PhraseEmphasised(phrase: string, rest: string, more: seq<Piece>)
    requires phrase != "" && (forall i :: 0 <= i < |phrase| ==> InWord(phrase[i]) || phrase[i] == ' ')
    requires rest == "" || rest[0] == ' '
    ensures Emphasis([Txt(phrase + "::" + rest)] + more)
            == [OpenTag("em", ""), Txt(phrase + ":"), CloseTag("em"), Txt(rest)] + more
  {
    var t, n := phrase + "::" + rest, |phrase|;
    assert t[..n] == phrase && t[n..] == "::" + rest && t[n + 2..] == rest;
    RunIs(t, c => WordChar(c) || c == ' ', n);
    assert ([Txt(t)] + more)[1..] == more;
  }

  lemma WordAtStart(word: string, rest: string)
    requires word != "" && (forall i :: 0 <= i < |word| ==> InWord(word[i]))
    ensures var t, n := word + ":" + rest, |word|;
            && t[..n] == word && t[n..] == ":" + rest && t[n + 1..] == rest
            && Run(t, WordChar) == n && Run(t, c => WordChar(c) || c == ' ') == n
  {
    var t, n := word + ":" + rest, |word|;
    assert forall i :: 0 <= i < n ==> t[i] == word[i];
    forall c
      ensures WordChar(c) <==> InWord(c)
    {
      Characters(c);
    }
    hide WordChar;
    assert t[n] == ':' && !InWord(':');
    RunIs(t, WordChar, n);
    RunIs(t, c => WordChar(c) || c == ' ', n);
  }

  lemma NoDoubleColon(t: string, n: nat, rest: string)
    requires n < |t| && t[n..] == ":" + rest && !(":" <= rest && (|rest| == 1 || rest[1] == ' '))
    ensures !("::" <= t[n..] && (n + 2 == |t| || t[n + 2] == ' '))
  {
    assert |rest| > 1 ==> t[n..][2] == rest[1] && t[n..][2] == t[n + 2];
    assert rest != "" ==> t[n..][1] == rest[0];
    assert |t| == n + 1 + |rest|;
  }

  /** So is one word before a colon otherwise, with one blank behind it. */
  lemma WordEmphasised(word: string, rest: string, more: seq<Piece>)
    requires word != "" && (forall i :: 0 <= i < |word| ==> InWord(word[i]))
    requires !(":" <= rest && (|rest| == 1 || rest[1] == ' '))
    ensures Emphasis([Txt(word + ":" + rest)] + more)
            == [OpenTag("em", ""), Txt(word + ":"), CloseTag("em"),
                Txt(" " + if " " <= rest then rest[1..] else rest)] + more
  {
    var t, n := word + ":" + rest, |word|;
    WordAtStart(word, rest);
    NoDoubleColon(t, n, rest);
    assert ([Txt(t)] + more)[1..] == more;
    assert " " <= rest ==> t[n + 2..] == rest[1..];
    hide Run, InWord;
  }

  /** Without a colon nothing is emphasised. */
  lemma NothingEmphasised(t: string, more: seq<Piece>)
    requires ':' !in t
    ensures Emphasis([Txt(t)] + more) == [Txt(t)] + more
  {
    var n, w := Run(t, c => WordChar(c) || c == ' '), Run(t, WordChar);
    assert n < |t| ==> t[n..][0] == t[n];
    assert w < |t| ==> t[w..][0] == t[w];
  }

  // ----- the text of a line -----

  /** `shorter` is `s`, or `s` without one colon of a double one behind a phrase at its start. */
  ghost predicate Less(s: string, shorter: string) {
    shorter == s || exists n :: ColonAt(s, n) && shorter == s[..n] + s[n + 1..]
  }

  ghost predicate ColonAt(s: string, n: int) {
    0 < n && n + 1 < |s| && s[n] == ':' && s[n + 1] == ':' && forall i :: 0 <= i < n ==> InWord(s[i]) || s[i] == ' '
  }

  lemma {:induction false} LinksRead(s: string)
    ensures ReadText(Links(s)) == s && Links(s)[0].Txt?
    decreases |s|
  {
    hide LinkLength, FirstLink;
    var i := FirstLink(s);
    if i < |s| {
      var n := LinkLength(s[i..]);
      var url, rest := s[i..i + n], s[i + n..];
      LinksRead(rest);
      AnchorRead(s[..i], url, Links(rest));
      assert s == s[..i] + url + rest;
    } else {
      ReadOne(Txt(s));
    }
  }

  lemma AnchorRead(before: string, url: string, ps: seq<Piece>)
    ensures ReadText([Txt(before), OpenTag("a", " href=\"" + url + "\""), Txt(url), CloseTag("a")] + ps)
            == before + url + ReadText(ps)
  {
    var a, b, c, d := Txt(before), OpenTag("a", " href=\"" + url + "\""), Txt(url), CloseTag("a");
    FourRead(a, b, c, d);
    ReadSplit([a, b, c, d], ps);
  }

  lemma FourRead(a: Piece, b: Piece, c: Piece, d: Piece)
    ensures ReadText([a, b, c, d]) == PieceText(a) + PieceText(b) + PieceText(c) + PieceText(d)
  {
    ReadOne(a);
    ReadOne(b);
    ReadOne(c);
    ReadOne(d);
    ReadSplit([a], [b]);
    ReadSplit([a, b], [c]);
    ReadSplit([a, b, c], [d]);
    assert [a] + [b] == [a, b] && [a, b] + [c] == [a, b, c] && [a, b, c] + [d] == [a, b, c, d];
  }

  /** Links and emphasis change no text but a doubled colon and a blank behind a colon. */
  lemma InlineRead(s: string) returns (t: string)
    ensures Less(s, t) && Solid(ReadText(Emphasis(Links(s)))) == Solid(t)
  {
    LinksRead(s);
    t := EmphasisRead(Links(s));
  }

  lemma EmphasisRead(ps: seq<Piece>) returns (t: string)
    requires ps != [] && ps[0].Txt?
    ensures Less(ReadText(ps), t) && Solid(ReadText(Emphasis(ps))) == Solid(t)
  {
    var x := ps[0].text;
    var n, w := Run(x, c => WordChar(c) || c == ' '), Run(x, WordChar);
    t := ReadText(ps);
    assert t == x + ReadText(ps[1..]);
    if n > 0 && "::" <= x[n..] && (n + 2 == |x| || x[n + 2] == ' ') {
      PhraseCase(ps);
      t := PhraseRead(x, n, ps[1..]);
      hide *;
    } else if w > 0 && ":" <= x[w..] {
      WordCase(ps);
      WordRead(x, w, ps[1..]);
      hide *;
      SameText(x + ReadText(ps[1..]));
    } else {
      OtherCase(ps);
      hide *;
      SameText(t);
    }
  }

  lemma SameText(s: string)
    ensures Less(s, s)
  {
  }

  lemma PhraseCase(ps: seq<Piece>)
    requires ps != [] && ps[0].Txt?
    requires var x := ps[0].text; var n := Run(x, c => WordChar(c) || c == ' ');
             n > 0 && "::" <= x[n..] && (n + 2 == |x| || x[n + 2] == ' ')
    ensures var x := ps[0].text; var n := Run(x, c => WordChar(c) || c == ' ');
            ColonAt(x, n) && Emphasis(ps) == Emphasised(x[..n] + ":", x[n + 2..]) + ps[1..]
  {
    var x := ps[0].text;
    var n := Run(x, c => WordChar(c) || c == ' ');
    PhraseCharacters(x, n);
    TwoColons(x, n);
    hide Run, InWord;
  }

  lemma WordCase(ps: seq<Piece>)
    requires ps != [] && ps[0].Txt?
    requires var x := ps[0].text; var n, w := Run(x, c => WordChar(c) || c == ' '), Run(x, WordChar);
             !(n > 0 && "::" <= x[n..] && (n + 2 == |x| || x[n + 2] == ' ')) && w > 0 && ":" <= x[w..]
    ensures var x := ps[0].text; var w := Run(x, WordChar);
            && w < |x| && x[w] == ':'
            && Emphasis(ps) == Emphasised(x[..w] + ":", " " + if " " <= x[w + 1..] then x[w + 2..] else x[w + 1..]) + ps[1..]
  {
    OneColonAt(ps[0].text, Run(ps[0].text, WordChar));
    hide Run;
  }

  lemma OtherCase(ps: seq<Piece>)
    requires ps != [] && ps[0].Txt?
    requires var x := ps[0].text; var n, w := Run(x, c => WordChar(c) || c == ' '), Run(x, WordChar);
             !(n > 0 && "::" <= x[n..] && (n + 2 == |x| || x[n + 2] == ' ')) && !(w > 0 && ":" <= x[w..])
    ensures Emphasis(ps) == ps
  {
    hide Run;
  }

  lemma TwoColons(x: string, n: nat)
    requires n <= |x| && "::" <= x[n..]
    ensures n + 1 < |x| && x[n] == ':' && x[n + 1] == ':'
  {
    assert x[n..][0] == x[n] && x[n..][1] == x[n + 1];
  }

  lemma OneColonAt(x: string, w: nat)
    requires w <= |x| && ":" <= x[w..]
    ensures w < |x| && x[w] == ':'
  {
    assert x[w..][0] == x[w];
  }

  lemma PhraseRead(x: string, n: nat, rest: seq<Piece>) returns (t: string)
    requires ColonAt(x, n)
    ensures Less(x + ReadText(rest), t) && ReadText(Emphasised(x[..n] + ":", x[n + 2..]) + rest) == t
  {
    var s := x + ReadText(rest);
    t := x[..n] + x[n + 1..] + ReadText(rest);
    FourRead(OpenTag("em", ""), Txt(x[..n] + ":"), CloseTag("em"), Txt(x[n + 2..]));
    ReadSplit(Emphasised(x[..n] + ":", x[n + 2..]), rest);
    OneColon(x, n, ReadText(rest));
  }

  lemma OneColon(x: string, n: nat, r: string)
    requires ColonAt(x, n)
    ensures ColonAt(x + r, n) && (x + r)[..n] + (x + r)[n + 1..] == x[..n] + x[n + 1..] + r
    ensures "" + (x[..n] + ":") + "" + x[n + 2..] == x[..n] + x[n + 1..]
  {
    var s := x + r;
    assert s[n] == x[n] && s[n + 1] == x[n + 1] && forall i :: 0 <= i < n ==> s[i] == x[i];
    assert x[n + 1..] == ":" + x[n + 2..];
  }

  lemma WordRead(x: string, w: nat, rest: seq<Piece>)
    requires w < |x| && x[w] == ':'
    ensures var after := " " + if " " <= x[w + 1..] then x[w + 2..] else x[w + 1..];
            Solid(ReadText(Emphasised(x[..w] + ":", after) + rest)) == Solid(x + ReadText(rest))
  {
    var after := if " " <= x[w + 1..] then x[w + 2..] else x[w + 1..];
    EmphasisedText(x[..w] + ":", " " + after);
    SpacedWord(x, w, after);
    hide *;
    ReadSplit(Emphasised(x[..w] + ":", " " + after), rest);
    SolidSplit(x, ReadText(rest));
    SolidSplit(x[..w] + ":" + (" " + after), ReadText(rest));
  }

  lemma EmphasisedText(text: string, after: string)
    ensures ReadText(Emphasised(text, after)) == text + after
  {
    FourRead(OpenTag("em", ""), Txt(text), CloseTag("em"), Txt(after));
    assert "" + text + "" + after == text + after;
  }

  lemma PhraseCharacters(x: string, n: nat)
    requires n == Run(x, c => WordChar(c) || c == ' ')
    ensures forall i :: 0 <= i < n ==> InWord(x[i]) || x[i] == ' '
  {
    forall i | 0 <= i < n
      ensures InWord(x[i]) || x[i] == ' '
    {
      Characters(x[i]);
    }
  }

  lemma SpacedWord(x: string, w: nat, after: string)
    requires w < |x| && x[w] == ':' && after == if " " <= x[w + 1..] then x[w + 2..] else x[w + 1..]
    ensures Solid(x[..w] + ":" + (" " + after)) == Solid(x)
  {
    var front, back := x[..w] + ":", x[w + 1..];
    FrontAndBack(x, w);
    BlankMore(after);
    if " " <= back {
      assert back == " " + after;
    }
    hide *;
    SolidSplit(front, " " + after);
    SolidSplit(front, back);
  }

  lemma FrontAndBack(x: string, w: nat)
    requires w < |x| && x[w] == ':'
    ensures x == x[..w] + ":" + x[w + 1..]
  {
  }

  lemma BlankMore(s: string)
    ensures Solid(" " + s) == Solid(s)
  {
    assert (" " + s)[1..] == s;
  }

  predicate StarOrBlank(s: string) {
    forall i :: 0 <= i < |s| ==> s[i] == '*' || s[i] == ' '
  }

  /** What is between places k and m is left, and what is outside are stars and blanks. */
  ghost predicate Between(b: string, k: nat, m: nat, d: string) {
    k <= m <= |b| && d == b[k..m] && StarOrBlank(b[..k]) && StarOrBlank(b[m..])
  }

  /** `d` is `b` without the stars and blanks at both ends. */
  ghost predicate Bare(b: string, d: string) {
    && (exists k: nat, m: nat :: Between(b, k, m, d))
    && (d != "" ==> !StarOrBlank(d[..1]) && !StarOrBlank(d[|d| - 1..]))
  }

  lemma BetweenFront(b: string, k: nat, m: nat, d: string)
    requires b != "" && (b[0] == '*' || b[0] == ' ') && Between(b[1..], k, m, d)
    ensures Between(b, k + 1, m + 1, d)
  {
    assert b[1..][k..m] == b[k + 1..m + 1] && b[1..][m..] == b[m + 1..];
    assert b[..k + 1] == [b[0]] + b[1..][..k];
  }

  lemma BetweenBack(b: string, k: nat, m: nat, d: string)
    requires b != "" && (b[|b| - 1] == '*' || b[|b| - 1] == ' ') && Between(b[..|b| - 1], k, m, d)
    ensures Between(b, k, m, d)
  {
    var front := b[..|b| - 1];
    assert front[k..m] == b[k..m] && front[..k] == b[..k];
    assert b[m..] == front[m..] + [b[|b| - 1]];
  }

  lemma BetweenAll(b: string)
    ensures Between(b, 0, |b|, b)
  {
    assert b[0..|b|] == b;
  }

  lemma {:induction false} TrimBothIs(b: string) returns (k: nat, m: nat)
    ensures Between(b, k, m, TrimBoth(b))
    decreases |b|
  {
    if b != "" && (b[0] == '*' || b[0] == ' ') {
      hide Between;
      var i, j := TrimBothIs(b[1..]);
      BetweenFront(b, i, j, TrimBoth(b));
      k, m := i + 1, j + 1;
    } else if b != "" && (b[|b| - 1] == '*' || b[|b| - 1] == ' ') {
      hide Between;
      k, m := TrimBothIs(b[..|b| - 1]);
      BetweenBack(b, k, m, TrimBoth(b));
    } else {
      hide Between;
      k, m := 0, |b|;
      BetweenAll(b);
    }
  }

  lemma {:induction false} TrimBothEnds(b: string)
    ensures var d := TrimBoth(b); d != "" ==> !StarOrBlank(d[..1]) && !StarOrBlank(d[|d| - 1..])
    decreases |b|
  {
    if b != "" && (b[0] == '*' || b[0] == ' ') {
      TrimBothEnds(b[1..]);
    } else if b != "" && (b[|b| - 1] == '*' || b[|b| - 1] == ' ') {
      TrimBothEnds(b[..|b| - 1]);
    }
  }

  predicate Blank(s: string) {
    forall i :: 0 <= i < |s| ==> s[i] == ' '
  }

  /** A line taken apart: what stands behind its marker, and what a reader sees of it. */
  datatype LineParts =
    | DefinitionLine(term: string, text: string, seenTerm: string, seen: string)
    | BulletLine(text: string, seen: string)
    | NumberLine(digits: string, text: string, seen: string)
    | ParagraphLine(seen: string)

  /** Whether a line has a star and a blank at its start and a second star between blanks. */
  ghost predicate HasSecondStar(e: string) {
    "* " <= e && exists i :: 2 <= i <= |e| && " * " <= e[i..]
  }

  ghost predicate HasNumber(e: string) {
    exists n :: 0 < n < |e| && (forall i :: 0 <= i < n ==> '0' <= e[i] <= '9') && ". " <= e[n..]
  }

  ghost predicate IsDefinition(e: string, term: string, text: string, seenTerm: string, seen: string) {
    && e == "* " + term + " * " + text && (forall i :: 2 <= i < 2 + |term| ==> !(" * " <= e[i..]))
    && (exists k :: 0 <= k <= |term| && Blank(term[k..]) && Less(term[..k], seenTerm)) && Bare(text, seen)
  }

  ghost predicate IsBullet(e: string, text: string, seen: string) {
    "*" <= e && !HasSecondStar(e) && StandsBehind(e, 1, text) && Less(text, seen)
  }

  ghost predicate IsNumbered(e: string, digits: string, text: string, seen: string) {
    && digits != "" && (forall i :: 0 <= i < |digits| ==> '0' <= digits[i] <= '9')
    && digits + ". " <= e && StandsBehind(e, |digits| + 1, text) && Less(text, seen)
  }

  ghost predicate IsParagraph(e: string, seen: string) {
    !("*" <= e) && !HasNumber(e) && Less(e, seen)
  }

  /** `text` is what `e` has from place m on, but for blanks. */
  ghost predicate StandsBehind(e: string, m: nat, text: string) {
    m + |text| <= |e| && e[|e| - |text|..] == text && Blank(e[m..|e| - |text|])
  }

  ghost predicate IsParts(e: string, p: LineParts) {
    match p
    case DefinitionLine(term, text, seenTerm, seen) => IsDefinition(e, term, text, seenTerm, seen)
    case BulletLine(text, seen) => IsBullet(e, text, seen)
    case NumberLine(digits, text, seen) => IsNumbered(e, digits, text, seen)
    case ParagraphLine(seen) => IsParagraph(e, seen)
  }

  function SeenOf(p: LineParts): string {
    match p
    case DefinitionLine(_, _, seenTerm, seen) => Solid(seenTerm) + Solid(seen)
    case BulletLine(_, seen) => Solid(seen)
    case NumberLine(_, _, seen) => Solid(seen)
    case ParagraphLine(seen) => Solid(seen)
  }

  /** The tags of each marker, by name: of the line when it opens and closes, and of the list around it. */
  ghost predicate TagsAre(k: Kind, p: LineParts) {
    match p
    case DefinitionLine(_, _, _, _) => k == Definition && k.Item(true) == "dt" && k.Item(false) == "dd" && k.List() == "dl"
    case BulletLine(_, _) => k == Bullet && k.Item(true) == k.Item(false) == "li" && k.List() == "ul"
    case NumberLine(_, _, _) => k == Number && k.Item(true) == k.Item(false) == "li" && k.List() == "ol"
    case ParagraphLine(_) => k == Paragraph && k.Item(true) == k.Item(false) == "p" && !k.IsList()
  }

  lemma {:induction false} FrontBlanks(s: string)
    ensures var t := TrimFront(s, ' ');
            |t| <= |s| && s[|s| - |t|..] == t && Blank(s[..|s| - |t|]) && (t != "" ==> t[0] != ' ')
  {
    if s != "" && s[0] == ' ' {
      FrontBlanks(s[1..]);
      var t := TrimFront(s[1..], ' ');
      assert s[..|s| - |t|] == " " + s[1..][..|s[1..]| - |t|];
    }
  }

  lemma {:induction false} BackBlanks(s: string)
    ensures var t := TrimBack(s, ' '); t <= s && Blank(s[|t|..])
    decreases |s|
  {
    if s != "" && s[|s| - 1] == ' ' {
      BackBlanks(s[..|s| - 1]);
      var t := TrimBack(s[..|s| - 1], ' ');
      assert s[|t|..] == s[..|s| - 1][|t|..] + " ";
    }
  }

  lemma {:induction false} NoneBefore(s: string, pat: string, i: nat)
    requires i <= |s| && (FindText(s, pat).Some? ==> i < FindText(s, pat).value) && pat != ""
    ensures !(pat <= s[i..])
    decreases |s|
  {
    if i > 0 {
      NoneBefore(s[1..], pat, i - 1);
      assert s[1..][i - 1..] == s[i..];
    } else {
      assert s[0..] == s;
    }
  }

  lemma Behind(e: string, m: nat)
    requires m <= |e|
    ensures StandsBehind(e, m, TrimFront(e[m..], ' '))
  {
    FrontBlanks(e[m..]);
    var text := TrimFront(e[m..], ' ');
    assert e[|e| - |text|..] == e[m..][|e[m..]| - |text|..];
    assert e[m..|e| - |text|] == e[m..][..|e[m..]| - |text|];
  }

  lemma OneStar(e: string)
    requires "* " <= e && FindText(e[2..], " * ").None?
    ensures !HasSecondStar(e)
  {
    forall i | 2 <= i <= |e|
      ensures !(" * " <= e[i..])
    {
      NoneBefore(e[2..], " * ", i - 2);
      assert e[2..][i - 2..] == e[i..];
    }
  }

  lemma BulletFacts(e: string)
    requires KindOf(e) == Bullet
    ensures "*" <= e && !HasSecondStar(e) && Content(e) == Emphasis(Links(TrimFront(e[1..], ' ')))
  {
    hide FindText, Emphasis, Links, TrimFront, TrimBack, TrimBoth;
    if "* " <= e {
      OneStar(e);
    }
  }

  lemma BulletParts(e: string) returns (p: LineParts)
    requires KindOf(e) == Bullet
    ensures IsParts(e, p) && p.BulletLine? && Solid(ReadText(Content(e))) == SeenOf(p)
  {
    BulletFacts(e);
    Behind(e, 1);
    var text := TrimFront(e[1..], ' ');
    var seen := InlineRead(text);
    p := BulletLine(text, seen);
    assert IsBullet(e, text, seen) by {
      hide *;
    }
    hide *;
  }

  lemma NumberFacts(e: string)
    requires KindOf(e) == Number
    ensures var n := NumberLength(e);
            && 0 < n < |e| && (forall i :: 0 <= i < n ==> '0' <= e[..n][i] <= '9') && e[..n] + ". " <= e
            && Content(e) == Emphasis(Links(TrimFront(e[n + 1..], ' ')))
  {
    hide FindText, Emphasis, Links, TrimFront, TrimBack, TrimBoth;
    var n := NumberLength(e);
    assert e == e[..n] + e[n..];
  }

  lemma NumberParts(e: string) returns (p: LineParts)
    requires KindOf(e) == Number
    ensures IsParts(e, p) && p.NumberLine? && Solid(ReadText(Content(e))) == SeenOf(p)
  {
    NumberFacts(e);
    var n := NumberLength(e);
    Behind(e, n + 1);
    var seen := InlineRead(TrimFront(e[n + 1..], ' '));
    p := NumberFound(e, e[..n], TrimFront(e[n + 1..], ' '), seen);
    hide *;
  }

  lemma NumberFound(e: string, digits: string, text: string, seen: string) returns (p: LineParts)
    requires digits != "" && (forall i :: 0 <= i < |digits| ==> '0' <= digits[i] <= '9')
    requires digits + ". " <= e && StandsBehind(e, |digits| + 1, text) && Less(text, seen)
    ensures p == NumberLine(digits, text, seen) && IsParts(e, p) && SeenOf(p) == Solid(seen)
  {
    p := NumberLine(digits, text, seen);
  }

  lemma ParagraphParts(e: string) returns (p: LineParts)
    requires KindOf(e) == Paragraph
    ensures IsParts(e, p) && p.ParagraphLine? && Solid(ReadText(Content(e))) == SeenOf(p)
  {
    ParagraphFacts(e);
    var seen := InlineRead(e);
    p := ParagraphLine(seen);
    NoNumber(e);
  }

  lemma NoNumber(e: string)
    requires NumberLength(e) == 0
    ensures !HasNumber(e)
  {
    if n :| 0 < n < |e| && (forall i :: 0 <= i < n ==> '0' <= e[i] <= '9') && ". " <= e[n..] {
      assert e[n..][0] == e[n];
      RunIs(e, Digit, n);
      assert false;
    }
  }

  lemma DefinitionContentIs(e: string)
    requires KindOf(e) == Definition
    ensures DefinitionAt(e).Some? && "* " <= e && FindText(e[2..], " * ") == DefinitionAt(e)
    ensures var at := DefinitionAt(e).value;
            && at + 5 <= |e|
            && Content(e) == Emphasis(Links(TrimBack(e[2..][..at], ' '))) + [CloseTag("dt"), OpenTag("dd", "")]
                             + Links(TrimBoth(e[2..][at + 3..]))
  {
    hide Emphasis, Links, TrimBack, TrimBoth, NumberLength;
  }

  lemma TwoCuts(e: string, at: nat)
    requires at + 5 <= |e| && "* " <= e
    ensures e[2..][..at] == e[2..2 + at] && e[2..][at + 3..] == e[at + 5..] && e == "* " + e[2..]
  {
  }

  lemma FourParts(e: string, a: string, b: string)
    requires e == "* " + (a + " * " + b)
    ensures e == "* " + a + " * " + b
  {
    Associate("* ", a, " * ");
    Associate("* ", a + " * ", b);
  }

  lemma NoneInTerm(e: string, at: nat)
    requires |e| >= 2 && at <= |e| - 2 && forall i :: 0 <= i < at ==> !(" * " <= e[2..][i..])
    ensures forall i :: 2 <= i < 2 + at ==> !(" * " <= e[i..])
  {
    var pat := " * ";
    forall i | 2 <= i < 2 + at
      ensures !(pat <= e[i..])
    {
      assert e[2..][i - 2..] == e[i..];
    }
  }

  lemma DefinitionFacts(e: string)
    requires KindOf(e) == Definition
    ensures DefinitionAt(e).Some?
    ensures var at := DefinitionAt(e).value;
            && at + 5 <= |e| && e == "* " + e[2..2 + at] + " * " + e[at + 5..]
            && Content(e) == Emphasis(Links(TrimBack(e[2..2 + at], ' '))) + [CloseTag("dt"), OpenTag("dd", "")]
                             + Links(TrimBoth(e[at + 5..]))
            && (forall i :: 2 <= i < 2 + at ==> !(" * " <= e[i..]))
  {
    hide *;
    DefinitionContentIs(e);
    var at := DefinitionAt(e).value;
    var pat := " * ";
    FoundFirst(e[2..], pat, at);
    TwoCuts(e, at);
    ThreeParts(e[2..], at);
    FourParts(e, e[2..2 + at], e[at + 5..]);
    NoneInTerm(e, at);
  }

  lemma FoundFirst(s: string, pat: string, at: nat)
    requires FindText(s, pat) == Some(at) && pat != ""
    ensures at + |pat| <= |s| && pat <= s[at..]
    ensures forall i :: 0 <= i < at ==> !(pat <= s[i..])
  {
    hide *;
    forall i | 0 <= i < at
      ensures !(pat <= s[i..])
    {
      NoneBefore(s, pat, i);
    }
  }

  lemma ThreeParts(rest: string, at: nat)
    requires at + 3 <= |rest| && " * " <= rest[at..]
    ensures rest == rest[..at] + " * " + rest[at + 3..]
  {
    assert rest[at..][..3] == " * ";
    assert rest[at..][3..] == rest[at + 3..];
    assert rest == rest[..at] + rest[at..];
  }

  lemma FrontOf(term: string)
    ensures var front := TrimBack(term, ' '); |front| <= |term| && front == term[..|front|] && Blank(term[|front|..])
  {
    BackBlanks(term);
  }

  lemma BareIs(text: string)
    ensures Bare(text, TrimBoth(text))
  {
    var k, m := TrimBothIs(text);
    TrimBothEnds(text);
    hide Between, TrimBoth, StarOrBlank;
  }

  lemma DefinitionPartsOf(e: string) returns (p: LineParts)
    requires KindOf(e) == Definition
    ensures IsParts(e, p) && p.DefinitionLine? && Solid(ReadText(Content(e))) == SeenOf(p)
  {
    DefinitionFacts(e);
    var at := DefinitionAt(e).value;
    var term, text := e[2..2 + at], e[at + 5..];
    var seenTerm := InlineRead(TrimBack(term, ' '));
    p := DefinitionFound(e, term, text, seenTerm);
    DefinitionContent(Emphasis(Links(TrimBack(term, ' '))), Links(TrimBoth(text)));
    LinksRead(TrimBoth(text));
    hide *;
  }

  lemma DefinitionFound(e: string, term: string, text: string, seenTerm: string) returns (p: LineParts)
    requires e == "* " + term + " * " + text && (forall i :: 2 <= i < 2 + |term| ==> !(" * " <= e[i..]))
    requires Less(TrimBack(term, ' '), seenTerm)
    ensures p == DefinitionLine(term, text, seenTerm, TrimBoth(text)) && IsParts(e, p)
    ensures SeenOf(p) == Solid(seenTerm) + Solid(TrimBoth(text))
  {
    FrontOf(term);
    BareIs(text);
    p := DefinitionLine(term, text, seenTerm, TrimBoth(text));
    assert IsDefinition(e, term, text, seenTerm, TrimBoth(text)) by {
      hide Less, Bare, TrimBack, TrimBoth, Blank;
    }
  }

  lemma DefinitionContent(a: seq<Piece>, b: seq<Piece>)
    ensures Solid(ReadText(a + [CloseTag("dt"), OpenTag("dd", "")] + b)) == Solid(ReadText(a)) + Solid(ReadText(b))
  {
    var tags := [CloseTag("dt"), OpenTag("dd", "")];
    ReadOne(CloseTag("dt"));
    ReadOne(OpenTag("dd", ""));
    ReadSplit([CloseTag("dt")], [OpenTag("dd", "")]);
    assert [CloseTag("dt")] + [OpenTag("dd", "")] == tags;
    ReadSplit(a, tags);
    ReadSplit(a + tags, b);
    assert ReadText(a) + "" == ReadText(a);
    SolidSplit(ReadText(a), ReadText(b));
  }

  /** What a reader sees of the content of a line is the line without its marker, for every kind of line. */
  lemma ContentShows(e: string) returns (p: LineParts)
    ensures IsParts(e, p) && TagsAre(KindOf(e), p) && Solid(ReadText(Content(e))) == SeenOf(p)
  {
    match KindOf(e)
    case Definition => p := DefinitionPartsOf(e);
    case Bullet => p := BulletParts(e);
    case Number => p := NumberParts(e);
    case Paragraph => p := ParagraphParts(e);
  }

  // ----- the text of the page -----

  /** A line is its indent in blanks and its text, which does not start with one. */
  lemma LineTextIs(raw: string)
    ensures raw == Spaces(Indent(raw) - 1) + LineText(raw) && (LineText(raw) != "" ==> LineText(raw)[0] != ' ')
  {
    FrontBlanks(raw);
    var t := LineText(raw);
    assert raw == raw[..|raw| - |t|] + t;
    assert raw[..|raw| - |t|] == Spaces(Indent(raw) - 1);
  }

  /** A line that starts with a backtick starts a block of code; the block ends with the first line after it that ends in
      one; other lines are text. */
  lemma CodeBlocks(st: State, raw: string)
    ensures IsCode(st, raw) <==> st.inCode || "`" <= LineText(raw)
    ensures var text := LineText(raw);
            NextState(st, raw).inCode <==> if st.inCode then text == "" || text[|text| - 1] != '`' else "`" <= text
  {
  }

  /** What a reader sees of a line: code as it is, and other lines, escaped, without their marker. */
  ghost predicate LineShown(st: State, raw: string, seen: string) {
    if IsCode(st, raw) then seen == Solid(raw)
    else exists p: LineParts :: IsParts(Escape(LineText(raw)), p) && seen == SeenOf(p)
  }

  lemma {:induction false} WhitePieces(ps: seq<Piece>)
    requires forall i :: 0 <= i < |ps| ==> IsWhite(PieceText(ps[i]))
    ensures Solid(ReadText(ps)) == ""
  {
    if ps != [] {
      WhitePieces(ps[1..]);
      SolidSplit(PieceText(ps[0]), ReadText(ps[1..]));
      WhiteIsNothing(PieceText(ps[0]));
    }
  }

  ghost predicate AllWhite(ps: seq<Piece>) {
    forall i :: 0 <= i < |ps| ==> IsWhite(PieceText(ps[i]))
  }

  lemma AllWhiteBoth(a: seq<Piece>, b: seq<Piece>)
    requires AllWhite(a) && AllWhite(b)
    ensures AllWhite(a + b)
  {
    hide IsWhite, PieceText;
  }

  lemma TagsWhite(k: Kind)
    ensures AllWhite(CloseItem(k)) && AllWhite(CloseList(k)) && AllWhite(OpenList(k)) && AllWhite([])
  {
  }

  lemma {:induction false} CloseDownWhite(kinds: Kinds, from: nat, to: nat)
    requires to >= 1
    ensures AllWhite(CloseDown(kinds, from, to))
  {
    TagsWhite(Nothing);
    if from > to {
      CloseDownWhite(kinds, from - 1, to);
      var k := At(kinds, from);
      TagsWhite(k);
      hide AllWhite, CloseItem, CloseList, At;
      AllWhiteBoth(CloseItem(k), CloseList(k));
      AllWhiteBoth(CloseItem(k) + CloseList(k), CloseDown(kinds, from - 1, to));
    }
  }

  lemma CloseOrOpenWhite(kinds: Kinds, last: nat, indent: nat, k: Kind)
    requires indent >= 1
    ensures Solid(ReadText(CloseOrOpen(kinds, last, indent, k))) == ""
  {
    var was := At(kinds, indent);
    CloseDownWhite(kinds, last, indent);
    TagsWhite(was);
    TagsWhite(k);
    var down, lists := CloseDown(kinds, last, indent), if was == k then [] else CloseList(was) + OpenList(k);
    assert CloseOrOpen(kinds, last, indent, k) == down + CloseItem(was) + lists;
    hide AllWhite, CloseItem, CloseList, OpenList, At, CloseDown, CloseOrOpen, Solid, ReadText;
    AllWhiteBoth(CloseList(was), OpenList(k));
    AllWhiteBoth(down, CloseItem(was));
    AllWhiteBoth(down + CloseItem(was), lists);
    AllWhiteRead(down + CloseItem(was) + lists);
  }

  lemma AllWhiteRead(ps: seq<Piece>)
    requires AllWhite(ps)
    ensures Solid(ReadText(ps)) == ""
  {
    WhitePieces(ps);
  }

  lemma SpacesWhite(n: nat)
    ensures Solid(Spaces(n)) == ""
  {
    WhiteIsNothing(Spaces(n));
  }

  lemma CodeRead(before: string, indent: nat, line: string)
    requires indent >= 1
    ensures ReadText(CodePieces(before, indent, line)) == before + Spaces(indent - 1) + line + "\n"
  {
    var a, b, c := Txt(before + Spaces(indent - 1)), Code(line, CodeTags(line)), Txt("\n");
    hide CodeTags, Spaces;
    ReadOne(a);
    ReadOne(b);
    ReadOne(c);
    ReadSplit([a], [b]);
    ReadSplit([a] + [b], [c]);
    assert [a] + [b] + [c] == CodePieces(before, indent, line);
  }

  lemma CodeShows(st: State, raw: string)
    requires IsCode(st, raw)
    ensures Solid(ReadText(LinePieces(st, raw))) == Solid(raw)
  {
    var before := if st.inCode then "" else "\n";
    WhiteIsNothing(before);
    WhiteIsNothing("\n");
    CodeLinePieces(st, raw);
    LineTextIs(raw);
    hide *;
    var indent, line := Indent(raw), LineText(raw);
    CodeRead(before, indent, line);
    SpacesWhite(indent - 1);
    SolidThree(before + Spaces(indent - 1), line, "\n");
    SolidSplit(before, Spaces(indent - 1));
    SolidSplit(Spaces(indent - 1), line);
  }

  lemma TextLineIs(st: State, raw: string)
    requires !IsCode(st, raw)
    ensures var indent, e := Indent(raw), Escape(LineText(raw));
            LinePieces(st, raw) == CloseOrOpen(st.kinds, st.last, indent, KindOf(e))
              + [Txt(Spaces(indent - 1)), OpenTag(KindOf(e).Item(true), "")] + Content(e)
  {
    hide LineText, Indent, Escape, KindOf, Content, CloseOrOpen, Spaces;
  }

  /** The pieces of a line of text show what its content shows. */
  lemma TextLineShows(st: State, raw: string)
    requires !IsCode(st, raw)
    ensures Solid(ReadText(LinePieces(st, raw))) == Solid(ReadText(Content(Escape(LineText(raw)))))
  {
    hide *;
    var indent, e := Indent(raw), Escape(LineText(raw));
    var close, open := CloseOrOpen(st.kinds, st.last, indent, KindOf(e)),
                       [Txt(Spaces(indent - 1)), OpenTag(KindOf(e).Item(true), "")];
    TextLineIs(st, raw);
    CloseOrOpenWhite(st.kinds, st.last, indent, KindOf(e));
    TagAndIndent(indent - 1, KindOf(e).Item(true));
    ReadThree(close, open, Content(e));
    SolidThree(ReadText(close), ReadText(open), ReadText(Content(e)));
  }

  lemma ReadThree(a: seq<Piece>, b: seq<Piece>, c: seq<Piece>)
    ensures ReadText(a + b + c) == ReadText(a) + ReadText(b) + ReadText(c)
  {
    hide *;
    ReadSplit(a + b, c);
    ReadSplit(a, b);
  }

  lemma TagAndIndent(n: nat, name: string)
    ensures Solid(ReadText([Txt(Spaces(n)), OpenTag(name, "")])) == ""
  {
    WhitePieces([Txt(Spaces(n)), OpenTag(name, "")]);
  }

  function Joined(texts: seq<string>): string {
    if texts == [] then "" else Joined(texts[..|texts| - 1]) + texts[|texts| - 1]
  }

  lemma LineShows(st: State, raw: string) returns (seen: string)
    ensures LineShown(st, raw, seen) && Solid(ReadText(LinePieces(st, raw))) == seen
  {
    if IsCode(st, raw) {
      CodeShows(st, raw);
      seen := Solid(raw);
    } else {
      TextLineShows(st, raw);
      var p := ContentShows(Escape(LineText(raw)));
      seen := SeenOf(p);
    }
  }

  ghost predicate AllShown(lines: seq<string>, seen: seq<string>)
    requires |seen| <= |lines|
  {
    forall k :: 0 <= k < |seen| ==> LineShown(StateAfter(lines, k), lines[k], seen[k])
  }

  lemma OneMoreShown(lines: seq<string>, seen: seq<string>, last: string)
    requires |seen| < |lines| && AllShown(lines, seen) && LineShown(StateAfter(lines, |seen|), lines[|seen|], last)
    ensures AllShown(lines, seen + [last]) && Joined(seen + [last]) == Joined(seen) + last
  {
    hide LineShown, StateAfter;
    assert (seen + [last])[..|seen|] == seen;
  }

  lemma {:induction false} LinesShow(lines: seq<string>, n: nat) returns (seen: seq<string>)
    requires n <= |lines|
    ensures |seen| == n && AllShown(lines, seen) && Solid(ReadText(PiecesOf(lines, n))) == Joined(seen)
  {
    if n == 0 {
      seen := [];
    } else {
      hide *;
      var front := LinesShow(lines, n - 1);
      var last := LineShows(StateAfter(lines, n - 1), lines[n - 1]);
      seen := front + [last];
      OneMoreShown(lines, front, last);
      NextPieces(lines, n - 1);
      ReadSplit(PiecesOf(lines, n - 1), LinePieces(StateAfter(lines, n - 1), lines[n - 1]));
      SolidSplit(ReadText(PiecesOf(lines, n - 1)), ReadText(LinePieces(StateAfter(lines, n - 1), lines[n - 1])));
    }
  }

  /** A document shows what its lines show, in their order, white space aside. */
  lemma DocumentShows(lines: seq<string>) returns (seen: seq<string>)
    ensures |seen| == |lines| && AllShown(lines, seen)
    ensures Solid(ReadText(Document(lines))) == Joined(seen)
  {
    seen := LinesShow(lines, |lines|);
    var st := StateAfter(lines, |lines|);
    CloseOrOpenWhite(st.kinds, st.last, 1, Nothing);
    ReadSplit(PiecesOf(lines, |lines|), CloseOrOpen(st.kinds, st.last, 1, Nothing));
    SolidSplit(ReadText(PiecesOf(lines, |lines|)), ReadText(CloseOrOpen(st.kinds, st.last, 1, Nothing)));
    assert Joined(seen) + "" == Joined(seen);
  }

  // ----- the page itself -----

  lemma TrimOutside(s: string)
    ensures Solid(Outside(TrimNewlines(s), false)) == Solid(Outside(s, false))
  {
    hide Outside, Solid, Deleted, TrimFront, Squeeze, TrimBack;
    TrimFrontDeletes(s);
    OutsideDeleted(s, TrimFront(s, '\n'), false);
    SqueezeDeletes(TrimFront(s, '\n'));
    OutsideDeleted(TrimFront(s, '\n'), Squeeze(TrimFront(s, '\n'), '\n'), false);
    TrimBackOutside(Squeeze(TrimFront(s, '\n'), '\n'));
  }

  lemma {:induction false} TrimBackOutside(s: string)
    ensures Solid(Outside(TrimBack(s, '\n'), false)) == Solid(Outside(s, false))
    decreases |s|
  {
    if s != "" && s[|s| - 1] == '\n' {
      LastDeleted(s);
      OutsideDeleted(s, s[..|s| - 1], false);
      TrimBackOutside(s[..|s| - 1]);
    }
  }

  lemma {:induction false} OutsideNewline(s: string, inTag: bool)
    ensures Solid(Outside(s + "\n", inTag)) == Solid(Outside(s, inTag))
  {
    if s == "" {
      WhiteIsNothing("\n");
    } else {
      var next := if inTag then s[0] != '>' else s[0] == '<';
      OutsideNewline(s[1..], next);
      assert (s + "\n")[1..] == s[1..] + "\n";
      if !inTag && s[0] != '<' {
        SolidSplit([s[0]], Outside(s[1..] + "\n", next));
        SolidSplit([s[0]], Outside(s[1..], next));
      }
    }
  }

  /** No code in these pieces has a less-than sign. */
  ghost predicate CodePlain(ps: seq<Piece>) {
    forall i :: 0 <= i < |ps| && ps[i].Code? ==> '<' !in ps[i].code
  }

  lemma CodePlainBoth(a: seq<Piece>, b: seq<Piece>)
    requires CodePlain(a) && CodePlain(b)
    ensures CodePlain(a + b)
  {
  }

  ghost predicate CodeWithoutTags(lines: seq<string>) {
    forall k :: 0 <= k < |lines| && IsCode(StateAfter(lines, k), lines[k]) ==> '<' !in LineText(lines[k])
  }

  lemma {:induction false} CodeWithout(lines: seq<string>, n: nat)
    requires n <= |lines| && CodeWithoutTags(lines)
    ensures CodePlain(PiecesOf(lines, n))
  {
    hide *;
    if n > 0 {
      CodeWithout(lines, n - 1);
      LinePlain(lines, n - 1);
      NextPieces(lines, n - 1);
      CodePlainBoth(PiecesOf(lines, n - 1), LinePieces(StateAfter(lines, n - 1), lines[n - 1]));
    } else {
      NoPiecesPlain(lines);
    }
  }

  lemma NoPiecesPlain(lines: seq<string>)
    ensures CodePlain(PiecesOf(lines, 0))
  {
  }

  /** The only code in the pieces of a line is the line itself, if it is code. */
  lemma LinePlain(lines: seq<string>, n: nat)
    requires n < |lines| && CodeWithoutTags(lines)
    ensures CodePlain(LinePieces(StateAfter(lines, n), lines[n]))
  {
    var st, raw := StateAfter(lines, n), lines[n];
    if IsCode(st, raw) {
      CodeLinePieces(st, raw);
      hide LinePieces, StateAfter, LineText;
    } else {
      TextLineIs(st, raw);
      var e := Escape(LineText(raw));
      hide *;
      NoCodeInLine(st.kinds, st.last, Indent(raw), e);
      PlainThree(CloseOrOpen(st.kinds, st.last, Indent(raw), KindOf(e)),
                 [Txt(Spaces(Indent(raw) - 1)), OpenTag(KindOf(e).Item(true), "")], Content(e));
    }
  }

  lemma PlainThree(a: seq<Piece>, b: seq<Piece>, c: seq<Piece>)
    requires NoCode(a) && |b| == 2 && !b[0].Code? && !b[1].Code? && NoCode(c)
    ensures CodePlain(a + b + c)
  {
  }

  ghost predicate NoCode(ps: seq<Piece>) {
    forall i :: 0 <= i < |ps| ==> !ps[i].Code?
  }

  lemma NoCodeBoth(a: seq<Piece>, b: seq<Piece>)
    requires NoCode(a) && NoCode(b)
    ensures NoCode(a + b)
  {
  }

  lemma CloseOrOpenNoCode(kinds: Kinds, last: nat, indent: nat, k: Kind)
    requires indent >= 1
    ensures NoCode(CloseOrOpen(kinds, last, indent, k))
  {
    CloseDownNoCode(kinds, last, indent);
    var was := At(kinds, indent);
    var a, b := CloseDown(kinds, last, indent), CloseItem(was);
    var c := if was == k then [] else CloseList(was) + OpenList(k);
    assert NoCode(b) && NoCode(c);
    assert CloseOrOpen(kinds, last, indent, k) == a + b + c;
    hide *;
    NoCodeBoth(a, b);
    NoCodeBoth(a + b, c);
  }

  lemma DefinitionTagsNoCode()
    ensures NoCode([CloseTag("dt"), OpenTag("dd", "")])
  {
  }

  lemma DefinitionNoCode(e: string)
    requires KindOf(e) == Definition
    ensures NoCode(Content(e))
  {
    hide *;
    DefinitionFacts(e);
    DefinitionTagsNoCode();
    var at := DefinitionAt(e).value;
    var a, c := Emphasis(Links(TrimBack(e[2..2 + at], ' '))), Links(TrimBoth(e[at + 5..]));
    var b := [CloseTag("dt"), OpenTag("dd", "")];
    InlineNoCode(TrimBack(e[2..2 + at], ' '));
    LinksNoCode(TrimBoth(e[at + 5..]));
    NoCodeBoth(a, b);
    NoCodeBoth(a + b, c);
  }

  lemma ContentNoCode(e: string)
    ensures NoCode(Content(e))
  {
    if KindOf(e) == Definition {
      DefinitionNoCode(e);
    } else if KindOf(e) == Bullet {
      BulletFacts(e);
      hide *;
      InlineNoCode(TrimFront(e[1..], ' '));
    } else if KindOf(e) == Number {
      NumberFacts(e);
      hide *;
      InlineNoCode(TrimFront(e[NumberLength(e) + 1..], ' '));
    } else {
      ParagraphFacts(e);
      hide *;
      InlineNoCode(e);
    }
  }

  lemma ParagraphFacts(e: string)
    requires KindOf(e) == Paragraph
    ensures Content(e) == Emphasis(Links(e))
  {
    hide Emphasis, Links, DefinitionAt, NumberLength;
  }

  lemma NoCodeInLine(kinds: Kinds, last: nat, indent: nat, e: string)
    requires indent >= 1
    ensures NoCode(CloseOrOpen(kinds, last, indent, KindOf(e))) && NoCode(Content(e))
  {
    hide *;
    CloseOrOpenNoCode(kinds, last, indent, KindOf(e));
    ContentNoCode(e);
  }

  lemma {:induction false} CloseDownNoCode(kinds: Kinds, from: nat, to: nat)
    requires to >= 1
    ensures NoCode(CloseDown(kinds, from, to))
  {
    if from > to {
      CloseDownNoCode(kinds, from - 1, to);
    }
  }

  lemma {:induction false} LinksNoCode(s: string)
    ensures NoCode(Links(s)) && |Links(s)| > 0
    decreases |s|
  {
    hide LinkLength, FirstLink;
    var i := FirstLink(s);
    if i < |s| {
      LinksNoCode(s[i + LinkLength(s[i..])..]);
    }
  }

  lemma EmphasisedNoCode(text: string, after: string, rest: seq<Piece>)
    requires NoCode(rest)
    ensures NoCode(Emphasised(text, after) + rest)
  {
  }

  lemma InlineNoCode(s: string)
    ensures NoCode(Emphasis(Links(s)))
  {
    LinksNoCode(s);
    EmphasisNoCode(Links(s));
  }

  lemma EmphasisNoCode(ps: seq<Piece>)
    requires NoCode(ps)
    ensures NoCode(Emphasis(ps))
  {
    if ps != [] && ps[0].Txt? {
      assert NoCode(ps[1..]);
      var t := ps[0].text;
      hide NoCode, Run, Emphasised;
      var n := Run(t, c => WordChar(c) || c == ' ');
      var w := Run(t, WordChar);
      if n > 0 && "::" <= t[n..] && (n + 2 == |t| || t[n + 2] == ' ') {
        EmphasisedNoCode(t[..n] + ":", t[n + 2..], ps[1..]);
      } else if w > 0 && ":" <= t[w..] {
        EmphasisedNoCode(t[..w] + ":", " " + if " " <= t[w + 1..] then t[w + 2..] else t[w + 1..], ps[1..]);
      }
    }
  }

  /** Outside the tags of the page stands what its lines show, white space aside, if code has no less-than signs. */
  lemma PageShows(lines: seq<string>) returns (seen: seq<string>)
    requires AreLines(lines)
    requires CodeWithoutTags(lines)
    ensures |seen| == |lines| && AllShown(lines, seen)
    ensures Solid(Outside(Html(lines), false)) == Joined(seen)
  {
    seen := DocumentShows(lines);
    PlainCode(true, lines);
    DocumentSteps(true, lines);
    StepsAre(true, Document(lines));
    AllPlain(lines);
    OutsidePieces(Document(lines));
    TrimOutside(Flat(Document(lines)));
    OutsideNewline(TrimNewlines(Flat(Document(lines))), false);
    hide LineShown, Document, Flat, TrimNewlines, Outside, Solid, ReadText, Joined, StateAfter;
  }

  lemma AllPlain(lines: seq<string>)
    requires PiecesOk(Document(lines))
    requires CodeWithoutTags(lines)
    ensures forall i :: 0 <= i < |Document(lines)| ==> PlainPiece(Document(lines)[i])
  {
    CodeWithout(lines, |lines|);
    var st := StateAfter(lines, |lines|);
    CloseOrOpenNoCode(st.kinds, st.last, 1, Nothing);
    PlainBoth(PiecesOf(lines, |lines|), CloseOrOpen(st.kinds, st.last, 1, Nothing));
    hide *;
  }

  lemma PlainBoth(a: seq<Piece>, b: seq<Piece>)
    requires PiecesOk(a + b) && NoCode(b) && CodePlain(a)
    ensures forall i :: 0 <= i < |a + b| ==> PlainPiece((a + b)[i])
  {
    hide PieceOk;
  }
}
