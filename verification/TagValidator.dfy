/** The HTML tag validator: a scanner that finds the tags of a text, and a stack that checks that they
    are well nested.
*/
module TagValidator {
  import opened Common

  /** An opening or closing tag that takes part in the nesting, by its lower-case name. */
  datatype Token = Open(name: string) | Close(name: string)

  // ----- scanning -----

  /** Where `c` first occurs, or the length of the text. */
  function Find(s: string, c: char): (i: nat)
    ensures i <= |s|
    ensures forall k :: 0 <= k < i ==> s[k] != c
    ensures i < |s| ==> s[i] == c
  {
    if s == "" || s[0] == c then 0 else Find(s[1..], c) + 1
  }

  /** Where the text `pat` first occurs, if it does. */
  function FindText(s: string, pat: string): (r: Option<nat>)
    ensures r.Some? ==> r.value + |pat| <= |s| && pat <= s[r.value..]
    decreases |s|
  {
    if pat <= s then Some(0)
    else if s == "" then None
    else match FindText(s[1..], pat) case Some(i) => Some(i + 1) case None => None
  }

  lemma {:induction false} FindIs(s: string, pat: string, i: nat)
    requires i <= |s| && pat <= s[i..] && forall k :: 0 <= k < i ==> !(pat <= s[k..])
    ensures FindText(s, pat) == Some(i)
    decreases |s|
  {
    if i > 0 {
      assert s[0..] == s;
      forall k | 0 <= k < i - 1
        ensures !(pat <= s[1..][k..])
      {
        assert s[1..][k..] == s[k + 1..];
      }
      assert s[1..][i - 1..] == s[i..];
      FindIs(s[1..], pat, i - 1);
    } else {
      assert s[0..] == s;
    }
  }

  predicate IsAlpha(c: char) {
    'a' <= c <= 'z' || 'A' <= c <= 'Z'
  }

  /** Lower case, up to the first NUL character: the loop over the C string stops there. */
  function LowerName(s: string): (r: string)
    ensures |r| == |s|
  {
    if s == "" || s[0] == '\0' then s else [LowerChar(s[0])] + LowerName(s[1..])
  }

  predicate NameChars(s: string) {
    s == "" || s[0] == '\0' || (('a' <= s[0] <= 'z' || '0' <= s[0] <= '9' || s[0] == '-') && NameChars(s[1..]))
  }

  predicate ValidName(tag: string) {
    var l := LowerName(tag);
    l != "" && IsAlpha(l[0]) && NameChars(l)
  }

  const SELF_CLOSING: set<string> :=
    {"br", "img", "input", "hr", "meta", "link", "area", "base", "col", "embed", "source", "track", "wbr"}

  predicate SelfClosing(tag: string) {
    LowerName(tag) in SELF_CLOSING
  }

  /** What the scanner makes of a text that starts with a less-than sign, and where it goes on. */
  datatype Step = Fail | Skip(next: nat) | Emit(token: Token, next: nat)

  /** The name in the content of an opening tag: up to the first space, without the slash that ends a
      tag that has no space. */
  function NameOf(content: string): string
    requires content != ""
  {
    var space := Find(content, ' ');
    var name := if space == |content| then content else content[..space];
    var slash := content[|content| - 1] == '/' && (space == |content| || space == |content| - 1);
    if slash && space == |content| then name[..|name| - 1] else name
  }

  function ReadTag(s: string): (r: Step)
    requires s != "" && s[0] == '<'
    ensures !r.Fail? ==> 0 < r.next <= |s|
  {
    var end := Find(s, '>');
    if end == |s| then Fail
    else
      var content := s[1..end];
      if content == "" then Fail
      else if "!--" <= content then
        match FindText(s, "-->") case None => Fail case Some(i) => Skip(i + 3)
      else if "![CDATA[" <= content || "!DOCTYPE" <= content then Skip(end + 1)
      else if content[0] != '/' && !IsAlpha(content[0]) && content[0] != '!' then Skip(end + 1)
      else if content[0] == '/' then Emit(Close(LowerName(content[1..])), end + 1)
      else
        var name := LowerName(NameOf(content));
        if !ValidName(name) then Fail
        else if SelfClosing(name) then Skip(end + 1)
        else Emit(Open(name), end + 1)
  }

  /** The tags of a text, unless some tag is malformed. Comments, special tags, self-closing tags and
      less-than signs that start no tag are passed over. */
  function Scan(s: string): Option<seq<Token>>
    decreases |s|
  {
    if s == "" then Some([])
    else if s[0] != '<' then Scan(s[1..])
    else match ReadTag(s)
      case Fail => None
      case Skip(next) => Scan(s[next..])
      case Emit(token, next) => Prepend([token], Scan(s[next..]))
  }

  function Prepend(toks: seq<Token>, rest: Option<seq<Token>>): Option<seq<Token>> {
    if rest.Some? then Some(toks + rest.value) else None
  }

  // ----- nesting -----

  function Push(stack: seq<string>, name: string): seq<string> {
    stack + [name]
  }

  predicate Top(stack: seq<string>, name: string) {
    stack != [] && stack[|stack| - 1] == name
  }

  /** The open tags after some tags, unless a closing tag does not match. */
  function Apply(stack: seq<string>, toks: seq<Token>): Option<seq<string>>
    decreases |toks|
  {
    if toks == [] then Some(stack)
    else match toks[0]
      case Open(name) => Apply(Push(stack, name), toks[1..])
      case Close(name) => if Top(stack, name) then Apply(stack[..|stack| - 1], toks[1..]) else None
  }

  /** Well-nested documents: an element with its content, followed by the rest. */
  datatype Forest = Empty | Element(name: string, content: Forest, rest: Forest)

  function Tags(f: Forest): seq<Token> {
    match f
    case Empty => []
    case Element(name, content, rest) => [Open(name)] + Tags(content) + [Close(name)] + Tags(rest)
  }

  lemma {:induction false} ApplySplit(stack: seq<string>, a: seq<Token>, b: seq<Token>)
    ensures Apply(stack, a + b) == if Apply(stack, a).Some? then Apply(Apply(stack, a).value, b) else None
    decreases |a|
  {
    if a == [] {
      assert a + b == b;
    } else {
      assert (a + b)[1..] == a[1..] + b;
      match a[0]
      case Open(name) => ApplySplit(Push(stack, name), a[1..], b);
      case Close(name) =>
        if Top(stack, name) {
          ApplySplit(stack[..|stack| - 1], a[1..], b);
        }
    }
  }

  /** A well-nested document leaves the stack as it was. */
  lemma {:induction false} TagsKeepStack(stack: seq<string>, f: Forest)
    ensures Apply(stack, Tags(f)) == Some(stack)
    decreases f
  {
    if f.Element? {
      var inner := Push(stack, f.name);
      TagsKeepStack(inner, f.content);
      TagsKeepStack(stack, f.rest);
      ApplySplit(stack, [Open(f.name)], Tags(f.content));
      ApplySplit(stack, [Open(f.name)] + Tags(f.content), [Close(f.name)]);
      ApplySplit(stack, [Open(f.name)] + Tags(f.content) + [Close(f.name)], Tags(f.rest));
      assert inner[..|inner| - 1] == stack;
    }
  }

  /** The tags up to the one that closes the innermost open element form the document `f`; with none open,
      all of them do. */
  ghost predicate IsSplit(stack: seq<string>, toks: seq<Token>, f: Forest, rest: seq<Token>) {
    if stack == [] then toks == Tags(f)
    else toks == Tags(f) + [Close(stack[|stack| - 1])] + rest && Apply(stack[..|stack| - 1], rest) == Some([])
  }

  /** A closing tag that fits ends the document. */
  lemma SplitClose(stack: seq<string>, name: string, rest: seq<Token>)
    requires Apply(stack, [Close(name)] + rest) == Some([])
    ensures IsSplit(stack, [Close(name)] + rest, Empty, rest)
  {
    assert ([Close(name)] + rest)[1..] == rest;
  }

  /** What is split after an element is split with the element too. */
  lemma SplitOpen(stack: seq<string>, name: string, content: Forest, others: Forest, inside: seq<Token>,
                  after: seq<Token>, rest: seq<Token>)
    requires IsSplit(Push(stack, name), inside, content, after) && IsSplit(stack, after, others, rest)
    ensures IsSplit(stack, [Open(name)] + inside, Element(name, content, others), rest)
  {
    assert Push(stack, name)[|stack|] == name;
    assert Tags(Element(name, content, others)) == [Open(name)] + Tags(content) + [Close(name)] + Tags(others);
    hide Apply, Tags;
    Regroup([Open(name)], Tags(content), [Close(name)], after);
    if stack != [] {
      Regroup([Open(name)] + Tags(content) + [Close(name)], Tags(others), [Close(stack[|stack| - 1])], rest);
    }
  }

  lemma Regroup(a: seq<Token>, b: seq<Token>, c: seq<Token>, d: seq<Token>)
    ensures a + (b + c + d) == a + b + c + d
  {
  }

  lemma SplitGoesOn(stack: seq<string>, name: string, inside: seq<Token>, content: Forest, after: seq<Token>)
    requires IsSplit(Push(stack, name), inside, content, after)
    ensures Apply(stack, after) == Some([]) && |after| < |inside|
  {
    hide Apply, Tags;
    assert Push(stack, name)[..|stack|] == stack;
  }

  /** The tags of an accepted sequence can be split where the innermost open element is closed. */
  lemma {:induction false} SplitAtClose(stack: seq<string>, toks: seq<Token>) returns (f: Forest, rest: seq<Token>)
    requires Apply(stack, toks) == Some([])
    ensures IsSplit(stack, toks, f, rest)
    decreases |toks|
  {
    if toks == [] {
      f, rest := Empty, [];
    } else {
      assert toks == [toks[0]] + toks[1..];
      match toks[0]
      case Close(name) =>
        f, rest := Empty, toks[1..];
        hide *;
        SplitClose(stack, name, rest);
      case Open(name) =>
        assert Apply(Push(stack, name), toks[1..]) == Some([]);
        hide *;
        var content, after := SplitAtClose(Push(stack, name), toks[1..]);
        SplitGoesOn(stack, name, toks[1..], content, after);
        var others;
        others, rest := SplitAtClose(stack, after);
        f := Element(name, content, others);
        SplitOpen(stack, name, content, others, toks[1..], after, rest);
    }
  }

  /** The stack accepts exactly the well-nested documents. */
  lemma AcceptsWellNested(toks: seq<Token>)
    ensures Apply([], toks) == Some([]) <==> exists f: Forest :: Tags(f) == toks
  {
    if Apply([], toks) == Some([]) {
      var f, _ := SplitAtClose([], toks);
      assert Tags(f) == toks;
    }
    if f: Forest :| Tags(f) == toks {
      TagsKeepStack([], f);
    }
  }

  /** Whether a text is accepted when some tags are open already. */
  predicate Accepted(stack: seq<string>, s: string) {
    Scan(s).Some? && Apply(stack, Scan(s).value) == Some([])
  }

  /** A validator accepts a text and leaves the tags that are still open where it stops. */
  function Outcome(stack: seq<string>, s: string): (bool, seq<string>)
    decreases |s|
  {
    if s == "" then (stack == [], stack)
    else if s[0] != '<' then Outcome(stack, s[1..])
    else match ReadTag(s)
      case Fail => (false, stack)
      case Skip(next) => Outcome(stack, s[next..])
      case Emit(Open(name), next) => Outcome(Push(stack, name), s[next..])
      case Emit(Close(name), next) =>
        if Top(stack, name) then Outcome(stack[..|stack| - 1], s[next..]) else (false, stack)
  }

  lemma {:induction false} OutcomeIsAccepted(stack: seq<string>, s: string)
    ensures Outcome(stack, s).0 <==> Accepted(stack, s)
    ensures Outcome(stack, s).0 ==> Outcome(stack, s).1 == []
    decreases |s|
  {
    if s != "" {
      if s[0] != '<' {
        OutcomeIsAccepted(stack, s[1..]);
      } else {
        match ReadTag(s)
        case Fail =>
        case Skip(next) => OutcomeIsAccepted(stack, s[next..]);
        case Emit(token, next) =>
          if Scan(s).Some? {
            assert Scan(s).value[1..] == Scan(s[next..]).value;
          }
          match token
          case Open(name) => OutcomeIsAccepted(Push(stack, name), s[next..]);
          case Close(name) =>
            if Top(stack, name) {
              OutcomeIsAccepted(stack[..|stack| - 1], s[next..]);
            }
      }
    }
  }

  /** A new validator accepts a text if and only if its tags are those of a well-nested document. */
  lemma AcceptedIsWellNested(s: string)
    ensures Accepted([], s) <==> Scan(s).Some? && exists f: Forest :: Tags(f) == Scan(s).value
  {
    if Scan(s).Some? {
      AcceptsWellNested(Scan(s).value);
    }
  }

  class HTMLTagValidator {
    var tags: seq<string>

    constructor ()
      ensures tags == []
    {
      tags := [];
    }

    /** Scans a text; the scan position grows with every step. */
    method Process(html: string) returns (ok: bool)
      modifies this
      ensures (ok, tags) == Outcome(old(tags), html)
      ensures ok <==> Accepted(old(tags), html)
    {
      OutcomeIsAccepted(tags, html);
      var pos := 0;
      while pos < |html|
        invariant pos <= |html|
        invariant Outcome(tags, html[pos..]) == Outcome(old(tags), html)
      {
        if html[pos] == '<' {
          var step := ReadTag(html[pos..]);
          match step
          case Fail => return false;
          case Skip(next) => pos := Advance(html, pos, next);
          case Emit(Open(name), next) =>
            tags := Push(tags, name);
            pos := Advance(html, pos, next);
          case Emit(Close(name), next) =>
            if !Top(tags, name) {
              return false;
            }
            tags := tags[..|tags| - 1];
            pos := Advance(html, pos, next);
        } else {
          pos := Advance(html, pos, 1);
        }
      }
      return tags == [];
    }
  }

  function Advance(html: string, pos: nat, n: nat): (r: nat)
    requires pos + n <= |html|
    ensures r == pos + n && html[pos..][n..] == html[r..]
  {
    assert html[pos..][n..] == html[pos + n..];
    pos + n
  }
}
