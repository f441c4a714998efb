/** Rebuilding a command line for the shell, word by word, against the quoting rules of the POSIX Shell
    Command Language, sections 2.2.1 to 2.2.3.
*/
module ShellQuote {
  import opened Common

  const SQ := '\''
  const DQ := '"'
  const BSL := '\\'

  // ----- the shell's side -----

  datatype Mode = Bare | Escaped | Single | Double | DoubleEscaped

  /** Reading a line: the words so far, the word being read, if any, and the kind of quotes around; or that
      the line means something else than words to the shell. */
  datatype Shell = Reading(words: seq<string>, word: Option<string>, mode: Mode) | Other

  const START := Reading([], None, Bare)

  function Sofar(word: Option<string>): string {
    if word.Some? then word.value else ""
  }

  /** Outside quotes these operate on the command, expand, match file names or comment. */
  predicate Active(c: char) {
    c in "|&;<>()$`*?[#~\n"
  }

  /** Between double quotes a backslash is removed only before these. */
  predicate Escapable(c: char) {
    c in "$`\"\\\n"
  }

  function Read(sh: Shell, c: char): Shell {
    match sh
    case Other => Other
    case Reading(words, word, mode) =>
      var more := sh.(word := Some(Sofar(word) + [c]));
      match mode
      case Bare =>
        if c == SQ then Reading(words, Some(Sofar(word)), Single)
        else if c == DQ then Reading(words, Some(Sofar(word)), Double)
        else if c == BSL then Reading(words, Some(Sofar(word)), Escaped)
        else if c == ' ' || c == '\t' then Reading(if word.Some? then words + [word.value] else words, None, Bare)
        else if Active(c) then Other
        else more
      case Escaped => if c == '\n' then Other else more.(mode := Bare)
      case Single => if c == SQ then sh.(mode := Bare) else more
      case Double =>
        if c == DQ then sh.(mode := Bare)
        else if c == BSL then sh.(mode := DoubleEscaped)
        else if c == '$' || c == '`' then Other
        else more
      case DoubleEscaped =>
        if c == '\n' then sh.(mode := Double)
        else if Escapable(c) then more.(mode := Double)
        else Reading(words, Some(Sofar(word) + [BSL, c]), Double)
  }

  function ReadAll(sh: Shell, s: string): Shell {
    if s == "" then sh else Read(ReadAll(sh, s[..|s| - 1]), s[|s| - 1])
  }

  /** The words of a line, if the shell takes it as nothing but words. */
  function Split(line: string): Option<seq<string>> {
    match ReadAll(START, line)
    case Other => None
    case Reading(words, word, mode) =>
      if mode != Bare then None else Some(if word.Some? then words + [word.value] else words)
  }

  // ----- the program's side -----

  /** The characters that make a word need quotes. */
  predicate Special(c: char) {
    c in " `~!@#$%^&*(){}[]:;'\"|<>?\\"
  }

  predicate AnySpecial(w: string) {
    exists i :: 0 <= i < |w| && Special(w[i])
  }

  predicate Wrapped(w: string, quote: char) {
    w != "" && w[0] == quote && w[|w| - 1] == quote
  }

  /** Single quotes replaced by '"'"'. */
  function Replaced(w: string): string {
    if w == "" then ""
    else Replaced(w[..|w| - 1]) + if w[|w| - 1] == SQ then "'\"'\"'" else [w[|w| - 1]]
  }

  function Quoted(w: string): string {
    if Wrapped(w, DQ) then [SQ] + w + [SQ]
    else if Wrapped(w, SQ) then [DQ] + w + [DQ]
    else if AnySpecial(w) then [SQ] + Replaced(w) + [SQ]
    else w
  }

  function Brackets(i: nat, n: nat): string
    requires i + n <= 4
  {
    "(){}"[i..i + n]
  }

  /** Whether a text is a part of (){}. */
  predicate BracketsOnly(w: string) {
    0 < |w| <= 4 && exists i :: 0 <= i <= 4 - |w| && Brackets(i, |w|) == w
  }

  function Line(words: seq<string>): string {
    if words == [] then "" else Line(words[..|words| - 1]) + Quoted(words[|words| - 1]) + " "
  }

  /** The last step of the loop, to escape brackets, is never needed. */
  lemma NoBracketsOnly(w: string)
    ensures !BracketsOnly(Quoted(w))
  {
    var q := Quoted(w);
    if q != "" && BracketsOnly(q) {
      var i :| 0 <= i <= 4 - |q| && Brackets(i, |q|) == q;
      assert q[0] == "(){}"[i];
      assert Special(q[0]);
      assert false;
    }
  }

  method BuildCommand(words: seq<string>) returns (oscmd: string)
    ensures oscmd == Line(words)
  {
    oscmd := "";
    for i := 0 to |words|
      invariant oscmd == Line(words[..i])
    {
      var word := words[i];
      if Wrapped(word, DQ) {
        word := [SQ] + word + [SQ];
      } else if Wrapped(word, SQ) {
        word := [DQ] + word + [DQ];
      } else if AnySpecial(word) {
        word := Replaced(word);
        word := [SQ] + word + [SQ];
      }
      NoBracketsOnly(words[i]);
      if BracketsOnly(word) {
        word := [BSL] + word;
      }
      oscmd := oscmd + word + " ";
      assert words[..i + 1][..i] == words[..i];
    }
    assert words[..|words|] == words;
  }

  /** The characters of the source's list: blank, quotes, brackets and the signs that mean something to a shell. */
  predicate NeedsQuotes(c: char) {
    || c == ' ' || c == '\'' || c == '"' || c == '`' || c == '\\' || c == '(' || c == ')' || c == '{' || c == '}'
    || c == '[' || c == ']' || c == '<' || c == '>' || c == '~' || c == '!' || c == '@' || c == '#' || c == '$' || c == '%'
    || c == '^' || c == '&' || c == '*' || c == ':' || c == ';' || c == '|' || c == '?'
  }

  lemma SpecialIs(c: char)
    ensures Special(c) <==> NeedsQuotes(c)
  {
  }

  ghost predicate HasSpecial(w: string) {
    exists i :: 0 <= i < |w| && NeedsQuotes(w[i])
  }

  lemma SpecialThere(w: string)
    ensures AnySpecial(w) <==> HasSpecial(w)
  {
    forall c
      ensures Special(c) <==> NeedsQuotes(c)
    {
      SpecialIs(c);
    }
    hide Special, NeedsQuotes;
  }

  lemma QuoteNeedsQuotes(w: string)
    requires w != "" && (w[0] == '"' || w[0] == '\'')
    ensures HasSpecial(w)
  {
    assert NeedsQuotes(w[0]);
  }

  /** A word in quotes of its own gets the other kind around; another word gets single quotes if it has such a character,
      with its own ones replaced, and stays as it is otherwise. */
  lemma QuotedMeans(w: string)
    ensures w != "" && w[0] == '"' && w[|w| - 1] == '"' ==> Quoted(w) == "'" + w + "'"
    ensures w != "" && w[0] == '\'' && w[|w| - 1] == '\'' ==> Quoted(w) == "\"" + w + "\""
    ensures !HasSpecial(w) ==> Quoted(w) == w
    ensures HasSpecial(w) && !(w[0] == w[|w| - 1] && (w[0] == '"' || w[0] == '\'')) ==>
      Quoted(w) == "'" + Replaced(w) + "'"
    ensures '\'' !in w ==> Replaced(w) == w
  {
    SpecialThere(w);
    if '\'' !in w {
      NothingReplaced(w);
    }
    if w != "" && (w[0] == '"' || w[0] == '\'') {
      QuoteNeedsQuotes(w);
    }
    assert HasSpecial(w) ==> w != "";
    hide AnySpecial, HasSpecial, Replaced;
  }

  lemma {:induction false} NothingReplaced(w: string)
    requires '\'' !in w
    ensures Replaced(w) == w
    decreases |w|
  {
    if w != "" {
      assert w[|w| - 1] in w && forall c :: c in w[..|w| - 1] ==> c in w;
      NothingReplaced(w[..|w| - 1]);
      assert w == w[..|w| - 1] + [w[|w| - 1]];
    }
  }

  // ----- reading on -----

  lemma {:induction false} ReadAllSplit(sh: Shell, a: string, b: string)
    ensures ReadAll(sh, a + b) == ReadAll(ReadAll(sh, a), b)
    decreases |b|
  {
    hide Read;
    if b == "" {
      assert a + b == a;
    } else {
      var n := |b| - 1;
      ReadAllSplit(sh, a, b[..n]);
      assert (a + b)[..|a| + n] == a + b[..n] && (a + b)[|a| + n] == b[n];
    }
  }

  lemma ReadOne(sh: Shell, c: char)
    ensures ReadAll(sh, [c]) == Read(sh, c)
  {
    assert [c][..0] == "";
  }

  /** Reading a text between two single characters. */
  lemma ReadBetween(sh: Shell, c: char, s: string, d: char)
    ensures ReadAll(sh, [c] + s + [d]) == Read(ReadAll(Read(sh, c), s), d)
  {
    hide Read;
    ReadAllSplit(sh, [c] + s, [d]);
    ReadAllSplit(sh, [c], s);
    ReadOne(sh, c);
    ReadOne(ReadAll(Read(sh, c), s), d);
  }

  lemma {:induction false} ReadReplaced(words: seq<string>, x: string, w: string)
    ensures ReadAll(Reading(words, Some(x), Single), Replaced(w)) == Reading(words, Some(x + w), Single)
    decreases |w|
  {
    if w == "" {
      assert x + w == x;
    } else {
      var n := |w| - 1;
      ReadReplaced(words, x, w[..n]);
      var sh := Reading(words, Some(x + w[..n]), Single);
      assert x + w == x + w[..n] + [w[n]];
      if w[n] == SQ {
        ReadAllSplit(Reading(words, Some(x), Single), Replaced(w[..n]), "'\"'\"'");
        ReadReplacement(words, x + w[..n]);
      } else {
        ReadAllSplit(Reading(words, Some(x), Single), Replaced(w[..n]), [w[n]]);
        ReadOne(sh, w[n]);
      }
    }
  }

  lemma ReadReplacement(words: seq<string>, x: string)
    ensures ReadAll(Reading(words, Some(x), Single), "'\"'\"'") == Reading(words, Some(x + [SQ]), Single)
  {
    var t := "'\"'\"'";
    var sh := Reading(words, Some(x), Single);
    assert t[..0] == "" && t[..4][..3] == t[..3] && t[..3][..2] == t[..2] && t[..2][..1] == t[..1] && t[..1][..0] == "";
    assert ReadAll(sh, t[..1]) == sh.(mode := Bare);
    assert ReadAll(sh, t[..2]) == sh.(mode := Double);
    assert ReadAll(sh, t[..3]) == Reading(words, Some(x + [SQ]), Double);
    assert ReadAll(sh, t[..4]) == Reading(words, Some(x + [SQ]), Bare);
  }

  /** Between single quotes everything but a single quote is read as it is. */
  lemma {:induction false} ReadSingle(words: seq<string>, x: string, s: string)
    requires SQ !in s
    ensures ReadAll(Reading(words, Some(x), Single), s) == Reading(words, Some(x + s), Single)
    decreases |s|
  {
    if s == "" {
      assert x + s == x;
    } else {
      var n := |s| - 1;
      assert s[n] in s && forall c :: c in s[..n] ==> c in s;
      ReadSingle(words, x, s[..n]);
      assert x + s == x + s[..n] + [s[n]];
    }
  }

  predicate Plain(c: char) {
    !Active(c) && c != SQ && c != DQ && c != BSL && c != ' ' && c != '\t'
  }

  predicate AllPlain(s: string) {
    forall i :: 0 <= i < |s| ==> Plain(s[i])
  }

  lemma {:induction false} ReadPlain(words: seq<string>, s: string)
    requires AllPlain(s)
    ensures ReadAll(Reading(words, None, Bare), s) == Reading(words, if s == "" then None else Some(s), Bare)
    decreases |s|
  {
    if s != "" {
      var n := |s| - 1;
      ReadPlain(words, s[..n]);
      assert s == s[..n] + [s[n]] && Plain(s[n]);
    }
  }

  /** No character that is special between double quotes. */
  predicate Clean(s: string) {
    && (forall i :: 0 <= i < |s| ==> s[i] != '$' && s[i] != '`' && s[i] != DQ)
    && (forall i :: 0 < i < |s| && s[i - 1] == BSL ==> s[i] != BSL && s[i] != '\n')
  }

  lemma CleanFront(s: string)
    requires s != ""
    ensures Clean(s) <==>
            && Clean(s[..|s| - 1]) && s[|s| - 1] != '$' && s[|s| - 1] != '`' && s[|s| - 1] != DQ
            && (|s| > 1 && s[|s| - 2] == BSL ==> s[|s| - 1] != BSL && s[|s| - 1] != '\n')
  {
    var f := s[..|s| - 1];
    if Clean(f) && s[|s| - 1] != '$' && s[|s| - 1] != '`' && s[|s| - 1] != DQ
       && (|s| > 1 && s[|s| - 2] == BSL ==> s[|s| - 1] != BSL && s[|s| - 1] != '\n')
    {
      forall i | 0 <= i < |s|
        ensures s[i] != '$' && s[i] != '`' && s[i] != DQ
        ensures i > 0 && s[i - 1] == BSL ==> s[i] != BSL && s[i] != '\n'
      {
        assert i < |f| ==> s[i] == f[i];
        assert 0 < i <= |f| ==> s[i - 1] == f[i - 1];
      }
    }
  }

  /** Clean text between double quotes is read as it is, its last backslash once the next character is known. */
  lemma {:induction false} ReadClean(words: seq<string>, x: string, s: string)
    requires Clean(s)
    ensures ReadAll(Reading(words, Some(x), Double), s) ==
            if s != "" && s[|s| - 1] == BSL then Reading(words, Some(x + s[..|s| - 1]), DoubleEscaped)
            else Reading(words, Some(x + s), Double)
    decreases |s|
  {
    if s == "" {
      assert x + s == x;
    } else {
      var n := |s| - 1;
      CleanFront(s);
      ReadClean(words, x, s[..n]);
      assert x + s == x + s[..n] + [s[n]];
      if n > 0 && s[n - 1] == BSL {
        assert s[..n][..n - 1] == s[..n - 1];
        assert x + s == x + s[..n - 1] + [BSL, s[n]];
      }
    }
  }

  // ----- which words come back -----

  /** What the program's quoting preserves. */
  predicate Kept(w: string) {
    if Wrapped(w, DQ) then SQ !in w
    else if Wrapped(w, SQ) then Clean(w)
    else AnySpecial(w) || (w != "" && '\t' !in w && '\n' !in w)
  }

  lemma PlainWord(w: string)
    requires !AnySpecial(w) && '\t' !in w && '\n' !in w
    ensures AllPlain(w)
  {
    forall i | 0 <= i < |w|
      ensures Plain(w[i])
    {
      assert !Special(w[i]) && w[i] in w;
    }
  }

  /** Such a word is read back from where words may start. */
  lemma WordReadBack(words: seq<string>, w: string)
    requires Kept(w)
    ensures ReadAll(Reading(words, None, Bare), Quoted(w)) == Reading(words, Some(w), Bare)
  {
    hide ReadAll, Clean, Replaced, AnySpecial, AllPlain;
    var sh := Reading(words, None, Bare);
    assert "" + w == w;
    if Wrapped(w, DQ) {
      ReadBetween(sh, SQ, w, SQ);
      ReadSingle(words, "", w);
    } else if Wrapped(w, SQ) {
      ReadBetween(sh, DQ, w, DQ);
      ReadClean(words, "", w);
    } else if AnySpecial(w) {
      ReadBetween(sh, SQ, Replaced(w), SQ);
      ReadReplaced(words, "", w);
    } else {
      PlainWord(w);
      ReadPlain(words, w);
    }
  }

  ghost predicate AllKept(words: seq<string>) {
    forall i :: 0 <= i < |words| ==> Kept(words[i])
  }

  lemma {:induction false} LineReadBack(words: seq<string>)
    requires AllKept(words)
    ensures ReadAll(START, Line(words)) == Reading(words, None, Bare)
    decreases |words|
  {
    hide Kept, Quoted, ReadAll;
    if words != [] {
      var n := |words| - 1;
      var line, w := Line(words[..n]), words[n];
      LineReadBack(words[..n]);
      WordReadBack(words[..n], w);
      ReadAllSplit(START, line, Quoted(w));
      ReadAllSplit(START, line + Quoted(w), " ");
      ReadOne(Reading(words[..n], Some(w), Bare), ' ');
      assert words == words[..n] + [w];
    } else {
      assert ReadAll(START, "") == START by { NothingRead(START); }
    }
  }

  lemma NothingRead(sh: Shell)
    ensures ReadAll(sh, "") == sh
  {
  }

  /** The line that the program builds is split and unquoted by the shell into the words it was built from. */
  lemma RoundTrip(words: seq<string>)
    requires AllKept(words)
    ensures Split(Line(words)) == Some(words)
  {
    LineReadBack(words);
  }

  // ----- and which do not -----

  function Lengths(words: seq<string>): nat {
    if words == [] then 0 else Lengths(words[..|words| - 1]) + |words[|words| - 1]|
  }

  /** How many characters were kept so far; a backslash that may still be removed counts as kept. */
  function Size(sh: Shell): nat
    requires sh.Reading?
  {
    Lengths(sh.words) + |Sofar(sh.word)| + if sh.mode.DoubleEscaped? then 1 else 0
  }

  /** How many characters must be removed to be in a mode again after double quotes were opened. */
  function Cost(mode: Mode): nat {
    match mode
    case Double => 0
    case DoubleEscaped => 0
    case Bare => 1
    case _ => 2
  }

  lemma LengthsAppend(words: seq<string>, w: string)
    ensures Lengths(words + [w]) == Lengths(words) + |w|
  {
    assert (words + [w])[..|words|] == words;
  }

  /** One character adds at most one, and changes of mode cost what Cost says. */
  lemma ReadCosts(sh: Shell, c: char)
    requires sh.Reading? && Read(sh, c).Reading?
    ensures Size(Read(sh, c)) <= Size(sh) + 1
    ensures Cost(Read(sh, c).mode) <= Cost(sh.mode) + 1 - (Size(Read(sh, c)) - Size(sh))
  {
    if sh.word.Some? {
      LengthsAppend(sh.words, sh.word.value);
    }
  }

  lemma OtherStays(sh: Shell, s: string)
    requires s != "" && ReadAll(sh, s).Reading?
    ensures ReadAll(sh, s[..|s| - 1]).Reading? && Read(ReadAll(sh, s[..|s| - 1]), s[|s| - 1]).Reading?
  {
  }

  lemma {:induction false} ReadAllCosts(sh: Shell, s: string)
    requires sh.Reading? && ReadAll(sh, s).Reading?
    ensures Size(ReadAll(sh, s)) <= Size(sh) + |s|
    ensures Cost(ReadAll(sh, s).mode) <= Cost(sh.mode) + |s| - (Size(ReadAll(sh, s)) - Size(sh))
    decreases |s|
  {
    if s != "" {
      hide Read, Size, Cost;
      OtherStays(sh, s);
      ReadAllCosts(sh, s[..|s| - 1]);
      ReadCosts(ReadAll(sh, s[..|s| - 1]), s[|s| - 1]);
    }
  }

  /** If nothing is removed outside quotes then nothing was special to the shell. */
  lemma {:induction false} LosslessBare(sh: Shell, s: string)
    requires sh.Reading? && sh.mode == Bare && ReadAll(sh, s).Reading?
    requires Size(ReadAll(sh, s)) == Size(sh) + |s|
    ensures ReadAll(sh, s).mode == Bare && AllPlain(s)
    decreases |s|
  {
    if s != "" {
      var front := s[..|s| - 1];
      OtherStays(sh, s);
      ReadAllCosts(sh, front);
      ReadCosts(ReadAll(sh, front), s[|s| - 1]);
      LosslessBare(sh, front);
      var r := ReadAll(sh, front);
      if r.word.Some? {
        LengthsAppend(r.words, r.word.value);
      }
      assert Plain(s[|s| - 1]);
    }
  }

  /** If nothing is removed after double quotes were opened then the text was clean, and they are still open. */
  lemma {:induction false} LosslessDouble(sh: Shell, s: string)
    requires sh.Reading? && sh.mode == Double && ReadAll(sh, s).Reading?
    requires Size(ReadAll(sh, s)) == Size(sh) + |s|
    ensures Clean(s)
    ensures ReadAll(sh, s).mode == if s != "" && s[|s| - 1] == BSL then DoubleEscaped else Double
    decreases |s|
  {
    if s != "" {
      var front := s[..|s| - 1];
      OtherStays(sh, s);
      ReadAllCosts(sh, front);
      ReadCosts(ReadAll(sh, front), s[|s| - 1]);
      LosslessDouble(sh, front);
      CleanFront(s);
    }
  }

  /** If the line of one word gives that word back, then the final space and nothing else was removed from
      its end. */
  lemma LastIsSpace(sh: Shell, q: string, w: string)
    requires sh.Reading? && q != "" && q[|q| - 1] != BSL
    requires ReadAll(sh, q).Reading? && Read(ReadAll(sh, q), ' ').mode == Bare
    requires Read(ReadAll(sh, q), ' ').Reading?
    ensures ReadAll(sh, q).mode == Bare && Size(Read(ReadAll(sh, q), ' ')) == Size(ReadAll(sh, q))
  {
    OtherStays(sh, q);
    LastRead(sh, q);
    NotEscaped(ReadAll(sh, q[..|q| - 1]), q[|q| - 1]);
    var r := ReadAll(sh, q);
    hide ReadAll, Lengths;
    if r.word.Some? {
      LengthsAppend(r.words, r.word.value);
    }
  }

  lemma SplitSize(line: string, w: string)
    requires Split(line) == Some([w])
    ensures var sh := ReadAll(START, line); sh.Reading? && sh.mode == Bare && Size(sh) == |w|
  {
    var sh := ReadAll(START, line);
    assert Lengths([w]) == |w| by {
      LengthsAppend([], w);
      assert [] + [w] == [w];
    }
    if sh.word.Some? {
      LengthsAppend(sh.words, sh.word.value);
    }
  }

  lemma OneWordSize(w: string)
    requires Split(Line([w])) == Some([w]) && Quoted(w) != "" && Quoted(w)[|Quoted(w)| - 1] != BSL
    ensures var sh := ReadAll(START, Quoted(w)); sh.Reading? && sh.mode == Bare && Size(sh) == |w|
  {
    hide Read, Size, Quoted;
    var q := Quoted(w);
    assert [w][..0] == [] && Line([w]) == "" + q + " " && "" + q == q;
    SplitSize(q + " ", w);
    assert (q + " ")[..|q|] == q;
    OtherStays(START, q + " ");
    LastIsSpace(START, q, w);
  }

  function FirstOf(s: string, c: char): (k: nat)
    requires c in s
    ensures k < |s|
    ensures s[k] == c
    ensures forall i :: 0 <= i < k ==> s[i] != c
  {
    if s[0] == c then 0 else FirstOf(s[1..], c) + 1
  }

  /** Single quotes around a text without them. */
  lemma ReadQuotes(u: string)
    requires SQ !in u
    ensures ReadAll(START, [SQ] + u + [SQ]) == Reading([], Some(u), Bare)
  {
    hide ReadAll;
    ReadBetween(START, SQ, u, SQ);
    ReadSingle([], "", u);
    assert "" + u == u;
  }

  lemma QuoteApart(w: string, k: nat)
    requires k < |w| && w[k] == SQ
    ensures [SQ] + w + [SQ] == [SQ] + w[..k] + [SQ] + (w[k + 1..] + [SQ])
  {
  }

  lemma DoubleQuotedKept(w: string)
    requires Wrapped(w, DQ) && Split(Line([w])) == Some([w])
    ensures SQ !in w
  {
    if SQ in w {
      hide ReadAll, Size, Split, Line, FirstOf, Read, AllPlain;
      OneWordSize(w);
      var k := FirstOf(w, SQ);
      QuoteApart(w, k);
      ReadQuotes(w[..k]);
      var a, b := [SQ] + w[..k] + [SQ], w[k + 1..] + [SQ];
      assert Quoted(w) == a + b;
      ReadAllSplit(START, a, b);
      SizeOfOne(w[..k]);
      LosslessBare(Reading([], Some(w[..k]), Bare), b);
      EndsInQuote(b);
    }
  }

  lemma EndsInQuote(s: string)
    requires s != "" && AllPlain(s)
    ensures s[|s| - 1] != SQ
  {
    assert Plain(s[|s| - 1]);
  }

  lemma SizeOfOne(u: string)
    ensures Size(Reading([], Some(u), Bare)) == |u| && Size(Reading([], Some(u), Double)) == |u|
  {
  }

  lemma SingleQuotedKept(w: string)
    requires Wrapped(w, SQ) && Split(Line([w])) == Some([w])
    ensures Clean(w)
  {
    hide ReadAll, Size, Split, Line, Clean;
    OneWordSize(w);
    var inside := Reading([], Some(""), Double);
    ReadBetween(START, DQ, w, DQ);
    SizeOfOne("");
    var r := ReadAll(inside, w);
    ReadAllCosts(inside, w);
    ReadCosts(r, DQ);
    QuoteEnds(r);
    LosslessDouble(inside, w);
  }

  /** A double quote leads out of quotes from double ones, or after a backslash. */
  lemma QuoteEnds(sh: Shell)
    requires sh.Reading? && Read(sh, DQ).Reading? && Read(sh, DQ).mode == Bare
    ensures sh.mode == Escaped || (sh.mode == Double && Size(Read(sh, DQ)) == Size(sh))
  {
  }

  lemma BareKept(w: string)
    requires !AnySpecial(w) && Split(Line([w])) == Some([w])
    ensures w != "" && '\t' !in w && '\n' !in w
  {
    assert Quoted(w) == w by { NotQuoted(w); }
    if w == "" {
      assert [w][..0] == [] && Line([w]) == " ";
      ReadOne(START, ' ');
      assert false;
    }
    hide Read, Size, Line, Quoted, Split;
    assert !Special(w[|w| - 1]);
    OneWordSize(w);
    SizeOfNone();
    LosslessBare(START, w);
    assert forall i :: 0 <= i < |w| ==> Plain(w[i]);
  }

  lemma NotQuoted(w: string)
    requires !AnySpecial(w)
    ensures Quoted(w) == w
  {
    assert w != "" ==> !Special(w[0]);
  }

  lemma SizeOfNone()
    ensures Size(START) == 0
  {
  }

  /** A word alone comes back from the shell if and only if it is kept, whatever characters are in it. */
  lemma WordKeptIff(w: string)
    ensures Split(Line([w])) == Some([w]) <==> Kept(w)
  {
    hide Split, Line, Clean, AnySpecial, Wrapped;
    if Kept(w) {
      RoundTrip([w]);
    } else if Wrapped(w, DQ) {
      if Split(Line([w])) == Some([w]) { DoubleQuotedKept(w); }
    } else if Wrapped(w, SQ) {
      if Split(Line([w])) == Some([w]) { SingleQuotedKept(w); }
    } else {
      if Split(Line([w])) == Some([w]) { BareKept(w); }
    }
  }

  /** A word in double quotes with a single quote inside is one that does not. */
  lemma QuotesLost()
    ensures Split(Line(["\"a'b\""])) != Some(["\"a'b\""])
  {
    var w := "\"a'b\"";
    assert w[2] == SQ;
    WordKeptIff(w);
  }

  // ----- lists of words -----

  /** The shell has gone past word n of the line, or is in it, and it cannot be `w` any more. */
  ghost predicate Missed(sh: Shell, n: nat, w: string) {
    sh.Reading? ==>
      || (|sh.words| > n && sh.words[n] != w)
      || (|sh.words| == n && sh.word.Some? && !(sh.word.value <= w))
  }

  lemma PrefixGrows(x: string, y: string, w: string)
    requires !(x <= w)
    ensures !(x + y <= w) && x != w
  {
    assert x <= x + y;
  }

  lemma MissedStays(sh: Shell, c: char, n: nat, w: string)
    requires Missed(sh, n, w)
    ensures Missed(Read(sh, c), n, w)
  {
    if sh.Reading? && |sh.words| == n {
      PrefixGrows(sh.word.value, [c], w);
      PrefixGrows(sh.word.value, [BSL, c], w);
      PrefixGrows(sh.word.value, "", w);
      assert sh.word.value + "" == sh.word.value;
    }
  }

  lemma {:induction false} MissedForGood(sh: Shell, s: string, n: nat, w: string)
    requires Missed(sh, n, w)
    ensures Missed(ReadAll(sh, s), n, w)
    decreases |s|
  {
    if s != "" {
      hide Read, Missed;
      MissedForGood(sh, s[..|s| - 1], n, w);
      MissedStays(ReadAll(sh, s[..|s| - 1]), s[|s| - 1], n, w);
    }
  }

  lemma MissedNotSplit(line: string, ws: seq<string>, n: nat)
    requires n < |ws| && Missed(ReadAll(START, line), n, ws[n])
    ensures Split(line) != Some(ws)
  {
    var sh := ReadAll(START, line);
    if sh.Reading? && sh.word.Some? {
      assert (sh.words + [sh.word.value])[|sh.words|] == sh.word.value;
      assert |sh.words| > n ==> (sh.words + [sh.word.value])[n] == sh.words[n];
    }
  }

  /** The shell has read the first i characters of `w`, at least one of them was removed, and there is no blank
      among those that it may still have to match. */
  ghost predicate Lagging(sh: Shell, words: seq<string>, w: string, k: nat, i: nat) {
    && sh.Reading? && sh.words == words && sh.word.Some? && sh.word.value <= w
    && k <= |sh.word.value| && |sh.word.value| + (if sh.mode.DoubleEscaped? then 1 else 0) < i <= |w|
    && ' ' !in w[k..i]
  }

  lemma NoPrefix(x: string, w: string, i: nat)
    requires i < |x| && (i < |w| ==> x[i] != w[i])
    ensures !(x <= w)
  {
  }

  lemma NoBlankThere(w: string, k: nat, i: nat, x: string)
    requires k <= |x| < i <= |w| && ' ' !in w[k..i]
    ensures !(x + [' '] <= w)
  {
    assert w[|x|] == w[k..i][|x| - k];
    NoPrefix(x + [' '], w, |x|);
  }

  /** A blank read while lagging ends the word too early or is one too many. */
  lemma BlankMisses(sh: Shell, words: seq<string>, w: string, k: nat, i: nat)
    requires Lagging(sh, words, w, k, i)
    ensures Missed(Read(sh, ' '), |words|, w)
  {
    var x := sh.word.value;
    NoBlankThere(w, k, i, x);
    if sh.mode.DoubleEscaped? {
      NoBlankThere(w, k, i, x + [BSL]);
      assert x + [BSL, ' '] == x + [BSL] + [' '];
    }
  }

  lemma LagStep(sh: Shell, words: seq<string>, w: string, k: nat, i: nat)
    requires Lagging(sh, words, w, k, i) && i < |w|
    ensures Lagging(Read(sh, w[i]), words, w, k, i + 1) || Missed(Read(sh, w[i]), |words|, w)
  {
    var c := w[i];
    if c == ' ' {
      BlankMisses(sh, words, w, k, i);
    } else {
      assert w[k..i + 1] == w[k..i] + [c];
    }
  }

  lemma {:induction false} LagOn(sh: Shell, words: seq<string>, w: string, k: nat, i: nat, m: nat)
    requires Lagging(sh, words, w, k, i) && i <= m <= |w|
    ensures var r := ReadAll(sh, w[i..m]); Lagging(r, words, w, k, m) || Missed(r, |words|, w)
    decreases m - i
  {
    hide Read, Lagging, Missed;
    if m == i {
      NothingRead(sh);
    } else {
      LagOn(sh, words, w, k, i, m - 1);
      var r := ReadAll(sh, w[i..m - 1]);
      assert w[i..m][..m - 1 - i] == w[i..m - 1] && w[i..m][m - 1 - i] == w[m - 1];
      if Missed(r, |words|, w) {
        MissedStays(r, w[m - 1], |words|, w);
      } else {
        LagStep(r, words, w, k, m - 1);
      }
    }
  }

  /** After all of `w` there is one more quote and a blank, and then it is missed for certain. */
  lemma LagEnds(sh: Shell, words: seq<string>, w: string, k: nat, quote: char)
    requires Lagging(sh, words, w, k, |w|) && (quote == SQ || quote == DQ)
    requires sh.mode != Escaped && sh.mode != DoubleEscaped
    ensures Missed(Read(Read(sh, quote), ' '), |words|, w)
  {
    var x := sh.word.value;
    NoBlankThere(w, k, |w|, x);
    if |x| + 1 < |w| {
      if x + [quote] <= w {
        NoBlankThere(w, k, |w|, x + [quote]);
      } else {
        PrefixGrows(x + [quote], [' '], w);
      }
    }
  }

  lemma NotEscaped(sh: Shell, c: char)
    requires c != BSL && Read(sh, c).Reading?
    ensures Read(sh, c).mode != Escaped && Read(sh, c).mode != DoubleEscaped
  {
  }

  /** Words that the shell does not see at all. */
  predicate Vanishing(w: string) {
    forall i :: 0 <= i < |w| ==> w[i] == '\t'
  }

  lemma CutAt(before: string, w: string, i: nat, after: string)
    requires i <= |w|
    ensures before + w + after == before + w[..i] + (w[i..] + after)
    ensures w[i..|w|] == w[i..]
  {
    assert w == w[..i] + w[i..];
  }

  /** From a first removed character on, all of a quoted word is missed. */
  lemma LagMisses(words: seq<string>, w: string, k: nat, i: nat, quote: char)
    requires quote == SQ || quote == DQ
    requires i < |w| && w[|w| - 1] != BSL
    requires var sh := ReadAll(Reading(words, None, Bare), [quote] + w[..i]);
             Lagging(sh, words, w, k, i) || Missed(sh, |words|, w)
    ensures Missed(ReadAll(Reading(words, None, Bare), [quote] + w + [quote] + " "), |words|, w)
  {
    hide Read, ReadAll, Lagging, Missed;
    var start := Reading(words, None, Bare);
    var n := |words|;
    var a, b, q := [quote] + w[..i], w[i..], [quote] + " ";
    var sh := ReadAll(start, a);
    CutAt([quote], w, i, [quote] + " ");
    assert [quote] + w + [quote] + " " == [quote] + w + q;
    ReadAllSplit(start, a, b + q);
    if Missed(sh, n, w) {
      MissedForGood(sh, b + q, n, w);
    } else {
      LagOn(sh, words, w, k, i, |w|);
      ReadAllSplit(sh, b, q);
      var r := ReadAll(sh, b);
      ReadTwo(r, quote, ' ');
      if Missed(r, n, w) {
        MissedForGood(r, q, n, w);
      } else {
        LastRead(sh, b);
        LagReads(r, words, w, k);
        NotEscaped(ReadAll(sh, b[..|b| - 1]), b[|b| - 1]);
        LagEnds(r, words, w, k, quote);
      }
    }
  }

  lemma LastRead(sh: Shell, s: string)
    requires s != ""
    ensures ReadAll(sh, s) == Read(ReadAll(sh, s[..|s| - 1]), s[|s| - 1])
  {
  }

  lemma LagReads(sh: Shell, words: seq<string>, w: string, k: nat)
    requires Lagging(sh, words, w, k, |w|)
    ensures sh.Reading?
  {
  }

  lemma ReadTwo(sh: Shell, c: char, d: char)
    ensures ReadAll(sh, [c] + [d]) == Read(Read(sh, c), d)
  {
    assert ([c] + [d])[..1] == [c];
    ReadOne(sh, c);
    hide Read;
  }

  /** Single quotes around a word with a single quote inside. */
  lemma DoubleQuotedMissed(words: seq<string>, w: string)
    requires Wrapped(w, DQ) && SQ in w
    ensures Missed(ReadAll(Reading(words, None, Bare), Quoted(w) + " "), |words|, w)
  {
    hide ReadAll, Missed, FirstOf;
    var k := FirstOf(w, SQ);
    var u := w[..k];
    assert w[|w| - 1] == DQ;
    ReadBetween(Reading(words, None, Bare), SQ, u, SQ);
    ReadSingle(words, "", u);
    assert "" + u == u;
    assert [SQ] + w[..k + 1] == [SQ] + u + [SQ];
    assert w[k..k + 1] == [SQ];
    LagMisses(words, w, k, k + 1, SQ);
  }

  /** The length of the shortest start of a text that is not clean. */
  lemma {:induction false} FirstUnclean(w: string) returns (m: nat)
    requires !Clean(w)
    ensures 0 < m <= |w| && Clean(w[..m - 1]) && !Clean(w[..m])
    decreases |w|
  {
    var n := |w| - 1;
    if Clean(w[..n]) {
      m := |w|;
      assert w[..m] == w;
    } else {
      m := FirstUnclean(w[..n]);
      assert w[..n][..m] == w[..m] && w[..n][..m - 1] == w[..m - 1];
    }
  }

  lemma OneCharOn(w: string, i: nat)
    requires i < |w|
    ensures w[..i + 1][..i] == w[..i] && w[..i + 1][i] == w[i] && w[..i + 1] == w[..i] + [w[i]]
  {
  }

  /** After a backslash that is not plain: it is removed, or the character after it is out of place. */
  lemma BackslashLags(words: seq<string>, w: string, m: nat)
    requires 1 < m < |w| && w[m - 2] == BSL && w[m - 1] in "$`\"\\\n"
    ensures var sh := Read(Reading(words, Some(w[..m - 2]), DoubleEscaped), w[m - 1]);
            Lagging(sh, words, w, m - 2, m) || Missed(sh, |words|, w)
  {
    var x, c := w[..m - 2], w[m - 1];
    assert w[m - 2..m] == [BSL, c];
    if c == BSL {
      assert x + [c] == w[..m - 1];
    } else if c != '\n' {
      NoPrefix(x + [c], w, m - 2);
    }
  }

  /** After clean text: the quotes are closed, or the shell expands. */
  lemma CleanLags(words: seq<string>, w: string, m: nat)
    requires 0 < m < |w| && w[m - 1] in "$`\""
    ensures var sh := Read(Reading(words, Some(w[..m - 1]), Double), w[m - 1]);
            Lagging(sh, words, w, m - 1, m) || Missed(sh, |words|, w)
  {
    assert w[m - 1..m] == [w[m - 1]];
  }

  /** The first character that is not clean is removed, or ends the matter. */
  lemma UncleanLags(words: seq<string>, w: string, m: nat)
    requires 0 < m < |w| && Clean(w[..m - 1]) && !Clean(w[..m])
    ensures var sh := ReadAll(Reading(words, Some(""), Double), w[..m]);
            var k := if m > 1 && w[m - 2] == BSL then m - 2 else m - 1;
            Lagging(sh, words, w, k, m) || Missed(sh, |words|, w)
  {
    hide ReadAll, Read, Lagging, Missed, Clean;
    var f := w[..m - 1];
    OneCharOn(w, m - 1);
    CleanFront(w[..m]);
    ReadClean(words, "", f);
    LastRead(Reading(words, Some(""), Double), w[..m]);
    assert "" + f == f;
    if m > 1 && w[m - 2] == BSL {
      assert f[..m - 2] == w[..m - 2] && "" + w[..m - 2] == w[..m - 2];
      BackslashLags(words, w, m);
    } else {
      CleanLags(words, w, m);
    }
  }

  /** Double quotes around a word with something special inside. */
  lemma SingleQuotedMissed(words: seq<string>, w: string)
    requires Wrapped(w, SQ) && !Clean(w)
    ensures Missed(ReadAll(Reading(words, None, Bare), Quoted(w) + " "), |words|, w)
  {
    hide ReadAll, Missed, Lagging, Clean;
    var m := FirstUnclean(w);
    CleanFront(w);
    assert w[..|w|] == w;
    assert m < |w|;
    var start := Reading(words, None, Bare);
    ReadOne(start, DQ);
    ReadAllSplit(start, [DQ], w[..m]);
    UncleanLags(words, w, m);
    LagMisses(words, w, if m > 1 && w[m - 2] == BSL then m - 2 else m - 1, m, DQ);
  }

  lemma {:induction false} TabsVanish(words: seq<string>, t: string)
    requires Vanishing(t)
    ensures ReadAll(Reading(words, None, Bare), t) == Reading(words, None, Bare)
    decreases |t|
  {
    if t != "" {
      TabsVanish(words, t[..|t| - 1]);
    }
  }

  /** Where a word has its first character that is not a tab. */
  function TabCount(w: string): (r: nat)
    ensures r <= |w|
    ensures forall i :: 0 <= i < r ==> w[i] == '\t'
    ensures r < |w| ==> w[r] != '\t'
  {
    if w == "" || w[0] != '\t' then 0 else TabCount(w[1..]) + 1
  }

  lemma NotVanishing(w: string)
    requires !Vanishing(w)
    ensures TabCount(w) < |w|
  {
    assert w[..|w|] == w;
  }

  lemma ReadFirstChar(words: seq<string>, c: char)
    requires !Special(c) && c != '\t'
    ensures Read(Reading(words, None, Bare), c) == if c == '\n' then Other else Reading(words, Some([c]), Bare)
  {
    assert "" + [c] == [c];
  }

  lemma TabsEnd(w: string)
    requires !AnySpecial(w) && !Vanishing(w)
    ensures var r := TabCount(w); r < |w| && Vanishing(w[..r]) && !Special(w[r]) && w[r] != '\t'
  {
    hide TabCount;
    NotVanishing(w);
  }

  /** What is read first of a word that stays as it is. */
  lemma FirstRead(words: seq<string>, w: string)
    requires !AnySpecial(w) && !Vanishing(w)
    ensures var r := TabCount(w);
            && r < |w|
            && ReadAll(Reading(words, None, Bare), w[..r + 1]) ==
               if w[r] == '\n' then Other else Reading(words, Some([w[r]]), Bare)
  {
    hide *;
    TabsEnd(w);
    FirstReadAt(words, w, TabCount(w));
  }

  lemma FirstReadAt(words: seq<string>, w: string, r: nat)
    requires r < |w| && Vanishing(w[..r]) && !Special(w[r]) && w[r] != '\t'
    ensures ReadAll(Reading(words, None, Bare), w[..r + 1]) ==
            if w[r] == '\n' then Other else Reading(words, Some([w[r]]), Bare)
  {
    hide *;
    TabsVanish(words, w[..r]);
    OneCharOn(w, r);
    LastRead(Reading(words, None, Bare), w[..r + 1]);
    ReadFirstChar(words, w[r]);
  }

  /** Where the first tab or newline of a word is. */
  function FirstBreak(w: string): (t: nat)
    requires '\t' in w || '\n' in w
    ensures t < |w|
    ensures w[t] == '\t' || w[t] == '\n'
    ensures forall i :: 0 <= i < t ==> w[i] != '\t' && w[i] != '\n'
  {
    if w[0] == '\t' || w[0] == '\n' then 0 else FirstBreak(w[1..]) + 1
  }

  /** A word that begins differently cannot be the one read. */
  lemma FirstDiffers(words: seq<string>, w: string, rest: string, x: string)
    requires !AnySpecial(w) && !Vanishing(w) && !([w[TabCount(w)]] <= x)
    ensures Missed(ReadAll(Reading(words, None, Bare), w + rest), |words|, x)
  {
    var start, r := Reading(words, None, Bare), TabCount(w);
    FirstRead(words, w);
    assert Missed(ReadAll(start, w[..r + 1]), |words|, x);
    hide *;
    MissedOn(start, w, r + 1, rest, |words|, x);
  }

  lemma MissedOn(sh: Shell, w: string, i: nat, rest: string, n: nat, x: string)
    requires i <= |w| && Missed(ReadAll(sh, w[..i]), n, x)
    ensures Missed(ReadAll(sh, w + rest), n, x)
  {
    hide *;
    ReadAllSplit(sh, w[..i], w[i..] + rest);
    assert w + rest == w[..i] + (w[i..] + rest);
    MissedForGood(ReadAll(sh, w[..i]), w[i..] + rest, n, x);
  }

  /** A tab or a newline in a word that stays as it is. */
  lemma BareMissed(words: seq<string>, w: string)
    requires !AnySpecial(w) && !Vanishing(w) && ('\t' in w || '\n' in w)
    ensures Missed(ReadAll(Reading(words, None, Bare), Quoted(w) + " "), |words|, w)
  {
    NotQuoted(w);
    if w[0] == '\t' {
      TabsEnd(w);
      hide *;
      NoPrefix([w[TabCount(w)]], w, 0);
      FirstDiffers(words, w, " ", w);
    } else {
      hide *;
      BreakMissed(words, w);
      MissedOn(Reading(words, None, Bare), w, FirstBreak(w) + 1, " ", |words|, w);
    }
  }

  /** The word ends at its first tab or newline. */
  lemma BreakMissed(words: seq<string>, w: string)
    requires !AnySpecial(w) && w != "" && w[0] != '\t' && ('\t' in w || '\n' in w)
    ensures FirstBreak(w) < |w| && Missed(ReadAll(Reading(words, None, Bare), w[..FirstBreak(w) + 1]), |words|, w)
  {
    hide *;
    PlainBefore(w, FirstBreak(w));
    BreakMissedAt(words, w, FirstBreak(w));
  }

  lemma PlainBefore(w: string, t: nat)
    requires !AnySpecial(w) && t <= |w| && '\t' !in w[..t] && '\n' !in w[..t]
    ensures AllPlain(w[..t])
  {
    assert forall i :: 0 <= i < t ==> w[..t][i] == w[i];
    PlainWord(w[..t]);
  }

  lemma BreakMissedAt(words: seq<string>, w: string, t: nat)
    requires t < |w| && AllPlain(w[..t]) && w[0] != '\t' && (w[t] == '\t' || w[t] == '\n')
    ensures Missed(ReadAll(Reading(words, None, Bare), w[..t + 1]), |words|, w)
  {
    hide ReadAll, AllPlain;
    ReadPlain(words, w[..t]);
    OneCharOn(w, t);
    LastRead(Reading(words, None, Bare), w[..t + 1]);
  }

  /** A word that is not kept, and that the shell sees, is missed. */
  lemma WordMissed(words: seq<string>, w: string)
    requires !Kept(w) && !Vanishing(w)
    ensures Missed(ReadAll(Reading(words, None, Bare), Quoted(w) + " "), |words|, w)
  {
    hide ReadAll, Missed, Clean, AnySpecial, Quoted;
    if Wrapped(w, DQ) {
      DoubleQuotedMissed(words, w);
    } else if Wrapped(w, SQ) {
      SingleQuotedMissed(words, w);
    } else {
      BareMissed(words, w);
    }
  }

  /** A word that the shell does not see cannot be made up by another one. */
  lemma NotMadeUp(words: seq<string>, t: string, w: string)
    requires Vanishing(t) && !Vanishing(w)
    ensures Missed(ReadAll(Reading(words, None, Bare), Quoted(w)), |words|, t)
  {
    hide ReadAll, TabCount, AnySpecial, Replaced, Missed, Vanishing;
    if Wrapped(w, DQ) || Wrapped(w, SQ) {
      WrappedNotTabs(words, t, w);
    } else if AnySpecial(w) {
      WordReadBack(words, w);
      SpecialNotTab(w, t);
      OtherWord(words, w, t);
    } else {
      NotQuoted(w);
      TabsEnd(w);
      NotTabs([w[TabCount(w)]], t);
      FirstDiffers(words, w, "", t);
      assert w + "" == w;
    }
  }

  lemma OtherWord(words: seq<string>, x: string, t: string)
    requires !(x <= t)
    ensures Missed(Reading(words, Some(x), Bare), |words|, t)
  {
  }

  lemma NotTabs(x: string, t: string)
    requires x != "" && x[0] != '\t' && Vanishing(t)
    ensures !(x <= t)
  {
    NoPrefix(x, t, 0);
  }

  lemma WrappedNotTabs(words: seq<string>, t: string, w: string)
    requires Vanishing(t) && (Wrapped(w, DQ) || Wrapped(w, SQ))
    ensures Missed(ReadAll(Reading(words, None, Bare), Quoted(w)), |words|, t)
  {
    var start := Reading(words, None, Bare);
    var a, b := if Wrapped(w, DQ) then SQ else DQ, w[0];
    var rest := w[1..] + [a];
    assert Quoted(w) == [a] + [b] + rest;
    assert "" + [b] == [b];
    assert Read(Read(start, a), b).word == Some([b]);
    NotTabs([b], t);
    assert Missed(Read(Read(start, a), b), |words|, t);
    hide *;
    ReadTwo(start, a, b);
    ReadAllSplit(start, [a] + [b], rest);
    MissedForGood(Read(Read(start, a), b), rest, |words|, t);
  }

  lemma SpecialNotTab(w: string, t: string)
    requires AnySpecial(w) && Vanishing(t)
    ensures !(w <= t)
  {
    var i :| 0 <= i < |w| && Special(w[i]);
    NoPrefix(w, t, i);
  }

  /** After a word that the shell does not see, the others do not make it up. */
  lemma {:induction false} RestMissed(words: seq<string>, t: string, ws: seq<string>)
    requires Vanishing(t)
    ensures var r := ReadAll(Reading(words, None, Bare), Line(ws));
            r == Reading(words, None, Bare) || Missed(r, |words|, t)
    decreases |ws|
  {
    hide Missed, Quoted, ReadAll;
    var start := Reading(words, None, Bare);
    if ws == [] {
      NothingRead(start);
    } else {
      var front, w := ws[..|ws| - 1], ws[|ws| - 1];
      RestMissed(words, t, front);
      var r := ReadAll(start, Line(front));
      ReadAllSplit(start, Line(front), Quoted(w) + " ");
      assert Line(ws) == Line(front) + (Quoted(w) + " ");
      if Missed(r, |words|, t) {
        MissedForGood(r, Quoted(w) + " ", |words|, t);
      } else {
        ReadAllSplit(start, Quoted(w), " ");
        ReadOne(ReadAll(start, Quoted(w)), ' ');
        if Vanishing(w) {
          TabsVanish(words, w);
          VanishingStays(w);
        } else {
          NotMadeUp(words, t, w);
          MissedStays(ReadAll(start, Quoted(w)), ' ', |words|, t);
        }
      }
    }
  }

  lemma VanishingStays(w: string)
    requires Vanishing(w)
    ensures Quoted(w) == w && !Kept(w)
  {
    assert !AnySpecial(w);
    NotQuoted(w);
    assert w != "" ==> w[0] == '\t' && '\t' in w;
  }

  lemma {:induction false} LineSplit(a: seq<string>, b: seq<string>)
    ensures Line(a + b) == Line(a) + Line(b)
    decreases |b|
  {
    hide Quoted;
    if b == [] {
      assert a + b == a;
    } else {
      var m := |b| - 1;
      LineSplit(a, b[..m]);
      assert (a + b)[..|a + b| - 1] == a + b[..m] && (a + b)[|a + b| - 1] == b[m];
      assert Line(a) + (Line(b[..m]) + Quoted(b[m]) + " ") == Line(a) + Line(b[..m]) + Quoted(b[m]) + " ";
    }
  }

  /** The first word that is not kept is missed in the line of any list. */
  lemma FirstMissed(ws: seq<string>, i: nat)
    requires i < |ws| && AllKept(ws[..i]) && !Kept(ws[i])
    ensures Split(Line(ws)) != Some(ws)
  {
    hide Missed, Quoted, ReadAll, Line, Kept, Split;
    var before, w, after := ws[..i], ws[i], ws[i + 1..];
    assert ws == (before + [w]) + after;
    LineSplit(before + [w], after);
    LineSplit(before, [w]);
    LineOfOne(w);
    LineReadBack(before);
    var start := Reading(before, None, Bare);
    var q := Quoted(w) + " ";
    ReadAllSplit(START, Line(before) + q, Line(after));
    ReadAllSplit(START, Line(before), q);
    if Vanishing(w) {
      TabsVanish(before, w);
      VanishingStays(w);
      ReadAllSplit(start, w, " ");
      ReadOne(start, ' ');
      RestMissed(before, w, after);
      if ReadAll(START, Line(ws)) == start {
        TooFewWords(ws, before);
      } else {
        MissedNotSplit(Line(ws), ws, i);
      }
    } else {
      WordMissed(before, w);
      MissedForGood(ReadAll(start, q), Line(after), i, w);
      MissedNotSplit(Line(ws), ws, i);
    }
  }

  lemma TooFewWords(ws: seq<string>, before: seq<string>)
    requires ReadAll(START, Line(ws)) == Reading(before, None, Bare) && |before| < |ws|
    ensures Split(Line(ws)) != Some(ws)
  {
    hide ReadAll, Line;
  }

  lemma LineOfOne(w: string)
    ensures Line([w]) == Quoted(w) + " "
  {
    hide Quoted;
    assert [w][..0] == [];
    assert "" + Quoted(w) == Quoted(w);
  }

  lemma {:induction false} FirstNotKept(ws: seq<string>) returns (i: nat)
    requires !AllKept(ws)
    ensures i < |ws| && AllKept(ws[..i]) && !Kept(ws[i])
    decreases |ws|
  {
    hide Kept;
    var n := |ws| - 1;
    if AllKept(ws[..n]) {
      i := n;
      assert forall k :: 0 <= k < n ==> ws[..n][k] == ws[k];
    } else {
      i := FirstNotKept(ws[..n]);
      assert ws[..n][..i] == ws[..i];
    }
  }

  /** The line built from a list of words, whatever they are, is split by the shell into those words if and only if
      every one of them is kept: no word makes up for another. */
  lemma ListKeptIff(ws: seq<string>)
    ensures Split(Line(ws)) == Some(ws) <==> AllKept(ws)
  {
    hide Split, Line;
    if AllKept(ws) {
      RoundTrip(ws);
    } else {
      var i := FirstNotKept(ws);
      FirstMissed(ws, i);
    }
  }
}
