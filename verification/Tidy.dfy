/** The HTML formatter: it goes over a page character by character, starts opening tags on a line of
    their own and indents them with tabs.
*/
module Tidy {
  import opened Common
  import opened TagValidator

  /** Whether a character may follow the less-than sign of a tag. */
  predicate TagChar(c: char) {
    IsAlpha(c) || c == '/' || c == '!' || c == '?'
  }

  predicate TagStart(s: string) {
    |s| >= 2 && s[0] == '<' && TagChar(s[1])
  }

  function NamePart(s: string): string {
    if s == "" || s[0] == ' ' || s[0] == '>' || s[0] == '/' then "" else [LowerChar(s[0])] + NamePart(s[1..])
  }

  predicate Closing(s: string) {
    |s| >= 2 && s[1] == '/'
  }

  /** The lower-case name of the tag at the start of a text, with a slash if it closes. */
  function NameAt(s: string): string
    requires TagStart(s)
  {
    if Closing(s) then "/" + NamePart(s[2..]) else NamePart(s[1..])
  }

  const IGNORED: set<string> := {"br", "img", "hr", "meta", "link", "input", "/body", "/html"}

  predicate Ignored(s: string)
    requires TagStart(s)
  {
    NameAt(s) in IGNORED
  }

  function Tabs(n: int): string {
    if n <= 0 then "" else seq(n, _ => '\t')
  }

  /** The output without the blanks and tabs at its end. */
  function Stripped(s: string): string {
    if s != "" && (s[|s| - 1] == ' ' || s[|s| - 1] == '\t') then Stripped(s[..|s| - 1]) else s
  }

  /** The output ready for a tag on a new line. */
  function LineBroken(s: string): string {
    var t := Stripped(s);
    if t != "" && t[|t| - 1] != '\n' then t + "\n" else t
  }

  /** The output so far, the indent level, how deep it is in preformatted text, the last character read
      and the number of closing tags too many. */
  datatype State = State(out: string, level: int, pre: int, prev: char, undents: nat)

  /** Processes the first character of the rest of the page. */
  function OneChar(st: State, s: string): State
    requires s != ""
  {
    var st' :=
      if !TagStart(s) then st
      else if Ignored(s) then st.(out := st.out + "\n" + Tabs(st.level))
      else if !Closing(s) then
        st.(out := if st.pre == 0 then LineBroken(st.out) + Tabs(st.level) else st.out,
            level := st.level + 1,
            pre := if NameAt(s) == "pre" then st.pre + 1 else st.pre)
      else
        var level := if st.level > 0 then st.level - 1 else st.level;
        st.(out := if st.pre == 0 && st.prev == '\n' then st.out + Tabs(level) else st.out,
            level := level,
            pre := if NameAt(s) == "/pre" then st.pre - 1 else st.pre,
            undents := if st.level > 0 then st.undents else st.undents + 1);
    st'.(out := st'.out + [s[0]], prev := s[0])
  }

  function Run(st: State, s: string): State
    decreases |s|
  {
    if s == "" then st else Run(OneChar(st, s), s[1..])
  }

  /** Where formatting starts: at the body tag, if there is one. */
  function BodyAt(input: string): (r: Option<nat>)
    ensures r.Some? ==> r.value <= |input|
  {
    if FindText(input, "<body").Some? then FindText(input, "<body") else FindText(input, "<BODY")
  }

  function UpToNul(s: string): string {
    if s == "" || s[0] == '\0' then "" else [s[0]] + UpToNul(s[1..])
  }

  function Start(input: string): State {
    match BodyAt(input)
    case None => State("", 0, 0, '\0', 0)
    case Some(i) => State(input[..i], -1, 0, if i > 0 then input[i - 1] else '\0', 0)
  }

  /** What is formatted: the page from the body tag on, up to the first NUL character. */
  function Formatted(input: string): string {
    match BodyAt(input)
    case None => UpToNul(input)
    case Some(i) => UpToNul(input[i..])
  }

  function Result(input: string): State {
    Run(Start(input), Formatted(input))
  }

  function Status(st: State): int {
    if st.undents > 0 then 2 else if st.level != 0 then 1 else 0
  }

  // ----- only blanks, tabs and newlines change -----

  predicate White(c: char) {
    c == ' ' || c == '\t' || c == '\n'
  }

  function NonWhite(s: string): string {
    if s == "" then "" else (if White(s[0]) then "" else [s[0]]) + NonWhite(s[1..])
  }

  lemma {:induction false} NonWhiteSplit(a: string, b: string)
    ensures NonWhite(a + b) == NonWhite(a) + NonWhite(b)
  {
    if a == "" {
      assert a + b == b;
    } else {
      NonWhiteSplit(a[1..], b);
      assert (a + b)[1..] == a[1..] + b && (a + b)[0] == a[0];
      var first := if White(a[0]) then "" else [a[0]];
      assert NonWhite(a) == first + NonWhite(a[1..]) && NonWhite(a + b) == first + NonWhite(a[1..] + b);
      hide *;
      Associate(first, NonWhite(a[1..]), NonWhite(b));
    }
  }

  lemma {:induction false} AllWhite(s: string)
    requires forall k :: 0 <= k < |s| ==> White(s[k])
    ensures NonWhite(s) == ""
  {
    if s != "" {
      AllWhite(s[1..]);
    }
  }

  lemma {:induction false} StrippedKeeps(s: string)
    ensures NonWhite(Stripped(s)) == NonWhite(s)
  {
    if s != "" && (s[|s| - 1] == ' ' || s[|s| - 1] == '\t') {
      StrippedKeeps(s[..|s| - 1]);
      NonWhiteSplit(s[..|s| - 1], [s[|s| - 1]]);
      assert s == s[..|s| - 1] + [s[|s| - 1]];
      AllWhite([s[|s| - 1]]);
    }
  }

  lemma LineBrokenKeeps(s: string)
    ensures NonWhite(LineBroken(s)) == NonWhite(s)
  {
    StrippedKeeps(s);
    NonWhiteSplit(Stripped(s), "\n");
    AllWhite("\n");
  }

  lemma WhiteAdded(s: string, white: string)
    requires forall k :: 0 <= k < |white| ==> White(white[k])
    ensures NonWhite(s + white) == NonWhite(s)
  {
    NonWhiteSplit(s, white);
    AllWhite(white);
  }

  /** What a step puts out before its own character. */
  function Lead(st: State, s: string): string
    requires s != ""
  {
    var level := if st.level > 0 then st.level - 1 else st.level;
    if !TagStart(s) then st.out
    else if Ignored(s) then st.out + ("\n" + Tabs(st.level))
    else if Closing(s) then if st.pre == 0 && st.prev == '\n' then st.out + Tabs(level) else st.out
    else if st.pre == 0 then LineBroken(st.out) + Tabs(st.level)
    else st.out
  }

  lemma StepLeads(st: State, s: string)
    requires s != ""
    ensures OneChar(st, s).out == Lead(st, s) + [s[0]]
  {
    hide Ignored, LineBroken, Tabs;
    Associate(st.out, "\n", Tabs(st.level));
  }

  lemma LeadKeeps(st: State, s: string)
    requires s != ""
    ensures NonWhite(Lead(st, s)) == NonWhite(st.out)
  {
    hide NonWhite, Ignored, LineBroken;
    LineBrokenKeeps(st.out);
    WhiteAdded(LineBroken(st.out), Tabs(st.level));
    WhiteAdded(st.out, "\n" + Tabs(st.level));
    WhiteAdded(st.out, Tabs(if st.level > 0 then st.level - 1 else st.level));
  }

  lemma StepKeeps(st: State, s: string)
    requires s != ""
    ensures NonWhite(OneChar(st, s).out) == NonWhite(st.out) + NonWhite([s[0]])
  {
    hide *;
    StepLeads(st, s);
    LeadKeeps(st, s);
    NonWhiteSplit(Lead(st, s), [s[0]]);
  }

  lemma {:induction false} RunKeeps(st: State, s: string)
    ensures NonWhite(Run(st, s).out) == NonWhite(st.out) + NonWhite(s)
    decreases |s|
  {
    if s != "" {
      hide OneChar;
      StepKeeps(st, s);
      RunKeeps(OneChar(st, s), s[1..]);
      NonWhiteSplit([s[0]], s[1..]);
      assert [s[0]] + s[1..] == s;
    }
  }

  /** For every input, output and input are the same once blanks, tabs and newlines are left out; only
      what follows a NUL character in the formatted part is lost. */
  lemma OnlyWhiteChanges(input: string)
    ensures NonWhite(Result(input).out) == NonWhite(Start(input).out + Formatted(input))
    ensures '\0' !in input ==> Start(input).out + Formatted(input) == input
  {
    hide NonWhite, Run, FindText;
    RunKeeps(Start(input), Formatted(input));
    NonWhiteSplit(Start(input).out, Formatted(input));
    if '\0' !in input {
      match BodyAt(input)
      case None => NoNul(input);
      case Some(i) => NoNul(input[i..]);
    }
  }

  lemma {:induction false} NoNul(s: string)
    requires '\0' !in s
    ensures UpToNul(s) == s
  {
    if s != "" {
      NoNul(s[1..]);
    }
  }

  // ----- the formatter -----

  /** Formats a page; the status is 2 if closing tags were too many, 1 if the levels do not end at 0. */
  method HtmlTidy(input: string) returns (output: string, status: int)
    ensures output == Result(input).out && status == Status(Result(input))
  {
    var st := Start(input);
    var rest := Formatted(input);
    var i := 0;
    while i < |rest|
      invariant i <= |rest|
      invariant Run(st, rest[i..]) == Result(input)
    {
      st := Process(st, rest, i);
      assert rest[i..][1..] == rest[i + 1..];
      i := i + 1;
    }
    output, status := st.out, Status(st);
  }

  method BreakLine(out: string) returns (output: string)
    ensures output == LineBroken(out)
  {
    output := out;
    while output != "" && (output[|output| - 1] == ' ' || output[|output| - 1] == '\t')
      invariant Stripped(output) == Stripped(out)
      decreases |output|
    {
      output := output[..|output| - 1];
    }
    if output != "" && output[|output| - 1] != '\n' {
      output := output + "\n";
    }
  }

  /** Processes one character of the page. */
  method Process(st: State, rest: string, i: nat) returns (r: State)
    requires i < |rest|
    ensures r == OneChar(st, rest[i..])
  {
    var output, level, pre, undents := st.out, st.level, st.pre, st.undents;
    var s := rest[i..];
    if TagStart(s) {
      if !Ignored(s) {
        if !Closing(s) {
          if pre == 0 {
            output := BreakLine(output);
            output := output + Tabs(level);
          }
          level := level + 1;
          if NameAt(s) == "pre" {
            pre := pre + 1;
          }
        } else {
          if level > 0 {
            level := level - 1;
          } else {
            undents := undents + 1;
          }
          if pre == 0 && st.prev == '\n' {
            output := output + Tabs(level);
          }
          if NameAt(s) == "/pre" {
            pre := pre - 1;
          }
        }
      } else {
        output := output + "\n" + Tabs(level);
      }
    }
    r := State(output + [s[0]], level, pre, s[0], undents);
  }
}
