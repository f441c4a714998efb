/** What the levels of the HTML formatter mean: its status, and the indent of every opening tag. */
module TidyLevels {
  import opened Tidy

  predicate OpensHere(s: string) {
    TagStart(s) && !Ignored(s) && !Closing(s)
  }

  predicate ClosesHere(s: string) {
    TagStart(s) && !Ignored(s) && Closing(s)
  }

  /** How many tags were opened more than closed in the first n characters. */
  function Depth(s: string, n: nat): int
    requires n <= |s|
  {
    if n == 0 then 0
    else Depth(s, n - 1) + if OpensHere(s[n - 1..]) then 1 else if ClosesHere(s[n - 1..]) then -1 else 0
  }

  function RunTo(st: State, s: string, n: nat): State
    requires n <= |s|
  {
    if n == 0 then st else OneChar(RunTo(st, s, n - 1), s[n - 1..])
  }

  lemma {:induction false} RunFrom(st: State, s: string, n: nat)
    requires n <= |s|
    ensures Run(RunTo(st, s, n), s[n..]) == Run(st, s)
  {
    hide OneChar;
    if n > 0 {
      RunFrom(st, s, n - 1);
      assert s[n - 1..][1..] == s[n..];
    } else {
      assert s[0..] == s;
    }
  }

  /** At every closing tag among the first n characters some tag is open. */
  ghost predicate EnoughOpen(level: int, s: string, n: nat)
    requires n <= |s|
  {
    forall k :: 0 <= k < n && ClosesHere(s[k..]) ==> level + Depth(s, k) > 0
  }

  lemma EnoughNext(level: int, s: string, n: nat)
    requires n < |s|
    ensures EnoughOpen(level, s, n + 1) <==> EnoughOpen(level, s, n) && (ClosesHere(s[n..]) ==> level + Depth(s, n) > 0)
  {
    hide ClosesHere, Depth;
  }

  /** The level is the depth as long as no tag was closed that was not open; and that is counted. */
  lemma {:induction false} LevelIsDepth(st: State, s: string, n: nat)
    requires n <= |s| && st.undents == 0
    ensures EnoughOpen(st.level, s, n) ==> RunTo(st, s, n).undents == 0 && RunTo(st, s, n).level == st.level + Depth(s, n)
    ensures !EnoughOpen(st.level, s, n) ==> RunTo(st, s, n).undents > 0
  {
    if n > 0 {
      hide EnoughOpen, Ignored, Closing, TagStart, NameAt, LineBroken, Tabs;
      LevelIsDepth(st, s, n - 1);
      EnoughNext(st.level, s, n - 1);
    }
  }

  /** The status is 0 if and only if every closing tag closes one that is open and all are closed at the
      end, and 2 if and only if some closing tag does not; the level starts one lower at a body tag. */
  lemma StatusMeans(input: string)
    ensures var level, s := Start(input).level, Formatted(input);
            && (Status(Result(input)) == 2 <==> !EnoughOpen(level, s, |s|))
            && (Status(Result(input)) == 0 <==> EnoughOpen(level, s, |s|) && level + Depth(s, |s|) == 0)
            && 0 <= Status(Result(input)) <= 2
  {
    hide EnoughOpen, Depth, Run, RunTo;
    var st, s := Start(input), Formatted(input);
    RunFrom(st, s, |s|);
    assert s[|s|..] == "";
    NothingLeft(RunTo(st, s, |s|));
    LevelIsDepth(st, s, |s|);
  }

  lemma NothingLeft(st: State)
    ensures Run(st, "") == st
  {
  }

  /** Outside preformatted text every opening tag stands on a line of its own or at the start, after as many
      tabs as tags are open, and nothing but blanks at the end of the line before is lost. */
  lemma OpeningTagLine(st: State, s: string, n: nat) returns (line: string)
    requires n < |s| && st.undents == 0 && EnoughOpen(st.level, s, n)
    requires OpensHere(s[n..]) && RunTo(st, s, n).pre == 0
    ensures RunTo(st, s, n + 1).out == line + Tabs(st.level + Depth(s, n)) + "<"
    ensures line == "" || line[|line| - 1] == '\n'
    ensures NonWhite(line) == NonWhite(RunTo(st, s, n).out)
  {
    hide RunTo, Depth, EnoughOpen, Ignored, NameAt;
    LevelIsDepth(st, s, n);
    var before := RunTo(st, s, n);
    line := LineBroken(before.out);
    LineBrokenKeeps(before.out);
    LineEnds(before.out);
    OneMore(st, s, n);
  }

  lemma OneMore(st: State, s: string, n: nat)
    requires n < |s|
    ensures RunTo(st, s, n + 1) == OneChar(RunTo(st, s, n), s[n..])
  {
  }

  lemma LineEnds(out: string)
    ensures LineBroken(out) == "" || LineBroken(out)[|LineBroken(out)| - 1] == '\n'
  {
  }
}
