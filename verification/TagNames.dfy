/** Tags by their names, letter by letter: what the validator scans, and what the formatter does at them. */
module TagNames {
  import opened Common
  import opened TagValidator
  import Tidy
  import TidyLevels

  predicate Letter(c: char) {
    65 <= c as int <= 90 || 97 <= c as int <= 122
  }

  /** `t` is `s` in small letters. */
  ghost predicate InSmall(s: string, t: string) {
    |t| == |s| && forall i :: 0 <= i < |s| ==>
      if 65 <= s[i] as int <= 90 then t[i] as int == s[i] as int + 32 else t[i] == s[i]
  }

  /** A name: a letter, and then letters, digits and hyphens. */
  predicate IsName(s: string) {
    s != "" && Letter(s[0]) && forall i :: 0 <= i < |s| ==> NameCharacter(s[i])
  }

  predicate NameCharacter(c: char) {
    Letter(c) || '0' <= c <= '9' || c == '-'
  }

  // ----- the scanner -----

  /** The elements without a closing tag. */
  predicate IsVoid(small: string) {
    || small == "br" || small == "img" || small == "input" || small == "hr" || small == "meta" || small == "link"
    || small == "area" || small == "base" || small == "col" || small == "embed" || small == "source" || small == "track"
    || small == "wbr"
  }

  lemma {:induction false} LowerIs(s: string, t: string)
    requires InSmall(s, t) && '\0' !in s
    ensures LowerName(s) == t
  {
    if s != "" {
      assert s[0] in s && forall c :: c in s[1..] ==> c in s;
      assert InSmall(s[1..], t[1..]);
      LowerIs(s[1..], t[1..]);
      assert t == [t[0]] + t[1..];
    }
  }

  lemma {:induction false} SmallName(t: string)
    requires forall i :: 0 <= i < |t| ==> 97 <= t[i] as int <= 122 || '0' <= t[i] <= '9' || t[i] == '-'
    ensures NameChars(t) && LowerName(t) == t
  {
    if t != "" {
      SmallName(t[1..]);
    }
  }

  lemma SmallCharacters(s: string, t: string)
    requires IsName(s) && InSmall(s, t)
    ensures '\0' !in s && IsAlpha(t[0])
    ensures forall i :: 0 <= i < |t| ==> 97 <= t[i] as int <= 122 || '0' <= t[i] <= '9' || t[i] == '-'
  {
    assert NameCharacter(s[0]);
    forall i | 0 <= i < |t|
      ensures 97 <= t[i] as int <= 122 || '0' <= t[i] <= '9' || t[i] == '-'
    {
      assert NameCharacter(s[i]);
    }
  }

  lemma VoidNames(t: string)
    requires LowerName(t) == t
    ensures SelfClosing(t) <==> IsVoid(t)
  {
  }

  lemma NameRead(s: string, t: string)
    requires IsName(s) && InSmall(s, t)
    ensures LowerName(s) == t && LowerName(t) == t && ValidName(t) && (SelfClosing(t) <==> IsVoid(t))
  {
    SmallCharacters(s, t);
    LowerIs(s, t);
    SmallName(t);
    VoidNames(t);
    hide NameCharacter, NameChars, LowerName, IsVoid, SelfClosing, InSmall, Letter;
  }

  lemma {:induction false} FirstAt(s: string, c: char, i: nat)
    requires i <= |s| && c !in s[..i] && (i < |s| ==> s[i] == c)
    ensures Find(s, c) == i
  {
    if i > 0 {
      assert s[0] == s[..i][0];
      assert s[..i][1..] == s[1..][..i - 1];
      assert forall d :: d in s[..i][1..] ==> d in s[..i];
      FirstAt(s[1..], c, i - 1);
    }
  }

  /** How a tag with this content is cut out of the text. */
  lemma TagCut(content: string, rest: string)
    requires '>' !in content
    ensures var s := "<" + content + ">" + rest;
            Find(s, '>') == |content| + 1 && s[1..|content| + 1] == content && s[|content| + 2..] == rest
  {
    var s := "<" + content + ">" + rest;
    assert s[..|content| + 1] == "<" + content;
    FirstAt(s, '>', |content| + 1);
  }

  lemma PlainContent(name: string, attrs: string)
    requires IsName(name) && (attrs == "" || attrs[0] == ' ') && '>' !in attrs
    ensures var content := name + attrs;
            && '>' !in content && content != "" && content[0] == name[0] && NameOf(content) == name
            && Letter(content[0])
  {
    var content := name + attrs;
    assert forall i :: 0 <= i < |name| ==> NameCharacter(name[i]);
    assert content[..|name|] == name && ' ' !in name;
    assert attrs != "" ==> content[|name|] == ' ';
    FirstAt(content, ' ', |name|);
    assert content[0] == name[0] && Letter(name[0]);
    assert attrs == "" ==> content == name && content[|content| - 1] != '/';
  }

  /** How an opening tag is read once its name is known. */
  lemma ReadNamed(content: string, rest: string, name: string, small: string)
    requires '>' !in content && content != "" && Letter(content[0]) && IsName(name) && InSmall(name, small)
    requires NameOf(content) == name
    ensures var s := "<" + content + ">" + rest;
            ReadTag(s) == if IsVoid(small) then Skip(|content| + 2) else Emit(Open(small), |content| + 2)
  {
    TagCut(content, rest);
    NameRead(name, small);
    assert content[0] != '!' && content[0] != '/';
    NotSpecial(content);
    hide NameOf, LowerName, ValidName, SelfClosing, Find, IsVoid;
  }

  lemma NotSpecial(content: string)
    requires content != "" && content[0] != '!'
    ensures !("!--" <= content) && !("![CDATA[" <= content) && !("!DOCTYPE" <= content)
  {
  }

  lemma ScanRead(content: string, rest: string, step: Step)
    requires '>' !in content && ReadTag("<" + content + ">" + rest) == step
    ensures step == Skip(|content| + 2) ==> Scan("<" + content + ">" + rest) == Scan(rest)
    ensures step.Emit? && step.next == |content| + 2 ==> Scan("<" + content + ">" + rest) == Prepend([step.token], Scan(rest))
    ensures step.Fail? ==> Scan("<" + content + ">" + rest) == None
  {
    TagCut(content, rest);
    hide ReadTag, Find;
  }

  /** An opening tag counts by its name in small letters, whatever its attributes, and not at all if the element is void. */
  lemma OpeningTag(name: string, attrs: string, rest: string, small: string)
    requires IsName(name) && (attrs == "" || attrs[0] == ' ') && '>' !in attrs && InSmall(name, small)
    ensures Scan("<" + name + attrs + ">" + rest) == if IsVoid(small) then Scan(rest) else Prepend([Open(small)], Scan(rest))
  {
    var content := name + attrs;
    PlainContent(name, attrs);
    hide *;
    ReadNamed(content, rest, name, small);
    ScanRead(content, rest, ReadTag("<" + content + ">" + rest));
    Associate("<", name, attrs);
  }

  /** A slash at the end of a tag without attributes does not belong to the name, and does not close the element. */
  lemma SlashedTag(name: string, rest: string, small: string)
    requires IsName(name) && InSmall(name, small)
    ensures Scan("<" + name + "/>" + rest) == if IsVoid(small) then Scan(rest) else Prepend([Open(small)], Scan(rest))
  {
    var content := name + "/";
    SlashedContent(name);
    hide *;
    ReadNamed(content, rest, name, small);
    ScanRead(content, rest, ReadTag("<" + content + ">" + rest));
    SlashText(name);
  }

  lemma SlashText(name: string)
    ensures "<" + (name + "/") + ">" == "<" + name + "/>"
  {
  }

  lemma SlashedContent(name: string)
    requires IsName(name)
    ensures var content := name + "/"; '>' !in content && Letter(content[0]) && NameOf(content) == name
  {
    var content := name + "/";
    assert forall i :: 0 <= i < |name| ==> NameCharacter(name[i]);
    assert content[..|content|] == content && ' ' !in content && content[0] == name[0];
    FirstAt(content, ' ', |content|);
    assert content[..|content| - 1] == name;
  }

  /** A closing tag counts by all that it has behind the slash, in small letters. */
  lemma ClosingTag(name: string, rest: string, small: string)
    requires '>' !in name && '\0' !in name && InSmall(name, small)
    ensures Scan("</" + name + ">" + rest) == Prepend([Close(small)], Scan(rest))
  {
    var content := "/" + name;
    SlashCut(name, rest);
    LowerIs(name, small);
    hide *;
    ReadClosing(name, rest, small);
    ScanRead(content, rest, ReadTag("<" + content + ">" + rest));
  }

  lemma SlashCut(name: string, rest: string)
    ensures "<" + ("/" + name) + ">" + rest == "</" + name + ">" + rest
  {
  }

  lemma SlashContent(name: string)
    requires '>' !in name
    ensures var content := "/" + name;
            '>' !in content && content != "" && content[0] == '/' && content[1..] == name && |content| == |name| + 1
  {
  }

  lemma ReadClosing(name: string, rest: string, small: string)
    requires '>' !in name && LowerName(name) == small
    ensures ReadTag("<" + ("/" + name) + ">" + rest) == Emit(Close(small), |name| + 3)
  {
    hide *;
    var content := "/" + name;
    SlashContent(name);
    NotSpecial(content);
    TagCut(content, rest);
    ReadSlash("<" + content + ">" + rest, content);
  }

  lemma ReadSlash(s: string, content: string)
    requires s != "" && s[0] == '<' && content != "" && content[0] == '/' && Find(s, '>') == |content| + 1 < |s|
    requires s[1..|content| + 1] == content
    requires !("!--" <= content) && !("![CDATA[" <= content) && !("!DOCTYPE" <= content)
    ensures ReadTag(s) == Emit(Close(LowerName(content[1..])), |content| + 2)
  {
    hide LowerName, Find, NameOf, ValidName, SelfClosing;
  }

  /** A comment ends at the first end of one, and nothing in it counts. */
  lemma Comment(text: string, rest: string)
    requires var s := "<!--" + text + "-->" + rest; forall k :: 0 <= k < |text| + 4 ==> !("-->" <= s[k..])
    ensures Scan("<!--" + text + "-->" + rest) == Scan(rest)
  {
    var s, n := "<!--" + text + "-->" + rest, |text| + 4;
    CommentText(text, rest);
    FindIs(s, "-->", n);
    CommentEnd(s, n);
    hide Find, FindText;
    assert ReadTag(s) == Skip(n + 3);
  }

  lemma CommentText(text: string, rest: string)
    ensures var s, n := "<!--" + text + "-->" + rest, |text| + 4;
            && |s| >= n + 3 && s[n + 2] == '>' && s[0] == '<' && s[1] == '!' && s[2] == '-' && s[3] == '-'
            && "-->" <= s[n..] && s[n + 3..] == rest
  {
    var s, n := "<!--" + text + "-->" + rest, |text| + 4;
    assert s[n..] == "-->" + rest;
  }

  lemma {:induction false} FoundBy(s: string, c: char, i: nat)
    requires i < |s| && s[i] == c
    ensures Find(s, c) <= i
  {
    if s[0] != c {
      FoundBy(s[1..], c, i - 1);
    }
  }

  lemma CommentEnd(s: string, n: nat)
    requires |s| >= n + 3 && n >= 4 && s[n + 2] == '>'
    requires s[0] == '<' && s[1] == '!' && s[2] == '-' && s[3] == '-'
    ensures var end := Find(s, '>'); 4 <= end < |s| && "!--" <= s[1..end]
  {
    FoundBy(s, '>', n + 2);
    hide Find;
  }

  /** A less-than sign that no letter, slash or exclamation mark follows starts no tag. */
  lemma NoTag(content: string, rest: string)
    requires content != "" && '>' !in content && !Letter(content[0]) && content[0] != '/' && content[0] != '!'
    ensures Scan("<" + content + ">" + rest) == Scan(rest)
  {
    var s := "<" + content + ">" + rest;
    TagCut(content, rest);
    hide Find;
    assert ReadTag(s) == Skip(|content| + 2);
  }

  /** An empty tag and one that does not end make a text invalid. */
  lemma BadTags(content: string, rest: string)
    requires '>' !in content
    ensures Scan("<" + content) == None && Scan("<>" + rest) == None
  {
    var t := "<" + content;
    assert t[..|t|] == t;
    FirstAt(t, '>', |t|);
    TagCut("", rest);
    assert "<" + "" + ">" + rest == "<>" + rest;
  }

  /** So does a name with another character than letters, digits and hyphens. */
  lemma BadNames(content: string, rest: string)
    requires content != "" && Letter(content[0]) && '>' !in content && ' ' !in content && '\0' !in content
    requires content[|content| - 1] != '/' && exists i :: 0 <= i < |content| && !NameCharacter(content[i])
    ensures Scan("<" + content + ">" + rest) == None
  {
    TagCut(content, rest);
    assert content[..|content|] == content;
    FirstAt(content, ' ', |content|);
    BadName(content);
    NotSpecial(content);
    hide NameOf, LowerName, ValidName, SelfClosing, Find;
    assert ReadTag("<" + content + ">" + rest) == Fail;
  }

  lemma BadName(name: string)
    requires name != "" && Letter(name[0]) && ' ' !in name && name[|name| - 1] != '/' && '\0' !in name
    requires exists i :: 0 <= i < |name| && !NameCharacter(name[i])
    ensures Find(name, ' ') == |name| ==> NameOf(name) == name
    ensures !ValidName(LowerName(name))
  {
    var i :| 0 <= i < |name| && !NameCharacter(name[i]);
    NotName(name, i);
  }

  lemma {:induction false} NotName(s: string, i: nat)
    requires i < |s| && !NameCharacter(s[i]) && '\0' !in s
    ensures !NameChars(LowerName(LowerName(s)))
  {
    assert s[0] in s && forall c :: c in s[1..] ==> c in s;
    if i > 0 {
      NotName(s[1..], i - 1);
    }
  }

  // ----- the formatter -----

  /** A tag of a page: its name up to a blank, a slash or a greater-than sign, or the end. */
  ghost predicate IsTagText(s: string, closing: bool, name: string, rest: string) {
    && s == "<" + (if closing then "/" else "") + name + rest
    && (rest == "" || rest[0] == ' ' || rest[0] == '>' || rest[0] == '/')
    && name != "" && (forall i :: 0 <= i < |name| ==> name[i] != ' ' && name[i] != '>' && name[i] != '/')
    && (closing || Letter(name[0]) || name[0] == '!' || name[0] == '?')
  }

  /** Where the formatter sees a tag: at a less-than sign before a letter, a slash, an exclamation or a question mark. */
  lemma TagStarts(s: string)
    ensures Tidy.TagStart(s) <==>
              |s| >= 2 && s[0] == '<' && (Letter(s[1]) || s[1] == '/' || s[1] == '!' || s[1] == '?')
  {
  }

  lemma {:induction false} NamePartIs(name: string, rest: string, small: string)
    requires InSmall(name, small) && (rest == "" || rest[0] == ' ' || rest[0] == '>' || rest[0] == '/')
    requires forall i :: 0 <= i < |name| ==> name[i] != ' ' && name[i] != '>' && name[i] != '/'
    ensures Tidy.NamePart(name + rest) == small
    decreases |name|
  {
    if name == "" {
      assert name + rest == rest;
    } else {
      assert InSmall(name[1..], small[1..]);
      NamePartIs(name[1..], rest, small[1..]);
      assert (name + rest)[1..] == name[1..] + rest;
      assert small == [small[0]] + small[1..];
    }
  }

  /** The tags that get a line but no level: six void elements, and the end of the body and of the page; and the name of
      preformatted text. */
  lemma FormatterNames(s: string, closing: bool, name: string, rest: string, small: string)
    requires IsTagText(s, closing, name, rest) && InSmall(name, small)
    ensures Tidy.TagStart(s) && (Tidy.Closing(s) <==> closing)
    ensures Tidy.NameAt(s) == (if closing then "/" else "") + small
    ensures Tidy.Ignored(s) <==>
              if closing then small == "body" || small == "html"
              else small == "br" || small == "img" || small == "hr" || small == "meta" || small == "link" || small == "input"
  {
    NamePartIs(name, rest, small);
    assert closing ==> s[1] == '/' && s[2..] == name + rest;
    assert !closing ==> s[1] == name[0] && s[1..] == name + rest;
    assert name[0] != '/';
    hide Tidy.NamePart;
    assert Tidy.NameAt(s) == (if closing then "/" else "") + small;
    if closing {
      IgnoredClosing(small);
    } else {
      assert "" + small == small;
      IgnoredOpening(small);
    }
  }

  lemma IgnoredClosing(small: string)
    ensures "/" + small in Tidy.IGNORED <==> small == "body" || small == "html"
  {
    var full := "/" + small;
    assert full[0] == '/' && full[1..] == small;
    assert full == "/body" ==> small == "/body"[1..] && "/body"[1..] == "body";
    assert full == "/html" ==> small == "/html"[1..] && "/html"[1..] == "html";
  }

  lemma IgnoredOpening(small: string)
    requires small != "" && small[0] != '/'
    ensures small in Tidy.IGNORED <==>
              small == "br" || small == "img" || small == "hr" || small == "meta" || small == "link" || small == "input"
  {
  }

  /** As many tabs as the number says, none below 0. */
  lemma TabsAre(n: int)
    ensures |Tidy.Tabs(n)| == (if n < 0 then 0 else n) && forall i :: 0 <= i < |Tidy.Tabs(n)| ==> Tidy.Tabs(n)[i] == '\t'
  {
  }

  /** How a line is ended before an opening tag: blanks and tabs at the end of the output go, nothing else does, and a
      newline is added unless there is one or nothing is left. */
  lemma {:induction false} LineBrokenMeans(out: string) returns (kept: string, blanks: string)
    ensures out == kept + blanks && (forall i :: 0 <= i < |blanks| ==> blanks[i] == ' ' || blanks[i] == '\t')
    ensures kept != "" ==> kept[|kept| - 1] != ' ' && kept[|kept| - 1] != '\t'
    ensures Tidy.LineBroken(out) == if kept == "" || kept[|kept| - 1] == '\n' then kept else kept + "\n"
    decreases |out|
  {
    if out != "" && (out[|out| - 1] == ' ' || out[|out| - 1] == '\t') {
      kept, blanks := LineBrokenMeans(out[..|out| - 1]);
      blanks := blanks + [out[|out| - 1]];
      assert out == out[..|out| - 1] + [out[|out| - 1]];
    } else {
      kept, blanks := out, "";
      assert out == out + "";
    }
  }

  /** An opening tag, outside preformatted text, comes after such a line end and one tab for each open tag; inside,
      nothing is added. */
  lemma OpeningLine(st: Tidy.State, s: string, n: nat)
    requires n < |s| && st.undents == 0 && TidyLevels.EnoughOpen(st.level, s, n) && TidyLevels.OpensHere(s[n..])
    ensures var before, after := TidyLevels.RunTo(st, s, n), TidyLevels.RunTo(st, s, n + 1);
            && (before.pre == 0 ==>
                  after.out == Tidy.LineBroken(before.out) + Tidy.Tabs(st.level + TidyLevels.Depth(s, n)) + "<")
            && (before.pre != 0 ==> after.out == before.out + "<")
            && after.level == st.level + TidyLevels.Depth(s, n) + 1
  {
    TidyLevels.LevelIsDepth(st, s, n);
    hide TidyLevels.Depth, TidyLevels.EnoughOpen, Tidy.Ignored, Tidy.NameAt, Tidy.Tabs, Tidy.LineBroken;
  }

  /** A closing tag that closes an open one is indented if it starts a line, by one tab less than are open, and nothing
      else is added. */
  lemma ClosingTagLine(st: Tidy.State, s: string, n: nat)
    requires n < |s| && st.undents == 0 && TidyLevels.EnoughOpen(st.level, s, n + 1) && TidyLevels.ClosesHere(s[n..])
    ensures var before, after := TidyLevels.RunTo(st, s, n), TidyLevels.RunTo(st, s, n + 1);
            var indent := before.pre == 0 && (if n == 0 then st.prev else s[n - 1]) == '\n';
            && after.out == before.out + (if indent then Tidy.Tabs(st.level + TidyLevels.Depth(s, n) - 1) else "") + "<"
            && after.level == st.level + TidyLevels.Depth(s, n) - 1
  {
    TidyLevels.EnoughNext(st.level, s, n);
    TidyLevels.LevelIsDepth(st, s, n);
    LastRead(st, s, n);
    hide TidyLevels.Depth, TidyLevels.EnoughOpen, Tidy.Ignored, Tidy.NameAt, Tidy.Tabs;
  }

  lemma LastRead(st: Tidy.State, s: string, n: nat)
    requires n <= |s|
    ensures TidyLevels.RunTo(st, s, n).prev == if n == 0 then st.prev else s[n - 1]
  {
  }

  /** An ignored tag gets a new line and an indent, and any other character is put out as it is. */
  lemma OtherLines(st: Tidy.State, s: string, n: nat)
    requires n < |s|
    ensures var before, after := TidyLevels.RunTo(st, s, n), TidyLevels.RunTo(st, s, n + 1);
            && (Tidy.TagStart(s[n..]) && Tidy.Ignored(s[n..]) ==>
                  after.out == before.out + "\n" + Tidy.Tabs(before.level) + "<" && after.level == before.level)
            && (!Tidy.TagStart(s[n..]) ==> after.out == before.out + [s[n]] && after.level == before.level)
            && (Tidy.TagStart(s[n..]) && !Tidy.Ignored(s[n..]) && before.pre != 0 ==> after.out == before.out + "<")
  {
    hide Tidy.Ignored, Tidy.NameAt, Tidy.Tabs, Tidy.LineBroken;
  }

  /** How deep a place is in preformatted text: the opening tags of that name less the closing ones. */
  function PreDepth(s: string, n: nat): int
    requires n <= |s|
  {
    if n == 0 then 0
    else PreDepth(s, n - 1) + if !Tidy.TagStart(s[n - 1..]) then 0
                              else if Tidy.NameAt(s[n - 1..]) == "pre" then 1
                              else if Tidy.NameAt(s[n - 1..]) == "/pre" then -1 else 0
  }

  lemma {:induction false} PreIsDepth(st: Tidy.State, s: string, n: nat)
    requires n <= |s|
    ensures TidyLevels.RunTo(st, s, n).pre == st.pre + PreDepth(s, n)
  {
    if n > 0 {
      PreIsDepth(st, s, n - 1);
      PreStep(TidyLevels.RunTo(st, s, n - 1), s[n - 1..]);
    }
  }

  lemma NoSlash(s: string)
    ensures Tidy.NamePart(s) != "" ==> Tidy.NamePart(s)[0] != '/'
  {
  }

  lemma PreNotIgnored()
    ensures "pre" !in Tidy.IGNORED && "/pre" !in Tidy.IGNORED
  {
  }

  lemma PreStep(st: Tidy.State, s: string)
    requires s != ""
    ensures Tidy.OneChar(st, s).pre == st.pre + if !Tidy.TagStart(s) then 0
                                                else if Tidy.NameAt(s) == "pre" then 1
                                                else if Tidy.NameAt(s) == "/pre" then -1 else 0
  {
    hide Tidy.LineBroken, Tidy.Tabs;
    if Tidy.TagStart(s) {
      var name := Tidy.NameAt(s);
      NoSlash(s[1..]);
      hide Tidy.NamePart;
      assert Tidy.Closing(s) ==> name[0] == '/';
      assert !Tidy.Closing(s) ==> name == Tidy.NamePart(s[1..]) && (name != "" ==> name[0] != '/');
      PreNotIgnored();
      hide Tidy.NameAt;
    }
  }

  /** Whether a text first stands at place i. */
  ghost predicate FirstStands(input: string, pat: string, i: nat)
    requires i <= |input|
  {
    pat <= input[i..] && forall k :: 0 <= k < i ==> !(pat <= input[k..])
  }

  ghost predicate StandsNowhere(input: string, pat: string) {
    forall k :: 0 <= k <= |input| ==> !(pat <= input[k..])
  }

  /** Formatting starts at the first body tag in small letters, or else in capitals, one level lower; without one, at the
      start of the page. */
  lemma BodyStarts(input: string, i: nat)
    requires i <= |input|
    ensures FirstStands(input, "<body", i) || (StandsNowhere(input, "<body") && FirstStands(input, "<BODY", i)) ==>
      Tidy.Start(input).out == input[..i] && Tidy.Start(input).level == -1 && Tidy.Formatted(input) == Tidy.UpToNul(input[i..])
    ensures StandsNowhere(input, "<body") && StandsNowhere(input, "<BODY") ==>
      Tidy.Start(input).out == "" && Tidy.Start(input).level == 0 && Tidy.Formatted(input) == Tidy.UpToNul(input)
  {
    Found(input, "<body", i);
    Found(input, "<BODY", i);
    hide FindText, Tidy.UpToNul, FirstStands, StandsNowhere;
  }

  lemma Found(s: string, pat: string, i: nat)
    requires i <= |s|
    ensures FirstStands(s, pat, i) ==> FindText(s, pat) == Some(i)
    ensures StandsNowhere(s, pat) ==> FindText(s, pat) == None
  {
    if FirstStands(s, pat, i) {
      FindIs(s, pat, i);
    }
    if StandsNowhere(s, pat) {
      NotFound(s, pat);
    }
  }

  lemma NotFound(s: string, pat: string)
    requires forall k :: 0 <= k <= |s| ==> !(pat <= s[k..])
    ensures FindText(s, pat) == None
  {
  }

  /** What is formatted ends at the first NUL character. */
  lemma {:induction false} UpToFirstNul(before: string, after: string)
    requires '\0' !in before
    ensures Tidy.UpToNul(before + "\0" + after) == before && Tidy.UpToNul(before) == before
  {
    var s := before + "\0" + after;
    if before != "" {
      assert before[0] in before && forall c :: c in before[1..] ==> c in before;
      UpToFirstNul(before[1..], after);
      assert s[1..] == before[1..] + "\0" + after && before == [before[0]] + before[1..];
    }
  }
}
