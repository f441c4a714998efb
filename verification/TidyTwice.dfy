/** Formatting a page that is formatted already: snippets whose tags are all terminated.
*/
module TidyTwice {
  import opened Common
  import opened TagValidator
  import opened Tidy

  // ----- pages as characters and whole tags -----

  /** A character that starts no tag, or a whole tag from its less-than sign to its greater-than sign. */
  datatype Item = Ch(c: char) | Tag(body: string)

  function Text(i: Item): string {
    match i case Ch(c) => [c] case Tag(body) => body
  }

  function Flat(xs: seq<Item>): string {
    if xs == [] then "" else Text(xs[0]) + Flat(xs[1..])
  }

  /** A whole tag: nothing in it starts another tag, and it ends at its first greater-than sign. */
  ghost predicate TagOk(body: string) {
    && TagStart(body) && Find(body, '>') == |body| - 1
    && forall k :: 1 <= k < |body| ==> !TagStart(body[k..])
  }

  /** Whether an item may stand before this text: a bare less-than sign not before a tag character. */
  predicate MayPrecede(i: Item, rest: string) {
    i.Ch? && i.c == '<' && rest != "" ==> !TagChar(rest[0])
  }

  ghost predicate ItemOk(i: Item, rest: string) {
    (i.Tag? ==> TagOk(i.body)) && MayPrecede(i, rest)
  }

  ghost predicate ItemsOk(xs: seq<Item>)
  {
    xs == [] || (ItemOk(xs[0], Flat(xs[1..])) && ItemsOk(xs[1..]))
  }

  /** A page whose tags are all terminated: between the less-than and the greater-than sign of a tag no
      other tag starts. */
  predicate Terminated(s: string)
    decreases |s|
  {
    if s == "" then true
    else if TagStart(s) then
      var end := Find(s, '>');
      end < |s| && (forall k :: 1 <= k <= end ==> !TagStart(s[k..])) && Terminated(s[end + 1..])
    else Terminated(s[1..])
  }

  /** The items of a page. */
  function Items(s: string): seq<Item>
    requires Terminated(s)
    decreases |s|
  {
    if s == "" then []
    else if TagStart(s) then [Tag(s[..Find(s, '>') + 1])] + Items(s[Find(s, '>') + 1..])
    else [Ch(s[0])] + Items(s[1..])
  }

  lemma {:induction false} FindInPrefix(s: string, c: char, n: nat)
    requires n <= |s| && Find(s, c) < n
    ensures Find(s[..n], c) == Find(s, c)
  {
    if s[0] != c {
      assert s[..n][1..] == s[1..][..n - 1];
      FindInPrefix(s[1..], c, n - 1);
    }
  }

  lemma {:induction false} FindInFront(a: string, c: char, b: string)
    requires Find(a, c) < |a|
    ensures Find(a + b, c) == Find(a, c)
  {
    if a[0] != c {
      assert (a + b)[1..] == a[1..] + b;
      FindInFront(a[1..], c, b);
    }
  }

  /** The tag at the start of a terminated page is a whole tag. */
  lemma FirstTagOk(s: string)
    requires Terminated(s) && TagStart(s)
    ensures TagOk(s[..Find(s, '>') + 1])
  {
    var end := Find(s, '>');
    var body := s[..end + 1];
    FindInPrefix(s, '>', end + 1);
    assert s[0] != '>' && end != 0;
    assert s[1] != '>';
    assert end != 1;
    forall k | 1 <= k < |body|
      ensures !TagStart(body[k..])
    {
      assert !TagStart(s[k..]);
    }
  }

  lemma AddFirst(x: Item, xs: seq<Item>)
    requires ItemsOk(xs) && ItemOk(x, Flat(xs))
    ensures ItemsOk([x] + xs) && Flat([x] + xs) == Text(x) + Flat(xs)
  {
    assert ([x] + xs)[1..] == xs;
  }

  lemma NoItems()
    ensures ItemsOk([]) && Flat([]) == ""
  {
  }

  lemma {:induction false} ItemsBack(s: string)
    requires Terminated(s)
    ensures Flat(Items(s)) == s && ItemsOk(Items(s))
    decreases |s|
  {
    hide TagOk, Flat, ItemsOk, Find;
    if s == "" {
      NoItems();
    } else if TagStart(s) {
      var n := Find(s, '>') + 1;
      FirstTagOk(s);
      ItemsBack(s[n..]);
      assert ItemOk(Tag(s[..n]), s[n..]);
      AddFirst(Tag(s[..n]), Items(s[n..]));
      assert s == s[..n] + s[n..];
    } else {
      ItemsBack(s[1..]);
      assert ItemOk(Ch(s[0]), s[1..]);
      AddFirst(Ch(s[0]), Items(s[1..]));
      assert s == [s[0]] + s[1..];
    }
  }

  lemma FlatTag(body: string, rest: string)
    requires TagOk(body)
    ensures TagStart(body + rest) && Find(body + rest, '>') == |body| - 1
    ensures forall k :: 1 <= k < |body| ==> !TagStart((body + rest)[k..])
    ensures (body + rest)[..|body|] == body && (body + rest)[|body|..] == rest
  {
    FindInFront(body, '>', rest);
    forall k | 1 <= k < |body|
      ensures !TagStart((body + rest)[k..])
    {
      assert !TagStart(body[k..]);
      if k == |body| - 1 {
        assert (body + rest)[k] == '>';
      }
    }
  }

  lemma {:induction false} FlatItems(xs: seq<Item>)
    requires ItemsOk(xs)
    ensures Terminated(Flat(xs)) && Items(Flat(xs)) == xs
  {
    if xs != [] {
      hide TagOk;
      var rest := Flat(xs[1..]);
      FlatItems(xs[1..]);
      match xs[0]
      case Tag(body) => FlatTag(body, rest);
      case Ch(c) =>
        assert ([c] + rest)[1..] == rest;
        assert !TagStart([c] + rest);
    }
  }

  // ----- the formatter on items -----

  predicate IgnoredTag(x: Item) {
    x.Tag? && TagStart(x.body) && Ignored(x.body)
  }

  /** The state of the formatter on items; `nl` says that the last character read is a newline. */
  datatype IState = IState(out: seq<Item>, level: int, pre: int, nl: bool)

  const FIRST := IState([], 0, 0, false)

  function TabItems(n: int): seq<Item> {
    if n <= 0 then [] else seq(n, _ => Ch('\t'))
  }

  predicate Blank(x: Item) {
    x == Ch(' ') || x == Ch('\t')
  }

  function StrippedItems(xs: seq<Item>): seq<Item> {
    if xs != [] && Blank(xs[|xs| - 1]) then StrippedItems(xs[..|xs| - 1]) else xs
  }

  function BrokenItems(xs: seq<Item>): seq<Item> {
    var ys := StrippedItems(xs);
    if ys != [] && ys[|ys| - 1] != Ch('\n') then ys + [Ch('\n')] else ys
  }

  ghost predicate OneOk(x: Item) {
    x.Tag? ==> TagOk(x.body)
  }

  function IStep(st: IState, x: Item): IState
    requires OneOk(x)
  {
    match x
    case Ch(c) => IState(st.out + [x], st.level, st.pre, c == '\n')
    case Tag(body) =>
      if Ignored(body) then IState(st.out + ([Ch('\n')] + TabItems(st.level)) + [x], st.level, st.pre, false)
      else if !Closing(body) then
        IState((if st.pre == 0 then BrokenItems(st.out) + TabItems(st.level) else st.out) + [x],
               st.level + 1, if NameAt(body) == "pre" then st.pre + 1 else st.pre, false)
      else
        var level := if st.level > 0 then st.level - 1 else st.level;
        IState((if st.pre == 0 && st.nl then st.out + TabItems(level) else st.out) + [x],
               level, if NameAt(body) == "/pre" then st.pre - 1 else st.pre, false)
  }

  ghost predicate TagsOk(xs: seq<Item>) {
    forall i :: 0 <= i < |xs| ==> OneOk(xs[i])
  }

  function IRun(st: IState, xs: seq<Item>): IState
    requires TagsOk(xs)
    decreases |xs|
  {
    if xs == [] then st else IRun(IStep(st, xs[0]), xs[1..])
  }

  lemma {:induction false} RunSplit(st: IState, a: seq<Item>, b: seq<Item>)
    requires TagsOk(a) && TagsOk(b)
    ensures IRun(st, a + b) == IRun(IRun(st, a), b)
    decreases |a|
  {
    if a == [] {
      assert a + b == b;
    } else {
      hide IStep, TagOk;
      assert (a + b)[1..] == a[1..] + b;
      RunSplit(IStep(st, a[0]), a[1..], b);
    }
  }

  lemma RunLast(st: IState, a: seq<Item>, x: Item)
    requires TagsOk(a) && OneOk(x)
    ensures IRun(st, a + [x]) == IStep(IRun(st, a), x)
  {
    hide IStep, TagOk;
    RunSplit(st, a, [x]);
    assert [x][1..] == [];
  }

  /** Plain characters are put out as they are. */
  lemma {:induction false} RunBlank(st: IState, w: seq<Item>)
    requires forall i :: 0 <= i < |w| ==> w[i].Ch?
    decreases |w|
    ensures IRun(st, w) == IState(st.out + w, st.level, st.pre, if w == [] then st.nl else w[|w| - 1] == Ch('\n'))
  {
    if w == [] {
      assert st.out + w == st.out;
    } else {
      RunBlank(IStep(st, w[0]), w[1..]);
      assert st.out + [w[0]] + w[1..] == st.out + w;
    }
  }

  /** The output without the blanks at its end, and those blanks. */
  lemma {:induction false} StrippedSplit(xs: seq<Item>) returns (w: seq<Item>)
    ensures xs == StrippedItems(xs) + w && forall i :: 0 <= i < |w| ==> Blank(w[i])
    ensures StrippedItems(xs) == [] || !Blank(StrippedItems(xs)[|StrippedItems(xs)| - 1])
  {
    if xs != [] && Blank(xs[|xs| - 1]) {
      w := StrippedSplit(xs[..|xs| - 1]);
      assert xs == xs[..|xs| - 1] + [xs[|xs| - 1]];
      w := w + [xs[|xs| - 1]];
    } else {
      w := [];
    }
  }

  lemma {:induction false} StrippedTabs(xs: seq<Item>, n: nat)
    requires xs == [] || !Blank(xs[|xs| - 1])
    ensures StrippedItems(xs + seq(n, _ => Ch('\t'))) == xs
  {
    var ys := xs + seq(n, _ => Ch('\t'));
    if n > 0 {
      assert ys[..|ys| - 1] == xs + seq(n - 1, _ => Ch('\t'));
      StrippedTabs(xs, n - 1);
    } else {
      assert ys == xs;
    }
  }

  /** Breaking the line again changes nothing. */
  lemma BrokenAgain(xs: seq<Item>, n: int)
    ensures BrokenItems(BrokenItems(xs) + TabItems(n)) == BrokenItems(xs)
  {
    var w := StrippedSplit(xs);
    var b := BrokenItems(xs);
    if n > 0 {
      StrippedTabs(b, n);
    } else {
      assert b + TabItems(n) == b;
      assert StrippedItems(b) == b;
    }
  }

  /** An output that the formatter leaves as it is, and that leaves the formatter in the same state. */
  ghost predicate Stable(st: IState) {
    TagsOk(st.out) && IRun(FIRST, st.out) == st
  }

  /** Without the blanks at its end a stable output is put out as it is, too. */
  lemma StableStripped(st: IState)
    requires Stable(st)
    ensures var p := StrippedItems(st.out);
            TagsOk(p) && IRun(FIRST, p).out == p && IRun(FIRST, p).level == st.level && IRun(FIRST, p).pre == st.pre
  {
    hide IStep, OneOk;
    var w := StrippedSplit(st.out);
    var p := StrippedItems(st.out);
    assert forall i :: 0 <= i < |p| ==> p[i] == st.out[i];
    assert forall i :: 0 <= i < |w| ==> w[i] == st.out[|p| + i];
    RunSplit(FIRST, p, w);
    var mid := IRun(FIRST, p);
    RunBlank(mid, w);
    assert |mid.out| == |p| && mid.out == (mid.out + w)[..|p|];
  }

  lemma NewlineAndTabs(xs: seq<Item>)
    requires forall i :: 0 <= i < |xs| ==> xs[i].Ch?
    ensures TagsOk(xs)
  {
  }

  /** A stable output with its line broken and indented is put out as it is. */
  lemma StableBroken(st: IState)
    requires Stable(st)
    ensures var out := BrokenItems(st.out) + TabItems(st.level);
            TagsOk(out) && IRun(FIRST, out).(nl := false) == IState(out, st.level, st.pre, false)
  {
    hide IStep, IRun, Stable, OneOk;
    StableStripped(st);
    var p := StrippedItems(st.out);
    var more := BrokenItems(st.out)[|p|..] + TabItems(st.level);
    NewlineAndTabs(more);
    RunSplit(FIRST, p, more);
    RunBlank(IRun(FIRST, p), more);
    assert p + more == BrokenItems(st.out) + TabItems(st.level);
  }

  /** One step from a stable state leads to a stable state, unless the tag is an ignored one. */
  lemma StepStable(st: IState, x: Item)
    requires Stable(st) && OneOk(x) && !IgnoredTag(x)
    ensures Stable(IStep(st, x))
  {
    match x
    case Ch(c) => RunLast(FIRST, st.out, x);
    case Tag(body) =>
      if !Closing(body) && st.pre == 0 {
        StableBroken(st);
        BrokenAgain(st.out, st.level);
        RunLast(FIRST, BrokenItems(st.out) + TabItems(st.level), x);
      } else if Closing(body) && st.pre == 0 && st.nl {
        StepStableClosing(st, x);
      } else {
        RunLast(FIRST, st.out, x);
      }
  }

  lemma StepStableClosing(st: IState, x: Item)
    requires Stable(st) && OneOk(x) && x.Tag? && TagStart(x.body) && !IgnoredTag(x) && Closing(x.body)
    requires st.pre == 0 && st.nl
    ensures Stable(IStep(st, x))
  {
    var level := if st.level > 0 then st.level - 1 else st.level;
    var t := TabItems(level);
    RunSplit(FIRST, st.out, t);
    RunBlank(st, t);
    RunLast(FIRST, st.out + t, x);
    if level <= 0 {
      assert st.out + t == st.out;
    }
  }

  lemma {:induction false} RunStable(st: IState, xs: seq<Item>)
    requires Stable(st) && TagsOk(xs) && forall i :: 0 <= i < |xs| ==> !IgnoredTag(xs[i])
    ensures Stable(IRun(st, xs))
    decreases |xs|
  {
    if xs != [] {
      hide IStep, Stable, TagOk, IgnoredTag;
      StepStable(st, xs[0]);
      RunStable(IStep(st, xs[0]), xs[1..]);
    }
  }

  // ----- the output consists of the same tags -----

  lemma {:induction false} FlatSplit(a: seq<Item>, b: seq<Item>)
    ensures Flat(a + b) == Flat(a) + Flat(b)
  {
    hide Text;
    if a == [] {
      assert a + b == b;
    } else {
      FlatSplit(a[1..], b);
      assert (a + b)[1..] == a[1..] + b;
      Associate(Text(a[0]), Flat(a[1..]), Flat(b));
    }
  }

  lemma FlatOne(x: Item)
    ensures Flat([x]) == Text(x)
  {
    assert [x][1..] == [];
  }

  lemma {:induction false} ItemsOkSplit(a: seq<Item>, b: seq<Item>)
    requires ItemsOk(a + b)
    ensures ItemsOk(a) && ItemsOk(b) && (a != [] ==> MayPrecede(a[|a| - 1], Flat(b)))
    decreases |a|
  {
    hide TagOk;
    if a == [] {
      assert a + b == b;
    } else {
      assert (a + b)[1..] == a[1..] + b;
      ItemsOkSplit(a[1..], b);
      FlatSplit(a[1..], b);
      if a[1..] == [] {
        assert Flat(a[1..]) == "";
        assert Flat(a[1..] + b) == Flat(b);
      } else {
        assert Flat(a[1..]) != "" ==> Flat(a[1..] + b)[0] == Flat(a[1..])[0];
      }
    }
  }

  lemma {:induction false} ItemsOkJoin(a: seq<Item>, b: seq<Item>)
    requires ItemsOk(a) && ItemsOk(b) && (a != [] ==> MayPrecede(a[|a| - 1], Flat(b)))
    ensures ItemsOk(a + b)
    decreases |a|
  {
    hide ItemsOk, MayPrecede, Flat, OneOk;
    if a == [] {
      assert a + b == b;
    } else {
      var x, rest := a[0], a[1..];
      ItemsOkFirst(a);
      assert rest != [] ==> rest[|rest| - 1] == a[|a| - 1];
      ItemsOkJoin(rest, b);
      MayPrecedeJoin(x, rest, b);
      ItemsOkAdd(x, rest + b);
      assert a + b == [x] + (rest + b);
    }
  }

  lemma ItemsOkFirst(xs: seq<Item>)
    requires ItemsOk(xs) && xs != []
    ensures OneOk(xs[0]) && ItemsOk(xs[1..]) && MayPrecede(xs[0], Flat(xs[1..]))
  {
  }

  lemma ItemsOkAdd(x: Item, xs: seq<Item>)
    requires OneOk(x) && ItemsOk(xs) && MayPrecede(x, Flat(xs))
    ensures ItemsOk([x] + xs)
  {
    assert ([x] + xs)[1..] == xs;
  }

  lemma MayPrecedeJoin(x: Item, a: seq<Item>, b: seq<Item>)
    requires ItemsOk(a) && MayPrecede(x, Flat(a)) && (a == [] ==> MayPrecede(x, Flat(b)))
    ensures MayPrecede(x, Flat(a + b))
  {
    hide ItemsOk, Flat;
    FlatSplit(a, b);
    if a != [] {
      FirstChar(a);
    } else {
      assert a + b == b;
    }
  }

  lemma FirstChar(xs: seq<Item>)
    requires ItemsOk(xs) && xs != []
    ensures Flat(xs) != "" && Flat(xs)[0] == Text(xs[0])[0]
  {
  }

  lemma {:induction false} ItemsTagsOk(xs: seq<Item>)
    requires ItemsOk(xs)
    ensures TagsOk(xs)
  {
    hide TagOk;
    if xs != [] {
      ItemsTagsOk(xs[1..]);
    }
  }

  lemma {:induction false} SpaceItemsOk(xs: seq<Item>)
    requires forall i :: 0 <= i < |xs| ==> xs[i] == Ch('\t') || xs[i] == Ch('\n')
    ensures ItemsOk(xs) && (xs != [] ==> Flat(xs) != "" && White(Flat(xs)[0]))
  {
    if xs != [] {
      SpaceItemsOk(xs[1..]);
    }
  }

  /** Items with newlines and tabs between them and a tag are still the items of a text. */
  lemma SpacedOk(a: seq<Item>, space: seq<Item>, x: Item)
    requires ItemsOk(a) && OneOk(x) && x.Tag?
    requires forall i :: 0 <= i < |space| ==> space[i] == Ch('\t') || space[i] == Ch('\n')
    ensures ItemsOk(a + space + [x])
  {
    SpaceItemsOk(space);
    FlatOne(x);
    assert [x][1..] == [] && Flat([]) == "";
    assert ItemsOk([x]);
    ItemsOkJoin(a, space);
    ItemsOkJoin(a + space, [x]);
  }

  lemma StrippedItemsOk(xs: seq<Item>)
    requires ItemsOk(xs)
    ensures ItemsOk(StrippedItems(xs))
  {
    var w := StrippedSplit(xs);
    ItemsOkSplit(StrippedItems(xs), w);
  }

  /** Before a tag a step puts out newlines and tabs, after taking blanks away or not. */
  lemma StepShape(st: IState, x: Item) returns (base: seq<Item>, space: seq<Item>)
    requires OneOk(x) && x.Tag?
    ensures IStep(st, x).out == base + space + [x] && (base == st.out || base == StrippedItems(st.out))
    ensures forall i :: 0 <= i < |space| ==> space[i] == Ch('\t') || space[i] == Ch('\n')
  {
    var level := if st.level > 0 then st.level - 1 else st.level;
    base, space := st.out, [];
    if Ignored(x.body) {
      space := [Ch('\n')] + TabItems(st.level);
    } else if !Closing(x.body) && st.pre == 0 {
      base := StrippedItems(st.out);
      space := BrokenItems(st.out)[|base|..] + TabItems(st.level);
      assert BrokenItems(st.out) + TabItems(st.level) == base + space;
    } else if Closing(x.body) && st.pre == 0 && st.nl {
      space := TabItems(level);
    } else {
      assert st.out + [] == st.out;
    }
  }

  /** What a step puts out can be read back as the same items. */
  lemma StepItemsOk(st: IState, x: Item)
    requires ItemsOk(st.out) && OneOk(x) && (st.out != [] ==> MayPrecede(st.out[|st.out| - 1], Text(x)))
    ensures ItemsOk(IStep(st, x).out)
    ensures IStep(st, x).out != [] && IStep(st, x).out[|IStep(st, x).out| - 1] == x
  {
    if x.Ch? {
      FlatOne(x);
      assert [x][1..] == [] && ItemsOk([x]);
      ItemsOkJoin(st.out, [x]);
    } else {
      hide IStep, ItemsOk, StrippedItems;
      var base, space := StepShape(st, x);
      StrippedItemsOk(st.out);
      SpacedOk(base, space, x);
    }
  }

  lemma {:induction false} RunItemsOk(st: IState, xs: seq<Item>)
    requires ItemsOk(st.out) && ItemsOk(xs) && TagsOk(xs)
    requires st.out != [] && xs != [] ==> MayPrecede(st.out[|st.out| - 1], Text(xs[0]))
    ensures ItemsOk(IRun(st, xs).out)
    decreases |xs|
  {
    if xs != [] {
      hide IStep, TagOk;
      StepItemsOk(st, xs[0]);
      if xs[1..] != [] {
        FirstChar(xs[1..]);
      }
      RunItemsOk(IStep(st, xs[0]), xs[1..]);
    }
  }

  /** The tags among some items. */
  function TagsOf(xs: seq<Item>): seq<Item> {
    if xs == [] then [] else TagsOf(xs[..|xs| - 1]) + if xs[|xs| - 1].Tag? then [xs[|xs| - 1]] else []
  }

  lemma TagsLast(xs: seq<Item>, x: Item)
    ensures TagsOf(xs + [x]) == TagsOf(xs) + if x.Tag? then [x] else []
  {
    assert (xs + [x])[..|xs|] == xs;
  }

  lemma {:induction false} TagsOfPlain(xs: seq<Item>, w: seq<Item>)
    requires forall i :: 0 <= i < |w| ==> w[i].Ch?
    ensures TagsOf(xs + w) == TagsOf(xs)
    decreases |w|
  {
    if w == [] {
      assert xs + w == xs;
    } else {
      TagsOfPlain(xs, w[..|w| - 1]);
      TagsLast(xs + w[..|w| - 1], w[|w| - 1]);
      assert xs + w == xs + w[..|w| - 1] + [w[|w| - 1]];
    }
  }

  lemma StepTags(st: IState, x: Item)
    requires OneOk(x)
    ensures TagsOf(IStep(st, x).out) == TagsOf(st.out) + if x.Tag? then [x] else []
  {
    hide TagsOf;
    if x.Ch? {
      TagsLast(st.out, x);
    } else {
      hide IStep, StrippedItems;
      var base, space := StepShape(st, x);
      var w := StrippedSplit(st.out);
      TagsOfPlain(StrippedItems(st.out), w);
      TagsOfPlain(base, space);
      TagsLast(base + space, x);
    }
  }

  lemma {:induction false} RunTags(st: IState, xs: seq<Item>)
    requires TagsOk(xs)
    ensures TagsOf(IRun(st, xs).out) == TagsOf(st.out) + TagsOf(xs)
    decreases |xs|
  {
    hide IStep, OneOk;
    if xs == [] {
      assert TagsOf(st.out) + [] == TagsOf(st.out);
    } else {
      var ys, x := xs[..|xs| - 1], xs[|xs| - 1];
      RunTags(st, ys);
      assert xs == ys + [x];
      RunLast(st, ys, x);
      StepTags(IRun(st, ys), x);
      TagsLast(ys, x);
    }
  }

  // ----- the formatter on characters does the same -----

  /** The state on characters that an item state stands for. */
  ghost predicate Same(st: State, i: IState) {
    st.out == Flat(i.out) && st.level == i.level && st.pre == i.pre && (st.prev == '\n' <==> i.nl)
  }

  lemma EndOfItem(x: Item)
    requires OneOk(x)
    ensures Text(x) != "" && (Blank(x) <==> Text(x)[|Text(x)| - 1] == ' ' || Text(x)[|Text(x)| - 1] == '\t')
    ensures Blank(x) ==> |Text(x)| == 1
  {
  }

  lemma StripLast(a: string, b: string)
    requires b != ""
    ensures var last := b[|b| - 1];
            && (last != ' ' && last != '\t' ==> Stripped(a + b) == a + b)
            && (|b| == 1 && (last == ' ' || last == '\t') ==> Stripped(a + b) == Stripped(a))
  {
    assert (a + b)[|a + b| - 1] == b[|b| - 1];
    assert |b| == 1 ==> (a + b)[..|a + b| - 1] == a;
  }

  lemma {:induction false} FlatStripped(xs: seq<Item>)
    requires TagsOk(xs)
    ensures Flat(StrippedItems(xs)) == Stripped(Flat(xs))
  {
    if xs != [] {
      var ys, x := xs[..|xs| - 1], xs[|xs| - 1];
      assert xs == ys + [x] && OneOk(x) && TagsOk(ys);
      assert StrippedItems(xs) == if Blank(x) then StrippedItems(ys) else xs;
      hide *;
      FlatSplit(ys, [x]);
      FlatOne(x);
      EndOfItem(x);
      StripLast(Flat(ys), Text(x));
      FlatStripped(ys);
    }
  }

  lemma LastChar(xs: seq<Item>)
    requires TagsOk(xs) && xs != []
    ensures Flat(xs) != "" && (Flat(xs)[|Flat(xs)| - 1] == '\n' <==> xs[|xs| - 1] == Ch('\n'))
  {
    var ys, x := xs[..|xs| - 1], xs[|xs| - 1];
    assert xs == ys + [x];
    FlatSplit(ys, [x]);
    FlatOne(x);
    assert OneOk(xs[|xs| - 1]);
  }

  lemma FlatBroken(xs: seq<Item>)
    requires TagsOk(xs)
    ensures Flat(BrokenItems(xs)) == LineBroken(Flat(xs))
  {
    hide Flat, OneOk, StrippedItems, Stripped;
    FlatStripped(xs);
    var ys := StrippedItems(xs);
    var w := StrippedSplit(xs);
    assert forall i :: 0 <= i < |ys| ==> ys[i] == xs[i];
    FlatSplit(ys, [Ch('\n')]);
    FlatOne(Ch('\n'));
    if ys == [] {
      NoItems();
    } else {
      LastChar(ys);
    }
  }

  lemma {:induction false} FlatTabs(n: int)
    ensures Flat(TabItems(n)) == Tabs(n)
    decreases n
  {
    if n > 0 {
      FlatTabs(n - 1);
      assert TabItems(n) == TabItems(n - 1) + [Ch('\t')];
      FlatSplit(TabItems(n - 1), [Ch('\t')]);
      FlatOne(Ch('\t'));
      assert Tabs(n) == Tabs(n - 1) + "\t";
    }
  }

  lemma {:induction false} NamePartInFront(a: string, b: string)
    requires '>' in a
    ensures NamePart(a + b) == NamePart(a)
  {
    if a[0] != ' ' && a[0] != '>' && a[0] != '/' {
      assert (a + b)[1..] == a[1..] + b;
      NamePartInFront(a[1..], b);
    }
  }

  /** What is read of a tag does not depend on what follows it. */
  lemma TagAlone(body: string, rest: string)
    requires TagOk(body)
    ensures TagStart(body + rest) && NameAt(body + rest) == NameAt(body) && Closing(body + rest) == Closing(body)
  {
    var n := |body| - 1;
    assert body[n] == '>' && n >= 2;
    assert body[1..][n - 1] == '>' && body[2..][n - 2] == '>';
    NamePartInFront(body[1..], rest);
    NamePartInFront(body[2..], rest);
    assert (body + rest)[1..] == body[1..] + rest && (body + rest)[2..] == body[2..] + rest;
  }

  lemma {:induction false} RunPlain(st: State, a: string, rest: string)
    requires forall k :: 0 <= k < |a| ==> !TagStart((a + rest)[k..])
    ensures Run(st, a + rest)
            == Run(st.(out := st.out + a, prev := if a == "" then st.prev else a[|a| - 1]), rest)
    decreases |a|
  {
    if a == "" {
      assert a + rest == rest && st.out + a == st.out;
    } else {
      var s := a + rest;
      assert s[0..] == s && s[1..] == a[1..] + rest;
      assert !TagStart(s[0..]);
      forall k | 0 <= k < |a[1..]|
        ensures !TagStart((a[1..] + rest)[k..])
      {
        assert (a[1..] + rest)[k..] == s[k + 1..];
      }
      RunPlain(OneChar(st, s), a[1..], rest);
      assert st.out + [s[0]] + a[1..] == st.out + a;
    }
  }

  /** What a step makes of a tag, apart from the tag itself. */
  lemma TagStep(st: State, i: IState, body: string, rest: string)
    requires Same(st, i) && TagsOk(i.out) && TagOk(body)
    ensures var st', i' := OneChar(st, body + rest), IStep(i, Tag(body));
            && Flat(i'.out) == st'.out[..|st'.out| - 1] + body && st'.out != "" && st'.out[|st'.out| - 1] == '<'
            && st'.level == i'.level && st'.pre == i'.pre && !i'.nl
  {
    hide TagOk, NameAt, Flat, LineBroken, BrokenItems, TabItems, Tabs;
    NotEmpty(body);
    TagAlone(body, rest);
    var st', i' := OneChar(st, body + rest), IStep(i, Tag(body));
    var before := i'.out[..|i'.out| - 1];
    assert i'.out == before + [Tag(body)];
    FlatSplit(before, [Tag(body)]);
    FlatOne(Tag(body));
    FlatBroken(i.out);
    FlatTabs(st.level);
    FlatSplit(BrokenItems(i.out), TabItems(st.level));
    FlatOne(Ch('\n'));
    FlatSplit([Ch('\n')], TabItems(st.level));
    FlatSplit(i.out, [Ch('\n')] + TabItems(st.level));
    Associate(st.out, "\n", Tabs(st.level));
    var level := if st.level > 0 then st.level - 1 else st.level;
    FlatTabs(level);
    FlatSplit(i.out, TabItems(level));
    assert st'.out[..|st'.out| - 1] == Flat(before);
  }

  lemma CharItem(st: State, i: IState, c: char, rest: string)
    requires Same(st, i) && TagsOk(i.out) && MayPrecede(Ch(c), rest)
    ensures Run(st, [c] + rest) == Run(OneChar(st, [c] + rest), rest)
    ensures Same(OneChar(st, [c] + rest), IStep(i, Ch(c)))
  {
    assert !TagStart([c] + rest);
    assert ([c] + rest)[1..] == rest;
    FlatSplit(i.out, [Ch(c)]);
    FlatOne(Ch(c));
  }

  /** The characters of a tag after its less-than sign are put out as they are. */
  lemma TagRest(st: State, body: string, rest: string)
    requires TagOk(body)
    ensures var mid := OneChar(st, body + rest);
            Run(st, body + rest) == Run(mid.(out := mid.out + body[1..], prev := '>'), rest)
  {
    hide OneChar;
    FlatTag(body, rest);
    NotEmpty(body);
    var s := body + rest;
    var tail := body[1..];
    assert s[1..] == tail + rest;
    forall k | 0 <= k < |tail|
      ensures !TagStart((tail + rest)[k..])
    {
      assert (tail + rest)[k..] == s[k + 1..];
    }
    RunPlain(OneChar(st, s), tail, rest);
    RunOnce(st, s);
    assert tail[|tail| - 1] == '>';
  }

  lemma TagItem(st: State, i: IState, body: string, rest: string)
    requires Same(st, i) && TagsOk(i.out) && TagOk(body)
    ensures var mid := OneChar(st, body + rest);
            Same(mid.(out := mid.out + body[1..], prev := '>'), IStep(i, Tag(body)))
  {
    hide TagOk, OneChar, IStep, TagStart, Flat;
    TagStep(st, i, body, rest);
    NotEmpty(body);
    var mid := OneChar(st, body + rest);
    assert mid.out + body[1..] == mid.out[..|mid.out| - 1] + body;
  }

  lemma ItemStep(st: State, i: IState, x: Item, rest: string) returns (st': State)
    requires Same(st, i) && TagsOk(i.out) && ItemOk(x, rest)
    ensures Run(st, Text(x) + rest) == Run(st', rest) && Same(st', IStep(i, x))
  {
    hide Same, OneChar, IStep, TagOk, Run;
    match x
    case Ch(c) =>
      st' := OneChar(st, [c] + rest);
      CharItem(st, i, c, rest);
    case Tag(body) =>
      NotEmpty(body);
      var mid := OneChar(st, body + rest);
      st' := mid.(out := mid.out + body[1..], prev := '>');
      TagRest(st, body, rest);
      TagItem(st, i, body, rest);
  }

  lemma NotEmpty(body: string)
    requires TagOk(body)
    ensures |body| >= 3 && body[0] == '<' && body[|body| - 1] == '>'
  {
  }

  lemma RunOnce(st: State, s: string)
    requires s != ""
    ensures Run(st, s) == Run(OneChar(st, s), s[1..])
  {
  }

  lemma StepTagsOk(st: IState, x: Item)
    requires TagsOk(st.out) && OneOk(x)
    ensures TagsOk(IStep(st, x).out)
  {
    if x.Tag? {
      hide IStep, OneOk, StrippedItems;
      var base, space := StepShape(st, x);
      var w := StrippedSplit(st.out);
      assert forall i :: 0 <= i < |base| ==> base[i] == st.out[i];
      PlainOk(space);
    }
  }

  lemma PlainOk(w: seq<Item>)
    requires forall i :: 0 <= i < |w| ==> w[i] == Ch('\t') || w[i] == Ch('\n')
    ensures TagsOk(w)
  {
  }

  /** The formatter on characters puts out the text of what the formatter on items puts out. */
  lemma {:induction false} RunIsItemRun(st: State, i: IState, xs: seq<Item>)
    requires Same(st, i) && ItemsOk(xs) && TagsOk(i.out) && TagsOk(xs)
    ensures Same(Run(st, Flat(xs)), IRun(i, xs))
    decreases |xs|
  {
    if xs != [] {
      hide IStep, TagOk, Same, OneChar;
      var st' := ItemStep(st, i, xs[0], Flat(xs[1..]));
      StepTagsOk(i, xs[0]);
      RunIsItemRun(st', IStep(i, xs[0]), xs[1..]);
    }
  }

  // ----- pages without a body tag -----

  lemma {:induction false} FindPast(a: string, rest: string, pat: string)
    requires |pat| >= 2 && TagStart(pat) && forall k :: 0 <= k < |a| ==> !TagStart((a + rest)[k..])
    ensures FindText(a + rest, pat).Some? <==> FindText(rest, pat).Some?
    decreases |a|
  {
    if a == "" {
      assert a + rest == rest;
    } else {
      var s := a + rest;
      assert s[0..] == s && !TagStart(s[0..]);
      assert s[1..] == a[1..] + rest;
      forall k | 0 <= k < |a[1..]|
        ensures !TagStart((a[1..] + rest)[k..])
      {
        assert (a[1..] + rest)[k..] == s[k + 1..];
      }
      FindPast(a[1..], rest, pat);
      assert !(pat <= s);
    }
  }

  predicate StartsTag(xs: seq<Item>, pat: string) {
    exists i :: 0 <= i < |xs| && xs[i].Tag? && pat <= xs[i].body
  }

  /** A pattern that starts like a tag and does not end one is found only at the start of a tag. */
  lemma {:induction false} FindTag(xs: seq<Item>, pat: string)
    requires ItemsOk(xs) && TagStart(pat) && '>' !in pat
    ensures FindText(Flat(xs), pat).Some? <==> StartsTag(xs, pat)
  {
    if xs == [] {
      assert Flat(xs) == "";
    } else {
      hide TagOk, TagStart, ItemsOk, FindText;
      var rest := Flat(xs[1..]);
      FirstOk(xs);
      FindTag(xs[1..], pat);
      StartsTagStep(xs, pat);
      match xs[0]
      case Ch(c) =>
        NoTagHere(c, rest);
        FindPast([c], rest, pat);
      case Tag(body) => FindInTag(body, rest, pat);
    }
  }

  lemma FirstOk(xs: seq<Item>)
    requires ItemsOk(xs) && xs != []
    ensures ItemsOk(xs[1..]) && ItemOk(xs[0], Flat(xs[1..]))
  {
  }

  lemma StartsTagStep(xs: seq<Item>, pat: string)
    requires xs != []
    ensures StartsTag(xs, pat) <==> (xs[0].Tag? && pat <= xs[0].body) || StartsTag(xs[1..], pat)
  {
    if i :| 0 <= i < |xs| && xs[i].Tag? && pat <= xs[i].body && i > 0 {
      assert xs[1..][i - 1].Tag?;
    }
    if i :| 0 <= i < |xs[1..]| && xs[1..][i].Tag? && pat <= xs[1..][i].body {
      assert xs[i + 1].Tag?;
    }
  }

  lemma NoTagHere(c: char, rest: string)
    requires MayPrecede(Ch(c), rest)
    ensures forall k :: 0 <= k < |[c]| ==> !TagStart(([c] + rest)[k..])
  {
    assert ([c] + rest)[0..] == [c] + rest;
  }

  /** A pattern without a greater-than sign that starts at a tag is in the tag. */
  lemma PatternInTag(body: string, rest: string, pat: string)
    requires body != "" && body[|body| - 1] == '>' && '>' !in pat
    ensures pat <= body + rest <==> pat <= body
  {
    var n := |body| - 1;
    assert body <= body + rest;
    if pat <= body + rest {
      assert (body + rest)[n] == '>';
      assert |pat| <= n;
      assert forall i :: 0 <= i < |pat| ==> pat[i] == (body + rest)[i] == body[i];
    }
  }

  lemma TailStartsNone(body: string, rest: string, k: nat)
    requires body != "" && k < |body| - 1
    ensures (body[1..] + rest)[k..] == (body + rest)[k + 1..]
  {
  }

  lemma FindInTag(body: string, rest: string, pat: string)
    requires TagOk(body) && TagStart(pat) && '>' !in pat
    ensures FindText(body + rest, pat).Some? <==> pat <= body || FindText(rest, pat).Some?
  {
    FlatTag(body, rest);
    var s := body + rest;
    PatternInTag(body, rest, pat);
    assert s[1..] == body[1..] + rest;
    hide TagStart, TagOk;
    forall k | 0 <= k < |body[1..]|
      ensures !TagStart((body[1..] + rest)[k..])
    {
      TailStartsNone(body, rest, k);
    }
    PatternLength(pat);
    FindPast(body[1..], rest, pat);
  }

  lemma PatternLength(pat: string)
    requires TagStart(pat)
    ensures |pat| >= 2
  {
  }

  lemma SameTagsStart(xs: seq<Item>, ys: seq<Item>, pat: string)
    requires TagsOf(xs) == TagsOf(ys)
    ensures StartsTag(xs, pat) <==> StartsTag(ys, pat)
  {
    TagsOfStart(xs, pat);
    TagsOfStart(ys, pat);
  }

  lemma {:induction false} TagsOfStart(xs: seq<Item>, pat: string)
    ensures StartsTag(xs, pat) <==> StartsTag(TagsOf(xs), pat)
    decreases |xs|
  {
    if xs != [] {
      var ys, x := xs[..|xs| - 1], xs[|xs| - 1];
      TagsOfStart(ys, pat);
      assert xs == ys + [x];
      StartsTagLast(ys, x, pat);
      if x.Tag? {
        StartsTagLast(TagsOf(ys), x, pat);
      } else {
        assert TagsOf(ys) + [] == TagsOf(ys);
      }
    }
  }

  lemma StartsTagLast(ys: seq<Item>, x: Item, pat: string)
    ensures StartsTag(ys + [x], pat) <==> StartsTag(ys, pat) || (x.Tag? && pat <= x.body)
  {
    if i :| 0 <= i < |ys| && ys[i].Tag? && pat <= ys[i].body {
      assert (ys + [x])[i].Tag?;
    }
    if x.Tag? && pat <= x.body {
      assert (ys + [x])[|ys|] == x;
    }
  }

  // ----- ignored tags get another newline every time -----

  function Newlines(xs: seq<Item>): nat {
    if xs == [] then 0 else Newlines(xs[..|xs| - 1]) + if xs[|xs| - 1] == Ch('\n') then 1 else 0
  }

  function IgnoredCount(xs: seq<Item>): nat {
    if xs == [] then 0 else IgnoredCount(xs[..|xs| - 1]) + if IgnoredTag(xs[|xs| - 1]) then 1 else 0
  }

  lemma NewlinesLast(xs: seq<Item>, x: Item)
    ensures Newlines(xs + [x]) == Newlines(xs) + if x == Ch('\n') then 1 else 0
    ensures IgnoredCount(xs + [x]) == IgnoredCount(xs) + if IgnoredTag(x) then 1 else 0
  {
    assert (xs + [x])[..|xs|] == xs;
  }

  lemma {:induction false} NewlinesSplit(a: seq<Item>, b: seq<Item>)
    ensures Newlines(a + b) == Newlines(a) + Newlines(b)
    decreases |b|
  {
    if b == [] {
      assert a + b == a;
    } else {
      var c, x := b[..|b| - 1], b[|b| - 1];
      assert b == c + [x] && a + b == a + c + [x];
      NewlinesSplit(a, c);
      NewlinesLast(a + c, x);
      NewlinesLast(c, x);
    }
  }

  lemma {:induction false} NoNewlines(w: seq<Item>)
    requires forall i :: 0 <= i < |w| ==> Blank(w[i])
    ensures Newlines(w) == 0
    decreases |w|
  {
    if w != [] {
      NoNewlines(w[..|w| - 1]);
    }
  }

  lemma StepNewlines(st: IState, x: Item)
    requires OneOk(x)
    ensures Newlines(IStep(st, x).out)
            >= Newlines(st.out) + (if x == Ch('\n') then 1 else 0) + if IgnoredTag(x) then 1 else 0
  {
    if x.Ch? {
      NewlinesLast(st.out, x);
    } else {
      var w := StrippedSplit(st.out);
      NewlinesSplit(StrippedItems(st.out), w);
      NoNewlines(w);
      var base, space := StepShape(st, x);
      NewlinesLast(base + space, x);
      NewlinesSplit(base, space);
      if IgnoredTag(x) {
        var before := st.out + ([Ch('\n')] + TabItems(st.level));
        assert IStep(st, x).out == before + [x];
        NewlinesLast(before, x);
        NewlinesSplit(st.out, [Ch('\n')] + TabItems(st.level));
        NewlinesSplit([Ch('\n')], TabItems(st.level));
        NewlinesLast([], Ch('\n'));
        assert [] + [Ch('\n')] == [Ch('\n')];
      }
    }
  }

  lemma {:induction false} RunNewlines(st: IState, xs: seq<Item>)
    requires TagsOk(xs)
    ensures Newlines(IRun(st, xs).out) >= Newlines(st.out) + Newlines(xs) + IgnoredCount(xs)
    decreases |xs|
  {
    hide IStep, OneOk, IgnoredTag;
    if xs != [] {
      var ys, x := xs[..|xs| - 1], xs[|xs| - 1];
      RunNewlines(st, ys);
      assert xs == ys + [x];
      RunLast(st, ys, x);
      StepNewlines(IRun(st, ys), x);
      NewlinesLast(ys, x);
    }
  }

  lemma {:induction false} IgnoredAmongTags(xs: seq<Item>)
    ensures IgnoredCount(xs) == IgnoredCount(TagsOf(xs))
    decreases |xs|
  {
    hide IgnoredTag;
    if xs != [] {
      var ys, x := xs[..|xs| - 1], xs[|xs| - 1];
      IgnoredAmongTags(ys);
      assert xs == ys + [x];
      NewlinesLast(ys, x);
      if x.Tag? {
        NewlinesLast(TagsOf(ys), x);
      } else {
        NotIgnored(x);
        assert TagsOf(ys) + [] == TagsOf(ys);
      }
    }
  }

  lemma NotIgnored(x: Item)
    requires x.Ch?
    ensures !IgnoredTag(x)
  {
  }

  lemma {:induction false} NoneIgnored(xs: seq<Item>)
    ensures IgnoredCount(xs) == 0 <==> forall i :: 0 <= i < |xs| ==> !IgnoredTag(xs[i])
    decreases |xs|
  {
    hide IgnoredTag;
    if xs != [] {
      NoneIgnored(xs[..|xs| - 1]);
      assert forall i :: 0 <= i < |xs| - 1 ==> xs[..|xs| - 1][i] == xs[i];
    }
  }

  // ----- formatting twice -----

  /** A snippet: a page without a body tag and without NUL characters. */
  predicate Snippet(s: string) {
    BodyAt(s).None? && '\0' !in s
  }

  /** A terminated snippet is formatted as its items are. */
  lemma SnippetRun(s: string)
    requires Snippet(s) && Terminated(s)
    ensures TagsOk(Items(s)) && ItemsOk(IRun(FIRST, Items(s)).out)
    ensures Result(s).out == Flat(IRun(FIRST, Items(s)).out)
  {
    ItemsBack(s);
    ItemsTagsOk(Items(s));
    NoNul(s);
    RunIsItemRun(Start(s), FIRST, Items(s));
    RunItemsOk(FIRST, Items(s));
  }

  lemma {:induction false} NonWhiteHas(s: string, c: char)
    requires !White(c)
    ensures c in s <==> c in NonWhite(s)
  {
    if s != "" {
      NonWhiteHas(s[1..], c);
    }
  }

  lemma SameBody(xs: seq<Item>, ys: seq<Item>)
    requires ItemsOk(xs) && ItemsOk(ys) && TagsOf(xs) == TagsOf(ys)
    ensures BodyAt(Flat(xs)).None? <==> BodyAt(Flat(ys)).None?
  {
    hide FindText, Flat, ItemsOk;
    FindTag(xs, "<body");
    FindTag(xs, "<BODY");
    FindTag(ys, "<body");
    FindTag(ys, "<BODY");
    SameTagsStart(xs, ys, "<body");
    SameTagsStart(xs, ys, "<BODY");
  }

  lemma OutputNoNul(s: string)
    requires '\0' !in s
    ensures '\0' !in Result(s).out
  {
    hide Result;
    OnlyWhiteChanges(s);
    NonWhiteHas(s, '\0');
    NonWhiteHas(Result(s).out, '\0');
  }

  /** The output of a terminated snippet is a terminated snippet with the same tags. */
  lemma OutputIsSnippet(s: string)
    requires Snippet(s) && Terminated(s)
    ensures Snippet(Result(s).out) && Terminated(Result(s).out) && TagsOk(Items(s))
    ensures Items(Result(s).out) == IRun(FIRST, Items(s)).out
    ensures TagsOf(Items(Result(s).out)) == TagsOf(Items(s))
  {
    hide IRun, Result, BodyAt, Items, TagsOk, ItemsOk, Terminated;
    SnippetRun(s);
    var xs := Items(s);
    var out := IRun(FIRST, xs).out;
    ItemsBack(s);
    FlatItems(out);
    RunTags(FIRST, xs);
    assert TagsOf(FIRST.out) + TagsOf(xs) == TagsOf(xs);
    SameBody(xs, out);
    OutputNoNul(s);
  }

  /** Formatting a terminated snippet a second time changes nothing if and only if it has none of the
      ignored tags: those get another newline every time. */
  lemma TidyTwiceIsOnce(s: string)
    requires Snippet(s) && Terminated(s)
    ensures Result(Result(s).out).out == Result(s).out
            <==> forall i :: 0 <= i < |Items(s)| ==> !IgnoredTag(Items(s)[i])
  {
    hide IRun, Result, Snippet, Terminated, IgnoredTag, Items;
    var xs := Items(s);
    OutputIsSnippet(s);
    SnippetRun(s);
    var once := Items(Result(s).out);
    SnippetRun(Result(s).out);
    var twice := IRun(FIRST, once).out;
    NoneIgnored(xs);
    if IgnoredCount(xs) == 0 {
      FirstStable();
      RunStable(FIRST, xs);
    } else {
      IgnoredAmongTags(xs);
      IgnoredAmongTags(once);
      RunNewlines(FIRST, once);
      FlatItems(once);
      FlatItems(twice);
    }
  }

  lemma FirstStable()
    ensures Stable(FIRST)
  {
  }

  /** A line break is put on a further new line by each formatting. */
  lemma LineBreakMoves()
    ensures Result(Result("<br>").out).out != Result("<br>").out
  {
    hide Result, Items, IgnoredTag, Snippet, Terminated;
    BreakIsSnippet();
    BreakIsIgnored();
    TidyTwiceIsOnce("<br>");
  }

  lemma BreakIsIgnored()
    requires Terminated("<br>")
    ensures |Items("<br>")| > 0 && IgnoredTag(Items("<br>")[0])
  {
    hide Terminated;
    var s := "<br>";
    BreakIsSnippet();
    assert s[..4] == s;
    assert Items(s)[0] == Tag(s);
    assert s[1..] == "br>" && s[1..][1..] == "r>" && s[1..][1..][1..] == ">";
    assert NamePart(s[1..]) == "br" && NameAt(s) == "br";
  }

  lemma BreakIsSnippet()
    ensures Snippet("<br>") && Terminated("<br>") && Find("<br>", '>') == 3
  {
    var s := "<br>";
    assert s[1..] == "br>" && s[1..][1..] == "r>" && s[1..][1..][1..] == ">" && s[4..] == "";
    assert Find(s, '>') == 3;
    assert !TagStart(s[1..]) && !TagStart(s[2..]) && !TagStart(s[3..]);
  }
}
