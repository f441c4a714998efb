/** Spanning column headings: equal neighbours of a heading grid are merged into table header cells
    with colspan and rowspan, and the cells are put out row by row.
*/
module Headings {

  /** A column and a row, both from 0. */
  datatype Pos = Pos(x: int, y: int)

  /** A heading cell: a text not yet processed, a cell that is part of another one's span (or that the
      caller marked as no cell), or a header cell with its spans. */
  datatype Slot = Text(text: string) | NoCell | Th(text: string, colspan: nat, rowspan: nat)

  const NOCELL := "%~%"

  /** A heading as the caller gives it: a list of columns, each a list of rows; the rest is empty. */
  type Heading = seq<seq<string>>

  type Grid = map<Pos, Slot>

  function TextAt(h: Heading, p: Pos): string {
    if 0 <= p.x < |h| && 0 <= p.y < |h[p.x]| then h[p.x][p.y] else ""
  }

  function Rows(h: Heading): (n: nat)
    ensures n >= 1 && forall c :: 0 <= c < |h| ==> |h[c]| <= n
  {
    if h == [] then 1
    else
      var rest := Rows(h[..|h| - 1]);
      assert forall c :: 0 <= c < |h| - 1 ==> h[..|h| - 1][c] == h[c];
      if |h[|h| - 1]| > rest then |h[|h| - 1]| else rest
  }

  predicate InBox(h: Heading, p: Pos) {
    0 <= p.x < |h| && 0 <= p.y < Rows(h)
  }

  /** Reading a grid: what was never stored is empty text. */
  function At(g: Grid, p: Pos): Slot {
    if p in g then g[p] else Text("")
  }

  /** The cells that a header cell at `a` covers. */
  predicate InSpan(a: Pos, th: Slot, p: Pos)
    requires th.Th?
  {
    a.x <= p.x < a.x + th.colspan && a.y <= p.y < a.y + th.rowspan
  }

  /** A cell comes before another in the order of processing: by rows, then by columns. */
  predicate Earlier(p: Pos, q: Pos) {
    p.y < q.y || (p.y == q.y && p.x < q.x)
  }

  /** A cell that the caller did not mark as no cell. */
  predicate Live(h: Heading, p: Pos) {
    InBox(h, p) && TextAt(h, p) != NOCELL
  }

  /** A covered cell has the text of its header cell, or none when it lies below it. */
  ghost predicate SpanTextOk(h: Heading, a: Pos, th: Slot, p: Pos) {
    th.Th? && th.text == TextAt(h, a)
    && (TextAt(h, p) == th.text || (TextAt(h, p) == "" && p.x == a.x && th.colspan == 1))
  }

  /** A header cell spans as far as it can: first to the right, over equal texts that no cell above
      already covers; only if that is not at all, downwards, over equal or empty texts. */
  ghost predicate SpanMaximal(h: Heading, owner: map<Pos, Pos>, a: Pos, th: Slot)
  {
    && th.Th? && th.colspan >= 1 && th.rowspan >= 1 && (th.colspan == 1 || th.rowspan == 1)
    && (var right := Pos(a.x + th.colspan, a.y);
        right.x >= |h| || TextAt(h, right) != th.text || (right in owner && owner[right].y < a.y))
    && (th.colspan == 1 ==>
          var below := Pos(a.x, a.y + th.rowspan);
          below.y >= Rows(h) || TextAt(h, below) == NOCELL || (TextAt(h, below) != th.text && TextAt(h, below) != ""))
  }

  /** The state of the grid before cell `now` is processed: `owner` gives for every cell that is
      covered by a header cell the place of that one. */
  ghost predicate Spanned(h: Heading, g: Grid, owner: map<Pos, Pos>, now: Pos) {
    && (forall p :: InBox(h, p) ==> CellOk(h, g, owner, now, p))
    && (forall p :: p in owner ==> Live(h, p) && OwnerOk(h, g, owner, now, p))
  }

  ghost predicate CellOk(h: Heading, g: Grid, owner: map<Pos, Pos>, now: Pos, p: Pos) {
    match At(g, p)
    case Text(t) => t == TextAt(h, p) && t != NOCELL && p !in owner && !Earlier(p, now)
    case NoCell => (p in owner ==> owner[p] != p) && (Live(h, p) ==> p in owner)
    case Th(_, _, _) =>
      && Earlier(p, now) && p in owner && owner[p] == p && SpanMaximal(h, owner, p, At(g, p))
      && forall q :: InSpan(p, At(g, p), q) ==> q in owner && owner[q] == p
  }

  ghost predicate OwnerOk(h: Heading, g: Grid, owner: map<Pos, Pos>, now: Pos, p: Pos)
    requires p in owner
  {
    var a := owner[p];
    && InBox(h, a) && At(g, a).Th? && InSpan(a, At(g, a), p) && SpanTextOk(h, a, At(g, a), p)
  }

  /** There is such an assignment of owners. */
  ghost predicate Spannable(h: Heading, g: Grid, now: Pos) {
    exists owner: map<Pos, Pos> :: Spanned(h, g, owner, now)
  }

  /** The grid with a header cell put at `a`: the other cells of its span become no cell. */
  function Put(g: Grid, a: Pos, th: Slot): (r: Grid)
    requires th.Th?
    ensures forall p :: At(r, p) == if p == a then th else if InSpan(a, th, p) then NoCell else At(g, p)
  {
    var span := set x, y | a.x <= x < a.x + th.colspan && a.y <= y < a.y + th.rowspan :: Pos(x, y);
    (g + map p | p in span :: NoCell)[a := th]
  }

  function PutOwner(owner: map<Pos, Pos>, a: Pos, th: Slot): (r: map<Pos, Pos>)
    requires th.Th?
    ensures forall p :: p in r <==> p in owner || InSpan(a, th, p)
    ensures forall p :: p in r ==> r[p] == if InSpan(a, th, p) then a else owner[p]
  {
    var span := set x, y | a.x <= x < a.x + th.colspan && a.y <= y < a.y + th.rowspan :: Pos(x, y);
    owner + map p | p in span :: a
  }

  /** Whether a header cell of these spans may be put at the text cell `a`. */
  ghost predicate MayPut(h: Heading, g: Grid, owner: map<Pos, Pos>, a: Pos, th: Slot) {
    && InBox(h, a) && At(g, a).Text? && th.Th? && th.text == At(g, a).text
    && SpanMaximal(h, owner, a, th)
    && forall q :: InSpan(a, th, q) ==>
         InBox(h, q) && At(g, q).Text? && SpanTextOk(h, a, th, q)
  }

  lemma PutNotOwned(h: Heading, g: Grid, owner: map<Pos, Pos>, a: Pos, th: Slot, q: Pos)
    requires Spanned(h, g, owner, a) && MayPut(h, g, owner, a, th) && InSpan(a, th, q)
    ensures q !in owner && Live(h, q)
  {
    assert CellOk(h, g, owner, a, q);
  }

  lemma HeaderFacts(h: Heading, g: Grid, owner: map<Pos, Pos>, now: Pos, p: Pos)
    requires Spanned(h, g, owner, now) && InBox(h, p) && At(g, p).Th?
    ensures p in owner && SpanMaximal(h, owner, p, At(g, p))
    ensures forall q :: InSpan(p, At(g, p), q) ==> q in owner && owner[q] == p
  {
    assert CellOk(h, g, owner, now, p);
  }

  lemma StillMaximal(h: Heading, owner: map<Pos, Pos>, a: Pos, th: Slot, p: Pos, at: Slot)
    requires th.Th? && SpanMaximal(h, owner, p, at) && at.Th?
    requires InSpan(a, th, Pos(p.x + at.colspan, p.y)) ==> Pos(p.x + at.colspan, p.y) !in owner
    ensures SpanMaximal(h, PutOwner(owner, a, th), p, at)
  {
    hide PutOwner;
  }

  /** A header cell that is already there is not touched by a new one. */
  lemma PutApart(h: Heading, g: Grid, owner: map<Pos, Pos>, a: Pos, th: Slot, p: Pos)
    requires Spanned(h, g, owner, a) && MayPut(h, g, owner, a, th) && InBox(h, p) && At(g, p).Th?
    ensures At(Put(g, a, th), p) == At(g, p) && SpanMaximal(h, PutOwner(owner, a, th), p, At(g, p))
    ensures forall q :: InSpan(p, At(g, p), q) ==> !InSpan(a, th, q)
  {
    hide Spanned, MayPut, SpanMaximal, Put, PutOwner, InSpan, InBox, Live;
    TextMeans(h, g, owner, a, th);
    HeaderFacts(h, g, owner, a, p);
    var right := Pos(p.x + At(g, p).colspan, p.y);
    if InSpan(a, th, right) {
      PutNotOwned(h, g, owner, a, th, right);
    }
    StillMaximal(h, owner, a, th, p, At(g, p));
    forall q | InSpan(p, At(g, p), q)
      ensures !InSpan(a, th, q)
    {
      if InSpan(a, th, q) {
        PutNotOwned(h, g, owner, a, th, q);
      }
    }
    if InSpan(a, th, p) {
      PutNotOwned(h, g, owner, a, th, p);
    }
  }

  lemma TextMeans(h: Heading, g: Grid, owner: map<Pos, Pos>, a: Pos, th: Slot)
    requires MayPut(h, g, owner, a, th)
    ensures th.Th? && InSpan(a, th, a) && At(g, a).Text?
  {
  }

  lemma PutHere(h: Heading, g: Grid, owner: map<Pos, Pos>, a: Pos, th: Slot)
    requires Spanned(h, g, owner, a) && MayPut(h, g, owner, a, th)
    ensures CellOk(h, Put(g, a, th), PutOwner(owner, a, th), Pos(a.x + th.colspan, a.y), a)
  {
    hide Put, PutOwner, Spanned;
    var right := Pos(a.x + th.colspan, a.y);
    assert !InSpan(a, th, right) && InSpan(a, th, a);
    StillMaximal(h, owner, a, th, a, th);
  }

  lemma PutThere(h: Heading, g: Grid, owner: map<Pos, Pos>, a: Pos, th: Slot, p: Pos)
    requires Spanned(h, g, owner, a) && MayPut(h, g, owner, a, th) && InBox(h, p) && At(g, p).Th?
    ensures CellOk(h, Put(g, a, th), PutOwner(owner, a, th), Pos(a.x + th.colspan, a.y), p)
  {
    assert CellOk(h, g, owner, a, p);
    PutApart(h, g, owner, a, th, p);
    forall q | InSpan(p, At(g, p), q)
      ensures q in PutOwner(owner, a, th) && PutOwner(owner, a, th)[q] == p
    {
      assert q in owner && owner[q] == p;
    }
    assert InSpan(p, At(g, p), p);
  }

  lemma PutCellOk(h: Heading, g: Grid, owner: map<Pos, Pos>, a: Pos, th: Slot, p: Pos)
    requires Spanned(h, g, owner, a) && MayPut(h, g, owner, a, th) && InBox(h, p)
    ensures CellOk(h, Put(g, a, th), PutOwner(owner, a, th), Pos(a.x + th.colspan, a.y), p)
  {
    if p == a {
      PutHere(h, g, owner, a, th);
    } else if At(g, p).Th? {
      PutThere(h, g, owner, a, th, p);
    } else {
      assert CellOk(h, g, owner, a, p);
      assert At(Put(g, a, th), p) == if InSpan(a, th, p) then NoCell else At(g, p);
    }
  }

  lemma PutOwnerOk(h: Heading, g: Grid, owner: map<Pos, Pos>, a: Pos, th: Slot, p: Pos)
    requires Spanned(h, g, owner, a) && MayPut(h, g, owner, a, th) && p in PutOwner(owner, a, th)
    ensures Live(h, p) && OwnerOk(h, Put(g, a, th), PutOwner(owner, a, th), Pos(a.x + th.colspan, a.y), p)
  {
    if InSpan(a, th, p) {
      PutNotOwned(h, g, owner, a, th, p);
      assert InSpan(a, th, a);
    } else {
      assert OwnerOk(h, g, owner, a, p);
      PutApart(h, g, owner, a, th, owner[p]);
    }
  }

  lemma PutKeepsSpanned(h: Heading, g: Grid, owner: map<Pos, Pos>, a: Pos, th: Slot)
    requires Spanned(h, g, owner, a) && MayPut(h, g, owner, a, th)
    ensures Spanned(h, Put(g, a, th), PutOwner(owner, a, th), Pos(a.x + th.colspan, a.y))
  {
    hide CellOk, OwnerOk, Put, PutOwner, InBox, Live;
    TextMeans(h, g, owner, a, th);
    forall p | InBox(h, p)
      ensures CellOk(h, Put(g, a, th), PutOwner(owner, a, th), Pos(a.x + th.colspan, a.y), p)
    {
      PutCellOk(h, g, owner, a, th, p);
    }
    forall p | p in PutOwner(owner, a, th)
      ensures Live(h, p) && OwnerOk(h, Put(g, a, th), PutOwner(owner, a, th), Pos(a.x + th.colspan, a.y), p)
    {
      PutOwnerOk(h, g, owner, a, th, p);
    }
  }

  // ----- the loop over the grid -----

  function Initial(h: Heading): (g: Grid)
    ensures forall p :: InBox(h, p) ==> At(g, p) == if TextAt(h, p) == NOCELL then NoCell else Text(TextAt(h, p))
  {
    var box := set x, y | 0 <= x < |h| && 0 <= y < Rows(h) :: Pos(x, y);
    map p | p in box :: if TextAt(h, p) == NOCELL then NoCell else Text(TextAt(h, p))
  }

  /** Whether the cells of a span of `n` cells to the right of (or below) `a` may be merged with it. */
  ghost predicate Mergeable(h: Heading, g: Grid, a: Pos, th: Slot) {
    && th.Th? && InBox(h, a) && At(g, a).Text? && th.text == At(g, a).text
    && forall q :: InSpan(a, th, q) ==>
         InBox(h, q) && At(g, q).Text? && (At(g, q).text == th.text || (At(g, q).text == "" && th.colspan == 1))
  }

  /** The grid while the span `th` of `a` is being merged: `a` itself is still text. */
  ghost predicate Merging(h: Heading, was: Grid, g: Grid, a: Pos, th: Slot) {
    && th.Th? && Mergeable(h, was, a, th)
    && forall p :: At(g, p) == if p != a && InSpan(a, th, p) then NoCell else At(was, p)
  }

  /** The span grows by the next cell. */
  lemma MergeOne(h: Heading, was: Grid, g: Grid, a: Pos, th: Slot, next: Pos, th': Slot)
    requires th.Th? && th'.Th? && th'.text == th.text && Merging(h, was, g, a, th) && InBox(h, next)
    requires At(g, next) == Text(th.text) || (At(g, next) == Text("") && th'.colspan == 1)
    requires th'.colspan == 1 ==> th.colspan == 1
    requires th.colspan >= 1 && th.rowspan >= 1 && th'.colspan >= 1 && th'.rowspan >= 1
    requires next != a && forall p :: InSpan(a, th', p) <==> InSpan(a, th, p) || p == next
    requires th'.colspan > 1 ==> forall p :: InSpan(a, th, p) ==> At(was, p) == Text(th.text)
    ensures Merging(h, was, g[next := NoCell], a, th')
  {
    var g' := g[next := NoCell];
    assert At(was, next) == At(g, next);
    forall p
      ensures At(g', p) == if p != a && InSpan(a, th', p) then NoCell else At(was, p)
    {
      assert At(g, p) == if p != a && InSpan(a, th, p) then NoCell else At(was, p);
    }
  }

  method SpanRight(h: Heading, g0: Grid, a: Pos, text: string, ghost owner: map<Pos, Pos>) returns (g: Grid, colspan: nat)
    requires Spanned(h, g0, owner, a) && InBox(h, a) && At(g0, a) == Text(text)
    ensures colspan >= 1 && Merging(h, g0, g, a, Th(text, colspan, 1))
    ensures var right := Pos(a.x + colspan, a.y);
            right.x >= |h| || TextAt(h, right) != text || (right in owner && owner[right].y < a.y)
  {
    hide Spanned;
    g, colspan := g0, 1;
    while true
      invariant colspan >= 1 && Merging(h, g0, g, a, Th(text, colspan, 1))
      invariant forall p :: InSpan(a, Th(text, colspan, 1), p) ==> At(g0, p) == Text(text)
      invariant a.x + colspan <= |h|
      decreases |h| - a.x - colspan
    {
      var right := Pos(a.x + colspan, a.y);
      if !(right.x < |h| && At(g, right) == Text(text)) {
        RightIsAbove(h, g0, owner, a, right);
        break;
      }
      MergeOne(h, g0, g, a, Th(text, colspan, 1), right, Th(text, colspan + 1, 1));
      colspan := colspan + 1;
      g := g[right := NoCell];
    }
  }

  /** The header cell that covers a cell was put earlier, and covers no text cell. */
  lemma OwnerFacts(h: Heading, g: Grid, owner: map<Pos, Pos>, now: Pos, q: Pos, text: Pos)
    requires Spanned(h, g, owner, now) && q in owner && InBox(h, text) && At(g, text).Text?
    ensures var b := owner[q];
            && Earlier(b, now) && At(g, b).Th? && InSpan(b, At(g, b), q) && !InSpan(b, At(g, b), text)
            && (At(g, b).colspan == 1 || At(g, b).rowspan == 1)
  {
    var b := owner[q];
    assert OwnerOk(h, g, owner, now, q);
    assert CellOk(h, g, owner, now, b);
    assert CellOk(h, g, owner, now, text);
  }

  /** A cell to the right of a text cell that is not its text is marked, other text, or covered from above. */
  lemma RightIsAbove(h: Heading, g: Grid, owner: map<Pos, Pos>, a: Pos, right: Pos)
    requires Spanned(h, g, owner, a) && InBox(h, a) && At(g, a).Text? && right.y == a.y && right.x > a.x
    requires right.x >= |h| || At(g, right) != At(g, a)
    ensures right.x >= |h| || TextAt(h, right) != At(g, a).text || (right in owner && owner[right].y < a.y)
  {
    assert CellOk(h, g, owner, a, a);
    if right.x < |h| {
      assert CellOk(h, g, owner, a, right);
      if right in owner {
        OwnerFacts(h, g, owner, a, right, a);
      }
    }
  }

  method SpanDown(h: Heading, g0: Grid, a: Pos, text: string, ghost owner: map<Pos, Pos>) returns (g: Grid, rowspan: nat)
    requires Spanned(h, g0, owner, a) && InBox(h, a) && At(g0, a) == Text(text)
    ensures rowspan >= 1 && Merging(h, g0, g, a, Th(text, 1, rowspan))
    ensures var below := Pos(a.x, a.y + rowspan);
            below.y >= Rows(h) || TextAt(h, below) == NOCELL || (TextAt(h, below) != text && TextAt(h, below) != "")
  {
    hide Spanned;
    g, rowspan := g0, 1;
    while true
      invariant rowspan >= 1 && Merging(h, g0, g, a, Th(text, 1, rowspan))
      invariant a.y + rowspan <= Rows(h)
      decreases Rows(h) - a.y - rowspan
    {
      var below := Pos(a.x, a.y + rowspan);
      if !(below.y < Rows(h) && (At(g, below) == Text(text) || At(g, below) == Text(""))) {
        if below.y < Rows(h) {
          BelowIsText(h, g0, owner, a, below);
        }
        break;
      }
      MergeOne(h, g0, g, a, Th(text, 1, rowspan), below, Th(text, 1, rowspan + 1));
      rowspan := rowspan + 1;
      g := g[below := NoCell];
    }
  }

  /** Nothing below a text cell is covered yet. */
  lemma BelowIsText(h: Heading, g: Grid, owner: map<Pos, Pos>, a: Pos, below: Pos)
    requires Spanned(h, g, owner, a) && InBox(h, a) && At(g, a).Text? && below.x == a.x && a.y < below.y < Rows(h)
    ensures if TextAt(h, below) == NOCELL then At(g, below) == NoCell else At(g, below) == Text(TextAt(h, below))
  {
    assert CellOk(h, g, owner, a, below);
    if below in owner {
      OwnerFacts(h, g, owner, a, below, a);
    }
  }

  lemma MergedMayBePut(h: Heading, was: Grid, g: Grid, owner: map<Pos, Pos>, a: Pos, th: Slot)
    requires Spanned(h, was, owner, a) && InBox(h, a) && th.Th? && Merging(h, was, g, a, th)
    requires SpanMaximal(h, owner, a, th)
    ensures MayPut(h, was, owner, a, th)
    ensures forall p :: At(g[a := th], p) == At(Put(was, a, th), p)
  {
    forall q | InSpan(a, th, q)
      ensures SpanTextOk(h, a, th, q)
    {
      assert CellOk(h, was, owner, a, a);
      assert CellOk(h, was, owner, a, q);
    }
  }

  /** Grids that read the same are in the same state. */
  lemma SameReading(h: Heading, g: Grid, g': Grid, owner: map<Pos, Pos>, now: Pos)
    requires Spanned(h, g, owner, now) && forall p :: At(g', p) == At(g, p)
    ensures Spanned(h, g', owner, now)
  {
    forall p | InBox(h, p)
      ensures CellOk(h, g', owner, now, p)
    {
      assert CellOk(h, g, owner, now, p);
    }
    forall p | p in owner
      ensures Live(h, p) && OwnerOk(h, g', owner, now, p)
    {
      assert OwnerOk(h, g, owner, now, p);
    }
  }

  /** Processing may go on to a later place if no text is in between. */
  lemma MoveOn(h: Heading, g: Grid, owner: map<Pos, Pos>, now: Pos, next: Pos)
    requires Spanned(h, g, owner, now)
    requires forall p :: InBox(h, p) && Earlier(p, now) ==> Earlier(p, next)
    requires forall p :: InBox(h, p) && Earlier(p, next) && !Earlier(p, now) ==> !At(g, p).Text?
    ensures Spanned(h, g, owner, next)
  {
    forall p | InBox(h, p)
      ensures CellOk(h, g, owner, next, p)
    {
      assert CellOk(h, g, owner, now, p);
    }
    forall p | p in owner
      ensures Live(h, p) && OwnerOk(h, g, owner, next, p)
    {
      assert OwnerOk(h, g, owner, now, p);
    }
  }

  lemma SkipCell(h: Heading, g: Grid, owner: map<Pos, Pos>, now: Pos)
    requires Spanned(h, g, owner, now) && !At(g, now).Text?
    ensures Spanned(h, g, owner, Pos(now.x + 1, now.y))
  {
    MoveOn(h, g, owner, now, Pos(now.x + 1, now.y));
  }

  lemma NextRow(h: Heading, g: Grid, owner: map<Pos, Pos>, now: Pos)
    requires Spanned(h, g, owner, now) && now.x >= |h|
    ensures Spanned(h, g, owner, Pos(0, now.y + 1))
  {
    MoveOn(h, g, owner, now, Pos(0, now.y + 1));
  }

  lemma InitialSpanned(h: Heading)
    ensures Spanned(h, Initial(h), map[], Pos(0, 0))
  {
  }

  /** Storing the header cell of a merged span keeps the state in order. */
  lemma StoreKeepsSpanned(h: Heading, was: Grid, g: Grid, owner: map<Pos, Pos>, a: Pos, th: Slot)
    requires Spanned(h, was, owner, a) && InBox(h, a) && th.Th? && Merging(h, was, g, a, th)
    requires SpanMaximal(h, owner, a, th)
    ensures Spanned(h, g[a := th], PutOwner(owner, a, th), Pos(a.x + th.colspan, a.y))
  {
    MergedMayBePut(h, was, g, owner, a, th);
    PutKeepsSpanned(h, was, owner, a, th);
    SameReading(h, Put(was, a, th), g[a := th], PutOwner(owner, a, th), Pos(a.x + th.colspan, a.y));
  }

  /** Merges the cell at `a` with its neighbours and returns how many columns it spans. */
  method SpanCell(h: Heading, g0: Grid, a: Pos, text: string, ghost owner0: map<Pos, Pos>)
    returns (g: Grid, colspan: nat, ghost owner: map<Pos, Pos>)
    requires Spanned(h, g0, owner0, a) && InBox(h, a) && At(g0, a) == Text(text)
    ensures colspan >= 1 && Spanned(h, g, owner, Pos(a.x + colspan, a.y))
  {
    hide Spanned, Merging;
    g, colspan := SpanRight(h, g0, a, text, owner0);
    var rowspan := 1;
    if colspan == 1 {
      g, rowspan := SpanDown(h, g0, a, text, owner0);
    }
    var th := Th(text, colspan, rowspan);
    StoreKeepsSpanned(h, g0, g, owner0, a, th);
    g, owner := g[a := th], PutOwner(owner0, a, th);
  }

  method SpanRow(h: Heading, g0: Grid, r: nat, ghost owner0: map<Pos, Pos>) returns (g: Grid, ghost owner: map<Pos, Pos>)
    requires Spanned(h, g0, owner0, Pos(0, r)) && r < Rows(h)
    ensures Spanned(h, g, owner, Pos(0, r + 1)) && Spannable(h, g, Pos(0, r + 1))
  {
    hide Spanned;
    g, owner := g0, owner0;
    var c := 0;
    while c < |h|
      invariant 0 <= c && Spanned(h, g, owner, Pos(c, r))
      decreases |h| - c
    {
      var slot := At(g, Pos(c, r));
      if slot.Text? {
        var colspan;
        g, colspan, owner := SpanCell(h, g, Pos(c, r), slot.text, owner);
        c := c + colspan;
      } else {
        SkipCell(h, g, owner, Pos(c, r));
        c := c + 1;
      }
    }
    NextRow(h, g, owner, Pos(c, r));
  }

  /** Replaces the texts of a heading grid by header cells that span equal neighbours. */
  method ColRowSpan(h: Heading) returns (g: Grid, ghost owner: map<Pos, Pos>)
    ensures Spanned(h, g, owner, Pos(0, Rows(h))) && Spannable(h, g, Pos(0, Rows(h)))
  {
    g, owner := Initial(h), map[];
    InitialSpanned(h);
    for r := 0 to Rows(h)
      invariant Spanned(h, g, owner, Pos(0, r))
    {
      g, owner := SpanRow(h, g, r, owner);
    }
  }
}
