/**
 * The pagination controls the viewer renders below a table (renderPagination
 * in frontend.js): Previous, a window of two pages either side of the current
 * one, the first and last page with ellipses where the window does not reach
 * them, and Next.
 */
module PaginationControls {

  /** One rendered control. Every button carries the page it leads to
      (data-page); only Previous and Next can be disabled, and an ellipsis
      is a span, not a button. */
  datatype Control =
    | Prev(target: int, disabled: bool)
    | PageLink(target: int, current: bool)
    | Gap
    | Next(target: int, disabled: bool)

  predicate IsButton(c: Control) {
    !c.Gap?
  }

  function Max(a: int, b: int): int {
    if a < b then b else a
  }

  function Min(a: int, b: int): int {
    if a < b then a else b
  }

  /** Math.max(1, current_page - 2) */
  function StartPage(cur: int): int {
    Max(1, cur - 2)
  }

  /** Math.min(total_pages, current_page + 2) */
  function EndPage(cur: int, total: int): int {
    Min(total, cur + 2)
  }

  /** The buttons for pages start to end, the current one marked. */
  function Window(start: int, end: int, cur: int): (r: seq<Control>)
    ensures |r| == if end < start then 0 else end - start + 1
    ensures forall k :: 0 <= k < |r| ==> r[k] == PageLink(start + k, start + k == cur)
  {
    if end < start then [] else seq(end - start + 1, k => PageLink(start + k, start + k == cur))
  }

  /** Page 1 and an ellipsis when the window starts after page 2. */
  function Leading(start: int): seq<Control> {
    if start > 1 then [PageLink(1, false)] + (if start > 2 then [Gap] else []) else []
  }

  /** An ellipsis when the window ends before the last page but one, and the last page. */
  function Trailing(end: int, total: int): seq<Control> {
    if end < total then (if end < total - 1 then [Gap] else []) + [PageLink(total, false)] else []
  }

  /** The controls rendered for a current page and a page count. */
  function Controls(cur: int, total: int): (r: seq<Control>)
    ensures |r| >= 2
    ensures r[0] == Prev(cur - 1, cur <= 1)
    ensures r[|r| - 1] == Next(cur + 1, cur >= total)
  {
    var s := StartPage(cur);
    var e := EndPage(cur, total);
    [Prev(cur - 1, cur <= 1)] + Leading(s) + Window(s, e, cur) + Trailing(e, total) + [Next(cur + 1, cur >= total)]
  }

  /** renderPagination: the loop that accumulates controlsHTML. */
  method RenderPagination(cur: int, total: int) returns (controls: seq<Control>)
    ensures controls == Controls(cur, total)
  {
    controls := [Prev(cur - 1, cur <= 1)];
    var startPage := Max(1, cur - 2);
    var endPage := Min(total, cur + 2);
    if startPage > 1 {
      controls := controls + [PageLink(1, false)];
      if startPage > 2 {
        controls := controls + [Gap];
      }
    }
    var head := controls;
    assert head == [Prev(cur - 1, cur <= 1)] + Leading(startPage);
    controls := AppendPageRange(controls, startPage, endPage, cur);
    var body := controls;
    if endPage < total {
      if endPage < total - 1 {
        controls := controls + [Gap];
      }
      controls := controls + [PageLink(total, false)];
    }
    assert controls == body + Trailing(endPage, total);
    controls := controls + [Next(cur + 1, cur >= total)];
  }

  /** The loop over the page range of renderPagination. */
  method AppendPageRange(controls: seq<Control>, startPage: int, endPage: int, cur: int) returns (r: seq<Control>)
    ensures r == controls + Window(startPage, endPage, cur)
  {
    r := controls;
    var i := startPage;
    while i <= endPage
      invariant startPage <= i && (i <= endPage + 1 || i == startPage)
      invariant r == controls + Window(startPage, i - 1, cur)
    {
      WindowSnoc(startPage, i, cur);
      r := r + [PageLink(i, i == cur)];
      i := i + 1;
    }
  }

  lemma WindowSnoc(start: int, i: int, cur: int)
    requires start <= i
    ensures Window(start, i, cur) == Window(start, i - 1, cur) + [PageLink(i, i == cur)]
  {
  }

  // ---------------------------------------------------------------------
  // What the controls promise

  /** The page numbers of the page buttons, in order. */
  function Pages(cs: seq<Control>): (ps: seq<int>)
    ensures |ps| <= |cs|
  {
    if cs == [] then []
    else (if cs[0].PageLink? then [cs[0].target] else []) + Pages(cs[1..])
  }

  lemma {:induction false} PagesAppend(a: seq<Control>, b: seq<Control>)
    ensures Pages(a + b) == Pages(a) + Pages(b)
  {
    if a == [] {
      assert a + b == b;
    } else {
      assert (a + b)[0] == a[0];
      assert (a + b)[1..] == a[1..] + b;
      PagesAppend(a[1..], b);
    }
  }

  /** The consecutive numbers from lo to hi. */
  function Range(lo: int, hi: int): (r: seq<int>)
    ensures |r| == if hi < lo then 0 else hi - lo + 1
    ensures forall k :: 0 <= k < |r| ==> r[k] == lo + k
  {
    if hi < lo then [] else seq(hi - lo + 1, k => lo + k)
  }

  lemma {:induction false} PagesWindow(start: int, end: int, cur: int)
    ensures Pages(Window(start, end, cur)) == Range(start, end)
    decreases end - start
  {
    var w := Window(start, end, cur);
    if start <= end {
      assert w == [PageLink(start, start == cur)] + Window(start + 1, end, cur);
      PagesWindow(start + 1, end, cur);
      assert Range(start, end) == [start] + Range(start + 1, end);
    }
  }

  lemma PagesLeading(start: int)
    ensures Pages(Leading(start)) == if start > 1 then [1] else []
  {
    if start > 2 {
      PagesAppend([PageLink(1, false)], [Gap]);
    }
  }

  lemma PagesTrailing(end: int, total: int)
    ensures Pages(Trailing(end, total)) == if end < total then [total] else []
  {
    if end < total - 1 {
      PagesAppend([Gap], [PageLink(total, false)]);
    }
  }

  lemma PagesOfOne(c: Control)
    ensures Pages([c]) == if c.PageLink? then [c.target] else []
  {
    assert [c][1..] == [];
  }

  lemma {:induction false} PagesOfFive(p: seq<Control>, l: seq<Control>, w: seq<Control>, t: seq<Control>, n: seq<Control>)
    requires Pages(p) == [] && Pages(n) == []
    ensures Pages(p + l + w + t + n) == Pages(l) + Pages(w) + Pages(t)
  {
    PagesAppend(p, l);
    PagesAppend(p + l, w);
    PagesAppend(p + l + w, t);
    PagesAppend(p + l + w + t, n);
  }

  /** The page numbers shown: page 1 before the window, the window, the last page after it. */
  lemma PagesOfControls(cur: int, total: int)
    ensures Pages(Controls(cur, total)) ==
      (if StartPage(cur) > 1 then [1] else []) + Range(StartPage(cur), EndPage(cur, total)) +
      (if EndPage(cur, total) < total then [total] else [])
  {
    var s := StartPage(cur);
    var e := EndPage(cur, total);
    PagesOfOne(Prev(cur - 1, cur <= 1));
    PagesOfOne(Next(cur + 1, cur >= total));
    PagesOfFive([Prev(cur - 1, cur <= 1)], Leading(s), Window(s, e, cur), Trailing(e, total), [Next(cur + 1, cur >= total)]);
    PagesLeading(s);
    PagesWindow(s, e, cur);
    PagesTrailing(e, total);
  }

  predicate StrictlyIncreasing(xs: seq<int>) {
    forall i, j :: 0 <= i < j < |xs| ==> xs[i] < xs[j]
  }

  /** The page numbers shown are strictly increasing: no page appears twice
      and none out of order. */
  lemma PagesIncreasing(cur: int, total: int)
    requires cur >= 1
    ensures StrictlyIncreasing(Pages(Controls(cur, total)))
  {
    PagesOfControls(cur, total);
  }

  /** For a current page within the page count, the first and the last page
      are always shown, and so is the current one. */
  lemma FirstLastAndCurrentShown(cur: int, total: int)
    requires 1 <= cur <= total
    ensures 1 in Pages(Controls(cur, total))
    ensures total in Pages(Controls(cur, total))
    ensures cur in Pages(Controls(cur, total))
  {
    PagesOfControls(cur, total);
    var s := StartPage(cur);
    var e := EndPage(cur, total);
    var ps := Pages(Controls(cur, total));
    var lead := if s > 1 then [1] else [];
    var r := Range(s, e);
    assert ps == lead + r + (if e < total then [total] else []);
    assert r[cur - s] == cur;
    if s == 1 {
      assert r[0] == 1;
    }
    if e == total {
      assert r[|r| - 1] == total;
    }
  }

  /** Exactly the button for the current page is marked current. */
  lemma OnlyCurrentMarked(cur: int, total: int)
    ensures forall c :: c in Controls(cur, total) && c.PageLink? ==> (c.current <==> c.target == cur)
  {
    var s := StartPage(cur);
    var e := EndPage(cur, total);
    forall c | c in Window(s, e, cur)
      ensures c.PageLink? && (c.current <==> c.target == cur)
    {
    }
  }

  /** An ellipsis appears after page 1 exactly when the window leaves pages
      out there, and before the last page exactly when it leaves pages out
      there; where no ellipsis stands, the shown pages are consecutive. */
  lemma GapsMarkSkippedPages(cur: int, total: int)
    requires 1 <= cur <= total
    ensures var r := Controls(cur, total); var s := StartPage(cur);
      s > 1 ==> r[1] == PageLink(1, false) && (r[2] == Gap <==> s > 2) && (s > 2 ==> r[3] == PageLink(s, false))
    ensures var r := Controls(cur, total); var s := StartPage(cur);
      s == 1 ==> r[1] == PageLink(1, cur == 1)
    ensures var r := Controls(cur, total); var e := EndPage(cur, total);
      e < total ==> (r[|r| - 2] == PageLink(total, false) && (r[|r| - 3] == Gap <==> e < total - 1) &&
                     (e < total - 1 ==> r[|r| - 4] == PageLink(e, false)))
    ensures var r := Controls(cur, total); var e := EndPage(cur, total);
      e == total ==> r[|r| - 2] == PageLink(total, cur == total)
    ensures forall c :: c in Controls(cur, total) && c.Gap? ==> StartPage(cur) > 2 || EndPage(cur, total) < total - 1
  {
    GapsAtStart(cur, total);
    GapsAtEnd(cur, total);
    GapsOnlyWhereSkipped(cur, total);
  }

  lemma GapsAtStart(cur: int, total: int)
    requires 1 <= cur <= total
    ensures var r := Controls(cur, total); var s := StartPage(cur);
      s > 1 ==> r[1] == PageLink(1, false) && (r[2] == Gap <==> s > 2) && (s > 2 ==> r[3] == PageLink(s, false))
    ensures var r := Controls(cur, total); var s := StartPage(cur);
      s == 1 ==> r[1] == PageLink(1, cur == 1)
  {
    var s := StartPage(cur);
    var e := EndPage(cur, total);
    var w := Window(s, e, cur);
    var lead := [Prev(cur - 1, cur <= 1)] + Leading(s);
    var r := lead + (w + Trailing(e, total) + [Next(cur + 1, cur >= total)]);
    assert Controls(cur, total) == r;
    assert |w| >= 1 && w[0] == PageLink(s, s == cur);
    if s > 1 {
      assert r[1] == Leading(s)[0];
      if s > 2 {
        assert r[3] == w[0];
      } else {
        assert r[2] == w[0];
      }
    } else {
      assert r[1] == w[0];
    }
  }

  lemma GapsAtEnd(cur: int, total: int)
    requires 1 <= cur <= total
    ensures var r := Controls(cur, total); var e := EndPage(cur, total);
      e < total ==> (r[|r| - 2] == PageLink(total, false) && (r[|r| - 3] == Gap <==> e < total - 1) &&
                     (e < total - 1 ==> r[|r| - 4] == PageLink(e, false)))
    ensures var r := Controls(cur, total); var e := EndPage(cur, total);
      e == total ==> r[|r| - 2] == PageLink(total, cur == total)
  {
    var s := StartPage(cur);
    var e := EndPage(cur, total);
    var w := Window(s, e, cur);
    var tail := Trailing(e, total) + [Next(cur + 1, cur >= total)];
    var r := [Prev(cur - 1, cur <= 1)] + Leading(s) + w + tail;
    assert Controls(cur, total) == r;
    assert |w| >= 1 && w[|w| - 1] == PageLink(e, e == cur);
    if e < total {
      if e < total - 1 {
        assert r[|r| - 4] == w[|w| - 1];
      } else {
        assert r[|r| - 3] == w[|w| - 1];
      }
    } else {
      assert r[|r| - 2] == w[|w| - 1];
    }
  }

  lemma GapsOnlyWhereSkipped(cur: int, total: int)
    ensures forall c :: c in Controls(cur, total) && c.Gap? ==> StartPage(cur) > 2 || EndPage(cur, total) < total - 1
  {
    var s := StartPage(cur);
    var e := EndPage(cur, total);
    var w := Window(s, e, cur);
    forall c | c in Controls(cur, total) && c.Gap?
      ensures s > 2 || e < total - 1
    {
      assert c !in w;
    }
  }

  /** What the ArrowRight handler looks for: some button leading to the page
      after the current one, and none of those buttons disabled. */
  predicate ArrowRightAllowed(cs: seq<Control>, cur: int) {
    (exists k :: 0 <= k < |cs| && IsButton(cs[k]) && cs[k].target == cur + 1) &&
    forall k :: 0 <= k < |cs| && IsButton(cs[k]) && cs[k].target == cur + 1 ==> !DisabledButton(cs[k])
  }

  predicate DisabledButton(c: Control) {
    (c.Prev? || c.Next?) && c.disabled
  }

  /** On the controls rendered for the current page, ArrowRight moves on
      exactly when the current page is not the last one. */
  lemma ArrowRightOnRendered(cur: int, total: int)
    ensures ArrowRightAllowed(Controls(cur, total), cur) <==> cur < total
  {
    var r := Controls(cur, total);
    assert IsButton(r[|r| - 1]) && r[|r| - 1].target == cur + 1;
    if cur >= total {
      assert DisabledButton(r[|r| - 1]);
    }
  }

  /** Rendered for a page of at least 1, every enabled button leads to a page
      of at least 1. */
  lemma EnabledTargetsPositive(cur: int, total: int)
    requires cur >= 1
    ensures forall c :: c in Controls(cur, total) && IsButton(c) && !DisabledButton(c) ==> c.target >= 1
  {
    var s := StartPage(cur);
    var e := EndPage(cur, total);
    forall c | c in Window(s, e, cur)
      ensures c.target >= s
    {
    }
  }
}
