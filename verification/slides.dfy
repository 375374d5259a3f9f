/** The page stack with its interruptible slide (shared/nexis/sliding_stacked_widget.cpp). */
module Slides {
  import opened Text

  /** What the stack holds: the loading placeholder and the page of a slot. */
  datatype Page = Loading | PageOf(id: string)

  datatype Point = Point(x: int, y: int)

  datatype Direction = LeftToRight | RightToLeft | TopToBottom | BottomToTop | Automatic

  /** A running animation group: where the two pages move from and to. */
  datatype Slide = Slide(nowFrom: Point, nowTo: Point, nextFrom: Point, nextTo: Point)

  /** Where a page rests inside the frame. */
  const REST := Point(0, 0)

  /** `indexOf` */
  function IndexOf<T(==)>(s: seq<T>, x: T): (i: int)
    ensures x in s ==> 0 <= i < |s| && s[i] == x && x !in s[..i]
    ensures x !in s ==> i == -1
  {
    if s == [] then -1
    else if s[0] == x then 0
    else
      var k := IndexOf(s[1..], x);
      assert k >= 0 ==> s[..k + 1] == [s[0]] + s[1..][..k];
      if k == -1 then -1 else k + 1
  }

  /** The distance of a slide. */
  function Offset(direction: Direction, width: int, height: int): (r: Point)
    ensures direction == BottomToTop ==> r == Point(0, -height)
    ensures direction == TopToBottom ==> r == Point(0, height)
    ensures direction == RightToLeft ==> r == Point(-width, 0)
    ensures direction == LeftToRight ==> r == Point(width, 0)
  {
    match direction
    case BottomToTop => Point(0, -height)
    case TopToBottom => Point(0, height)
    case RightToLeft => Point(-width, 0)
    case LeftToRight => Point(width, 0)
    case Automatic => Point(width, height)
  }

  lemma Within(i: int, n: int)
    requires 0 <= i < n
    ensures i % n == i
  {
  }

  /** The remainder of a division that truncates toward zero. */
  function Remainder(a: int, n: int): int
    requires n > 0
  {
    if a >= 0 then a % n else -((-a) % n)
  }

  lemma AtLeast(k: int, n: int)
    requires n > 0 && k >= 1
    ensures k * n >= n
  {
  }

  lemma Quotient(a: int, n: int) returns (q: int)
    requires n > 0
    ensures a == q * n + a % n && 0 <= a % n < n
  {
    q := a / n;
  }

  lemma Unique(a: int, n: int, q: int, r: int)
    requires n > 0 && a == q * n + r && 0 <= r < n
    ensures a % n == r
  {
    var q' := Quotient(a, n);
    var r' := a % n;
    assert (q - q') * n == r' - r && (q' - q) * n == r - r';
    if q > q' {
      AtLeast(q - q', n);
    } else if q < q' {
      AtLeast(q' - q, n);
    }
  }

  lemma SameRemainder(i: int, n: int)
    requires n > 0
    ensures (i + n) % n == i % n
  {
    var q := Quotient(i, n);
    assert i + n == (q + 1) * n + i % n;
    Unique(i + n, n, q + 1, i % n);
  }

  lemma Negated(a: int, n: int)
    requires n > 0
    ensures (-a) % n == 0 <==> a % n == 0
  {
    var q := Quotient(a, n);
    var r := a % n;
    if r == 0 {
      assert -a == -q * n + 0;
      Unique(-a, n, -q, 0);
    } else {
      assert -a == (-q - 1) * n + (n - r);
      Unique(-a, n, -q - 1, n - r);
    }
  }

  /** A negative index wraps around once; further down there is a page only at multiples of the count. */
  lemma Wraps(i: int, n: int)
    requires i < 0 < n
    ensures var r := Remainder(i + n, n);
      if i >= -n || i % n == 0 then r == i % n else r < 0
  {
    SameRemainder(i, n);
    Negated(i + n, n);
  }

  /** The direction of a slide that does not ask for one. */
  function Hint(vertical: bool, forward: bool): (d: Direction)
    ensures d != Automatic
  {
    if forward then (if vertical then TopToBottom else RightToLeft) else (if vertical then BottomToTop else LeftToRight)
  }

  lemma IndexOfAt<T>(s: seq<T>, i: int)
    requires Distinct(s) && 0 <= i < |s|
    ensures IndexOf(s, s[i]) == i
  {
    var k := IndexOf(s, s[i]);
  }

  class SlidingStack {
    var pages: seq<Page>
    var current: int
    var shown: seq<bool>
    var pos: seq<Point>
    var now: int
    var next: int
    var pnow: Point
    var active: bool
    var group: Option<Slide>
    var vertical: bool
    var width: int
    var height: int

    /** A slide is active exactly when its animation group is pending. It then runs from the current page to another one,
        and nothing else is up; otherwise one page is up, and every page is where it rests. The slide starts the one page and
        ends the other where they rest. */
    ghost predicate Valid()
      reads this
    {
      && |shown| == |pages| && |pos| == |pages| && Distinct(pages)
      && (pages == [] ==> current == -1 && !active)
      && (pages != [] ==> 0 <= current < |pages|)
      && (active <==> group.Some?)
      && (active ==> now == current && 0 <= next < |pages| && now != next && pnow == REST)
      && (active ==> group.value.nowFrom == REST && group.value.nextTo == REST)
      && (forall k | 0 <= k < |pages| :: shown[k] <==> k == current || (active && k == next))
      && (forall k | 0 <= k < |pages| && !(active && (k == now || k == next)) :: pos[k] == REST)
    }

    /** The page that is up, or that is sliding in. */
    ghost function Target(): (p: Page)
      requires Valid() && pages != []
      reads this
      ensures p in pages
    {
      if active then pages[next] else pages[current]
    }

    /** `currentWidget`, which is the target unless a slide is running. */
    function CurrentWidget(): (p: Page)
      requires Valid() && pages != []
      reads this
      ensures p in pages && (!active ==> p == Target())
    {
      pages[current]
    }

    constructor (v: bool, w: int, h: int)
      ensures Valid() && pages == [] && !active && vertical == v
    {
      pages, shown, pos := [], [], [];
      current, now, next := -1, 0, 0;
      pnow, active, group := REST, false, None;
      vertical, width, height := v, w, h;
    }

    /** `addWidget`: the first page comes up, every other one is added hidden. */
    method AddWidget(p: Page)
      requires Valid() && p !in pages
      modifies this
      ensures Valid() && pages == old(pages) + [p] && active == old(active)
      ensures Target() == if old(pages) == [] then p else old(Target())
    {
      pages, pos := pages + [p], pos + [REST];
      if current < 0 {
        current := 0;
        shown := shown + [true];
      } else {
        shown := shown + [false];
      }
    }

    /** `setCurrentIndex`: hides the old page and shows the new one. */
    method SetCurrentIndex(index: int)
      modifies this`current, this`shown
      requires |shown| == |pages| && -1 <= current < |pages|
      ensures |shown| == |pages|
      ensures current == if 0 <= index < |pages| then index else old(current)
      ensures if current == old(current) then shown == old(shown) else
        forall k | 0 <= k < |pages| :: shown[k] == if k == current then true else if k == old(current) then false else old(shown[k])
    {
      if !(0 <= index < |pages|) || index == current {
        return;
      }
      if current >= 0 {
        shown := shown[current := false];
      }
      current := index;
      shown := shown[index := true];
    }

    /** `setCurrentWidget`, which a settled stack answers by switching pages at once. */
    method SetCurrentWidget(p: Page)
      requires Valid() && !active && p in pages
      modifies this
      ensures Valid() && pages == old(pages) && !active && Target() == p
    {
      SetCurrentIndex(IndexOf(pages, p));
    }

    /** `animationDoneSlot`: the incoming page becomes the current one, and both pages go where they rest. */
    method AnimationDoneSlot()
      requires Valid() && active
      modifies this`current, this`shown, this`pos, this`group, this`active
      ensures Valid() && pages == old(pages) && !active && Target() == old(Target())
    {
      SetCurrentIndex(next);
      shown := shown[now := false];
      pos := pos[now := pnow];
      pos := pos[next := pnow];
      group := None;
      active := false;
    }

    /** `finishAnimation`: settles a running slide on its target. */
    method FinishAnimation()
      requires Valid()
      modifies this`current, this`shown, this`pos, this`group, this`active
      ensures Valid() && pages == old(pages) && !active
      ensures pages != [] ==> Target() == old(Target())
    {
      if !active || group.None? {
        return;
      }
      AnimationDoneSlot();
    }

    /** The second half of `slideInWgt`: the slide from the current page to another one is set up. The old page leaves by one
        frame in the direction. The new one is placed that far on the other side; its animation starts there too for a
        horizontal slide, but on the side to which the old page leaves for a vertical one. */
    method StartSlide(next': int, direction: Direction)
      requires Valid() && !active && 0 <= next' < |pages| && next' != current
      modifies this`shown, this`pos, this`now, this`next, this`pnow, this`active, this`group
      ensures Valid() && active && Target() == pages[next']
      ensures var o := Offset(direction, width, height);
        group == Some(Slide(REST, o, Point(-o.x, o.y), REST)) && pos[next] == Point(-o.x, -o.y)
    {
      hide Offset, Distinct;
      var now' := current;
      pos := pos[next' := Point(0, 0)];
      var offset := Offset(direction, width, height);
      var pnext, pnow' := pos[next'], pos[now'];
      pnow := pnow';
      pos := pos[next' := Point(pnext.x - offset.x, pnext.y - offset.y)];
      shown := shown[next' := true];
      group := Some(Slide(pnow', Point(offset.x + pnow'.x, offset.y + pnow'.y),
                          Point(-offset.x + pnext.x, offset.y + pnext.y), pnext));
      next := next';
      now := now';
      active := true;
    }

    /** `slideInWgt`: a request that comes in during a slide settles it first. */
    method SlideInWgt(p: Page, requested: Direction)
      requires Valid() && p in pages
      modifies this`current, this`shown, this`pos, this`now, this`next, this`pnow, this`active, this`group
      ensures Valid() && Target() == p
      ensures active <==> old(Target()) != p
      ensures active && requested != Automatic ==> group.value.nowTo == Offset(requested, width, height)
      ensures active && requested == Automatic ==>
        var forward := IndexOf(pages, old(Target())) < IndexOf(pages, p);
        && (forward && vertical ==> group.value.nowTo == Offset(TopToBottom, width, height))
        && (forward && !vertical ==> group.value.nowTo == Offset(RightToLeft, width, height))
        && (!forward && vertical ==> group.value.nowTo == Offset(BottomToTop, width, height))
        && (!forward && !vertical ==> group.value.nowTo == Offset(LeftToRight, width, height))
    {
      hide IndexOf, Offset;
      FinishAnimation();
      IndexOfAt(pages, current);
      var next' := IndexOf(pages, p);
      if current == next' {
        return;
      }
      var hint := Hint(vertical, current < next');
      StartSlide(next', if requested == Automatic then hint else requested);
    }

    /** `slideInIdx`: an index beyond either end wraps around. It is None for a crash: the remainder by an empty stack's
        count, or a negative remainder, for which there is no page. */
    method SlideInIdx(index: int, requested: Direction) returns (shownAt: Option<nat>)
      requires Valid()
      modifies this`current, this`shown, this`pos, this`now, this`next, this`pnow, this`active, this`group
      ensures Valid()
      ensures shownAt.Some? && active ==>
        && (0 <= index < |pages| && requested != Automatic ==> group.value.nowTo == Offset(requested, width, height))
        && (index >= |pages| ==> group.value.nowTo == Offset(if vertical then TopToBottom else RightToLeft, width, height))
        && (index < 0 ==> group.value.nowTo == Offset(if vertical then BottomToTop else LeftToRight, width, height))
      ensures shownAt.Some? <==> pages != [] && (index >= -|pages| || index % |pages| == 0)
      ensures shownAt.Some? ==> shownAt.value == index % |pages| && shownAt.value < |pages|
      ensures shownAt.Some? ==> Target() == pages[shownAt.value] && (active <==> old(Target()) != pages[shownAt.value])
    {
      if pages == [] {
        return None;
      }
      var direction, idx := requested, index;
      if idx > |pages| - 1 {
        direction := if vertical then TopToBottom else RightToLeft;
        idx := idx % |pages|;
        Within(idx, |pages|);
      } else if idx < 0 {
        direction := if vertical then BottomToTop else LeftToRight;
        idx := Remainder(idx + |pages|, |pages|);
        Wraps(index, |pages|);
        if idx < 0 {
          return None;
        }
      } else {
        Within(index, |pages|);
      }
      SlideInWgt(pages[idx], direction);
      return Some(idx);
    }

    /** `slideInNext`: from the current page, so during a slide from the page that is sliding out. */
    method SlideInNext()
      requires Valid()
      modifies this
      ensures Valid() && pages == old(pages)
      ensures pages != [] ==> Target() == if old(current) < |pages| - 1 then pages[old(current) + 1] else old(Target())
    {
      if current < |pages| - 1 {
        Within(current + 1, |pages|);
        var _ := SlideInIdx(current + 1, Automatic);
      }
    }

    /** `slideInPrev` */
    method SlideInPrev()
      requires Valid()
      modifies this
      ensures Valid() && pages == old(pages)
      ensures pages != [] ==> Target() == if old(current) > 0 then pages[old(current) - 1] else old(Target())
    {
      if current > 0 {
        Within(current - 1, |pages|);
        var _ := SlideInIdx(current - 1, Automatic);
      }
    }

    /** A frame of the animation: the two pages may be anywhere. */
    method Tick(nowAt: Point, nextAt: Point)
      requires Valid() && active
      modifies this`pos
      ensures Valid() && Target() == old(Target())
    {
      pos := pos[now := nowAt][next := nextAt];
    }
  }
}
