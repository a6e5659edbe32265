// A menu and the bounding rectangle of its controls. Each control is
// represented by the integer RECT it reports for itself.

module Menus {
  import opened WinApi
  import opened Strings

  /** Pixels added below every control's bottom edge. */
  const BottomMargin: int := 10

  /** `SKPoint`: stored, never computed with here. */
  datatype Point = Point(X: real, Y: real)

  /** The bottom edge a control contributes, with C#'s unchecked `+ 10`. */
  function PaddedBottom(c: Rect): int32 {
    Unchecked(c.Bottom as int + BottomMargin)
  }

  /** One pass of the loop in `CalculateAllControlsRect`. */
  function Include(acc: Rect, c: Rect): Rect {
    Rect(Min(acc.Left, c.Left), Min(acc.Top, c.Top), Max(acc.Right, c.Right), Max(acc.Bottom, PaddedBottom(c)))
  }

  /** The rectangle `CalculateAllControlsRect` returns: the loop folded over the controls in order. */
  function ControlsBounds(cs: seq<Rect>): Rect
    decreases |cs|
  {
    if cs == [] then ZeroRect else Include(ControlsBounds(cs[..|cs| - 1]), cs[|cs| - 1])
  }

  /** The result contains the origin and every control's rectangle. */
  predicate Covers(r: Rect, cs: seq<Rect>) {
    && r.Left <= 0 && r.Top <= 0 && r.Right >= 0 && r.Bottom >= 0
    && forall c :: c in cs ==>
         r.Left <= c.Left && r.Top <= c.Top && r.Right >= c.Right && r.Bottom >= PaddedBottom(c)
  }

  /** Every edge of the result is 0 or the matching edge of some control. */
  predicate Tight(r: Rect, cs: seq<Rect>) {
    && (r.Left == 0 || exists c :: c in cs && r.Left == c.Left)
    && (r.Top == 0 || exists c :: c in cs && r.Top == c.Top)
    && (r.Right == 0 || exists c :: c in cs && r.Right == c.Right)
    && (r.Bottom == 0 || exists c :: c in cs && r.Bottom == PaddedBottom(c))
  }

  lemma EmptyBoundsAreZero()
    ensures ControlsBounds([]) == ZeroRect
  {
  }

  lemma {:induction false} BoundsCover(cs: seq<Rect>)
    ensures Covers(ControlsBounds(cs), cs)
    decreases |cs|
  {
    if cs != [] {
      var init := cs[..|cs| - 1];
      BoundsCover(init);
      assert cs == init + [cs[|cs| - 1]];
    }
  }

  lemma {:induction false} BoundsTight(cs: seq<Rect>)
    ensures Tight(ControlsBounds(cs), cs)
    decreases |cs|
  {
    if cs != [] {
      var init := cs[..|cs| - 1];
      BoundsTight(init);
      assert cs == init + [cs[|cs| - 1]];
      assert forall c :: c in init ==> c in cs;
    }
  }

  /** With no overflow in the `+ 10`, the bottom edge clears every control by 10 pixels. */
  lemma BoundsClearBottom(cs: seq<Rect>, c: Rect)
    requires c in cs && c.Bottom as int + BottomMargin <= MaxInt32
    ensures ControlsBounds(cs).Bottom as int >= c.Bottom as int + BottomMargin
  {
    BoundsCover(cs);
  }

  /** The result depends only on which rectangles occur, so any permutation of
      the controls (or repeating one) gives the same rectangle. */
  lemma SameControlsSameBounds(cs: seq<Rect>, ds: seq<Rect>)
    requires forall c :: c in cs <==> c in ds
    ensures ControlsBounds(cs) == ControlsBounds(ds)
  {
    BoundsCover(cs);
    BoundsCover(ds);
    BoundsTight(cs);
    BoundsTight(ds);
  }

  lemma PermutedControlsSameBounds(cs: seq<Rect>, ds: seq<Rect>)
    requires multiset(cs) == multiset(ds)
    ensures ControlsBounds(cs) == ControlsBounds(ds)
  {
    forall c ensures c in cs <==> c in ds {
      assert c in cs <==> c in multiset(cs);
      assert c in ds <==> c in multiset(ds);
    }
    SameControlsSameBounds(cs, ds);
  }

  /** Adding a control can only grow the rectangle. */
  lemma AppendGrowsBounds(cs: seq<Rect>, c: Rect)
    ensures var before, after := ControlsBounds(cs), ControlsBounds(cs + [c]);
      && after.Left <= before.Left && after.Top <= before.Top
      && after.Right >= before.Right && after.Bottom >= before.Bottom
  {
    assert (cs + [c])[..|cs + [c]| - 1] == cs;
  }

  /** `Menu`. Its controls are the rectangles they report. */
  class Menu {
    var Name: NetString
    var MenuRect: Rect
    var menuControls: seq<Rect>
    var position: Point

    constructor (name: NetString, controls: seq<Rect>, position: Point)
      ensures Name == name && menuControls == controls && this.position == position
      ensures MenuRect == ZeroRect
    {
      Name := name;
      MenuRect := ZeroRect;
      menuControls := controls;
      this.position := position;
    }

    method CalculateAllControlsRect() returns (rect: Rect)
      ensures rect == ControlsBounds(menuControls)
    {
      rect := ZeroRect;
      var i := 0;
      while i < |menuControls|
        invariant 0 <= i <= |menuControls|
        invariant rect == ControlsBounds(menuControls[..i])
      {
        var controlRect := menuControls[i];
        assert menuControls[..i + 1][..i] == menuControls[..i];
        rect := rect.(Left := Min(rect.Left, controlRect.Left));
        rect := rect.(Top := Min(rect.Top, controlRect.Top));
        rect := rect.(Right := Max(rect.Right, controlRect.Right));
        rect := rect.(Bottom := Max(rect.Bottom, Unchecked(controlRect.Bottom as int + BottomMargin)));
        i := i + 1;
      }
      assert menuControls[..i] == menuControls;
    }
  }
}
