// The overlay's menu registry and its window-size arithmetic.

module Overlays {
  import opened WinApi
  import opened Strings
  import opened Menus

  /** `Vector2D<int>`. */
  datatype Size = Size(X: int32, Y: int32)

  /** `CalculateWindowSize`: width and height of a window rectangle, with C#'s unchecked subtraction. */
  function CalculateWindowSize(rect: Rect): (size: Size)
    ensures InInt32Range(rect.Right as int - rect.Left as int) ==> size.X as int == rect.Right as int - rect.Left as int
    ensures InInt32Range(rect.Bottom as int - rect.Top as int) ==> size.Y as int == rect.Bottom as int - rect.Top as int
    ensures (rect.Right as int - rect.Left as int - size.X as int) % Modulus32 == 0
    ensures (rect.Bottom as int - rect.Top as int - size.Y as int) % Modulus32 == 0
  {
    Size(Unchecked(rect.Right as int - rect.Left as int), Unchecked(rect.Bottom as int - rect.Top as int))
  }

  /** Moving a window without overflow does not change its size. */
  lemma WindowSizeIgnoresPosition(rect: Rect, dx: int32, dy: int32)
    requires InInt32Range(rect.Left as int + dx as int) && InInt32Range(rect.Right as int + dx as int)
    requires InInt32Range(rect.Top as int + dy as int) && InInt32Range(rect.Bottom as int + dy as int)
    ensures var moved := Rect(rect.Left + dx, rect.Top + dy, rect.Right + dx, rect.Bottom + dy);
      CalculateWindowSize(moved) == CalculateWindowSize(rect)
  {
  }

  /** Scenario: the tracked window spans (50,50)-(850,650), so the overlay is
      given the size 800x600. */
  lemma WindowSizeExample()
    ensures CalculateWindowSize(Rect(50, 50, 850, 650)) == Size(800, 600)
  {
  }

  // ---------------------------------------------------------------------------
  // List<T>.Remove: the first occurrence, compared by reference

  /** Index of the first occurrence of `x`. */
  function FirstIndex<T(==)>(s: seq<T>, x: T): (i: nat)
    requires x in s
    ensures i < |s| && s[i] == x && x !in s[..i]
  {
    if s[0] == x then 0 else 1 + FirstIndex(s[1..], x)
  }

  function RemoveFirst<T(==)>(s: seq<T>, x: T): (r: seq<T>)
    ensures x !in s ==> r == s
    ensures x in s ==> r == s[..FirstIndex(s, x)] + s[FirstIndex(s, x) + 1..]
  {
    if s == [] then []
    else if s[0] == x then s[1..]
    else
      var rest := RemoveFirst(s[1..], x);
      assert x in s ==> x in s[1..] && [s[0]] + rest == s[..FirstIndex(s, x)] + s[FirstIndex(s, x) + 1..] by {
        if x in s {
          assert s == [s[0]] + s[1..];
          var i := FirstIndex(s[1..], x);
          assert FirstIndex(s, x) == i + 1;
          assert [s[0]] + s[1..][..i] == s[..i + 1];
          assert s[1..][i + 1..] == s[i + 2..];
        }
      }
      [s[0]] + rest
  }

  /** Removing what was just appended, and was not there before, restores the list. */
  lemma AppendThenRemoveFirst<T>(s: seq<T>, x: T)
    requires x !in s
    ensures RemoveFirst(s + [x], x) == s
  {
    assert x in s + [x];
    assert FirstIndex(s + [x], x) == |s|;
    assert (s + [x])[..|s|] == s;
  }

  // ---------------------------------------------------------------------------
  // List<T>.RemoveAll(m => m.Name == name)

  /** The menus not named `name`, in their original order. */
  function WithoutName(ms: seq<Menu>, name: NetString): seq<Menu>
    reads set m | m in ms
  {
    if ms == [] then []
    else if ms[0].Name == name then WithoutName(ms[1..], name)
    else [ms[0]] + WithoutName(ms[1..], name)
  }

  /** `a` is `b` with some elements dropped, the rest in their order. */
  predicate IsSubsequence<T(==)>(a: seq<T>, b: seq<T>)
    decreases |b|
  {
    if a == [] then true
    else if b == [] then false
    else (a[0] == b[0] && IsSubsequence(a[1..], b[1..])) || IsSubsequence(a, b[1..])
  }

  /** After `RemoveMenuByName(name)`: no menu of that name remains, every other
      menu remains as often as before, and their order is kept. */
  lemma {:induction false} WithoutNameSpec(ms: seq<Menu>, name: NetString)
    ensures forall m :: m in WithoutName(ms, name) ==> m.Name != name
    ensures forall m: Menu :: m.Name != name ==> multiset(WithoutName(ms, name))[m] == multiset(ms)[m]
    ensures forall m: Menu :: m.Name == name ==> multiset(WithoutName(ms, name))[m] == 0
    ensures IsSubsequence(WithoutName(ms, name), ms)
    decreases |ms|
  {
    if ms != [] {
      WithoutNameSpec(ms[1..], name);
      assert ms == [ms[0]] + ms[1..];
      var rest := WithoutName(ms[1..], name);
      if ms[0].Name != name {
        assert WithoutName(ms, name) == [ms[0]] + rest;
        assert ([ms[0]] + rest)[1..] == rest;
      } else {
        SubsequenceOfTail(rest, ms);
      }
    }
  }

  lemma SubsequenceOfTail<T>(a: seq<T>, b: seq<T>)
    requires b != [] && IsSubsequence(a, b[1..])
    ensures IsSubsequence(a, b)
  {
  }

  lemma {:induction false} WithoutNameIdempotent(ms: seq<Menu>, name: NetString)
    ensures WithoutName(WithoutName(ms, name), name) == WithoutName(ms, name)
    decreases |ms|
  {
    if ms != [] {
      WithoutNameIdempotent(ms[1..], name);
      var rest := WithoutName(ms[1..], name);
      if ms[0].Name != name {
        assert ([ms[0]] + rest)[1..] == rest;
      }
    }
  }

  /** `Overlay`'s menu list. Window, process and render-surface fields are not
      part of the model. */
  class Overlay {
    var menus: seq<Menu>

    constructor ()
      ensures menus == []
    {
      menus := [];
    }

    method AddMenu(menu: Menu)
      modifies this
      ensures menus == old(menus) + [menu]
    {
      menus := menus + [menu];
    }

    method RemoveMenu(menu: Menu)
      modifies this
      ensures menus == RemoveFirst(old(menus), menu)
    {
      menus := RemoveFirst(menus, menu);
    }

    method RemoveMenuByName(name: NetString)
      modifies this
      ensures menus == WithoutName(old(menus), name)
    {
      menus := WithoutName(menus, name);
    }
  }

  /** What a caller of the overlay sees from `AddMenu` followed by `RemoveMenu`. */
  method AddThenRemove(o: Overlay, m: Menu)
    requires m !in o.menus
    modifies o
    ensures o.menus == old(o.menus)
  {
    ghost var before := o.menus;
    o.AddMenu(m);
    o.RemoveMenu(m);
    AppendThenRemoveFirst(before, m);
  }
}
