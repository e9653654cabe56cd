/**
 * The region detector: bounding rectangles of traced contours are kept when both
 * sides lie in the 25..70 pixel window, then ordered top to bottom and left to
 * right by a stable sort on (y, x).
 */
module Regions {
  import opened Int32
  import opened Wrappers

  /** An OpenCV `Rect`: top-left corner and size, in ROI pixel coordinates. */
  datatype Rect = Rect(x: i32, y: i32, width: i32, height: i32)

  const MinSide: int := 25
  const MaxSide: int := 70

  /** Both sides of the rectangle lie in the inclusive window `MinSide..MaxSide`. */
  predicate InWindow(r: Rect) {
    MinSide <= r.height <= MaxSide && MinSide <= r.width <= MaxSide
  }

  /** The `mapNotNull` step: the in-window rectangles, in their input order. */
  function KeepInWindow(rects: seq<Rect>): (kept: seq<Rect>)
    ensures |kept| <= |rects|
    ensures multiset(kept) <= multiset(rects)
    ensures forall i :: 0 <= i < |kept| ==> InWindow(kept[i])
  {
    if rects == [] then []
    else
      assert rects == [rects[0]] + rects[1..];
      (if InWindow(rects[0]) then [rects[0]] else []) + KeepInWindow(rects[1..])
  }

  /** The filter keeps every in-window rectangle as often as it occurs and drops every other one. */
  lemma {:induction false} KeepInWindowExact(rects: seq<Rect>, r: Rect)
    ensures multiset(KeepInWindow(rects))[r] == if InWindow(r) then multiset(rects)[r] else 0
  {
    if rects != [] {
      KeepInWindowExact(rects[1..], r);
      assert rects == [rects[0]] + rects[1..];
    }
  }

  // ---- the (y, x) order of `compareBy({ it.y }, { it.x })` ----

  /** `a` comes no later than `b`: a smaller y, or the same y and an x no larger. */
  predicate KeyLe(a: Rect, b: Rect) {
    a.y < b.y || (a.y == b.y && a.x <= b.x)
  }

  predicate Sorted(s: seq<Rect>) {
    forall i, j :: 0 <= i < j < |s| ==> KeyLe(s[i], s[j])
  }

  /** The rectangles of `s` whose top-left corner is exactly (x, y), in their order in `s`. */
  function WithKey(s: seq<Rect>, y: int, x: int): (t: seq<Rect>)
    ensures |t| <= |s|
  {
    if s == [] then []
    else (if s[0].y == y && s[0].x == x then [s[0]] else []) + WithKey(s[1..], y, x)
  }

  /** Places `a` before the first element that does not come strictly earlier than it. */
  function Insert(a: Rect, t: seq<Rect>): (u: seq<Rect>)
    ensures |u| == |t| + 1
  {
    if t == [] then [a]
    else if KeyLe(a, t[0]) then [a] + t
    else [t[0]] + Insert(a, t[1..])
  }

  /**
   * `sortedWith(compareBy({ it.y }, { it.x }))`: a stable sort. Elements are inserted
   * right to left, each before the equal keys already placed, so ties keep input order.
   */
  function SortByPosition(s: seq<Rect>): (t: seq<Rect>)
    ensures |t| == |s|
    ensures multiset(t) == multiset(s)
  {
    if s == [] then []
    else
      InsertMultiset(s[0], SortByPosition(s[1..]));
      assert s == [s[0]] + s[1..];
      Insert(s[0], SortByPosition(s[1..]))
  }

  lemma {:induction false} InsertMultiset(a: Rect, t: seq<Rect>)
    ensures multiset(Insert(a, t)) == multiset(t) + multiset{a}
  {
    if t != [] && !KeyLe(a, t[0]) {
      InsertMultiset(a, t[1..]);
      assert t == [t[0]] + t[1..];
    }
  }

  lemma {:induction false} InsertSorted(a: Rect, t: seq<Rect>)
    requires Sorted(t)
    ensures Sorted(Insert(a, t))
  {
    if t != [] && !KeyLe(a, t[0]) {
      var u := Insert(a, t[1..]);
      InsertSorted(a, t[1..]);
      InsertMultiset(a, t[1..]);
      forall j | 0 <= j < |u| ensures KeyLe(t[0], u[j]) {
        assert u[j] in multiset(u);
        if u[j] != a {
          assert u[j] in multiset(t[1..]);
          var k :| 0 <= k < |t[1..]| && t[1..][k] == u[j];
          assert t[k + 1] == u[j];
        }
      }
      assert Insert(a, t) == [t[0]] + u;
    }
  }

  /** Inserting `a` puts it in front of every element with its own key. */
  lemma {:induction false} InsertWithKey(a: Rect, t: seq<Rect>, y: int, x: int)
    ensures WithKey(Insert(a, t), y, x) == (if a.y == y && a.x == x then [a] else []) + WithKey(t, y, x)
  {
    if t != [] && !KeyLe(a, t[0]) {
      InsertWithKey(a, t[1..], y, x);
      assert ([t[0]] + Insert(a, t[1..]))[1..] == Insert(a, t[1..]);
    } else if t != [] {
      assert ([a] + t)[1..] == t;
    }
  }

  /** The sort returns an ordered permutation of its input. */
  lemma {:induction false} SortByPositionSorted(s: seq<Rect>)
    ensures Sorted(SortByPosition(s))
    ensures multiset(SortByPosition(s)) == multiset(s)
  {
    if s != [] {
      SortByPositionSorted(s[1..]);
      InsertSorted(s[0], SortByPosition(s[1..]));
      InsertMultiset(s[0], SortByPosition(s[1..]));
      assert s == [s[0]] + s[1..];
    }
  }

  /** The sort is stable: rectangles with the same (y, x) keep their relative input order. */
  lemma {:induction false} SortByPositionStable(s: seq<Rect>, y: int, x: int)
    ensures WithKey(SortByPosition(s), y, x) == WithKey(s, y, x)
  {
    if s != [] {
      SortByPositionStable(s[1..], y, x);
      InsertWithKey(s[0], SortByPosition(s[1..]), y, x);
    }
  }

  lemma {:induction false} WithKeyMembers(s: seq<Rect>, y: int, x: int)
    ensures forall r :: r in WithKey(s, y, x) <==> r in s && r.y == y && r.x == x
  {
    if s != [] {
      WithKeyMembers(s[1..], y, x);
      assert s == [s[0]] + s[1..];
    }
  }

  /**
   * Being sorted and agreeing with `s` on every key's sub-sequence determines the order
   * completely, so any stable (y, x) sort of `s` returns `SortByPosition(s)`.
   */
  lemma {:induction false} StableSortUnique(s: seq<Rect>, t: seq<Rect>)
    requires Sorted(t)
    requires forall y, x :: WithKey(t, y, x) == WithKey(s, y, x)
    ensures t == SortByPosition(s)
  {
    var u := SortByPosition(s);
    SortByPositionSorted(s);
    forall y, x ensures WithKey(u, y, x) == WithKey(t, y, x) {
      SortByPositionStable(s, y, x);
    }
    SortedAgreeing(t, u);
  }

  lemma {:induction false} SortedAgreeing(t: seq<Rect>, u: seq<Rect>)
    requires Sorted(t) && Sorted(u)
    requires forall y, x :: WithKey(t, y, x) == WithKey(u, y, x)
    ensures t == u
  {
    if t == [] {
      if u != [] {
        WithKeyOfHead(u);
        assert false;
      }
    } else if u == [] {
      WithKeyOfHead(t);
      assert false;
    } else {
      var a, b := t[0], u[0];
      WithKeyMembers(t, b.y, b.x);
      WithKeyMembers(u, b.y, b.x);
      WithKeyMembers(t, a.y, a.x);
      WithKeyMembers(u, a.y, a.x);
      assert b in WithKey(u, b.y, b.x);
      assert KeyLe(a, b) by {
        var j :| 0 <= j < |t| && t[j] == b;
      }
      assert a in WithKey(t, a.y, a.x);
      assert KeyLe(b, a) by {
        var j :| 0 <= j < |u| && u[j] == a;
      }
      assert WithKey(t, a.y, a.x)[0] == a;
      assert WithKey(u, a.y, a.x)[0] == b;
      assert a == b;
      forall y, x ensures WithKey(t[1..], y, x) == WithKey(u[1..], y, x) {
        var h := if a.y == y && a.x == x then [a] else [];
        assert WithKey(t, y, x) == h + WithKey(t[1..], y, x);
        assert WithKey(u, y, x) == h + WithKey(u[1..], y, x);
        assert WithKey(t[1..], y, x) == (h + WithKey(t[1..], y, x))[|h|..];
        assert WithKey(u[1..], y, x) == (h + WithKey(u[1..], y, x))[|h|..];
      }
      SortedAgreeing(t[1..], u[1..]);
      assert t == [a] + t[1..] && u == [b] + u[1..];
    }
  }

  lemma WithKeyOfHead(s: seq<Rect>)
    requires s != []
    ensures WithKey(s, s[0].y, s[0].x) != []
  {
  }

  /** Filtering by the window and selecting one key commute. */
  lemma {:induction false} KeepInWindowWithKey(s: seq<Rect>, y: int, x: int)
    ensures WithKey(KeepInWindow(s), y, x) == KeepInWindow(WithKey(s, y, x))
  {
    if s != [] {
      KeepInWindowWithKey(s[1..], y, x);
      var h := if InWindow(s[0]) then [s[0]] else [];
      WithKeyAppend(h, KeepInWindow(s[1..]), y, x);
      var w := if s[0].y == y && s[0].x == x then [s[0]] else [];
      KeepInWindowAppend(w, WithKey(s[1..], y, x));
    }
  }

  lemma {:induction false} WithKeyAppend(a: seq<Rect>, b: seq<Rect>, y: int, x: int)
    ensures WithKey(a + b, y, x) == WithKey(a, y, x) + WithKey(b, y, x)
  {
    if a != [] {
      WithKeyAppend(a[1..], b, y, x);
      assert (a + b)[1..] == a[1..] + b;
    } else {
      assert a + b == b;
    }
  }

  lemma {:induction false} KeepInWindowAppend(a: seq<Rect>, b: seq<Rect>)
    ensures KeepInWindow(a + b) == KeepInWindow(a) + KeepInWindow(b)
  {
    if a != [] {
      KeepInWindowAppend(a[1..], b);
      assert (a + b)[1..] == a[1..] + b;
    } else {
      assert a + b == b;
    }
  }

  // ---- findAnswerBoxes ----

  /**
   * `findAnswerBoxes`: `contours` holds the bounding rectangle of each traced contour in
   * emission order. An empty list is an error; otherwise the in-window rectangles, sorted.
   */
  function FindAnswerBoxes(contours: seq<Rect>): (r: Result<seq<Rect>, FormError>)
    ensures r.Failure? <==> contours == []
    ensures r.Failure? ==> r.error == ContoursNotFound
    ensures r.Success? ==> |r.value| <= |contours|
    ensures r.Success? ==> forall i :: 0 <= i < |r.value| ==> InWindow(r.value[i])
  {
    if contours == [] then Failure(ContoursNotFound)
    else
      var kept := KeepInWindow(contours);
      SortedInWindow(kept);
      Success(SortByPosition(kept))
  }

  /** Sorting keeps the rectangles, so it keeps every one of them inside the window. */
  lemma SortedInWindow(kept: seq<Rect>)
    requires forall i :: 0 <= i < |kept| ==> InWindow(kept[i])
    ensures forall i :: 0 <= i < |kept| ==> InWindow(SortByPosition(kept)[i])
  {
    SortByPositionSorted(kept);
    forall i | 0 <= i < |kept| ensures InWindow(SortByPosition(kept)[i]) {
      assert SortByPosition(kept)[i] in multiset(kept);
    }
  }

  /**
   * Every in-window contour rectangle is returned as
   * often as it occurs, the boxes are in (y, x) order, and boxes with equal (y, x) appear in
   * the order their contours were emitted.
   */
  lemma FindAnswerBoxesContents(contours: seq<Rect>)
    requires contours != []
    ensures FindAnswerBoxes(contours).Success?
    ensures forall r :: multiset(FindAnswerBoxes(contours).value)[r] ==
                          if InWindow(r) then multiset(contours)[r] else 0
    ensures Sorted(FindAnswerBoxes(contours).value)
    ensures forall y, x :: WithKey(FindAnswerBoxes(contours).value, y, x) == KeepInWindow(WithKey(contours, y, x))
  {
    var kept := KeepInWindow(contours);
    SortByPositionSorted(kept);
    forall r ensures multiset(FindAnswerBoxes(contours).value)[r] ==
                       if InWindow(r) then multiset(contours)[r] else 0 {
      KeepInWindowExact(contours, r);
    }
    forall y, x ensures WithKey(FindAnswerBoxes(contours).value, y, x) == KeepInWindow(WithKey(contours, y, x)) {
      SortByPositionStable(kept, y, x);
      KeepInWindowWithKey(contours, y, x);
    }
  }

  /** A non-empty contour list whose rectangles all fall outside the window gives no boxes and no error. */
  lemma {:induction false} AllRejectedGivesNoBoxes(contours: seq<Rect>)
    requires contours != []
    requires forall i :: 0 <= i < |contours| ==> !InWindow(contours[i])
    ensures FindAnswerBoxes(contours) == Success([])
  {
    NoneInWindow(contours);
  }

  lemma {:induction false} NoneInWindow(rects: seq<Rect>)
    requires forall i :: 0 <= i < |rects| ==> !InWindow(rects[i])
    ensures KeepInWindow(rects) == []
  {
    if rects != [] {
      assert !InWindow(rects[0]);
      NoneInWindow(rects[1..]);
    }
  }
}
