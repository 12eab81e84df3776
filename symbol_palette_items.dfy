// Keyboard navigation through the grid of symbols in the palette: left
// and right wrap around the list, up and down move to the nearest symbol
// in the same column, Home and End jump to the ends.
module SymbolPaletteItems {
  import opened Wrappers
  import Categories

  /** Where a symbol's button is drawn: its left edge, top and width. */
  datatype Rect = Rect(x: real, y: real, width: real)

  function Abs(r: real): (a: real)
    ensures a >= 0.0 && (a == r || a == -r)
  {
    if r < 0.0 then -r else r
  }

  /** Item `i` lies in the column of the focused item, above it for `up`
      and below it otherwise. */
  predicate IsCandidate(rects: seq<Option<Rect>>, focused: int, current: Rect, up: bool, i: int)
    requires 0 <= i < |rects|
  {
    i != focused && rects[i].Some?
    && Abs(rects[i].value.x - current.x) < current.width * 0.8
    && (if up then rects[i].value.y < current.y else rects[i].value.y > current.y)
  }

  /** The vertical distance of item `i` from the focused item. */
  function Distance(rects: seq<Option<Rect>>, current: Rect, i: int): real
    requires 0 <= i < |rects| && rects[i].Some?
  {
    Abs(rects[i].value.y - current.y)
  }

  /** Item `k` is a candidate no farther than any other, and strictly
      nearer than every candidate before it. */
  predicate IsClosest(rects: seq<Option<Rect>>, focused: int, current: Rect, up: bool, k: int)
  {
    && 0 <= k < |rects| && IsCandidate(rects, focused, current, up, k)
    && (forall j :: 0 <= j < |rects| && IsCandidate(rects, focused, current, up, j) ==>
          Distance(rects, current, k) <= Distance(rects, current, j))
    && (forall j :: 0 <= j < k && IsCandidate(rects, focused, current, up, j) ==>
          Distance(rects, current, k) < Distance(rects, current, j))
  }

  /** There is at most one closest item, so the move is determined. */
  lemma ClosestUnique(rects: seq<Option<Rect>>, focused: int, current: Rect, up: bool, a: int, b: int)
    requires IsClosest(rects, focused, current, up, a) && IsClosest(rects, focused, current, up, b)
    ensures a == b
  {
  }

  /** The target of ArrowUp or ArrowDown: the nearest candidate, the
      first of equally near ones; `None` when there is no candidate. */
  method ClosestVertical(rects: seq<Option<Rect>>, focused: int, current: Rect, up: bool)
    returns (r: Option<nat>)
    ensures r.None? <==> forall j :: 0 <= j < |rects| ==> !IsCandidate(rects, focused, current, up, j)
    ensures r.Some? ==> IsClosest(rects, focused, current, up, r.value)
  {
    r := None;
    var i := 0;
    while i < |rects|
      invariant 0 <= i <= |rects|
      invariant r.None? <==> forall j :: 0 <= j < i ==> !IsCandidate(rects, focused, current, up, j)
      invariant r.Some? ==>
                  && r.value < i && IsCandidate(rects, focused, current, up, r.value)
                  && (forall j :: 0 <= j < i && IsCandidate(rects, focused, current, up, j) ==>
                        Distance(rects, current, r.value) <= Distance(rects, current, j))
                  && (forall j :: 0 <= j < r.value && IsCandidate(rects, focused, current, up, j) ==>
                        Distance(rects, current, r.value) < Distance(rects, current, j))
    {
      if IsCandidate(rects, focused, current, up, i)
         && (r.None? || Distance(rects, current, i) < Distance(rects, current, r.value)) {
        r := Some(i);
      }
      i := i + 1;
    }
  }

  /** ArrowLeft: the previous item, wrapping to the last. */
  function PrevItem(i: nat, count: nat): (r: nat)
    requires i < count
    ensures r < count
    ensures r == if i > 0 then i - 1 else count - 1
  {
    if i > 0 then i - 1 else count - 1
  }

  /** ArrowRight: the next item, wrapping to the first. */
  function NextItem(i: nat, count: nat): (r: nat)
    requires i < count
    ensures r < count
    ensures r == if i < count - 1 then i + 1 else 0
  {
    if i < count - 1 then i + 1 else 0
  }

  /** Left undoes right and right undoes left. */
  lemma LeftRightInverse(i: nat, count: nat)
    requires i < count
    ensures PrevItem(NextItem(i, count), count) == i
    ensures NextItem(PrevItem(i, count), count) == i
  {
  }

  class PaletteItems {
    var items: seq<Categories.SymbolItem>
    var focusedIndex: nat
    /** Symbols handed to the editor, oldest first. */
    var selections: seq<Categories.SymbolItem>
    var paletteOpen: bool
    /** How often focus was sent to the search box and to the editor. */
    var inputFocusRequests: nat
    var editorFocusRequests: nat

    ghost predicate Valid()
      reads this
    {
      |items| > 0 ==> focusedIndex < |items|
    }

    constructor (initial: seq<Categories.SymbolItem>)
      ensures Valid() && items == initial && focusedIndex == 0 && selections == [] && paletteOpen
      ensures inputFocusRequests == 0 && editorFocusRequests == 0
    {
      items := initial;
      focusedIndex := 0;
      selections := [];
      paletteOpen := true;
      inputFocusRequests := 0;
      editorFocusRequests := 0;
    }

    /** A new list of items: the first one is focused again. */
    method SetItems(next: seq<Categories.SymbolItem>)
      modifies this`items, this`focusedIndex
      ensures Valid() && items == next && focusedIndex == 0
    {
      items := next;
      focusedIndex := 0;
    }

    /** A click on item `index`: it is chosen and focused. */
    method Click(index: nat)
      requires Valid() && index < |items|
      modifies this`selections, this`focusedIndex
      ensures Valid() && selections == old(selections) + [items[index]] && focusedIndex == index
    {
      selections := selections + [items[index]];
      focusedIndex := index;
    }

    /** `handleKeyDown`. `modifier` is whether Meta, Alt, Ctrl or Shift
        is held; `rects` are the items' positions on screen. Returns
        whether the key's default action was cancelled. */
    method HandleKeyDown(key: string, modifier: bool, rects: seq<Option<Rect>>) returns (prevented: bool)
      requires Valid() && |rects| == |items|
      modifies this
      ensures Valid() && items == old(items)
      ensures var i := old(focusedIndex);
              var n := |items|;
              var ignored := n == 0 || modifier || rects[i].None?;
              && (ignored ==> !prevented && focusedIndex == i && selections == old(selections)
                              && paletteOpen == old(paletteOpen) && inputFocusRequests == old(inputFocusRequests)
                              && editorFocusRequests == old(editorFocusRequests))
              && (!ignored ==>
                    && (key == "ArrowLeft" ==> prevented && focusedIndex == PrevItem(i, n))
                    && (key == "ArrowRight" ==> prevented && focusedIndex == NextItem(i, n))
                    && (key == "Home" ==> prevented && focusedIndex == 0)
                    && (key == "End" ==> prevented && focusedIndex == n - 1)
                    && (key == "ArrowUp" || key == "ArrowDown" ==>
                          var up := key == "ArrowUp";
                          && prevented
                          && ((forall j :: 0 <= j < n ==> !IsCandidate(rects, i, rects[i].value, up, j)) ==>
                                focusedIndex == i)
                          && ((exists j :: 0 <= j < n && IsCandidate(rects, i, rects[i].value, up, j)) ==>
                                IsClosest(rects, i, rects[i].value, up, focusedIndex)))
                    && (key == "Enter" || key == " " ==>
                          prevented && focusedIndex == i && selections == old(selections) + [items[i]]
                          && paletteOpen == !old(paletteOpen))
                    && (key == "Escape" ==>
                          prevented && focusedIndex == i && paletteOpen == !old(paletteOpen)
                          && editorFocusRequests == old(editorFocusRequests) + 1)
                    && (key !in {"ArrowLeft", "ArrowRight", "ArrowUp", "ArrowDown", "Home", "End", "Enter", " ", "Escape"} ==>
                          !prevented && focusedIndex == i && inputFocusRequests == old(inputFocusRequests) + 1
                          && selections == old(selections) && paletteOpen == old(paletteOpen))
                    && (key != "Enter" && key != " " ==> selections == old(selections))
                    && (key != "Enter" && key != " " && key != "Escape" ==> paletteOpen == old(paletteOpen))
                    && (key in {"ArrowLeft", "ArrowRight", "ArrowUp", "ArrowDown", "Home", "End", "Enter", " ", "Escape"} ==>
                          inputFocusRequests == old(inputFocusRequests))
                    && (key != "Escape" ==> editorFocusRequests == old(editorFocusRequests)))
    {
      prevented := false;
      if |items| == 0 || modifier {
        return;
      }
      var current := rects[focusedIndex];
      if current.None? {
        return;
      }
      var n := |items|;
      var newIndex := focusedIndex;
      if key == "ArrowLeft" {
        newIndex := PrevItem(focusedIndex, n);
      } else if key == "ArrowRight" {
        newIndex := NextItem(focusedIndex, n);
      } else if key == "ArrowUp" || key == "ArrowDown" {
        var closest := ClosestVertical(rects, focusedIndex, current.value, key == "ArrowUp");
        if closest.Some? {
          newIndex := closest.value;
        }
      } else if key == "Home" {
        newIndex := 0;
      } else if key == "End" {
        newIndex := n - 1;
      } else if key == "Enter" || key == " " {
        selections := selections + [items[focusedIndex]];
        paletteOpen := !paletteOpen;
      } else if key == "Escape" {
        paletteOpen := !paletteOpen;
        editorFocusRequests := editorFocusRequests + 1;
      } else {
        inputFocusRequests := inputFocusRequests + 1;
        return;
      }
      prevented := true;
      focusedIndex := newIndex;
    }
  }
}
