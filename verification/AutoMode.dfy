/** The automatic mode selection (meson_settings.c:449-476). */
module AutoMode {
  type U16 = n: nat | n < 0x1_0000
  type U32 = n: nat | n < 0x1_0000_0000

  /** The fields of DisplayModeInfo that the selection reads. */
  datatype DisplayMode = DisplayMode(w: U16, h: U16, vrefresh: U32)

  /** A product of two 16-bit numbers stored in an `int`: from 2^31 on it comes out negative. */
  function Area(m: DisplayMode): (area: int)
    ensures m.w * m.h < 0x8000_0000 ==> area == m.w * m.h
    ensures area == 0 <==> m.w == 0 || m.h == 0
  {
    var p := m.w * m.h;
    if m.w == 0 || m.h == 0 then 0 else if p < 0x8000_0000 then p else WrappedArea(m.w, m.h)
  }

  function WrappedArea(w: U16, h: U16): (area: int)
    requires w * h >= 0x8000_0000
    ensures area < 0
  {
    ProductBound(w, h);
    w * h - 0x1_0000_0000
  }

  lemma ProductBound(w: int, h: int)
    requires 0 <= w < 0x1_0000 && 0 <= h < 0x1_0000
    ensures w * h < 0x1_0000_0000
  {
    ProductGrows(w, h, 0xFFFF);
  }

  lemma ProductGrows(w: int, h: int, top: int)
    requires 0 <= w && h <= top
    ensures w * h <= w * top
  {
    if w > 0 {
      ProductGrows(w - 1, h, top);
      assert w * h == (w - 1) * h + h && w * top == (w - 1) * top + top;
    }
  }

  /** The cap; 0 is no cap. */
  predicate Within(m: DisplayMode, maxArea: int) {
    maxArea == 0 || Area(m) <= maxArea
  }

  /**
   * What can be selected at all: a mode with a positive area within the cap, or one without any
   * area whose refresh rate is positive, which the cap is never held against.
   */
  predicate Candidate(m: DisplayMode, maxArea: int) {
    (Area(m) > 0 && Within(m, maxArea)) || (Area(m) == 0 && m.vrefresh > 0)
  }

  /** The lexicographic order of area and refresh rate. */
  predicate Above(a: DisplayMode, b: DisplayMode) {
    Area(a) > Area(b) || (Area(a) == Area(b) && a.vrefresh > b.vrefresh)
  }

  /** `best` is the first greatest candidate of the first n modes, or -1 if there is none. */
  ghost predicate Selected(modes: seq<DisplayMode>, n: nat, maxArea: int, best: int)
    requires n <= |modes|
  {
    if best == -1 then forall i :: 0 <= i < n ==> !Candidate(modes[i], maxArea)
    else
      && 0 <= best < n && Candidate(modes[best], maxArea)
      && (forall i :: 0 <= i < n && Candidate(modes[i], maxArea) ==> !Above(modes[i], modes[best]))
      && (forall i :: 0 <= i < best && Candidate(modes[i], maxArea) ==> Above(modes[best], modes[i]))
  }

  /** The area and the refresh rate to beat. */
  predicate Tracks(modes: seq<DisplayMode>, best: int, largestArea: int, refresh: int) {
    if best == -1 then largestArea == 0 && refresh == 0
    else 0 <= best < |modes| && largestArea == Area(modes[best]) && refresh == modes[best].vrefresh
  }

  lemma Extend(modes: seq<DisplayMode>, n: nat, maxArea: int, best: int, next: int)
    requires n < |modes| && Selected(modes, n, maxArea, best)
    requires next == if Candidate(modes[n], maxArea) && (best == -1 || Above(modes[n], modes[best])) then n else best
    ensures Selected(modes, n + 1, maxArea, next)
  {
  }

  /** The two tests of the loop body ask for a candidate above the best one so far. */
  lemma TestsAgree(m: DisplayMode, modes: seq<DisplayMode>, maxArea: int, best: int, largestArea: int, refresh: int)
    requires Tracks(modes, best, largestArea, refresh) && (best != -1 ==> Candidate(modes[best], maxArea))
    ensures (Area(m) > largestArea && Within(m, maxArea)) || (Area(m) == largestArea && m.vrefresh > refresh)
       <==> Candidate(m, maxArea) && (best == -1 || Above(m, modes[best]))
  {
  }

  /** The selection loop of setDisplayAutoMode; `maxArea` is the product read from the environment, or 0. */
  method SelectMode(modes: seq<DisplayMode>, maxArea: int) returns (best: int)
    ensures Selected(modes, |modes|, maxArea, best)
  {
    best := -1;
    var largestArea, refresh := 0, 0;
    for i := 0 to |modes|
      invariant Selected(modes, i, maxArea, best)
      invariant Tracks(modes, best, largestArea, refresh)
    {
      var area := Area(modes[i]);
      ghost var before := best;
      TestsAgree(modes[i], modes, maxArea, best, largestArea, refresh);
      if area > largestArea && (maxArea == 0 || area <= maxArea) {
        largestArea := area;
        best := i;
        refresh := modes[i].vrefresh;
      } else if area == largestArea {
        if modes[i].vrefresh > refresh {
          best := i;
          refresh := modes[i].vrefresh;
        }
      }
      Extend(modes, i, maxArea, before, best);
    }
  }

  /** There is only one answer. */
  lemma SelectedOnce(modes: seq<DisplayMode>, maxArea: int, a: int, b: int)
    requires Selected(modes, |modes|, maxArea, a) && Selected(modes, |modes|, maxArea, b)
    ensures a == b
  {
    if a != -1 {
      assert Candidate(modes[a], maxArea);
    }
  }

  /**
   * With a mode of positive area within the cap on the list, the answer is such a mode: the first
   * one that no other such mode is above.
   */
  lemma SelectsEligible(modes: seq<DisplayMode>, maxArea: int, best: int, k: nat)
    requires Selected(modes, |modes|, maxArea, best)
    requires k < |modes| && Area(modes[k]) > 0 && Within(modes[k], maxArea)
    ensures 0 <= best < |modes| && Area(modes[best]) > 0 && Within(modes[best], maxArea)
    ensures !Above(modes[k], modes[best])
    ensures k < best ==> Above(modes[best], modes[k])
  {
    assert Candidate(modes[k], maxArea);
  }

  /**
   * With areas that fit an int: if mode k has an area and keeps to the cap, the selected mode does
   * too, its area is no smaller, and at the same area its refresh rate is no lower.
   */
  lemma SelectsLargest(modes: seq<DisplayMode>, maxArea: int, best: int, k: nat)
    requires Selected(modes, |modes|, maxArea, best) && k < |modes|
    requires forall m :: m in modes ==> m.w * m.h < 0x8000_0000
    requires 0 < modes[k].w * modes[k].h && (maxArea == 0 || modes[k].w * modes[k].h <= maxArea)
    ensures 0 <= best < |modes|
    ensures maxArea == 0 || modes[best].w * modes[best].h <= maxArea
    ensures modes[k].w * modes[k].h <= modes[best].w * modes[best].h
    ensures modes[k].w * modes[k].h == modes[best].w * modes[best].h ==>
              modes[k].vrefresh < modes[best].vrefresh || (modes[k].vrefresh == modes[best].vrefresh && best <= k)
  {
    assert modes[k] in modes;
    SelectsEligible(modes, maxArea, best, k);
    assert modes[best] in modes;
  }

  /** modes[-1] is read exactly when no mode is a candidate. */
  lemma NothingSelected(modes: seq<DisplayMode>, maxArea: int, best: int)
    requires Selected(modes, |modes|, maxArea, best)
    ensures best == -1 <==> forall m :: m in modes ==> !Candidate(m, maxArea)
  {
    if best != -1 {
      assert modes[best] in modes;
    }
  }

  /**
   * The same in plain numbers, with areas that fit an int: every mode with an area is above the cap,
   * and every mode without one has no refresh rate.
   */
  lemma NothingToSelect(modes: seq<DisplayMode>, maxArea: int, best: int)
    requires Selected(modes, |modes|, maxArea, best)
    requires forall m :: m in modes ==> m.w * m.h < 0x8000_0000
    ensures best == -1 <==>
      forall m :: m in modes ==> if m.w * m.h == 0 then m.vrefresh == 0 else maxArea != 0 && maxArea < m.w * m.h
  {
    NothingSelected(modes, maxArea, best);
    forall m | m in modes
      ensures Candidate(m, maxArea) <==>
        if m.w * m.h == 0 then m.vrefresh > 0 else maxArea == 0 || m.w * m.h <= maxArea
    {
    }
  }
}
