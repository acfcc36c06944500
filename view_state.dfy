/**
 * The gallery's view mode and the image viewer's position. The view mode
 * cycles through four layouts and is remembered in storage; the viewer
 * steps through one profile's gallery, wrapping at both ends.
 */
module ViewState {
  import opened Wrappers

  /** The layouts, in the order the header toggle cycles through them. */
  const Modes: seq<string> := ["grid", "masonry", "list", "slideshow"]

  /** `viewModes.indexOf(mode)`: the position of the mode, or -1. */
  function ModeIndex(mode: string): (k: int)
    ensures -1 <= k < |Modes|
    ensures k >= 0 ==> Modes[k] == mode
    ensures k < 0 <==> mode !in Modes
  {
    if mode == "grid" then 0
    else if mode == "masonry" then 1
    else if mode == "list" then 2
    else if mode == "slideshow" then 3
    else -1
  }

  /** `toggleViewMode`: the mode after the current one; `indexOf` gives -1 for an unknown mode, so it wraps to the first. */
  function NextMode(mode: string): string {
    Modes[(ModeIndex(mode) + 1) % |Modes|]
  }

  /** The toggle always lands on a known mode, the next one in the cycle, and an unknown mode goes to `grid`. */
  lemma NextModeCycles(mode: string)
    ensures NextMode(mode) in Modes
    ensures mode !in Modes ==> NextMode(mode) == "grid"
    ensures mode in Modes ==> NextMode(mode) == Modes[(ModeIndex(mode) + 1) % |Modes|]
  {
  }

  /** The cycle written out: grid, masonry, list, slideshow, and back to grid. */
  lemma ModeCycle()
    ensures NextMode("grid") == "masonry" && NextMode("masonry") == "list"
    ensures NextMode("list") == "slideshow" && NextMode("slideshow") == "grid"
  {
  }

  /** Four toggles return to a known starting mode, and fewer do not. */
  lemma FourTogglesReturn(mode: string)
    requires mode in Modes
    ensures NextMode(NextMode(NextMode(NextMode(mode)))) == mode
    ensures NextMode(mode) != mode && NextMode(NextMode(mode)) != mode && NextMode(NextMode(NextMode(mode))) != mode
  {
    ModeCycle();
    assert mode == "grid" || mode == "masonry" || mode == "list" || mode == "slideshow";
  }

  /** `loadViewMode`: the saved mode replaces the current one only when it is a non-empty, known mode. */
  function LoadedMode(current: string, saved: Option<string>): (mode: string)
    ensures saved.Some? && saved.value != "" && saved.value in Modes ==> mode == saved.value
    ensures !(saved.Some? && saved.value != "" && saved.value in Modes) ==> mode == current
  {
    if saved.Some? && saved.value != "" && ModeIndex(saved.value) >= 0 then saved.value else current
  }

  /** From a known mode, loading can only give a known mode. */
  lemma LoadedModeValid(current: string, saved: Option<string>)
    requires current in Modes
    ensures LoadedMode(current, saved) in Modes
  {
  }

  /** JavaScript's `%`, which truncates toward zero: the remainder takes the sign of the dividend. */
  function JsRem(a: int, b: int): (r: int)
    requires b > 0
    ensures a >= 0 ==> 0 <= r < b
    ensures a < 0 ==> -b < r <= 0
  {
    if a >= 0 then a % b else -((-a) % b)
  }

  /** `showNextImage`: nothing to show leaves the index alone. */
  function NextIndex(i: int, n: int): int {
    if n <= 0 then i else JsRem(i + 1, n)
  }

  /** `showPreviousImage`. */
  function PrevIndex(i: int, n: int): int {
    if n <= 0 then i else JsRem(i - 1 + n, n)
  }

  /** On a non-empty gallery both steps stay in range and undo each other. */
  lemma StepsInverse(i: int, n: int)
    requires 0 <= i < n
    ensures 0 <= NextIndex(i, n) < n && 0 <= PrevIndex(i, n) < n
    ensures PrevIndex(NextIndex(i, n), n) == i
    ensures NextIndex(PrevIndex(i, n), n) == i
    ensures NextIndex(i, n) == (if i == n - 1 then 0 else i + 1)
    ensures PrevIndex(i, n) == (if i == 0 then n - 1 else i - 1)
  {
    WrapOnce(i + 1, n);
    WrapOnce(i - 1 + n, n);
    var next := NextIndex(i, n);
    var prev := PrevIndex(i, n);
    WrapOnce(next - 1 + n, n);
    WrapOnce(prev + 1, n);
  }

  /** A dividend below twice the divisor loses at most one divisor. */
  lemma WrapOnce(x: int, n: int)
    requires 0 <= x < 2 * n
    ensures x % n == (if x < n then x else x - n)
  {
    var r := if x < n then x else x - n;
    assert x == (x / n) * n + x % n;
    assert 0 <= x % n < n;
    assert x / n == (if x < n then 0 else 1);
  }

  /** On an empty gallery both steps are no-ops. */
  lemma StepsOnEmpty(i: int)
    ensures NextIndex(i, 0) == i && PrevIndex(i, 0) == i
  {
  }

  /** The view mode, its stored copy, and the viewer's gallery and position. */
  class View {
    var mode: string
    var stored: Option<string>
    var images: seq<string>
    var index: int

    /** The start of the page: grid layout, nothing stored, an empty viewer. */
    constructor (saved: Option<string>)
      ensures mode == "grid" && stored == saved && images == [] && index == 0
    {
      mode := "grid";
      stored := saved;
      images := [];
      index := 0;
    }

    /** `loadViewMode`. */
    method LoadMode()
      modifies this
      ensures mode == LoadedMode(old(mode), old(stored))
      ensures stored == old(stored) && images == old(images) && index == old(index)
    {
      if stored.Some? && stored.value != "" && ModeIndex(stored.value) >= 0 {
        mode := stored.value;
      }
    }

    /** `setViewMode`: a mode button sets the mode and stores it. */
    method SetMode(m: string)
      modifies this
      ensures mode == m && stored == Some(m)
      ensures images == old(images) && index == old(index)
    {
      mode := m;
      stored := Some(mode);
    }

    /** `toggleViewMode`: the next mode, stored. */
    method Toggle()
      modifies this
      ensures mode == NextMode(old(mode)) && stored == Some(mode)
      ensures images == old(images) && index == old(index)
    {
      var k := ModeIndex(mode);
      mode := Modes[(k + 1) % |Modes|];
      stored := Some(mode);
    }

    /** `openImageViewer`: the viewer takes the gallery and the position it was opened at. */
    method OpenViewer(gallery: seq<string>, at: int)
      modifies this
      ensures images == gallery && index == at
      ensures mode == old(mode) && stored == old(stored)
    {
      images := gallery;
      index := at;
    }

    /** `showNextImage`. */
    method Next()
      modifies this
      ensures index == NextIndex(old(index), |images|)
      ensures images == old(images) && mode == old(mode) && stored == old(stored)
    {
      if |images| == 0 {
        return;
      }
      index := JsRem(index + 1, |images|);
    }

    /** `showPreviousImage`. */
    method Previous()
      modifies this
      ensures index == PrevIndex(old(index), |images|)
      ensures images == old(images) && mode == old(mode) && stored == old(stored)
    {
      if |images| == 0 {
        return;
      }
      index := JsRem(index - 1 + |images|, |images|);
    }
  }
}
