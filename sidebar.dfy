/**
 * The resizable sidebar (components/layout/ResizableSidebar.tsx): a width kept
 * between 220 and 360 pixels, changed by dragging the separator, restored from
 * and saved to local storage, and used as the content's left padding on desktop.
 */
module Sidebar {
  import opened Common

  const MinWidth: real := 220.0
  const MaxWidth: real := 360.0
  const DesktopBreakpoint: real := 768.0

  /** A JavaScript number, as `Number(text)` or an event coordinate can give it. */
  datatype JsNumber = NaN | Finite(value: real) | PlusInfinity | MinusInfinity

  /** `Math.min(Math.max(x, MIN_WIDTH), MAX_WIDTH)` on a finite number. */
  function Clamp(x: real): (r: real)
    ensures MinWidth <= r <= MaxWidth
    ensures MinWidth <= x <= MaxWidth ==> r == x
    ensures x < MinWidth ==> r == MinWidth
    ensures x > MaxWidth ==> r == MaxWidth
  {
    if x < MinWidth then MinWidth else if x > MaxWidth then MaxWidth else x
  }

  /** The same clamp on any number but NaN: the infinities land on the bounds. */
  function ClampNumber(x: JsNumber): (r: real)
    requires !x.NaN?
    ensures MinWidth <= r <= MaxWidth
    ensures x.Finite? ==> r == Clamp(x.value)
  {
    match x
    case Finite(v) => Clamp(v)
    case PlusInfinity => MaxWidth
    case MinusInfinity => MinWidth
  }

  /** Clamping twice is clamping once. */
  lemma ClampIdempotent(x: real)
    ensures Clamp(Clamp(x)) == Clamp(x)
  {
  }

  /** Clamping never reverses the order of two widths. */
  lemma ClampMonotone(x: real, y: real)
    requires x <= y
    ensures Clamp(x) <= Clamp(y)
  {
  }

  /** `stored ? Number(stored) : NaN`: a missing or empty entry reads as NaN. */
  function StoredNumber(stored: Option<string>, toNumber: string -> JsNumber): (r: JsNumber)
    ensures stored.None? || stored.value == "" ==> r == NaN
    ensures stored.Some? && stored.value != "" ==> r == toNumber(stored.value)
  {
    if stored.Some? && stored.value != "" then toNumber(stored.value) else NaN
  }

  /**
   * The component's state: the width, the dragging flag, whether the viewport is a
   * desktop one, and the width last written to local storage.
   */
  class ResizableSidebar {
    var width: real
    var dragging: bool
    var isDesktop: bool
    var savedWidth: real

    /** The width stays between the bounds, and the save effect has caught up with it. */
    predicate Valid()
      reads this
    {
      MinWidth <= width <= MaxWidth && savedWidth == width
    }

    /** Mounting: the minimum width, not dragging, laid out as a desktop until measured. */
    constructor()
      ensures Valid()
      ensures width == MinWidth && !dragging && isDesktop
    {
      width := MinWidth;
      dragging := false;
      isDesktop := true;
      savedWidth := MinWidth;
    }

    /** The load effect: a stored width that is a number is clamped and used; NaN changes nothing. */
    method LoadStored(stored: Option<string>, toNumber: string -> JsNumber)
      requires Valid()
      modifies this`width, this`savedWidth
      ensures Valid()
      ensures StoredNumber(stored, toNumber).NaN? ==> width == old(width)
      ensures !StoredNumber(stored, toNumber).NaN? ==> width == ClampNumber(StoredNumber(stored, toNumber))
    {
      var parsed := StoredNumber(stored, toNumber);
      if !parsed.NaN? {
        width := ClampNumber(parsed);
        savedWidth := width;
      }
    }

    /** `handleMouseDown`: dragging starts; the width is untouched. */
    method MouseDown()
      requires Valid()
      modifies this`dragging
      ensures Valid() && dragging
    {
      dragging := true;
    }

    /** `handleMouseUp`: dragging stops. */
    method MouseUp()
      requires Valid()
      modifies this`dragging
      ensures Valid() && !dragging
    {
      dragging := false;
    }

    /** `handleMouseMove`: while dragging the width follows the cursor, clamped; otherwise nothing happens. */
    method MouseMove(clientX: real)
      requires Valid()
      modifies this`width, this`savedWidth
      ensures Valid()
      ensures old(dragging) ==> width == Clamp(clientX)
      ensures !old(dragging) ==> width == old(width)
    {
      if dragging {
        width := Clamp(clientX);
        savedWidth := width;
      }
    }

    /** The resize listener: a desktop viewport is at least 768 pixels wide. */
    method Resize(innerWidth: real)
      requires Valid()
      modifies this`isDesktop
      ensures Valid()
      ensures isDesktop <==> innerWidth >= DesktopBreakpoint
    {
      isDesktop := innerWidth >= DesktopBreakpoint;
    }

    /** The content's left padding: the sidebar's width on desktop, none otherwise. */
    function ContentPadding(): (r: real)
      reads this
      requires Valid()
      ensures isDesktop ==> MinWidth <= r <= MaxWidth && r == width
      ensures !isDesktop ==> r == 0.0
    {
      if isDesktop then width else 0.0
    }
  }
}
