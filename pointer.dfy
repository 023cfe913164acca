/** The pointer handlers of the light canvas: pressing on a light's marker
    starts a drag and selects it, moving drags it, releasing ends the drag, and
    a click on the canvas moves the selected light there. */
module Pointer {
  import opened Wrappers
  import opened Lights

  /** What `getBoundingClientRect` reports for the canvas. */
  datatype Rect = Rect(left: real, top: real, width: real, height: real)

  function Clamp(v: real, hi: real): real {
    var m := if v <= hi then v else hi;
    if 0.0 >= m then 0.0 else m
  }

  /** getRelativeCoords: the pointer position relative to the canvas, clamped
      into the canvas; `(0, 0)` when there is no canvas to measure. */
  function RelativeCoords(clientX: real, clientY: real, rect: Option<Rect>): (p: Point)
    ensures rect.None? ==> p == Point(0.0, 0.0)
    ensures rect.Some? ==> 0.0 <= p.x && 0.0 <= p.y
    ensures rect.Some? && rect.value.width >= 0.0 ==> p.x <= rect.value.width
    ensures rect.Some? && rect.value.height >= 0.0 ==> p.y <= rect.value.height
    ensures rect.Some? && 0.0 <= clientX - rect.value.left <= rect.value.width ==> p.x == clientX - rect.value.left
    ensures rect.Some? && 0.0 <= clientY - rect.value.top <= rect.value.height ==> p.y == clientY - rect.value.top
    ensures rect.Some? && clientX - rect.value.left < 0.0 ==> p.x == 0.0
    ensures rect.Some? && clientY - rect.value.top < 0.0 ==> p.y == 0.0
    ensures rect.Some? && 0.0 <= rect.value.width < clientX - rect.value.left ==> p.x == rect.value.width
    ensures rect.Some? && 0.0 <= rect.value.height < clientY - rect.value.top ==> p.y == rect.value.height
  {
    match rect
    case None => Point(0.0, 0.0)
    case Some(r) => Point(Clamp(clientX - r.left, r.width), Clamp(clientY - r.top, r.height))
  }

  /** The drag state of the canvas together with the page state it reaches
      through `setSelectedId` and `onDrop`. */
  class PointerState {
    var dragging: Option<int>
    var page: Page
    const showNodes: bool

    /** A dragged light is the selected one. Mouse-down establishes this and the
        pointer handlers keep it, but the page can break it: a drag released
        outside the canvas leaves `dragging` set, and adding or deleting a
        light then changes the selection. So no handler requires it. */
    ghost predicate Valid()
      reads this
    {
      dragging.Some? ==> page.selected == dragging
    }

    constructor (page: Page, showNodes: bool)
      ensures Valid()
      ensures this.page == page && dragging.None? && this.showNodes == showNodes
    {
      this.page := page;
      this.showNodes := showNodes;
      dragging := None;
    }

    /** handleMouseDown on the marker of light `id`. */
    method MouseDown(id: int)
      modifies this
      ensures Valid()
      ensures dragging == Some(id) && page == Select(old(page), id)
    {
      dragging := Some(id);
      page := Select(page, id);
    }

    /** handleMouseUp: the drag ends; nothing else changes. */
    method MouseUp()
      modifies this
      ensures Valid()
      ensures dragging.None? && page == old(page)
    {
      dragging := None;
    }

    /** handleMouseMove: without a drag nothing happens; otherwise the dragged
        light is dropped at the pointer. */
    method MouseMove(clientX: real, clientY: real, rect: Option<Rect>)
      modifies this
      ensures old(Valid()) ==> Valid()
      ensures dragging == old(dragging) && page.selected == old(page.selected)
      ensures old(dragging).None? ==> page == old(page)
      ensures old(dragging).Some? ==>
        var p := RelativeCoords(clientX, clientY, rect);
        page.lights == Drop(old(page.lights), old(dragging).value, p.x, p.y)
    {
      if dragging.None? {
        return;
      }
      var p := RelativeCoords(clientX, clientY, rect);
      page := page.(lights := Drop(page.lights, dragging.value, p.x, p.y));
    }

    /** handleClickToMoveSelected: only with markers shown and a selection,
        the selected light is dropped at the pointer. */
    method ClickToMoveSelected(clientX: real, clientY: real, rect: Option<Rect>)
      modifies this
      ensures old(Valid()) ==> Valid()
      ensures dragging == old(dragging) && page.selected == old(page.selected)
      ensures !showNodes || old(page.selected).None? ==> page == old(page)
      ensures showNodes && old(page.selected).Some? ==>
        var p := RelativeCoords(clientX, clientY, rect);
        page.lights == Drop(old(page.lights), old(page.selected).value, p.x, p.y)
    {
      if !showNodes || page.selected.None? {
        return;
      }
      var p := RelativeCoords(clientX, clientY, rect);
      page := page.(lights := Drop(page.lights, page.selected.value, p.x, p.y));
    }
  }
}
