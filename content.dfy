/** The region-selection overlay of content.js: an Idle/Selecting state machine
    over `selectionOverlay`, `isSelecting`, `startX` and `startY`. Page
    elements are named by numbers; `attached` is the set of overlay elements
    currently in the page, and `outbox` holds the messages sent to the
    background coordinator. */
module Content {
  import opened Records

  /** A selection must be wider and taller than this to be captured. */
  const MinSelectionSize: int := 10

  function Min(a: int, b: int): int
  {
    if a <= b then a else b
  }

  function Abs(a: int): int
  {
    if a < 0 then -a else a
  }

  /** The rectangle a drag from (startX, startY) to (x, y) draws: the smallest
      one with both points as corners, whichever way the drag went. */
  function LiveRect(startX: int, startY: int, x: int, y: int): (r: Rect)
    ensures r.width >= 0 && r.height >= 0
    ensures multiset{r.x, r.x + r.width} == multiset{startX, x}
    ensures multiset{r.y, r.y + r.height} == multiset{startY, y}
  {
    Rect(Min(startX, x), Min(startY, y), Abs(x - startX), Abs(y - startY))
  }

  /** Only those two facts pin the rectangle down. */
  lemma LiveRectUnique(startX: int, startY: int, x: int, y: int, r: Rect)
    requires r.width >= 0 && r.height >= 0
    requires multiset{r.x, r.x + r.width} == multiset{startX, x}
    requires multiset{r.y, r.y + r.height} == multiset{startY, y}
    ensures r == LiveRect(startX, startY, x, y)
  {
    SpanUnique(r.x, r.width, startX, x);
    SpanUnique(r.y, r.height, startY, y);
  }

  /** One axis of LiveRectUnique: a span with both drag coordinates as ends. */
  lemma SpanUnique(lo: int, size: int, start: int, end: int)
    requires size >= 0
    requires multiset{lo, lo + size} == multiset{start, end}
    ensures lo == Min(start, end) && size == Abs(end - start)
  {
    assert lo in multiset{start, end} && lo + size in multiset{start, end};
    assert start in multiset{lo, lo + size} && end in multiset{lo, lo + size};
  }

  /** The box's viewport position moved by the page's scroll offset; the size is kept. */
  function PageRegion(box: Rect, scrollX: int, scrollY: int): (r: Rect)
    ensures r.width == box.width && r.height == box.height
    ensures r.x - scrollX == box.x && r.y - scrollY == box.y
    ensures LargeEnough(r) <==> LargeEnough(box)
  {
    Rect(box.x + scrollX, box.y + scrollY, box.width, box.height)
  }

  /** A box goes to capture only when it is more than 10 pixels each way. */
  predicate LargeEnough(box: Rect)
    ensures LargeEnough(box) ==> box.width >= 11 && box.height >= 11
  {
    box.width > MinSelectionSize && box.height > MinSelectionSize
  }

  class RegionSelector {
    var selectionOverlay: Option<nat>
    var isSelecting: bool
    var startX: int
    var startY: int
    /** The box of the overlay's `.screenshot-selection` element. */
    var selection: Rect
    /** Whether the four document listeners are installed. */
    var listening: bool
    var attached: set<nat>
    var nextElement: nat
    var outbox: seq<Request>

    /** The overlay variable names the one overlay in the page, if any, and a
        selection is only in progress over an overlay. */
    ghost predicate Valid()
      reads this
    {
      && attached == (if selectionOverlay.Some? then {selectionOverlay.value} else {})
      && (forall e :: e in attached ==> e < nextElement)
      && (isSelecting ==> selectionOverlay.Some?)
    }

    constructor ()
      ensures Valid()
      ensures selectionOverlay == None && !isSelecting && startX == 0 && startY == 0
      ensures !listening && attached == {} && outbox == []
    {
      selectionOverlay := None;
      isSelecting := false;
      startX, startY := 0, 0;
      selection := Rect(0, 0, 0, 0);
      listening := false;
      attached := {};
      nextElement := 0;
      outbox := [];
    }

    /** At most one overlay is ever in the page. */
    lemma AtMostOneOverlay()
      requires Valid()
      ensures |attached| <= 1
    {
    }

    /** The message listener: 'startRegionSelection' opens the overlay and is
        answered; other actions get no reply. */
    method OnMessage(request: Request) returns (reply: Option<Response>)
      requires Valid()
      modifies this
      ensures Valid()
      ensures request.StartRegionSelection? ==>
                && reply == Some(Success(NoPayload))
                && listening && selectionOverlay == Some(old(nextElement)) && attached == {old(nextElement)}
                && selection == Rect(0, 0, 0, 0) && nextElement == old(nextElement) + 1
                && isSelecting == old(isSelecting) && startX == old(startX) && startY == old(startY)
                && outbox == old(outbox)
      ensures !request.StartRegionSelection? ==> reply == None && unchanged(this)
    {
      if request.StartRegionSelection? {
        StartRegionSelection();
        reply := Some(Success(NoPayload));
      } else {
        reply := None;
      }
    }

    method StartRegionSelection()
      requires Valid()
      modifies this
      ensures Valid()
      ensures listening && selectionOverlay == Some(old(nextElement)) && attached == {old(nextElement)}
      ensures selection == Rect(0, 0, 0, 0) && nextElement == old(nextElement) + 1
      ensures isSelecting == old(isSelecting) && startX == old(startX) && startY == old(startY)
      ensures outbox == old(outbox)
    {
      CreateOverlay();
      listening := true;
    }

    /** Removes any existing overlay and attaches a new one, whose selection box is hidden. */
    method CreateOverlay()
      requires Valid()
      modifies this
      ensures Valid()
      ensures selectionOverlay == Some(old(nextElement)) && attached == {old(nextElement)}
      ensures old(selectionOverlay).Some? ==> old(selectionOverlay).value !in attached
      ensures selection == Rect(0, 0, 0, 0) && nextElement == old(nextElement) + 1
      ensures isSelecting == old(isSelecting) && startX == old(startX) && startY == old(startY)
      ensures listening == old(listening) && outbox == old(outbox)
    {
      if selectionOverlay.Some? {
        attached := attached - {selectionOverlay.value};
      }
      selectionOverlay := Some(nextElement);
      attached := attached + {nextElement};
      nextElement := nextElement + 1;
      selection := Rect(0, 0, 0, 0);
    }

    /** A press on the overlay itself starts a selection at the pointer. */
    method MouseDown(target: nat, clientX: int, clientY: int)
      requires Valid()
      modifies this`isSelecting, this`startX, this`startY, this`selection
      ensures Valid()
      ensures listening && selectionOverlay == Some(target) ==>
                isSelecting && startX == clientX && startY == clientY && selection == Rect(clientX, clientY, 0, 0)
      ensures !(listening && selectionOverlay == Some(target)) ==> unchanged(this)
    {
      if !listening || selectionOverlay != Some(target) {
        return;
      }
      isSelecting := true;
      startX, startY := clientX, clientY;
      selection := Rect(startX, startY, 0, 0);
    }

    /** While selecting, the box follows the pointer. */
    method MouseMove(clientX: int, clientY: int)
      requires Valid()
      modifies this`selection
      ensures Valid()
      ensures listening && isSelecting ==> selection == LiveRect(startX, startY, clientX, clientY)
      ensures !(listening && isSelecting) ==> unchanged(this)
    {
      if !listening || !isSelecting {
        return;
      }
      selection := LiveRect(startX, startY, clientX, clientY);
    }

    /** Releasing ends the selection: a box larger than 10 by 10 is sent for a
        region capture at its page position, anything smaller cancels. */
    method MouseUp(scrollX: int, scrollY: int)
      requires Valid()
      modifies this
      ensures Valid()
      ensures !(old(listening) && old(isSelecting)) ==> unchanged(this)
      ensures old(listening) && old(isSelecting) && LargeEnough(old(selection)) ==>
                && outbox == old(outbox) + [CaptureRegion(None, PageRegion(old(selection), scrollX, scrollY))]
                && !isSelecting && selectionOverlay == old(selectionOverlay) && attached == old(attached)
                && listening && selection == old(selection)
                && startX == old(startX) && startY == old(startY) && nextElement == old(nextElement)
      ensures old(listening) && old(isSelecting) && !LargeEnough(old(selection)) ==> Cleaned()
    {
      if !listening || !isSelecting {
        return;
      }
      isSelecting := false;
      var box := selection;
      if LargeEnough(box) {
        outbox := outbox + [CaptureRegion(None, PageRegion(box, scrollX, scrollY))];
      } else {
        Cleanup();
      }
    }

    /** Escape cancels; any other key is ignored. */
    method KeyDown(key: string)
      requires Valid()
      modifies this
      ensures Valid()
      ensures old(listening) && key == "Escape" ==> Cleaned()
      ensures !(old(listening) && key == "Escape") ==> unchanged(this)
    {
      if listening && key == "Escape" {
        Cleanup();
      }
    }

    /** The reply to a region capture, success or failure, ends in cleanup (after
        a delay in the page). */
    method OnCaptureReply(reply: Response)
      requires Valid()
      modifies this
      ensures Valid()
      ensures Cleaned()
    {
      Cleanup();
    }

    /** `cleanup` has run: no overlay in the page, no listeners, no selection in
        progress; the start point, the selection box, the element counter and
        the messages sent are as they were. */
    twostate predicate Cleaned()
      reads this
    {
      && selectionOverlay == None && attached == {} && !isSelecting && !listening
      && startX == old(startX) && startY == old(startY) && nextElement == old(nextElement)
      && selection == old(selection) && outbox == old(outbox)
    }

    /** Removes the overlay and the listeners and ends any selection. */
    method Cleanup()
      requires Valid()
      modifies this
      ensures Valid() && Cleaned()
    {
      if selectionOverlay.Some? {
        attached := attached - {selectionOverlay.value};
        selectionOverlay := None;
      }
      listening := false;
      isSelecting := false;
    }
  }
}
