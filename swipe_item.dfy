/**
 * The swipe-to-reveal gesture of a transaction row: the horizontal offset
 * of the row, where the current touch started, and whether the touch has
 * become a drag. Each handler updates these step by step.
 */
module SwipeItem {

  /** The offset at which a released row stays open rather than closing. */
  const DeleteThreshold: int := -80
  /** The offset of a fully open row. */
  const OpenOffset: int := -100

  /** An offset the row can show: between fully open and closed. */
  predicate InRange(t: int) {
    OpenOffset <= t <= 0
  }

  /**
   * The offset after a touch move that is `diff` away from where the touch
   * started: a leftward move follows the finger up to fully open, a
   * rightward move closes an open row toward 0, and a rightward move on a
   * closed row leaves it closed.
   */
  function MoveOffset(t: int, diff: int): (r: int)
    requires InRange(t)
    ensures InRange(r)
    ensures diff < 0 ==> r == (if diff < OpenOffset then OpenOffset else diff)
    ensures diff >= 0 && t == 0 ==> r == 0
    ensures diff >= 0 && t < 0 ==> t <= r && r == (if t + diff > 0 then 0 else t + diff)
  {
    if diff < 0 then (if diff < OpenOffset then OpenOffset else diff)
    else if t < 0 then (if t + diff > 0 then 0 else t + diff)
    else t
  }

  /** The offset once the finger lifts: fully open past the threshold, closed otherwise. */
  function EndOffset(t: int): (r: int)
    ensures r == OpenOffset || r == 0
    ensures r == OpenOffset <==> t < DeleteThreshold
  {
    if t < DeleteThreshold then OpenOffset else 0
  }

  /** Releasing a row that has already settled leaves it where it is. */
  lemma EndOffsetSettles(t: int)
    ensures EndOffset(EndOffset(t)) == EndOffset(t)
    ensures InRange(EndOffset(t))
  {
  }

  /** A drag that has reached some offset and is released opens the row exactly when it went past the threshold. */
  lemma DragThenRelease(t: int, diff: int)
    requires InRange(t) && diff < 0
    ensures EndOffset(MoveOffset(t, diff)) == OpenOffset <==> diff < DeleteThreshold
  {
  }

  class SwipeableRow {
    /** The row's horizontal offset in pixels. */
    var translateX: int
    /** Where the current touch started. */
    var startX: int
    /** Whether the current touch has moved left by more than 10 pixels. */
    var isDragging: bool
    /** Whether the delete button was pressed. */
    var isDeleting: bool

    ghost predicate Valid()
      reads this
    {
      InRange(translateX)
    }

    /** A fresh row: closed, no touch in progress. */
    constructor ()
      ensures Valid()
      ensures translateX == 0 && startX == 0 && !isDragging && !isDeleting
    {
      translateX := 0;
      startX := 0;
      isDragging := false;
      isDeleting := false;
    }

    /** `handleTouchStart`: remember where the touch began; it is not a drag yet. */
    method TouchStart(clientX: int)
      modifies this
      ensures startX == clientX && !isDragging
      ensures translateX == old(translateX) && isDeleting == old(isDeleting)
    {
      startX := clientX;
      isDragging := false;
    }

    /** `handleTouchMove`: a move more than 10 pixels left makes the touch a drag; the offset follows `MoveOffset`. */
    method TouchMove(clientX: int)
      requires Valid()
      modifies this
      ensures Valid()
      ensures isDragging == (old(isDragging) || clientX - old(startX) < -10)
      ensures translateX == MoveOffset(old(translateX), clientX - old(startX))
      ensures startX == old(startX) && isDeleting == old(isDeleting)
    {
      var diff := clientX - startX;
      if diff < -10 {
        isDragging := true;
      }
      if diff < 0 {
        translateX := if diff < OpenOffset then OpenOffset else diff;
      } else if translateX < 0 {
        translateX := if translateX + diff > 0 then 0 else translateX + diff;
      }
    }

    /** `handleTouchEnd`: snap open or closed. */
    method TouchEnd()
      requires Valid()
      modifies this
      ensures Valid()
      ensures translateX == EndOffset(old(translateX))
      ensures startX == old(startX) && isDragging == old(isDragging) && isDeleting == old(isDeleting)
    {
      if translateX < DeleteThreshold {
        translateX := OpenOffset;
      } else {
        translateX := 0;
      }
    }

    /**
     * `handleClick`: a tap on a closed row that was not dragged opens the
     * transaction (`fired`); a tap on an open row closes it instead.
     */
    method Click() returns (fired: bool)
      requires Valid()
      modifies this
      ensures Valid()
      ensures fired <==> !old(isDragging) && old(translateX) == 0
      ensures translateX == 0
      ensures startX == old(startX) && isDragging == old(isDragging) && isDeleting == old(isDeleting)
    {
      fired := false;
      if !isDragging && translateX == 0 {
        fired := true;
      } else if translateX != 0 {
        translateX := 0;
      }
    }

    /** `handleDelete`: the row starts fading out; the delayed `onDelete` call is not part of the row's state. */
    method Delete()
      modifies this
      ensures isDeleting
      ensures translateX == old(translateX) && startX == old(startX) && isDragging == old(isDragging)
    {
      isDeleting := true;
    }
  }

  /**
   * A whole gesture on a fresh row: a swipe of `distance` pixels to the
   * left, released, then a tap. A swipe past the threshold leaves the row
   * open and the tap only closes it; a short swipe closes it again on
   * release, and the tap still does not open the transaction once the
   * swipe counted as a drag.
   */
  method SwipeThenTap(x: int, distance: int) returns (openAfterRelease: bool, fired: bool, closedAfterTap: bool)
    requires distance > 0
    ensures openAfterRelease <==> distance > -DeleteThreshold
    ensures fired <==> distance <= 10
    ensures closedAfterTap
  {
    var row := new SwipeableRow();
    row.TouchStart(x);
    row.TouchMove(x - distance);
    row.TouchEnd();
    openAfterRelease := row.translateX == OpenOffset;
    fired := row.Click();
    closedAfterTap := row.translateX == 0;
  }
}
