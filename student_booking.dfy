/** The student's view of a mentor's week: clicking a free slot opens the
    booking dialog, and confirming it books the slot with the student's
    notes. */
module StudentBooking {
  import opened Common
  import opened Calendar

  /** A cell can be chosen when a slot fills it and that slot is free. */
  predicate Selectable(slots: seq<SlotView>, day: int, hour: int) {
    SlotAtTime(slots, day, hour).Some? && !SlotAtTime(slots, day, hour).value.isBooked
  }

  /** A booked slot fills its cell but cannot be chosen. */
  lemma BookedNotSelectable(slots: seq<SlotView>, day: int, hour: int)
    requires forall k :: 0 <= k < |slots| ==> slots[k].isBooked
    ensures !Selectable(slots, day, hour)
  {
    var r := SlotAtTime(slots, day, hour);
    if r.Some? {
      var k :| 0 <= k < |slots| && slots[k] == r.value;
    }
  }

  /** The page state the booking handlers touch; `reloads` counts the
      requests to fetch the mentor and the slots again. */
  class StudentCalendar {
    var slots: seq<SlotView>
    var selected: Option<SlotView>
    var showModal: bool
    var notes: string
    var error: bool
    var reloads: nat

    constructor (slots: seq<SlotView>)
      ensures this.slots == slots && selected.None? && !showModal && notes == "" && !error && reloads == 0
    {
      this.slots := slots;
      selected := None;
      showModal := false;
      notes := "";
      error := false;
      reloads := 0;
    }

    /** A click on a cell: a free slot filling it is selected and the dialog
        opens; any other cell does nothing. */
    method CellClick(day: int, hour: int)
      modifies this
      ensures slots == old(slots) && notes == old(notes) && error == old(error) && reloads == old(reloads)
      ensures Selectable(old(slots), day, hour) ==> selected == SlotAtTime(old(slots), day, hour) && showModal
      ensures !Selectable(old(slots), day, hour) ==> selected == old(selected) && showModal == old(showModal)
    {
      var slot := SlotAtTime(slots, day, hour);
      if slot.Some? && !slot.value.isBooked {
        selected := slot;
        showModal := true;
      }
    }

    /** Typing in the notes field. */
    method EditNotes(text: string)
      modifies this
      ensures notes == text
      ensures slots == old(slots) && selected == old(selected) && showModal == old(showModal)
      ensures error == old(error) && reloads == old(reloads)
    {
      notes := text;
    }

    /** `handleBooking`: without a selection nothing happens; otherwise the
        booking request for the selected slot with the notes is sent
        (`succeeded` is its outcome). Success closes the dialog, clears the
        selection and the notes and reloads; failure only shows an error. */
    method Booking(succeeded: bool) returns (request: Option<(string, string)>)
      modifies this
      ensures slots == old(slots)
      ensures old(selected).None? ==> (request.None? && selected == old(selected) && showModal == old(showModal) &&
        notes == old(notes) && error == old(error) && reloads == old(reloads))
      ensures old(selected).Some? ==> request == Some((old(selected).value.id, old(notes)))
      ensures old(selected).Some? && succeeded ==>
        (selected.None? && !showModal && notes == "" && !error && reloads == old(reloads) + 1)
      ensures old(selected).Some? && !succeeded ==>
        (selected == old(selected) && showModal == old(showModal) && notes == old(notes) && error && reloads == old(reloads))
    {
      if selected.None? {
        return None;
      }
      request := Some((selected.value.id, notes));
      error := false;
      if succeeded {
        showModal := false;
        selected := None;
        notes := "";
        reloads := reloads + 1;
      } else {
        error := true;
      }
    }

    /** Closing or cancelling the dialog clears the selection and the notes. */
    method CloseModal()
      modifies this
      ensures !showModal && selected.None? && notes == ""
      ensures slots == old(slots) && error == old(error) && reloads == old(reloads)
    {
      showModal := false;
      selected := None;
      notes := "";
    }
  }
}
