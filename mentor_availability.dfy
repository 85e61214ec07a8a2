/** The mentor's weekly availability grid: clicking an empty cell opens the
    creation form for that hour, and dropping a slot on a cell asks the
    server to move it there. */
module MentorAvailability {
  import opened Common
  import opened Calendar

  /** The slot form; the times are kept as times, not as the text the form
      shows. */
  datatype SlotForm = SlotForm(
    start: Option<int>,
    end: Option<int>,
    kind: string,
    location: string,
    meetingLink: string,
    notes: string)

  const EmptyForm := SlotForm(None, None, "virtual", "", "", "")

  /** The form a click on an empty cell opens: one hour from the start of
      the clicked hour, virtual, everything else empty. */
  function CellForm(day: int, hour: int): (f: SlotForm)
    requires 0 <= hour < 24
    ensures f.start.Some? && f.end.Some? && f.end.value - f.start.value == HOUR
    ensures DayOf(f.start.value) == day && HourOf(f.start.value) == hour
    ensures f.(start := None, end := None) == EmptyForm
  {
    AtFacts(day, hour);
    SlotForm(Some(At(day, hour)), Some(At(day, hour) + HOUR), "virtual", "", "", "")
  }

  /** The update a drop sends for a slot. */
  datatype SlotUpdate = SlotUpdate(
    id: string,
    start: int,
    end: int,
    kind: string,
    location: string,
    meetingLink: string,
    notes: string)

  /** The slot moved to hour `hour` of day `day`: it keeps its clock-hour
      length and every other field. */
  function Moved(s: SlotView, day: int, hour: int): (u: SlotUpdate)
    requires 0 <= hour < 24
    ensures u.id == s.id && u.kind == s.kind && u.location == s.location
    ensures u.meetingLink == s.meetingLink && u.notes == s.notes
    ensures DayOf(u.start) == day && HourOf(u.start) == hour
    ensures u.end - u.start == (HourOf(s.end) - HourOf(s.start)) * HOUR
  {
    AtFacts(day, hour);
    var start := At(day, hour);
    SlotUpdate(s.id, start, start + (HourOf(s.end) - HourOf(s.start)) * HOUR,
               s.kind, s.location, s.meetingLink, s.notes)
  }

  /** A slot from one whole hour to a later one of the same day keeps its
      length when moved. */
  lemma MovedKeepsLength(s: SlotView, day: int, d: int, h1: int, h2: int, hour: int)
    requires 0 <= hour < 24 && 0 <= h1 <= h2 < 24
    requires s.start == At(d, h1) && s.end == At(d, h2)
    ensures Moved(s, day, hour).end - Moved(s, day, hour).start == s.end - s.start
  {
    AtFacts(d, h1);
    AtFacts(d, h2);
  }

  /** Minutes are dropped: a slot from 9:30 to 10:15 moves as one hour. */
  lemma MovedWholeHours(s: SlotView, day: int, d: int)
    requires s.start == At(d, 9) + 30 * 60000 && s.end == At(d, 10) + 15 * 60000
    ensures Moved(s, day, 14).end - Moved(s, day, 14).start == HOUR
  {
    WithinDay(d, 9 * HOUR + 30 * 60000);
    WithinDay(d, 10 * HOUR + 15 * 60000);
    assert HourOf(s.start) == 9 && HourOf(s.end) == 10;
  }

  /** The page state the grid handlers touch. */
  class MentorCalendar {
    var slots: seq<SlotView>
    var form: SlotForm
    var clickedCell: Option<(int, int)>
    var showModal: bool
    var draggedSlot: Option<SlotView>

    constructor ()
      ensures slots == [] && form == EmptyForm && clickedCell.None? && !showModal && draggedSlot.None?
    {
      slots := [];
      form := EmptyForm;
      clickedCell := None;
      showModal := false;
      draggedSlot := None;
    }

    /** `handleCellClick`: only an empty cell opens the creation form,
        prefilled with that hour. */
    method CellClick(day: int, hour: int)
      requires 0 <= hour < 24
      modifies this
      ensures slots == old(slots) && draggedSlot == old(draggedSlot)
      ensures SlotAtTime(old(slots), day, hour).Some? ==>
        form == old(form) && clickedCell == old(clickedCell) && showModal == old(showModal)
      ensures SlotAtTime(old(slots), day, hour).None? ==>
        form == CellForm(day, hour) && clickedCell == Some((day, hour)) && showModal
    {
      if SlotAtTime(slots, day, hour).None? {
        form := CellForm(day, hour);
        clickedCell := Some((day, hour));
        showModal := true;
      }
    }

    /** `handleDragStart`. */
    method DragStart(s: SlotView)
      modifies this
      ensures draggedSlot == Some(s)
      ensures slots == old(slots) && form == old(form) && clickedCell == old(clickedCell) && showModal == old(showModal)
    {
      draggedSlot := Some(s);
    }

    /** `handleDrop`: with a slot being dragged, the update that moves it to
        the cell, whether or not the cell is taken; the drag ends. */
    method Drop(day: int, hour: int) returns (request: Option<SlotUpdate>)
      requires 0 <= hour < 24
      modifies this
      ensures old(draggedSlot).None? ==> request.None?
      ensures old(draggedSlot).Some? ==> request == Some(Moved(old(draggedSlot).value, day, hour))
      ensures draggedSlot.None?
      ensures slots == old(slots) && form == old(form) && clickedCell == old(clickedCell) && showModal == old(showModal)
    {
      if draggedSlot.None? {
        return None;
      }
      request := Some(Moved(draggedSlot.value, day, hour));
      draggedSlot := None;
    }
  }
}
