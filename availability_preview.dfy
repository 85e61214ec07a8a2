/** The preview under a mentor's profile: the three earliest free slots,
    each labelled with its date and an icon for how it takes place. */
module AvailabilityPreview {
  import opened Sorting
  import opened Calendar

  function SlotStart(s: SlotView): int {
    s.start
  }

  function Min(a: int, b: int): int {
    if a <= b then a else b
  }

  /** The slots the preview lists: the first three of the list sorted by
      start. */
  function EarliestThree(slots: seq<SlotView>): (r: seq<SlotView>)
    ensures |r| == Min(3, |slots|)
    ensures SortedBy(r, SlotStart)
    ensures multiset(r) <= multiset(slots)
  {
    var sorted := SortBy(slots, SlotStart);
    assert sorted == sorted[..Min(3, |slots|)] + sorted[Min(3, |slots|)..];
    sorted[..Min(3, |slots|)]
  }

  /** The slots the preview leaves out. */
  function LeftOut(slots: seq<SlotView>): seq<SlotView> {
    SortBy(slots, SlotStart)[Min(3, |slots|)..]
  }

  /** The listed and the left-out slots are all the slots, and no slot left
      out starts before one listed. */
  lemma EarliestThreeAreEarliest(slots: seq<SlotView>)
    ensures multiset(EarliestThree(slots)) + multiset(LeftOut(slots)) == multiset(slots)
    ensures forall x, y :: x in EarliestThree(slots) && y in LeftOut(slots) ==> x.start <= y.start
  {
    var sorted := SortBy(slots, SlotStart);
    SplitSorted(sorted, Min(3, |slots|), SlotStart);
  }

  /** Cutting a sorted list in two keeps every element, and no key of the
      second part is below a key of the first. */
  lemma SplitSorted<T>(s: seq<T>, n: nat, key: T -> int)
    requires SortedBy(s, key) && n <= |s|
    ensures multiset(s[..n]) + multiset(s[n..]) == multiset(s)
    ensures forall x, y :: x in s[..n] && y in s[n..] ==> key(x) <= key(y)
  {
    assert s == s[..n] + s[n..];
    forall x, y | x in s[..n] && y in s[n..] ensures key(x) <= key(y) {
      var i :| 0 <= i < n && s[..n][i] == x;
      var j :| 0 <= j < |s| - n && s[n..][j] == y;
      assert s[i] == x && s[n + j] == y;
    }
  }

  /** The component's list handling: a missing or empty list shows the
      "no free slot" text and nothing else; otherwise the list is sorted by
      start IN PLACE (the caller's array is reordered) and its first three
      are shown. */
  method NextSlots(a: array?<SlotView>) returns (shown: seq<SlotView>)
    modifies a
    ensures a == null || a.Length == 0 ==> shown == []
    ensures a != null ==> a[..] == SortBy(old(a[..]), SlotStart)
    ensures a != null ==> shown == EarliestThree(old(a[..]))
  {
    if a == null || a.Length == 0 {
      return [];
    }
    var sorted := SortBy(a[..], SlotStart);
    forall i | 0 <= i < a.Length {
      a[i] := sorted[i];
    }
    assert a[..] == sorted;
    shown := a[..Min(3, a.Length)];
  }

  /** The date line of a listed slot. */
  datatype DateLabel = Today | Tomorrow | OnDate(start: int)

  /** `isToday` / `isTomorrow`: the slot's date is today's, or the date a
      day from now. */
  function PreviewLabel(start: int, now: int): (l: DateLabel)
    ensures l == Today <==> DayOf(start) == DayOf(now)
    ensures l == Tomorrow <==> DayOf(start) == DayOf(now) + 1
    ensures l.OnDate? ==> l.start == start
  {
    NextDay(now);
    if DayOf(start) == DayOf(now) then Today
    else if DayOf(start) == DayOf(now + DAY) then Tomorrow
    else OnDate(start)
  }

  /** The icon of a listed slot. */
  datatype Icon = Camera | Pin

  /** Only a virtual slot gets the camera; any other kind gets the pin. */
  function SlotIcon(s: SlotView): (i: Icon)
    ensures i == Camera <==> s.kind == "virtual"
  {
    if s.kind == "virtual" then Camera else Pin
  }

  /** A slot later today reads "today" in the preview, and a slot on the
      next date "tomorrow", whatever the hours. */
  lemma PreviewLabelByDate(day: int, h1: int, h2: int)
    requires 0 <= h1 < 24 && 0 <= h2 < 24
    ensures PreviewLabel(At(day, h2), At(day, h1)) == Today
    ensures PreviewLabel(At(day + 1, h2), At(day, h1)) == Tomorrow
  {
    AtFacts(day, h1);
    AtFacts(day, h2);
    AtFacts(day + 1, h2);
  }
}
