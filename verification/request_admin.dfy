/** The request admin screens (store/request/admin.py): the manual
    completion override, the progress badge shown for each item, the
    per-request completion summary and the shortened notes column. */
module RequestAdmin {
  import opened Wrappers
  import opened Decimal
  import opened Requests
  import opened Text
  import TradingDayAdmin

  // ---------------------------------------------------------------------
  // Manual override

  /** The form field whose change triggers the override. */
  const CompletionField: string := "is_completed"

  /** save_model: when the operator toggles the completion flag by hand,
      the counter follows it (the full quantity when switched on, zero when
      switched off); otherwise the item is saved as edited. This path does
      not look at deliveries. */
  function SaveModel(item: RequestItem, changed: set<string>): (r: RequestItem)
    ensures CompletionField !in changed ==> r == item
    ensures r.(delivered := item.delivered) == item
    ensures CompletionField in changed && item.isCompleted ==> r.delivered == item.quantity
    ensures CompletionField in changed && !item.isCompleted ==> r.delivered == 0
  {
    if CompletionField in changed then
      item.(delivered := if item.isCompleted then item.quantity else 0)
    else item
  }

  /** After the override the flag and the counter agree again, for any item
      that asks for at least one unit. */
  lemma OverrideAgreesWithFlag(item: RequestItem, changed: set<string>)
    requires CompletionField in changed && item.quantity >= 1
    ensures var r := SaveModel(item, changed);
      r.isCompleted <==> r.delivered >= r.quantity
  {
  }

  // ---------------------------------------------------------------------
  // Progress badge

  datatype Shade = Green | Orange | Gray

  datatype Badge = Badge(shade: Shade, text: string)

  /** delivery_progress (both the inline and the item list show it): a
      completed item shows "q/q ✓" in green, a partly delivered one "d/q" in
      orange, an untouched one "0/q" in gray. */
  function ProgressBadge(item: RequestItem): (b: Badge)
    ensures b.shade == Green <==> item.isCompleted
    ensures b.shade == Orange <==> !item.isCompleted && item.delivered > 0
    ensures b.shade == Gray <==> !item.isCompleted && item.delivered == 0
    ensures !item.isCompleted ==> b.text == DeliveryProgress(item)
    ensures item.isCompleted ==> b.text == DeliveryProgress(item.(delivered := item.quantity)) + " ✓"
  {
    if item.isCompleted then
      Badge(Green, NatToString(item.quantity) + "/" + NatToString(item.quantity) + " ✓")
    else if item.delivered > 0 then
      Badge(Orange, NatToString(item.delivered) + "/" + NatToString(item.quantity))
    else
      Badge(Gray, "0/" + NatToString(item.quantity))
  }

  /** Once the flag agrees with the counter and the counter has not gone
      past the quantity, the badge text always reads back as the item's own
      counters. */
  lemma BadgeShowsCounters(item: RequestItem)
    requires item.isCompleted <==> item.delivered >= item.quantity
    requires item.delivered <= item.quantity
    ensures var t := ProgressBadge(item).text;
      item.isCompleted ==> t == DeliveryProgress(item) + " ✓"
    ensures !item.isCompleted ==> ParseProgress(ProgressBadge(item).text) == Some((item.delivered, item.quantity))
  {
    ProgressRoundTrip(item);
  }

  // ---------------------------------------------------------------------
  // Completion summary

  datatype Completion = NoItems | Done | Progress(completed: nat, total: nat)

  function CountTrue(flags: seq<bool>): (n: nat)
    ensures n <= |flags|
  {
    if flags == [] then 0 else (if flags[0] then 1 else 0) + CountTrue(flags[1..])
  }

  lemma {:induction false} CountTrueAll(flags: seq<bool>)
    ensures CountTrue(flags) == |flags| <==> forall i :: 0 <= i < |flags| ==> flags[i]
  {
    if flags != [] {
      CountTrueAll(flags[1..]);
      if CountTrue(flags) == |flags| {
        assert flags[0];
        forall i | 0 <= i < |flags| ensures flags[i] {
          if i > 0 { assert flags[i] == flags[1..][i - 1]; }
        }
      }
    }
  }

  /** completion_status over the completion flags of a request's items: no
      items, all completed, or how many of how many. */
  function CompletionStatus(flags: seq<bool>): (c: Completion)
    ensures c == NoItems <==> |flags| == 0
    ensures c == Done <==> |flags| > 0 && forall i :: 0 <= i < |flags| ==> flags[i]
    ensures c.Progress? ==> c.total == |flags| && c.completed == CountTrue(flags) && c.completed < c.total
    ensures c.Progress? ==> exists i :: 0 <= i < |flags| && !flags[i]
  {
    CountTrueAll(flags);
    var total, completed := |flags|, CountTrue(flags);
    if total == 0 then NoItems
    else if completed == total then Done
    else Progress(completed, total)
  }

  // ---------------------------------------------------------------------
  // Notes column

  /** How many characters of the notes the list column keeps. */
  const NotesLength: nat := 50

  /** notes_short: empty notes show as empty; any other notes show their
      first 50 characters followed by "...", even when nothing was cut. */
  function NotesShort(notes: string): (r: string)
    ensures notes == "" ==> r == ""
    ensures notes != "" ==> |r| == Min(NotesLength, |notes|) + 3
    ensures notes != "" ==> r[..|r| - 3] == notes[..Min(NotesLength, |notes|)] && r[|r| - 3..] == "..."
  {
    if notes == "" then ""
    else
      var kept := if |notes| > NotesLength then notes[..NotesLength] else notes;
      kept + "..."
  }

  /** The notes column and the description column agree on empty text and
      on text longer than 50 characters; on other text the notes column adds
      "..." where the description column adds nothing. */
  lemma NotesShortVersusDescriptionShort(s: string)
    ensures s == "" || |s| > NotesLength ==> NotesShort(s) == TradingDayAdmin.DescriptionShort(s)
    ensures s != "" && |s| <= NotesLength ==> NotesShort(s) == TradingDayAdmin.DescriptionShort(s) + "..."
  {
  }
}
