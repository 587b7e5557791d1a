/**
 * The dates `download_range` visits: it starts at the start date, and while
 * the current date is not after the end date it handles the date and adds
 * one day. `RangeDates` is that sequence; `RangeOverflows` says when the
 * final `+= timedelta(days=1)` leaves the range of `datetime` and raises.
 */
module RangeWalk {
  import opened Wrappers
  import opened Calendar

  /** The dates from s through e, one day apart; empty when s is after e. */
  function RangeDates(s: ValidDate, e: ValidDate): seq<ValidDate>
    decreases Ordinal(e) - Ordinal(s)
  {
    if !LexLe(s, e) then []
    else match AddDay(s)
      case None => [s]
      case Some(n) =>
        AddDayOrdinal(s);
        LexLeIffOrdinalLe(s, e);
        [s] + RangeDates(n, e)
  }

  /** After handling the end date the walk adds one more day, which fails past date.max. */
  predicate RangeOverflows(s: ValidDate, e: ValidDate) {
    LexLe(s, e) && e == MaxDate
  }

  /** No valid date comes after date.max. */
  lemma AtMostMax(d: ValidDate)
    ensures LexLe(d, MaxDate)
    ensures LexLe(MaxDate, d) ==> d == MaxDate
  {
  }

  /**
   * For start <= end the walk visits end - start + 1 dates, the i-th being
   * i days after the start, so it begins at the start, ends at the end and
   * advances by exactly one day; for start > end it visits nothing.
   */
  lemma {:induction false} RangeDatesShape(s: ValidDate, e: ValidDate)
    ensures |RangeDates(s, e)| == if LexLe(s, e) then Ordinal(e) - Ordinal(s) + 1 else 0
    ensures forall i :: 0 <= i < |RangeDates(s, e)| ==> Ordinal(RangeDates(s, e)[i]) == Ordinal(s) + i
    decreases Ordinal(e) - Ordinal(s)
  {
    var r := RangeDates(s, e);
    if LexLe(s, e) {
      AddDayOrdinal(s);
      LexLeIffOrdinalLe(s, e);
      match AddDay(s)
      case None =>
        AtMostMax(e);
        LexLeIffOrdinalLe(e, s);
      case Some(n) =>
        RangeDatesShape(n, e);
        LexLeIffOrdinalLe(n, e);
        if !LexLe(n, e) {
          // n is one day after s and already past e, so s is e.
          assert Ordinal(e) == Ordinal(s);
        }
        assert r == [s] + RangeDates(n, e);
    }
  }

  /** The visited dates, one by one: first = start, last = end, each the day after the previous. */
  lemma RangeDatesEnds(s: ValidDate, e: ValidDate)
    requires LexLe(s, e)
    ensures var r := RangeDates(s, e);
      |r| >= 1 && r[0] == s && r[|r| - 1] == e
      && (forall i :: 0 <= i < |r| - 1 ==> AddDay(r[i]) == Some(r[i + 1]))
      && (forall i :: 0 <= i < |r| ==> LexLe(s, r[i]) && LexLe(r[i], e))
  {
    var r := RangeDates(s, e);
    RangeDatesShape(s, e);
    LexLeIffOrdinalLe(s, e);
    LexLeIffOrdinalLe(r[0], s);
    LexLeIffOrdinalLe(r[|r| - 1], e);
    forall i | 0 <= i < |r| - 1
      ensures AddDay(r[i]) == Some(r[i + 1])
    {
      AddDayOrdinal(r[i]);
      if AddDay(r[i]).None? {
        AtMostMax(r[i + 1]);
        LexLeIffOrdinalLe(r[i + 1], r[i]);
        assert false;
      }
      LexLeIffOrdinalLe(AddDay(r[i]).value, r[i + 1]);
    }
    forall i | 0 <= i < |r|
      ensures LexLe(s, r[i]) && LexLe(r[i], e)
    {
      LexLeIffOrdinalLe(s, r[i]);
      LexLeIffOrdinalLe(r[i], e);
    }
  }

  /** One step of the walk: the current date, then either the overflow at date.max or the rest of the walk. */
  lemma RangeDatesStep(s: ValidDate, e: ValidDate)
    requires LexLe(s, e)
    ensures RangeDates(s, e) != [] && RangeDates(s, e)[0] == s
    ensures AddDay(s).None? ==> RangeDates(s, e) == [s] && e == MaxDate
    ensures AddDay(s).Some? ==>
      RangeDates(s, e) == [s] + RangeDates(AddDay(s).value, e)
      && Ordinal(e) - Ordinal(AddDay(s).value) < Ordinal(e) - Ordinal(s)
  {
    AddDayOrdinal(s);
    AtMostMax(e);
  }
}
