/** The three recency segments and `return_segment`, the classifier the importers
    stamp on each record. */
module Segments {
  import opened Wrappers
  import opened Calendar

  datatype Segment = Current | Lapsed | ExtraLapsed

  /** The text stored in the `segment` column. */
  const CURRENT: string := "current"
  const LAPSED: string := "lapsed"
  const EXTRA_LAPSED: string := "extra lapsed"

  function Label(s: Segment): string
  {
    match s
    case Current => CURRENT
    case Lapsed => LAPSED
    case ExtraLapsed => EXTRA_LAPSED
  }

  /** Position in the recency order: current, then lapsed, then extra lapsed. */
  function Rank(s: Segment): nat
  {
    match s
    case Current => 0
    case Lapsed => 1
    case ExtraLapsed => 2
  }

  lemma LabelsDistinct(a: Segment, b: Segment)
    ensures Label(a) == Label(b) <==> a == b
  {
  }

  /** `return_segment`: the bucket of an order placed on day `orderDay`, seen on day
      `today` (both as day numbers). An order 1 to 90 days old is current, 91 to 730
      days old lapsed, older than that extra lapsed; an order placed today or later
      gets no segment at all. */
  function ReturnSegment(orderDay: int, today: int): (r: Option<Segment>)
    ensures r.None? <==> today - orderDay <= 0
    ensures r == Some(Current) <==> 1 <= today - orderDay <= 90
    ensures r == Some(Lapsed) <==> 91 <= today - orderDay <= 730
    ensures r == Some(ExtraLapsed) <==> today - orderDay > 730
  {
    var ninetyDaysAgo := today - 90;
    var twoYearsAgo := today - 730;
    if orderDay < today && orderDay >= ninetyDaysAgo then Some(Current)
    else if orderDay < ninetyDaysAgo && orderDay >= twoYearsAgo then Some(Lapsed)
    else if orderDay < twoYearsAgo then Some(ExtraLapsed)
    else None
  }

  /** An older order never lands in a more recent bucket. */
  lemma OlderIsNeverMoreRecent(older: int, newer: int, today: int)
    requires older <= newer < today
    ensures ReturnSegment(older, today).Some? && ReturnSegment(newer, today).Some?
    ensures Rank(ReturnSegment(older, today).value) >= Rank(ReturnSegment(newer, today).value)
  {
  }

  /** As time passes, the bucket of a fixed order never moves back towards current. */
  lemma SegmentOnlyAges(orderDay: int, today: int, later: int)
    requires orderDay < today <= later
    ensures ReturnSegment(orderDay, today).Some? && ReturnSegment(orderDay, later).Some?
    ensures Rank(ReturnSegment(orderDay, today).value) <= Rank(ReturnSegment(orderDay, later).value)
  {
  }

  /** The classifier on calendar dates, as the importers call it. */
  function SegmentOfDate(order: Date, today: Date): Option<Segment>
    requires ValidDate(order) && ValidDate(today)
  {
    ReturnSegment(Ordinal(order), Ordinal(today))
  }

  /** An order dated today or later gets no segment; one dated earlier always gets one. */
  lemma NoSegmentFromToday(order: Date, today: Date)
    requires ValidDate(order) && ValidDate(today)
    ensures SegmentOfDate(order, today).None? <==> !DateLess(order, today)
  {
    OrdinalOrder(order, today);
  }
}
