/**
 * The bulk slot generator of the admin pages: expanding a date range, a daily time window and a
 * slot length into candidate slots, skipping excluded weekdays.
 *
 * The functions here are the reference definition of what the generator yields; the methods
 * PreviewBulk, CollectDates and CutSlots are the preview handler's own loops, proved against it.
 * The confirm handler, which walks the same dates and slots while writing to the store, is
 * Store.ConfirmBulk in module App.
 */
module BulkSlots {
  import opened Wrappers
  import opened Calendar
  import opened Models

  /** The form of a bulk request after parsing: dates as ordinals, times in minutes since midnight. */
  datatype Request = Request(
    startDate: int,
    endDate: int,
    startTime: int,
    endTime: int,
    duration: int,
    excluded: seq<string>)

  /** What strptime with "%Y-%m-%d" and "%H:%M" guarantees of the parsed fields. */
  predicate Parsed(r: Request)
  {
    IsDate(r.startDate) && IsDate(r.endDate) && IsTime(r.startTime) && IsTime(r.endTime)
  }

  /** One slot of a date in the preview: its 'start' and 'end'. */
  datatype Span = Span(start: int, end: int)

  /** One entry of the preview: a date and its slots. */
  datatype DatePlan = DatePlan(date: int, slots: seq<Span>)

  /** One candidate slot: (date, start, end). */
  datatype Period = Period(date: int, start: int, end: int)

  /**
   * Why a bulk request produces nothing: the user is not an admin, the duration is not positive,
   * or Python's datetime arithmetic raised OverflowError.
   */
  datatype GenError = NotAdmin | InvalidDuration | Overflow

  // ---------------------------------------------------------------------------------------------
  // Dates

  /** A date is kept when its lower-case English weekday name is not in the excluded list. */
  predicate Retained(d: int, excluded: seq<string>)
  {
    DayName(d) !in excluded
  }

  /** The retained dates from r.startDate through `last`, in the order the date loop visits them. */
  function DatesThrough(r: Request, last: int): seq<int>
    decreases last - r.startDate
  {
    if last < r.startDate then []
    else DatesThrough(r, last - 1) + (if Retained(last, r.excluded) then [last] else [])
  }

  /** `candidate_dates`. */
  function CandidateDates(r: Request): seq<int>
  {
    DatesThrough(r, r.endDate)
  }

  /** The date loop steps past `date.max` (and raises) exactly when it reaches end_date = date.max. */
  predicate DateLoopOverflows(r: Request)
  {
    r.startDate <= r.endDate && r.endDate == MaxOrdinal
  }

  lemma {:induction false} DatesThroughExactly(r: Request, last: int)
    ensures forall d :: d in DatesThrough(r, last) <==> r.startDate <= d <= last && Retained(d, r.excluded)
    ensures forall i, j :: 0 <= i < j < |DatesThrough(r, last)| ==> DatesThrough(r, last)[i] < DatesThrough(r, last)[j]
    decreases last - r.startDate
  {
    if last >= r.startDate {
      DatesThroughExactly(r, last - 1);
      var prev := DatesThrough(r, last - 1);
      forall i | 0 <= i < |prev| ensures prev[i] < last {
        assert prev[i] in prev;
      }
    }
  }

  /**
   * The candidate dates are exactly the dates from start_date to end_date inclusive whose weekday
   * is not excluded, in ascending order; there are none when end_date < start_date.
   */
  lemma CandidateDatesExactly(r: Request)
    ensures forall d :: d in CandidateDates(r) <==> r.startDate <= d <= r.endDate && Retained(d, r.excluded)
    ensures forall i, j :: 0 <= i < j < |CandidateDates(r)| ==> CandidateDates(r)[i] < CandidateDates(r)[j]
    ensures r.endDate < r.startDate ==> CandidateDates(r) == []
  {
    DatesThroughExactly(r, r.endDate);
  }

  // ---------------------------------------------------------------------------------------------
  // Slots of one date

  /**
   * The slots cut from `cursor` onward: while the next slot still ends by `endTime`, emit it and
   * advance by `duration`. All of it lies on one date, so times never wrap past midnight.
   */
  function SpansFrom(cursor: int, endTime: int, duration: int): seq<Span>
    requires duration > 0
    decreases endTime - cursor
  {
    if cursor + duration <= endTime then
      [Span(cursor, cursor + duration)] + SpansFrom(cursor + duration, endTime, duration)
    else
      []
  }

  /** Where the cursor stands when the loop test fails. */
  function FinalCursor(cursor: int, endTime: int, duration: int): int
    requires duration > 0
    decreases endTime - cursor
  {
    if cursor + duration <= endTime then FinalCursor(cursor + duration, endTime, duration) else cursor
  }

  /** `slots_for_date` of one retained date (the same for every date). */
  function DaySpans(r: Request): seq<Span>
    requires r.duration > 0
  {
    SpansFrom(r.startTime, r.endTime, r.duration)
  }

  /**
   * The slot loop's test, which adds the duration to the current date and time, raises on date `d`.
   * A test that passes keeps the sum within date `d`, so only the final test can overflow.
   */
  predicate DayOverflows(r: Request, d: int)
    requires r.duration > 0
  {
    AddOverflows(d, FinalCursor(r.startTime, r.endTime, r.duration), r.duration)
  }

  /** Floor division is determined by its defining inequalities. */
  lemma DivUnique(x: int, y: int, q: int)
    requires y > 0 && q * y <= x < q * y + y
    ensures x / y == q
  {
    var q', m := x / y, x % y;
    assert x == q' * y + m && 0 <= m < y;
    assert (q' - q) * y == q' * y - q * y;
    MulSign(q' - q, y);
  }

  /** A non-zero multiple of a positive y is at least y away from zero. */
  lemma MulSign(k: int, y: int)
    requires y > 0
    ensures k >= 1 ==> k * y >= y
    ensures k <= -1 ==> k * y <= -y
  {
    if k >= 1 {
      MulLe(1, k, y);
    } else if k <= -1 {
      MulLe(k, -1, y);
    }
  }

  lemma MulLe(a: int, b: int, y: int)
    requires a <= b && y > 0
    ensures a * y <= b * y
  {
    assert b * y - a * y == (b - a) * y;
  }

  /**
   * A date gets (endTime - cursor) / duration slots when cursor <= endTime and none otherwise:
   * n slots exactly when n * duration <= endTime - cursor < (n + 1) * duration.
   */
  lemma {:induction false} SpansCount(cursor: int, endTime: int, duration: int)
    requires duration > 0
    ensures cursor <= endTime ==>
      |SpansFrom(cursor, endTime, duration)| * duration <= endTime - cursor
        < |SpansFrom(cursor, endTime, duration)| * duration + duration
    ensures |SpansFrom(cursor, endTime, duration)| == if cursor <= endTime then (endTime - cursor) / duration else 0
    decreases endTime - cursor
  {
    var n := |SpansFrom(cursor, endTime, duration)|;
    if cursor + duration <= endTime {
      SpansCount(cursor + duration, endTime, duration);
      var n' := |SpansFrom(cursor + duration, endTime, duration)|;
      assert n == n' + 1;
      assert n * duration == n' * duration + duration;
    } else {
      assert n == 0;
    }
    if cursor <= endTime {
      DivUnique(endTime - cursor, duration, n);
    }
  }

  /** The k-th slot from `cursor` starts at cursor + k * duration. */
  lemma {:induction false} SpanAt(cursor: int, endTime: int, duration: int, k: nat)
    requires duration > 0
    requires k < |SpansFrom(cursor, endTime, duration)|
    ensures SpansFrom(cursor, endTime, duration)[k] == Span(cursor + k * duration, cursor + k * duration + duration)
    decreases k
  {
    if k > 0 {
      var next := cursor + duration;
      assert SpansFrom(cursor, endTime, duration)[k] == SpansFrom(next, endTime, duration)[k - 1];
      SpanAt(next, endTime, duration, k - 1);
      assert next + (k - 1) * duration == cursor + k * duration;
    }
  }

  /** Every slot starts at or after `cursor`, lasts exactly `duration` and ends by `endTime`. */
  lemma {:induction false} SpansBounded(cursor: int, endTime: int, duration: int)
    requires duration > 0
    ensures forall s :: s in SpansFrom(cursor, endTime, duration) ==>
      cursor <= s.start && s.end == s.start + duration && s.end <= endTime
    decreases endTime - cursor
  {
    if cursor + duration <= endTime {
      SpansBounded(cursor + duration, endTime, duration);
    }
  }

  /** Each slot of a date ends exactly where the next one starts. */
  lemma {:induction false} SpansContiguous(cursor: int, endTime: int, duration: int)
    requires duration > 0
    ensures forall k :: 0 <= k < |SpansFrom(cursor, endTime, duration)| - 1 ==>
      SpansFrom(cursor, endTime, duration)[k].end == SpansFrom(cursor, endTime, duration)[k + 1].start
    decreases endTime - cursor
  {
    if cursor + duration <= endTime {
      var next := cursor + duration;
      SpansContiguous(next, endTime, duration);
      var spans, rest := SpansFrom(cursor, endTime, duration), SpansFrom(next, endTime, duration);
      if rest != [] {
        assert rest[0] == Span(next, next + duration);
      }
      forall k | 0 <= k < |spans| - 1 ensures spans[k].end == spans[k + 1].start {
        assert spans[k + 1] == rest[k];
        if k > 0 {
          assert spans[k] == rest[k - 1];
        }
      }
    }
  }

  /**
   * The slots of one retained date: the k-th runs from start_time + k*duration to
   * start_time + (k+1)*duration, each ends where the next starts, all lie within
   * [start_time, end_time], and there are (end_time - start_time) / duration of them
   * (none when end_time < start_time).
   */
  lemma DaySlotsShape(r: Request)
    requires r.duration > 0
    ensures |DaySpans(r)| == if r.startTime <= r.endTime then (r.endTime - r.startTime) / r.duration else 0
    ensures forall k :: 0 <= k < |DaySpans(r)| ==>
      DaySpans(r)[k] == Span(r.startTime + k * r.duration, r.startTime + k * r.duration + r.duration)
    ensures forall s :: s in DaySpans(r) ==>
      r.startTime <= s.start && s.end == s.start + r.duration && s.end <= r.endTime
    ensures forall k :: 0 <= k < |DaySpans(r)| - 1 ==> DaySpans(r)[k].end == DaySpans(r)[k + 1].start
  {
    SpansCount(r.startTime, r.endTime, r.duration);
    SpansBounded(r.startTime, r.endTime, r.duration);
    SpansContiguous(r.startTime, r.endTime, r.duration);
    forall k | 0 <= k < |DaySpans(r)|
      ensures DaySpans(r)[k] == Span(r.startTime + k * r.duration, r.startTime + k * r.duration + r.duration)
    {
      SpanAt(r.startTime, r.endTime, r.duration, k);
    }
  }

  /** A duration longer than the daily window yields no slot at all. */
  lemma NoSlotsWhenDurationExceedsWindow(r: Request)
    requires r.duration > 0 && r.duration > r.endTime - r.startTime
    ensures DaySpans(r) == []
    ensures Candidates(r) == []
  {
    PlansForExactly(r, CandidateDates(r));
  }

  /** The slots of one date do not overlap: each ends no later than any later one starts. */
  lemma {:induction false} SpansAscending(cursor: int, endTime: int, duration: int)
    requires duration > 0
    ensures forall i, j :: 0 <= i < j < |SpansFrom(cursor, endTime, duration)| ==>
      SpansFrom(cursor, endTime, duration)[i].end <= SpansFrom(cursor, endTime, duration)[j].start
    decreases endTime - cursor
  {
    if cursor + duration <= endTime {
      var next := cursor + duration;
      SpansAscending(next, endTime, duration);
      SpansBounded(next, endTime, duration);
      var rest := SpansFrom(next, endTime, duration);
      var spans := SpansFrom(cursor, endTime, duration);
      forall i, j | 0 <= i < j < |spans| ensures spans[i].end <= spans[j].start {
        assert spans[j] == rest[j - 1];
        assert rest[j - 1] in rest;
        if i > 0 {
          assert spans[i] == rest[i - 1];
        }
      }
    }
  }

  lemma {:induction false} FinalCursorIsEnd(cursor: int, endTime: int, duration: int)
    requires duration > 0
    ensures FinalCursor(cursor, endTime, duration) + duration > endTime
    ensures cursor <= FinalCursor(cursor, endTime, duration)
    ensures FinalCursor(cursor, endTime, duration) == cursor || FinalCursor(cursor, endTime, duration) <= endTime
    decreases endTime - cursor
  {
    if cursor + duration <= endTime {
      FinalCursorIsEnd(cursor + duration, endTime, duration);
    }
  }

  // ---------------------------------------------------------------------------------------------
  // All candidates

  /** The preview entry of date `d`: nothing when the date gets no slot. */
  function DayPlan(r: Request, d: int): seq<DatePlan>
    requires r.duration > 0
  {
    if DaySpans(r) == [] then [] else [DatePlan(d, DaySpans(r))]
  }

  /** `candidate_slots` for the candidate dates `ds`. */
  function PlansFor(r: Request, ds: seq<int>): seq<DatePlan>
    requires r.duration > 0
  {
    if ds == [] then [] else PlansFor(r, ds[..|ds| - 1]) + DayPlan(r, ds[|ds| - 1])
  }

  /** The slots of one date as (date, start, end) candidates. */
  function PeriodsOn(date: int, spans: seq<Span>): seq<Period>
  {
    seq(|spans|, i requires 0 <= i < |spans| => Period(date, spans[i].start, spans[i].end))
  }

  /** The preview flattened into the stream of candidates, date by date. */
  function Flatten(plans: seq<DatePlan>): seq<Period>
  {
    if plans == [] then []
    else Flatten(plans[..|plans| - 1]) + PeriodsOn(plans[|plans| - 1].date, plans[|plans| - 1].slots)
  }

  /** One more step of the date loop appends that date's candidates, or nothing for an excluded date. */
  lemma FlattenThroughStep(r: Request, d: int)
    requires r.duration > 0 && r.startDate <= d
    ensures Flatten(PlansFor(r, DatesThrough(r, d))) ==
      Flatten(PlansFor(r, DatesThrough(r, d - 1))) + (if Retained(d, r.excluded) then PeriodsOn(d, DaySpans(r)) else [])
  {
    var ds := DatesThrough(r, d - 1);
    if Retained(d, r.excluded) {
      assert DatesThrough(r, d) == ds + [d];
      assert (ds + [d])[..|ds|] == ds;
      var plans := PlansFor(r, ds + [d]);
      assert plans == PlansFor(r, ds) + DayPlan(r, d);
      if DaySpans(r) != [] {
        assert plans[..|plans| - 1] == PlansFor(r, ds);
      } else {
        assert plans == PlansFor(r, ds);
        assert PeriodsOn(d, DaySpans(r)) == [];
        assert Flatten(PlansFor(r, ds)) + [] == Flatten(PlansFor(r, ds));
      }
    } else {
      assert DatesThrough(r, d) == ds;
    }
  }

  /** The number of slots the preview lists. */
  function TotalSlots(plans: seq<DatePlan>): nat
  {
    if plans == [] then 0 else TotalSlots(plans[..|plans| - 1]) + |plans[|plans| - 1].slots|
  }

  /** Every candidate (date, start, end) of a request, in iteration order. */
  function Candidates(r: Request): seq<Period>
    requires r.duration > 0
  {
    Flatten(PlansFor(r, CandidateDates(r)))
  }

  predicate SlotOverflow(r: Request)
    requires r.duration > 0
  {
    exists d :: d in CandidateDates(r) && DayOverflows(r, d)
  }

  /** A date the loop reaches and keeps is a candidate date, so its overflow is the request's. */
  lemma OverflowOnDate(r: Request, d: int)
    requires r.duration > 0 && r.startDate <= d <= r.endDate && Retained(d, r.excluded)
    requires DayOverflows(r, d)
    ensures SlotOverflow(r)
  {
    CandidateDatesExactly(r);
  }

  /** No retained date from start_date up to (not including) `d` overflows. */
  predicate NoOverflowBefore(r: Request, d: int)
    requires r.duration > 0
  {
    forall x :: r.startDate <= x < d && Retained(x, r.excluded) ==> !DayOverflows(r, x)
  }

  /** No slot overflows when no retained date in the range overflows. */
  lemma NoOverflowOnDates(r: Request)
    requires r.duration > 0
    requires NoOverflowBefore(r, r.endDate + 1)
    ensures !SlotOverflow(r)
  {
    CandidateDatesExactly(r);
  }

  /**
   * What the preview computes for an admin: a rejected duration, an OverflowError, or the list of
   * dates with their slots.
   */
  function Preview(r: Request): Result<seq<DatePlan>, GenError>
  {
    if r.duration <= 0 then Failure(InvalidDuration)
    else if DateLoopOverflows(r) || SlotOverflow(r) then Failure(Overflow)
    else Success(PlansFor(r, CandidateDates(r)))
  }

  /** A sequence is its front followed by its last element. */
  lemma SplitLast<T>(xs: seq<T>)
    requires xs != []
    ensures xs == xs[..|xs| - 1] + [xs[|xs| - 1]]
  {
  }

  /** Flatten and TotalSlots take one more entry at the back. */
  lemma FlattenSnoc(plans: seq<DatePlan>, x: DatePlan)
    ensures Flatten(plans + [x]) == Flatten(plans) + PeriodsOn(x.date, x.slots)
    ensures TotalSlots(plans + [x]) == TotalSlots(plans) + |x.slots|
  {
    assert (plans + [x])[..|plans|] == plans;
  }

  /** PlansFor takes one more date at the back: its plan, or nothing when dates get no slot. */
  lemma PlansForSnoc(r: Request, ds: seq<int>)
    requires r.duration > 0 && ds != []
    ensures DaySpans(r) != [] ==> PlansFor(r, ds) == PlansFor(r, ds[..|ds| - 1]) + [DatePlan(ds[|ds| - 1], DaySpans(r))]
    ensures DaySpans(r) == [] ==> PlansFor(r, ds) == PlansFor(r, ds[..|ds| - 1])
  {
    assert PlansFor(r, ds[..|ds| - 1]) + [] == PlansFor(r, ds[..|ds| - 1]);
  }

  lemma {:induction false} FlattenLength(plans: seq<DatePlan>)
    ensures |Flatten(plans)| == TotalSlots(plans)
  {
    if plans != [] {
      FlattenLength(plans[..|plans| - 1]);
    }
  }

  /**
   * The preview lists exactly the candidate dates that get at least one slot, each with the
   * slots of DaySpans, in date order.
   */
  lemma {:induction false} PlansForExactly(r: Request, ds: seq<int>)
    requires r.duration > 0
    ensures forall p :: p in PlansFor(r, ds) ==> p.date in ds && p.slots == DaySpans(r) && |p.slots| > 0
    ensures forall d :: d in ds && DaySpans(r) != [] ==> DatePlan(d, DaySpans(r)) in PlansFor(r, ds)
    ensures |PlansFor(r, ds)| == if DaySpans(r) == [] then 0 else |ds|
    ensures forall i :: 0 <= i < |PlansFor(r, ds)| ==> PlansFor(r, ds)[i].date == ds[i]
  {
    if ds != [] {
      var init := ds[..|ds| - 1];
      PlansForExactly(r, init);
      PlansForSnoc(r, ds);
      SplitLast(ds);
    }
  }

  /** (a + 1) * b == a * b + b. */
  lemma MulSucc(a: int, b: int)
    ensures (a + 1) * b == a * b + b
  {
  }

  /** Every retained date gets the same slots, so the preview lists |dates| * |DaySpans| slots. */
  lemma {:induction false} TotalSlotsOfPlans(r: Request, ds: seq<int>)
    requires r.duration > 0
    ensures TotalSlots(PlansFor(r, ds)) == |ds| * |DaySpans(r)|
  {
    if ds != [] {
      var init := ds[..|ds| - 1];
      TotalSlotsOfPlans(r, init);
      PlansForSnoc(r, ds);
      if DaySpans(r) != [] {
        FlattenSnoc(PlansFor(r, init), DatePlan(ds[|ds| - 1], DaySpans(r)));
      }
      MulSucc(|init|, |DaySpans(r)|);
    }
  }

  /** The slots of date `d` as candidates are the triples on `d` whose (start, end) is a slot. */
  lemma PeriodsOnMembers(d: int, spans: seq<Span>)
    ensures forall p :: p in PeriodsOn(d, spans) <==> p.date == d && Span(p.start, p.end) in spans
  {
    forall p: Period | p.date == d && Span(p.start, p.end) in spans ensures p in PeriodsOn(d, spans) {
      var i :| 0 <= i < |spans| && spans[i] == Span(p.start, p.end);
      assert PeriodsOn(d, spans)[i] == p;
    }
  }

  lemma {:induction false} FlattenOfPlans(r: Request, ds: seq<int>)
    requires r.duration > 0
    ensures forall p :: p in Flatten(PlansFor(r, ds)) <==> p.date in ds && Span(p.start, p.end) in DaySpans(r)
  {
    if ds != [] {
      var init := ds[..|ds| - 1];
      var last := ds[|ds| - 1];
      FlattenOfPlans(r, init);
      PlansForSnoc(r, ds);
      SplitLast(ds);
      if DaySpans(r) != [] {
        FlattenSnoc(PlansFor(r, init), DatePlan(last, DaySpans(r)));
        PeriodsOnMembers(last, DaySpans(r));
      }
    }
  }

  /**
   * A triple is a candidate exactly when its date is a candidate date and it is one of the slots
   * of that date; so every candidate starts at or after start_time, lasts `duration` and ends by
   * end_time on the same date.
   */
  lemma CandidatesExactly(r: Request)
    requires r.duration > 0
    ensures forall p :: p in Candidates(r) <==> p.date in CandidateDates(r) && Span(p.start, p.end) in DaySpans(r)
    ensures forall p :: p in Candidates(r) ==>
      && r.startDate <= p.date <= r.endDate && Retained(p.date, r.excluded)
      && r.startTime <= p.start && p.end == p.start + r.duration && p.end <= r.endTime
  {
    FlattenOfPlans(r, CandidateDates(r));
    CandidateDatesExactly(r);
    SpansBounded(r.startTime, r.endTime, r.duration);
  }

  /** (date, start) strictly before (date', start'), with the earlier slot ending first. */
  predicate Before(p: Period, q: Period)
  {
    p.date < q.date || (p.date == q.date && p.end <= q.start && p.start < q.start)
  }

  predicate Ascending(ps: seq<Period>)
  {
    forall i, j :: 0 <= i < j < |ps| ==> Before(ps[i], ps[j])
  }

  lemma AppendAscending(head: seq<Period>, tail: seq<Period>)
    requires Ascending(head) && Ascending(tail)
    requires forall p, q :: p in head && q in tail ==> Before(p, q)
    ensures Ascending(head + tail)
  {
    var all := head + tail;
    forall i, j | 0 <= i < j < |all| ensures Before(all[i], all[j]) {
      if i >= |head| {
        assert all[i] == tail[i - |head|] && all[j] == tail[j - |head|];
      } else if j >= |head| {
        assert all[i] == head[i] && all[i] in head;
        assert all[j] == tail[j - |head|] && all[j] in tail;
      } else {
        assert all[i] == head[i] && all[j] == head[j];
      }
    }
  }

  lemma DayPeriodsAscending(r: Request, d: int)
    requires r.duration > 0
    ensures Ascending(PeriodsOn(d, DaySpans(r)))
    ensures forall p :: p in PeriodsOn(d, DaySpans(r)) ==> p.date == d
  {
    var spans := DaySpans(r);
    SpansAscending(r.startTime, r.endTime, r.duration);
    SpansBounded(r.startTime, r.endTime, r.duration);
    var ps := PeriodsOn(d, spans);
    forall i, j | 0 <= i < j < |ps| ensures Before(ps[i], ps[j]) {
      assert spans[i] in spans;
    }
  }

  lemma {:induction false} FlattenAscending(r: Request, ds: seq<int>)
    requires r.duration > 0
    requires forall i, j :: 0 <= i < j < |ds| ==> ds[i] < ds[j]
    ensures Ascending(Flatten(PlansFor(r, ds)))
  {
    if ds != [] {
      var init := ds[..|ds| - 1];
      var last := ds[|ds| - 1];
      FlattenAscending(r, init);
      PlansForSnoc(r, ds);
      if DaySpans(r) != [] {
        var head := Flatten(PlansFor(r, init));
        var tail := PeriodsOn(last, DaySpans(r));
        FlattenSnoc(PlansFor(r, init), DatePlan(last, DaySpans(r)));
        FlattenOfPlans(r, init);
        DayPeriodsAscending(r, last);
        forall p | p in head ensures p.date < last {
          var k :| 0 <= k < |init| && init[k] == p.date;
          assert init[k] == ds[k];
        }
        AppendAscending(head, tail);
      }
    }
  }

  /** The candidates come in ascending (date, start) order without overlap, so no two coincide. */
  lemma CandidatesAscending(r: Request)
    requires r.duration > 0
    ensures Ascending(Candidates(r))
    ensures forall i, j :: 0 <= i < j < |Candidates(r)| ==> Candidates(r)[i] != Candidates(r)[j]
  {
    CandidateDatesExactly(r);
    FlattenAscending(r, CandidateDates(r));
  }

  /**
   * On success the preview lists only dates with slots, and as many slots as there are
   * candidates: |candidate dates| * ((end_time - start_time) / duration) when the window is not
   * negative, and none otherwise.
   */
  lemma PreviewCounts(r: Request)
    requires Preview(r).Success?
    ensures forall p :: p in Preview(r).value ==> |p.slots| > 0 && p.date in CandidateDates(r)
    ensures TotalSlots(Preview(r).value) == |Candidates(r)|
    ensures TotalSlots(Preview(r).value) ==
      |CandidateDates(r)| * (if r.startTime <= r.endTime then (r.endTime - r.startTime) / r.duration else 0)
  {
    PlansForExactly(r, CandidateDates(r));
    PlansCount(r);
  }

  /** The slot count of the candidate dates, both as candidates and by the division. */
  lemma PlansCount(r: Request)
    requires r.duration > 0
    ensures TotalSlots(PlansFor(r, CandidateDates(r))) == |Candidates(r)|
    ensures TotalSlots(PlansFor(r, CandidateDates(r))) ==
      |CandidateDates(r)| * (if r.startTime <= r.endTime then (r.endTime - r.startTime) / r.duration else 0)
  {
    var ds := CandidateDates(r);
    FlattenLength(PlansFor(r, ds));
    TotalSlotsOfPlans(r, ds);
    SpansCount(r.startTime, r.endTime, r.duration);
  }

  // ---------------------------------------------------------------------------------------------
  // The preview handler

  /** The first loop of the preview: walk the dates, keep the retained ones. */
  method CollectDates(r: Request) returns (res: Result<seq<int>, GenError>)
    requires Parsed(r)
    ensures res == if DateLoopOverflows(r) then Failure(Overflow) else Success(CandidateDates(r))
  {
    var dates: seq<int> := [];
    var current := r.startDate;
    while current <= r.endDate
      invariant r.startDate <= current <= MaxOrdinal
      invariant current <= r.endDate + 1 || current == r.startDate
      invariant dates == DatesThrough(r, current - 1)
    {
      if Retained(current, r.excluded) {
        dates := dates + [current];
      }
      if current == MaxOrdinal {
        return Failure(Overflow);
      }
      current := current + 1;
    }
    return Success(dates);
  }

  /** The inner loop of the preview for one date: cut slots until the next would pass end_time. */
  method CutSlots(r: Request, d: int) returns (res: Result<seq<Span>, GenError>)
    requires Parsed(r) && r.duration > 0 && IsDate(d)
    ensures res == if DayOverflows(r, d) then Failure(Overflow) else Success(DaySpans(r))
  {
    var slots: seq<Span> := [];
    var cursor := r.startTime;
    while true
      invariant r.startTime <= cursor
      invariant cursor == r.startTime || cursor <= r.endTime
      invariant slots + SpansFrom(cursor, r.endTime, r.duration) == DaySpans(r)
      invariant FinalCursor(cursor, r.endTime, r.duration) == FinalCursor(r.startTime, r.endTime, r.duration)
      decreases r.endTime - cursor
    {
      if AddOverflows(d, cursor, r.duration) {
        return Failure(Overflow);
      }
      if !(cursor + r.duration <= r.endTime) {
        assert SpansFrom(cursor, r.endTime, r.duration) == [] && FinalCursor(cursor, r.endTime, r.duration) == cursor;
        assert slots == DaySpans(r);
        break;
      }
      slots := slots + [Span(cursor, cursor + r.duration)];
      cursor := cursor + r.duration;
    }
    return Success(slots);
  }

  /**
   * create_bulk_slots on POST: the admin check, then (a check the handler lacks) the rejection
   * of a non-positive duration, then the candidate dates and each date's slots; dates without
   * slots are left out.
   */
  method PreviewBulk(actor: Role, r: Request) returns (res: Result<seq<DatePlan>, GenError>)
    requires Parsed(r)
    ensures res == if actor != Admin then Failure(NotAdmin) else Preview(r)
  {
    if actor != Admin {
      return Failure(NotAdmin);
    }
    if r.duration <= 0 {
      return Failure(InvalidDuration);
    }
    var datesRes := CollectDates(r);
    if datesRes.Failure? {
      return Failure(datesRes.error);
    }
    var dates := datesRes.value;
    CandidateDatesExactly(r);
    var plans: seq<DatePlan> := [];
    for i := 0 to |dates|
      invariant plans == PlansFor(r, dates[..i])
      invariant forall j :: 0 <= j < i ==> !DayOverflows(r, dates[j])
    {
      assert dates[..i + 1][..i] == dates[..i];
      assert dates[i] in CandidateDates(r);
      var slotsRes := CutSlots(r, dates[i]);
      if slotsRes.Failure? {
        return Failure(Overflow);
      }
      if slotsRes.value != [] {
        plans := plans + [DatePlan(dates[i], slotsRes.value)];
      }
    }
    assert dates[..|dates|] == dates;
    return Success(plans);
  }

  // ---------------------------------------------------------------------------------------------
  // The slot loop as written, for any duration

  /**
   * The per-date loop's test and step as the handlers write them, for any integer duration,
   * without the OverflowError of its test (see CutSlots), allowed at most `budget` iterations:
   * None when the budget is spent and the loop test still holds.
   */
  function LoopAsWritten(cursor: int, endTime: int, duration: int, budget: nat): (res: Option<seq<Span>>)
    ensures res.Some? ==> forall s :: s in res.value ==> s.end == s.start + duration && s.end <= endTime
    decreases budget
  {
    if !(cursor + duration <= endTime) then Some([])
    else if budget == 0 then None
    else
      match LoopAsWritten(cursor + duration, endTime, duration, budget - 1)
      case None => None
      case Some(rest) => Some([Span(cursor, cursor + duration)] + rest)
  }

  /** With duration 0 and start_time <= end_time the loop never stops, whatever the budget. */
  lemma {:induction false} ZeroDurationNeverStops(cursor: int, endTime: int, budget: nat)
    requires cursor <= endTime
    ensures LoopAsWritten(cursor, endTime, 0, budget) == None
  {
    if budget > 0 {
      ZeroDurationNeverStops(cursor, endTime, budget - 1);
    }
  }

  /** For a positive duration and enough budget the loop as written yields SpansFrom. */
  lemma {:induction false} LoopAsWrittenAgrees(cursor: int, endTime: int, duration: int, budget: nat)
    requires duration > 0
    requires budget >= |SpansFrom(cursor, endTime, duration)|
    ensures LoopAsWritten(cursor, endTime, duration, budget) == Some(SpansFrom(cursor, endTime, duration))
    decreases budget
  {
    if cursor + duration <= endTime {
      LoopAsWrittenAgrees(cursor + duration, endTime, duration, budget - 1);
    }
  }

  /** 09:00 to 11:00 in 60-minute slots gives 09:00-10:00 and 10:00-11:00, and the loop stops at 11:00. */
  lemma ExampleSpans(r: Request)
    requires r.startTime == 540 && r.endTime == 660 && r.duration == 60
    ensures DaySpans(r) == [Span(540, 600), Span(600, 660)]
    ensures FinalCursor(540, 660, 60) == 660
  {
    assert SpansFrom(660, 660, 60) == [];
    assert SpansFrom(600, 660, 60) == [Span(600, 660)];
  }

  /** 2024-01-01 is a Monday and 2024-01-02 a Tuesday; excluding "monday" leaves the Tuesday. */
  lemma ExampleDates(r: Request)
    requires r.startDate == 738886 && r.endDate == 738887 && (r.excluded == [] || r.excluded == ["monday"])
    ensures CandidateDates(r) == if r.excluded == [] then [738886, 738887] else [738887]
  {
    assert DayName(738886) == "monday" && DayName(738887) == "tuesday";
    assert DatesThrough(r, 738885) == [];
    assert Retained(738886, r.excluded) <==> r.excluded == [];
    assert Retained(738887, r.excluded);
    assert DatesThrough(r, 738886) == if r.excluded == [] then [738886] else [];
    assert DatesThrough(r, 738887) == DatesThrough(r, 738886) + [738887];
  }

  /** Both dates end their last slot test at 11:00 plus an hour, far from datetime.max. */
  lemma ExampleNoOverflow(r: Request)
    requires r.startDate == 738886 && r.endDate == 738887 && r.startTime == 540 && r.endTime == 660 && r.duration == 60
    ensures !DateLoopOverflows(r) && !SlotOverflow(r)
  {
    ExampleSpans(r);
    CandidateDatesExactly(r);
    forall d | d in CandidateDates(r) ensures !DayOverflows(r, d) {
      assert d <= 738887;
    }
  }

  /**
   * A worked request: 2024-01-01 (a Monday) to 2024-01-02, 09:00 to 11:00 in 60-minute slots,
   * gives two slots on each date; excluding "monday" leaves only the Tuesday.
   */
  lemma TwoDayExample()
    ensures Preview(Request(738886, 738887, 540, 660, 60, [])) ==
      Success([DatePlan(738886, [Span(540, 600), Span(600, 660)]), DatePlan(738887, [Span(540, 600), Span(600, 660)])])
    ensures Preview(Request(738886, 738887, 540, 660, 60, ["monday"])) ==
      Success([DatePlan(738887, [Span(540, 600), Span(600, 660)])])
  {
    var r := Request(738886, 738887, 540, 660, 60, []);
    var r' := Request(738886, 738887, 540, 660, 60, ["monday"]);
    var spans := [Span(540, 600), Span(600, 660)];
    ExampleSpans(r);
    ExampleSpans(r');
    ExampleDates(r);
    ExampleDates(r');
    ExampleNoOverflow(r);
    ExampleNoOverflow(r');
    assert [738886, 738887][..1] == [738886];
    assert PlansFor(r, [738886]) == [DatePlan(738886, spans)];
    assert PlansFor(r, [738886, 738887]) == [DatePlan(738886, spans), DatePlan(738887, spans)];
    assert PlansFor(r', [738887]) == [DatePlan(738887, spans)];
  }
}
