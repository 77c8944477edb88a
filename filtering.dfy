/**
 * `ReviewAnalyzerServer.filter_reviews` (server.py): narrows the stored reviews
 * by location, then by an inclusive lower and an inclusive upper bound on the
 * calendar date of their timestamps. An argument that is `None` or empty
 * (falsy in Python) skips its stage; a bound or a stored date that does not
 * read as `%Y-%m-%d` raises `ValueError`, modelled as an `Err`.
 */
module Filtering {
  import opened Wrappers
  import opened Dates
  import opened Subsequences

  /** One stored review; every field is text, as in the dictionaries the server keeps. */
  datatype Review = Review(reviewId: string, reviewBody: string, location: string, timestamp: string)

  /** The `ValueError`s `filter_reviews` lets escape, with the text that could not be read. */
  datatype FilterError =
    | MalformedStartDate(text: string)
    | MalformedEndDate(text: string)
    | MalformedTimestamp(text: string)

  /** Python's truthiness of an optional text argument: `None` and `""` are both false. */
  predicate Given(arg: Option<string>) {
    arg.Some? && arg.value != ""
  }

  /** The calendar date of a review: the date token of its timestamp, read as `%Y-%m-%d`. */
  function ReviewDate(r: Review): (d: Option<Date>)
    ensures d.Some? ==> ValidDate(d.value) && 8 <= |DateToken(r.timestamp)| <= 10
  {
    ParseIsoDate(DateToken(r.timestamp))
  }

  function AtLocation(loc: string): Review -> bool {
    (r: Review) => r.location == loc
  }

  /** A parsed `start_date` (`From`) or `end_date` (`Until`); both are inclusive. */
  datatype Bound = From(date: Date) | Until(date: Date)

  predicate Admits(b: Bound, d: Date) {
    match b
    case From(lo) => NotAfter(lo, d)
    case Until(hi) => NotAfter(d, hi)
  }

  /** The reviews a date bound keeps: those whose date reads and lies on the right side of it. */
  function Within(b: Bound): Review -> bool {
    (r: Review) => ReviewDate(r).Some? && Admits(b, ReviewDate(r).value)
  }

  /**
   * One date comprehension: reads the date of every review in order, raising
   * at the first one that does not read, and keeps those the bound admits.
   */
  function DateStage(rs: seq<Review>, b: Bound): (r: Result<seq<Review>, FilterError>)
    ensures r.Ok? <==> forall x :: x in rs ==> ReviewDate(x).Some?
    ensures r.Ok? ==> r.value == Keep(rs, Within(b))
    ensures r.Err? ==> exists i :: 0 <= i < |rs| && ReviewDate(rs[i]).None? &&
                                   r.error == MalformedTimestamp(rs[i].timestamp) &&
                                   forall j :: 0 <= j < i ==> ReviewDate(rs[j]).Some?
  {
    if rs == [] then Ok([])
    else match ReviewDate(rs[0])
      case None => Err(MalformedTimestamp(rs[0].timestamp))
      case Some(d) =>
        var rest := DateStage(rs[1..], b);
        assert rest.Err? ==> exists i :: 1 <= i < |rs| && ReviewDate(rs[i]).None? &&
                                         rest.error == MalformedTimestamp(rs[i].timestamp) &&
                                         forall j :: 0 <= j < i ==> ReviewDate(rs[j]).Some?;
        assert forall x :: x in rs ==> x == rs[0] || x in rs[1..];
        match rest
        case Err(e) => Err(e)
        case Ok(kept) => Ok(if Admits(b, d) then [rs[0]] + kept else kept)
  }

  /** The stage for one bound argument: skipped when the argument is falsy, raising when it does not read. */
  function BoundStage(rs: seq<Review>, arg: Option<string>, isStart: bool): (r: Result<seq<Review>, FilterError>)
    ensures !Given(arg) ==> r == Ok(rs)
    ensures Given(arg) && ParseIsoDate(arg.value).None? ==>
              r == Err(if isStart then MalformedStartDate(arg.value) else MalformedEndDate(arg.value))
    ensures Given(arg) && ParseIsoDate(arg.value).Some? ==>
              (r.Ok? <==> forall x :: x in rs ==> ReviewDate(x).Some?)
    ensures r.Ok? ==> |r.value| <= |rs| && forall x :: x in r.value ==> x in rs
    ensures r.Ok? && Given(arg) ==>
              forall x :: x in r.value ==>
                ReviewDate(x).Some? &&
                if isStart then NotAfter(ParseIsoDate(arg.value).value, ReviewDate(x).value)
                else NotAfter(ReviewDate(x).value, ParseIsoDate(arg.value).value)
  {
    if !Given(arg) then Ok(rs)
    else match ParseIsoDate(arg.value)
      case None => Err(if isStart then MalformedStartDate(arg.value) else MalformedEndDate(arg.value))
      case Some(d) => DateStage(rs, if isStart then From(d) else Until(d))
  }

  /** `filter_reviews(loc, start_date, end_date)` over the stored reviews `rs`. */
  function FilterReviews(rs: seq<Review>, loc: Option<string>, startDate: Option<string>, endDate: Option<string>)
    : (r: Result<seq<Review>, FilterError>)
    ensures r.Ok? ==> |r.value| <= |rs|
    ensures r.Ok? ==> forall x :: x in r.value ==> x in rs && (Given(loc) ==> x.location == loc.value)
    ensures r.Ok? && Given(startDate) ==>
              ParseIsoDate(startDate.value).Some? &&
              forall x :: x in r.value ==>
                ReviewDate(x).Some? && NotAfter(ParseIsoDate(startDate.value).value, ReviewDate(x).value)
    ensures r.Ok? && Given(endDate) ==>
              ParseIsoDate(endDate.value).Some? &&
              forall x :: x in r.value ==>
                ReviewDate(x).Some? && NotAfter(ReviewDate(x).value, ParseIsoDate(endDate.value).value)
    ensures r.Err? && r.error.MalformedStartDate? ==>
              Given(startDate) && ParseIsoDate(startDate.value).None? && r.error.text == startDate.value
    ensures r.Err? && r.error.MalformedEndDate? ==>
              Given(endDate) && ParseIsoDate(endDate.value).None? && r.error.text == endDate.value
    ensures r.Err? && r.error.MalformedTimestamp? ==>
              (Given(startDate) || Given(endDate)) &&
              exists x :: x in rs && x.timestamp == r.error.text && ReviewDate(x).None?
  {
    var byLocation := if Given(loc) then Keep(rs, AtLocation(loc.value)) else rs;
    match BoundStage(byLocation, startDate, true)
    case Err(e) => Err(e)
    case Ok(afterStart) => BoundStage(afterStart, endDate, false)
  }

  // ---------------------------------------------------------------------------
  // What filtering means, stated once the bounds are read

  /** A bound argument once read: `None` when it is falsy or does not read. */
  function ReadBound(arg: Option<string>): Option<Date> {
    if Given(arg) then ParseIsoDate(arg.value) else None
  }

  /** A review is wanted when it passes every stage that is switched on. */
  predicate Wanted(r: Review, loc: Option<string>, lo: Option<Date>, hi: Option<Date>) {
    (Given(loc) ==> r.location == loc.value) &&
    (lo.Some? ==> ReviewDate(r).Some? && NotAfter(lo.value, ReviewDate(r).value)) &&
    (hi.Some? ==> ReviewDate(r).Some? && NotAfter(ReviewDate(r).value, hi.value))
  }

  function WantedBy(loc: Option<string>, lo: Option<Date>, hi: Option<Date>): Review -> bool {
    (r: Review) => Wanted(r, loc, lo, hi)
  }

  /**
   * When filtering does not raise: every given bound reads and, as soon as a
   * date bound is given, so does the date of every review at the location.
   */
  predicate Readable(rs: seq<Review>, loc: Option<string>, startDate: Option<string>, endDate: Option<string>) {
    (Given(startDate) ==> ParseIsoDate(startDate.value).Some?) &&
    (Given(endDate) ==> ParseIsoDate(endDate.value).Some?) &&
    ((Given(startDate) || Given(endDate)) ==>
       forall r :: r in rs && (Given(loc) ==> r.location == loc.value) ==> ReviewDate(r).Some?)
  }

  /**
   * Filtering succeeds exactly when its inputs are readable, and then gives the
   * wanted reviews in their stored order.
   */
  lemma FilterSpec(rs: seq<Review>, loc: Option<string>, startDate: Option<string>, endDate: Option<string>)
    ensures FilterReviews(rs, loc, startDate, endDate).Ok? <==> Readable(rs, loc, startDate, endDate)
    ensures FilterReviews(rs, loc, startDate, endDate).Ok? ==>
              FilterReviews(rs, loc, startDate, endDate).value ==
              Keep(rs, WantedBy(loc, ReadBound(startDate), ReadBound(endDate)))
  {
    var lo, hi := ReadBound(startDate), ReadBound(endDate);
    var locOnly := WantedBy(loc, None, None);
    var byLocation := if Given(loc) then Keep(rs, AtLocation(loc.value)) else rs;
    if Given(loc) {
      KeepAgree(rs, AtLocation(loc.value), locOnly);
    } else {
      KeepAll(rs, locOnly);
    }
    assert byLocation == Keep(rs, locOnly);
    forall r ensures r in byLocation <==> r in rs && (Given(loc) ==> r.location == loc.value) {
      KeepMembers(rs, locOnly, r);
    }

    // After the start stage: the reviews wanted with the lower bound alone.
    var fromOnly := WantedBy(loc, lo, None);
    var first := BoundStage(byLocation, startDate, true);
    if first.Ok? {
      if Given(startDate) {
        KeepTwice(rs, locOnly, Within(From(lo.value)), fromOnly);
      } else {
        KeepAgree(rs, locOnly, fromOnly);
      }
      assert first.value == Keep(rs, fromOnly);
    }

    if first.Ok? && Given(endDate) && hi.Some? {
      var second := DateStage(first.value, Until(hi.value));
      KeepTwice(rs, fromOnly, Within(Until(hi.value)), WantedBy(loc, lo, hi));
      if Given(startDate) {
        forall r | r in first.value ensures ReviewDate(r).Some? {
          KeepMembers(rs, fromOnly, r);
        }
      }
    } else if first.Ok? {
      KeepAgree(rs, fromOnly, WantedBy(loc, lo, hi));
    }
  }

  // ---------------------------------------------------------------------------
  // Consequences

  /** With no location and no date bounds (each `None` or empty), filtering returns the stored reviews as they are. */
  lemma NoArgumentsKeepAll(rs: seq<Review>, loc: Option<string>, startDate: Option<string>, endDate: Option<string>)
    requires !Given(loc) && !Given(startDate) && !Given(endDate)
    ensures FilterReviews(rs, loc, startDate, endDate) == Ok(rs)
  {
  }

  /**
   * Filtering by a location alone gives, in stored order, every occurrence of
   * every review at that location and nothing else.
   */
  lemma LocationFilterExact(rs: seq<Review>, loc: string, x: Review)
    requires loc != ""
    ensures FilterReviews(rs, Some(loc), None, None).Ok?
    ensures IsSubsequence(FilterReviews(rs, Some(loc), None, None).value, rs)
    ensures multiset(FilterReviews(rs, Some(loc), None, None).value)[x] ==
              if x.location == loc then multiset(rs)[x] else 0
  {
    KeepIsSubsequence(rs, AtLocation(loc));
    KeepMultiplicity(rs, AtLocation(loc), x);
  }

  /** Whatever filtering returns is the stored sequence with some reviews dropped. */
  lemma FilterIsSubsequence(rs: seq<Review>, loc: Option<string>, startDate: Option<string>, endDate: Option<string>)
    ensures FilterReviews(rs, loc, startDate, endDate).Ok? ==>
              IsSubsequence(FilterReviews(rs, loc, startDate, endDate).value, rs)
  {
    FilterSpec(rs, loc, startDate, endDate);
    KeepIsSubsequence(rs, WantedBy(loc, ReadBound(startDate), ReadBound(endDate)));
  }

  /**
   * Both date bounds are inclusive: a review at the location is returned
   * exactly when its date lies between them, ends included.
   */
  lemma DateRangeInclusive(rs: seq<Review>, loc: Option<string>, startDate: string, endDate: string,
                           lo: Date, hi: Date, r: Review)
    requires ParseIsoDate(startDate) == Some(lo) && ParseIsoDate(endDate) == Some(hi)
    requires forall x :: x in rs && (Given(loc) ==> x.location == loc.value) ==> ReviewDate(x).Some?
    ensures FilterReviews(rs, loc, Some(startDate), Some(endDate)).Ok?
    ensures r in FilterReviews(rs, loc, Some(startDate), Some(endDate)).value <==>
              r in rs && (Given(loc) ==> r.location == loc.value) &&
              ReviewDate(r).Some? && NotAfter(lo, ReviewDate(r).value) && NotAfter(ReviewDate(r).value, hi)
  {
    FilterSpec(rs, loc, Some(startDate), Some(endDate));
    KeepMembers(rs, WantedBy(loc, Some(lo), Some(hi)), r);
  }

  /** Only the date before the first blank counts: the time of day never changes a review's date. */
  lemma ReviewDateIgnoresTime(r: Review, day: string, time: string)
    requires ' ' !in day && r.timestamp == day + " " + time
    ensures ReviewDate(r) == ParseIsoDate(day)
  {
    TimeOfDayIgnored(day, time);
  }

  /**
   * Bad input raises rather than being skipped: a given bound that does not
   * read, or, once a date bound is given, a review at the location whose date
   * does not read.
   */
  lemma MalformedInputRaises(rs: seq<Review>, loc: Option<string>, startDate: Option<string>, endDate: Option<string>)
    ensures Given(startDate) && ParseIsoDate(startDate.value).None? ==>
              FilterReviews(rs, loc, startDate, endDate) == Err(MalformedStartDate(startDate.value))
    ensures Given(endDate) && ParseIsoDate(endDate.value).None? ==>
              FilterReviews(rs, loc, startDate, endDate).Err?
    ensures (Given(startDate) || Given(endDate)) &&
            (exists x :: x in rs && (Given(loc) ==> x.location == loc.value) && ReviewDate(x).None?) ==>
              FilterReviews(rs, loc, startDate, endDate).Err?
  {
    FilterSpec(rs, loc, startDate, endDate);
  }

  /** The end bound of the example below reads as 5 January 2024. */
  lemma JanuaryFifthReads()
    ensures ParseIsoDate("2024-01-05") == Some(Date(2024, 1, 5))
  {
    assert "2024-01-05"[5..] == "01-05" && "01-05"[3..] == "05";
    assert MonthField("01-05") == Some((1, "05"));
    assert DayField("05") == Some(5);
  }

  /** A review written late on the last day of the range is still returned. */
  lemma EndOfDayStillMatches(r: Review)
    requires r.timestamp == "2024-01-05 23:59:00"
    ensures FilterReviews([r], None, None, Some("2024-01-05")) == Ok([r])
  {
    var day := "2024-01-05";
    JanuaryFifthReads();
    assert r.timestamp == day + " " + "23:59:00";
    ReviewDateIgnoresTime(r, day, "23:59:00");
    var b := Until(Date(2024, 1, 5));
    assert ReviewDate(r) == Some(b.date) && Admits(b, b.date);
    assert Keep([r], Within(b)) == [r] by {
      assert [r][1..] == [] && Keep([], Within(b)) == [];
    }
    assert BoundStage([r], Some(day), false) == DateStage([r], b);
  }
}
