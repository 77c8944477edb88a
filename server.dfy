/**
 * The request handling of `ReviewAnalyzerServer.__call__` (server.py) over the
 * process-wide `reviews` list and `valid_locations` set.
 *
 * GET lists the filtered reviews with their sentiment, sorted by descending
 * compound score; POST validates a submission (location first, then body) and
 * either refuses it with 400, changing nothing, or appends a new review.
 */
module Server {
  import opened Wrappers
  import opened Dates
  import opened Subsequences
  import opened Filtering
  import opened Listing

  /** A decoded query string or form body: each field name with its values, in order. */
  type Query = map<string, seq<string>>

  /** What `parse_qs` returns never maps a name to an empty list of values. */
  predicate WellFormedQuery(q: Query) {
    forall name :: name in q ==> |q[name]| > 0
  }

  /** `q.get(name, [None])[0]`: the first value given for `name`, if any. */
  function FirstValue(q: Query, name: string): (r: Option<string>)
    requires name in q ==> |q[name]| > 0
    ensures r.Some? <==> name in q
    ensures r.Some? ==> r.value == q[name][0] && r.value in q[name]
  {
    if name in q then Some(q[name][0]) else None
  }

  /** The GET outcome: 200 with the records, or the `ValueError` that escapes `filter_reviews`. */
  datatype GetResponse = Listed(records: seq<Record>) | Raised(error: FilterError)

  /** The POST outcome: 400 with an empty body, or 201 with the review created. */
  datatype PostResponse = BadRequest | Created(review: Review)

  /** Which check refused a submission; both give the same 400 response. */
  datatype Rejection = UnknownLocation | EmptyBody

  /**
   * The POST checks in the order the handler runs them: the location must
   * already be a valid location, then the body must be non-empty.
   */
  function Validate(form: Query, locations: set<string>): (r: Option<Rejection>)
    requires WellFormedQuery(form)
    ensures r.None? <==>
              FirstValue(form, "Location").Some? && FirstValue(form, "Location").value in locations &&
              FirstValue(form, "ReviewBody").Some? && FirstValue(form, "ReviewBody").value != ""
    ensures r == Some(EmptyBody) ==>
              FirstValue(form, "Location").Some? && FirstValue(form, "Location").value in locations
  {
    var loc := FirstValue(form, "Location");
    var body := FirstValue(form, "ReviewBody");
    if loc.None? || loc.value !in locations then Some(UnknownLocation)
    else if body.None? || body.value == "" then Some(EmptyBody)
    else None
  }

  /** The server's state as a value: the `reviews` list and the `valid_locations` set. */
  datatype Store = Store(reviews: seq<Review>, validLocations: set<string>)

  /** The distinct locations of some reviews. */
  function LocationsOf(rs: seq<Review>): set<string> {
    set r | r in rs :: r.location
  }

  /** The valid locations are exactly the locations of the stored reviews. */
  predicate Consistent(st: Store) {
    st.validLocations == LocationsOf(st.reviews)
  }

  predicate UniqueIds(rs: seq<Review>) {
    forall i, j :: 0 <= i < j < |rs| ==> rs[i].reviewId != rs[j].reviewId
  }

  predicate FreshId(rs: seq<Review>, id: string) {
    forall r :: r in rs ==> r.reviewId != id
  }

  /** What a POST with decoded `form` does to the store, given the id and clock reading it uses. */
  function Ingest(st: Store, form: Query, freshId: string, now: DateTime): (r: (PostResponse, Store))
    requires WellFormedQuery(form) && ValidClock(now)
    ensures r.0.BadRequest? <==> Validate(form, st.validLocations).Some?
    ensures r.0.BadRequest? ==> r.1 == st
    ensures r.0.Created? ==>
              r.1.reviews == st.reviews + [r.0.review] && r.0.review.reviewId == freshId &&
              r.0.review.location in st.validLocations && r.0.review.reviewBody != ""
  {
    if Validate(form, st.validLocations).Some? then (BadRequest, st)
    else
      var loc := FirstValue(form, "Location").value;
      var review := Review(freshId, FirstValue(form, "ReviewBody").value, loc, FormatTimestamp(now));
      (Created(review), Store(st.reviews + [review], st.validLocations + {loc}))
  }

  /**
   * What a GET with decoded `query` answers over the reviews `rs`: the error
   * filtering raises, or the filtered reviews' records stably sorted by
   * descending compound.
   */
  ghost predicate ListsAsSpecified(rs: seq<Review>, score: string -> Sentiment, query: Query, resp: GetResponse)
    requires WellFormedQuery(query)
  {
    match FilterReviews(rs, FirstValue(query, "location"), FirstValue(query, "start_date"), FirstValue(query, "end_date"))
    case Err(e) => resp == Raised(e)
    case Ok(filtered) => resp.Listed? && IsStableSortDesc(resp.records, Annotated(filtered, score))
  }

  /** A decoded request: its method, its decoded query string and its decoded form body. */
  datatype Request = Request(requestMethod: string, query: Query, form: Query)

  /** What `__call__` returns: a GET or POST answer, or `None` for any other method. */
  datatype Response = GetAnswer(get: GetResponse) | PostAnswer(post: PostResponse) | NoAnswer

  class ReviewAnalyzerServer {
    /** The module-level `reviews` list. */
    var reviews: seq<Review>
    /** The module-level `valid_locations` set. */
    var validLocations: set<string>
    /** The sentiment analyser's `polarity_scores`. */
    const score: string -> Sentiment

    ghost function State(): Store
      reads this
    {
      Store(reviews, validLocations)
    }

    /**
     * The invariant every request keeps: the valid locations are exactly the
     * locations of stored reviews (see `LocationIsReviewed` for what that
     * gives a caller).
     */
    ghost predicate Valid()
      reads this
    {
      Consistent(State())
    }

    /** Start-up: the initial reviews, and as valid locations the locations they name. */
    constructor (initial: seq<Review>, score: string -> Sentiment)
      ensures Valid()
      ensures reviews == initial && validLocations == LocationsOf(initial) && this.score == score
    {
      reviews := initial;
      validLocations := set r | r in initial :: r.location;
      this.score := score;
    }

    /** The GET branch: filter, attach sentiment, sort in place, answer. */
    method Get(query: Query) returns (resp: GetResponse)
      requires WellFormedQuery(query)
      ensures ListsAsSpecified(reviews, score, query, resp)
    {
      var loc := FirstValue(query, "location");
      var startDate := FirstValue(query, "start_date");
      var endDate := FirstValue(query, "end_date");
      var filtered := FilterReviews(reviews, loc, startDate, endDate);
      if filtered.Err? {
        return Raised(filtered.error);
      }
      var rs := filtered.value;
      var results := new Record[|rs|];
      for i := 0 to |rs|
        invariant forall k :: 0 <= k < i ==> results[k] == AsRecord(rs[k], score)
      {
        results[i] := AsRecord(rs[i], score);
      }
      assert results[..] == Annotated(rs, score);
      ghost var perm := SortByCompoundDesc(results);
      assert StablyRanks(results[..], Annotated(rs, score), perm);
      resp := Listed(results[..]);
    }

    /** The POST branch: validate, then append the review and record its location. */
    method Post(form: Query, freshId: string, now: DateTime) returns (resp: PostResponse)
      requires Valid() && WellFormedQuery(form) && ValidClock(now)
      requires FreshId(reviews, freshId)
      modifies this
      ensures Valid()
      ensures (resp, State()) == Ingest(old(State()), form, freshId, now)
      ensures resp.BadRequest? ==> reviews == old(reviews) && validLocations == old(validLocations)
      ensures resp.Created? ==> reviews == old(reviews) + [resp.review]
      ensures validLocations == old(validLocations)
      ensures UniqueIds(old(reviews)) ==> UniqueIds(reviews)
    {
      var reviewBody := FirstValue(form, "ReviewBody");
      var loc := FirstValue(form, "Location");
      if loc.None? || loc.value !in validLocations {
        return BadRequest;
      }
      if reviewBody.None? || reviewBody.value == "" {
        return BadRequest;
      }
      var review := Review(freshId, reviewBody.value, loc.value, FormatTimestamp(now));
      IngestKeepsConsistent(old(State()), form, freshId, now);
      if UniqueIds(reviews) {
        IngestKeepsIdsUnique(old(State()), form, freshId, now);
      }
      reviews := reviews + [review];
      validLocations := validLocations + {loc.value};
      resp := Created(review);
    }

    /** `__call__`: dispatch on the request method. */
    method Call(request: Request, freshId: string, now: DateTime) returns (resp: Response)
      requires Valid() && WellFormedQuery(request.query) && WellFormedQuery(request.form) && ValidClock(now)
      requires FreshId(reviews, freshId)
      modifies this
      ensures Valid()
      ensures request.requestMethod == "GET" ==>
                resp.GetAnswer? && ListsAsSpecified(reviews, score, request.query, resp.get) &&
                unchanged(this)
      ensures request.requestMethod == "POST" ==>
                resp.PostAnswer? && (resp.post, State()) == Ingest(old(State()), request.form, freshId, now)
      ensures request.requestMethod != "GET" && request.requestMethod != "POST" ==>
                resp == NoAnswer && unchanged(this)
    {
      if request.requestMethod == "GET" {
        var answer := Get(request.query);
        return GetAnswer(answer);
      }
      if request.requestMethod == "POST" {
        var answer := Post(request.form, freshId, now);
        return PostAnswer(answer);
      }
      resp := NoAnswer;
    }
  }

  /**
   * In a consistent store every valid location names at least one stored
   * review, and every stored review's location is valid.
   */
  lemma LocationIsReviewed(st: Store, loc: string)
    requires Consistent(st)
    ensures loc in st.validLocations <==> exists r :: r in st.reviews && r.location == loc
  {
  }

  /**
   * On a consistent store, a GET by a valid, non-empty location lists at least one
   * record, at that location: the location filter never comes back empty.
   */
  lemma ValidLocationIsListed(st: Store, loc: string, score: string -> Sentiment, resp: GetResponse)
    requires Consistent(st) && loc in st.validLocations && loc != ""
    requires ListsAsSpecified(st.reviews, score, map["location" := [loc]], resp)
    ensures resp.Listed? && |resp.records| > 0
    ensures forall rec :: rec in resp.records ==> rec.location == loc
  {
    var query := map["location" := [loc]];
    assert FirstValue(query, "location") == Some(loc);
    assert FirstValue(query, "start_date") == None && FirstValue(query, "end_date") == None;
    var r :| r in st.reviews && r.location == loc;
    KeepMembers(st.reviews, AtLocation(loc), r);
    var filtered := FilterReviews(st.reviews, Some(loc), None, None).value;
    var recs := Annotated(filtered, score);
    assert forall x :: x in resp.records <==> x in recs by {
      StableSortProperties(resp.records, recs);
      SameMembers(resp.records, recs);
    }
    AnnotatedHas(filtered, score, r);
    forall rec | rec in resp.records ensures rec.location == loc {
      var k :| 0 <= k < |recs| && recs[k] == rec;
      assert ReviewOf(recs[k]) == filtered[k] && filtered[k] in filtered;
    }
  }

  // ---------------------------------------------------------------------------
  // Properties of a POST

  /** Adding a review adds its location to the locations of the list. */
  lemma {:induction false} LocationsOfAppend(rs: seq<Review>, r: Review)
    ensures LocationsOf(rs + [r]) == LocationsOf(rs) + {r.location}
  {
    var both := rs + [r];
    forall l | l in LocationsOf(both) ensures l in LocationsOf(rs) + {r.location} {
      var x :| x in both && x.location == l;
      if x != r {
        assert x in rs;
      }
    }
    forall l | l in LocationsOf(rs) + {r.location} ensures l in LocationsOf(both) {
      if l == r.location {
        assert both[|rs|] == r;
      } else {
        var x :| x in rs && x.location == l;
        assert x in both;
      }
    }
  }

  /**
   * A location that is not yet valid is refused whatever the body, and the
   * store is left as it was: a POST can never introduce a new location.
   */
  lemma UnknownLocationRefused(st: Store, form: Query, freshId: string, now: DateTime)
    requires WellFormedQuery(form) && ValidClock(now)
    requires FirstValue(form, "Location").None? || FirstValue(form, "Location").value !in st.validLocations
    ensures Validate(form, st.validLocations) == Some(UnknownLocation)
    ensures Ingest(st, form, freshId, now) == (BadRequest, st)
  {
  }

  /** A known location with a missing or empty body is refused, and the store is left as it was. */
  lemma EmptyBodyRefused(st: Store, form: Query, freshId: string, now: DateTime)
    requires WellFormedQuery(form) && ValidClock(now)
    requires FirstValue(form, "Location").Some? && FirstValue(form, "Location").value in st.validLocations
    requires FirstValue(form, "ReviewBody").None? || FirstValue(form, "ReviewBody").value == ""
    ensures Validate(form, st.validLocations) == Some(EmptyBody)
    ensures Ingest(st, form, freshId, now) == (BadRequest, st)
  {
  }

  /**
   * An accepted POST appends exactly one review at the end, carrying the
   * submitted body and location, the fresh id and the current time, and leaves
   * every earlier review as it was.
   */
  lemma AcceptedPostAppends(st: Store, form: Query, freshId: string, now: DateTime)
    requires WellFormedQuery(form) && ValidClock(now)
    requires Validate(form, st.validLocations).None?
    ensures var (resp, st') := Ingest(st, form, freshId, now);
      resp.Created? &&
      resp.review == Review(freshId, FirstValue(form, "ReviewBody").value, FirstValue(form, "Location").value,
                            FormatTimestamp(now)) &&
      resp.review.reviewBody != "" &&
      |st'.reviews| == |st.reviews| + 1 &&
      st'.reviews[..|st.reviews|] == st.reviews &&
      st'.reviews[|st.reviews|] == resp.review
  {
    var st' := Ingest(st, form, freshId, now).1;
    assert st'.reviews[..|st.reviews|] == st.reviews;
  }

  /** No POST changes the set of valid locations: the location it adds was already in it. */
  lemma IngestKeepsLocations(st: Store, form: Query, freshId: string, now: DateTime)
    requires WellFormedQuery(form) && ValidClock(now)
    ensures Ingest(st, form, freshId, now).1.validLocations == st.validLocations
  {
  }

  /** A POST keeps the valid locations equal to the locations of the stored reviews. */
  lemma IngestKeepsConsistent(st: Store, form: Query, freshId: string, now: DateTime)
    requires WellFormedQuery(form) && ValidClock(now)
    requires Consistent(st)
    ensures Consistent(Ingest(st, form, freshId, now).1)
  {
    if Validate(form, st.validLocations).None? {
      var (resp, st') := Ingest(st, form, freshId, now);
      LocationsOfAppend(st.reviews, resp.review);
    }
  }

  /** With a fresh id, a POST keeps review ids unique. */
  lemma IngestKeepsIdsUnique(st: Store, form: Query, freshId: string, now: DateTime)
    requires WellFormedQuery(form) && ValidClock(now)
    requires UniqueIds(st.reviews) && FreshId(st.reviews, freshId)
    ensures UniqueIds(Ingest(st, form, freshId, now).1.reviews)
  {
    var rs := Ingest(st, form, freshId, now).1.reviews;
    if Validate(form, st.validLocations).None? {
      forall i, j | 0 <= i < j < |rs| ensures rs[i].reviewId != rs[j].reviewId {
        if j == |st.reviews| {
          assert rs[i] in st.reviews;
        }
      }
    }
  }

  // ---------------------------------------------------------------------------
  // A POST followed by a GET

  /** The records of a list contain the record of each review in it. */
  lemma AnnotatedHas(rs: seq<Review>, score: string -> Sentiment, r: Review)
    requires r in rs
    ensures AsRecord(r, score) in Annotated(rs, score)
  {
    var k :| 0 <= k < |rs| && rs[k] == r;
    assert Annotated(rs, score)[k] == AsRecord(r, score);
  }

  /**
   * A review a POST created is listed by a later GET filtered by its location,
   * with the sentiment the analyser gives its body.
   */
  lemma IngestedReviewIsListed(st: Store, form: Query, freshId: string, now: DateTime,
                               score: string -> Sentiment, resp: GetResponse)
    requires WellFormedQuery(form) && ValidClock(now)
    requires Ingest(st, form, freshId, now).0.Created?
    requires var created := Ingest(st, form, freshId, now).0.review;
             ListsAsSpecified(Ingest(st, form, freshId, now).1.reviews, score,
                              map["location" := [created.location]], resp)
    ensures var created := Ingest(st, form, freshId, now).0.review;
            resp.Listed? &&
            Record(created.reviewId, created.reviewBody, created.location, created.timestamp,
                   score(created.reviewBody)) in resp.records
  {
    var (post, st') := Ingest(st, form, freshId, now);
    var r := post.review;
    var query := map["location" := [r.location]];
    var loc := FirstValue(query, "location");
    assert loc == Some(r.location);
    assert FirstValue(query, "start_date") == None && FirstValue(query, "end_date") == None;
    var filtered := FilterReviews(st'.reviews, loc, None, None);
    assert r in st'.reviews;
    if Given(loc) {
      KeepMembers(st'.reviews, AtLocation(r.location), r);
    }
    assert filtered.Ok? && r in filtered.value;
    AnnotatedHas(filtered.value, score, r);
    StableSortProperties(resp.records, Annotated(filtered.value, score));
    SameMembers(resp.records, Annotated(filtered.value, score));
  }

  /**
   * A review a POST created is dated the day of the POST;
   * `IngestedReviewIsFoundByDate` says when a date-bounded GET lists it.
   */
  lemma IngestedReviewIsDated(st: Store, form: Query, freshId: string, now: DateTime)
    requires WellFormedQuery(form) && ValidClock(now)
    requires Ingest(st, form, freshId, now).0.Created?
    ensures ReviewDate(Ingest(st, form, freshId, now).0.review) == Some(now.date)
  {
    StampedDateReadsBack(now);
  }

  /**
   * A GET by a created review's location and a date range covering the day of
   * the POST lists that review, unless some review at that location has a
   * timestamp whose date does not read, in which case the GET raises.
   */
  lemma IngestedReviewIsFoundByDate(st: Store, form: Query, freshId: string, now: DateTime,
                                    score: string -> Sentiment, startDate: string, endDate: string,
                                    lo: Date, hi: Date, resp: GetResponse)
    requires WellFormedQuery(form) && ValidClock(now)
    requires Ingest(st, form, freshId, now).0.Created?
    requires ParseIsoDate(startDate) == Some(lo) && ParseIsoDate(endDate) == Some(hi)
    requires NotAfter(lo, now.date) && NotAfter(now.date, hi)
    requires var created := Ingest(st, form, freshId, now).0.review;
             var query := map["location" := [created.location], "start_date" := [startDate],
                              "end_date" := [endDate]];
             ListsAsSpecified(Ingest(st, form, freshId, now).1.reviews, score, query, resp)
    ensures var (post, st') := Ingest(st, form, freshId, now);
            resp.Listed? <==> Readable(st'.reviews, Some(post.review.location), Some(startDate), Some(endDate))
    ensures resp.Listed? ==>
              var r := Ingest(st, form, freshId, now).0.review;
              Record(r.reviewId, r.reviewBody, r.location, r.timestamp, score(r.reviewBody)) in resp.records
  {
    var (post, st') := Ingest(st, form, freshId, now);
    var r := post.review;
    var query := map["location" := [r.location], "start_date" := [startDate], "end_date" := [endDate]];
    var loc := Some(r.location);
    assert FirstValue(query, "location") == loc;
    assert FirstValue(query, "start_date") == Some(startDate);
    assert FirstValue(query, "end_date") == Some(endDate);
    FilterSpec(st'.reviews, loc, Some(startDate), Some(endDate));
    var filtered := FilterReviews(st'.reviews, loc, Some(startDate), Some(endDate));
    if filtered.Ok? {
      IngestedReviewIsDated(st, form, freshId, now);
      assert r in st'.reviews;
      assert Given(Some(startDate)) && Given(Some(endDate));
      var wanted := WantedBy(loc, ReadBound(Some(startDate)), ReadBound(Some(endDate)));
      assert wanted(r);
      KeepMembers(st'.reviews, wanted, r);
      AnnotatedHas(filtered.value, score, r);
      StableSortProperties(resp.records, Annotated(filtered.value, score));
      SameMembers(resp.records, Annotated(filtered.value, score));
    }
  }

  /** The store after the POST of the Paris example. */
  lemma ParisPost(now: DateTime)
    requires ValidClock(now)
    ensures var great := Review("r1", "Great stay", "Paris", "2024-02-01 10:00:00");
            var form := map["ReviewBody" := ["Terrible"], "Location" := ["Paris"]];
            Ingest(Store([great], {"Paris"}), form, "r2", now).1.reviews ==
              [great, Review("r2", "Terrible", "Paris", FormatTimestamp(now))]
  {
    var form := map["ReviewBody" := ["Terrible"], "Location" := ["Paris"]];
    assert FirstValue(form, "Location") == Some("Paris");
    assert FirstValue(form, "ReviewBody") == Some("Terrible");
  }

  /** The GET of the Paris example keeps both reviews, in stored order, before sorting. */
  lemma ParisFilter(rs: seq<Review>)
    requires forall r :: r in rs ==> r.location == "Paris"
    ensures var query := map["location" := ["Paris"]];
            FilterReviews(rs, FirstValue(query, "location"), FirstValue(query, "start_date"),
                          FirstValue(query, "end_date")) == Ok(rs)
  {
    var query := map["location" := ["Paris"]];
    assert FirstValue(query, "location") == Some("Paris");
    assert FirstValue(query, "start_date") == None && FirstValue(query, "end_date") == None;
    KeepAll(rs, AtLocation("Paris"));
  }

  /**
   * With one stored review "Great stay" at Paris, posting "Terrible" at Paris
   * and then listing Paris gives both records, the one scored lower last (on a
   * tie, the stored one stays first).
   */
  lemma ParisExample(score: string -> Sentiment, now: DateTime, resp: GetResponse)
    requires ValidClock(now)
    requires score("Terrible").compound <= score("Great stay").compound
    requires var great := Review("r1", "Great stay", "Paris", "2024-02-01 10:00:00");
             var form := map["ReviewBody" := ["Terrible"], "Location" := ["Paris"]];
             ListsAsSpecified(Ingest(Store([great], {"Paris"}), form, "r2", now).1.reviews, score,
                              map["location" := ["Paris"]], resp)
    ensures var great := Review("r1", "Great stay", "Paris", "2024-02-01 10:00:00");
            var terrible := Review("r2", "Terrible", "Paris", FormatTimestamp(now));
            resp == Listed([AsRecord(great, score), AsRecord(terrible, score)])
  {
    var great := Review("r1", "Great stay", "Paris", "2024-02-01 10:00:00");
    var terrible := Review("r2", "Terrible", "Paris", FormatTimestamp(now));
    ParisPost(now);
    ParisFilter([great, terrible]);
    var form := map["ReviewBody" := ["Terrible"], "Location" := ["Paris"]];
    var query := map["location" := ["Paris"]];
    var rs := Ingest(Store([great], {"Paris"}), form, "r2", now).1.reviews;
    assert rs == [great, terrible];
    assert ListsAsSpecified(rs, score, query, resp);
    var inp := Annotated(rs, score);
    assert resp.Listed? && IsStableSortDesc(resp.records, inp);
    var expected := [AsRecord(great, score), AsRecord(terrible, score)];
    assert inp == expected;
    AlreadySortedIsItsSort(expected);
    StableSortUnique(resp.records, expected, inp);
  }
}
