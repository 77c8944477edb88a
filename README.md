# Review analyzer server: a Dafny model of its request handling

The repository is a small WSGI service (`server.py`) over an in-memory list of
customer reviews. It has two requests:

- **GET** lists reviews. It can filter them by location and by an inclusive
  calendar-date range, attaches a sentiment score to each one, and sorts them
  by descending `compound` score.
- **POST** ingests a review. It checks the submitted location against the set
  of valid locations, then checks that the body is non-empty. It then either
  answers 400 and changes nothing, or appends the new review.

This project models that core in Dafny and proves what it promises.

- `wrappers.dfy`, module `Wrappers`: `Option` and `Result`. `Result` stands for
  the `ValueError`s the source lets escape.
- `dates.dfy`, module `Dates`: `datetime.strptime(text, '%Y-%m-%d')` as
  CPython's `_strptime` implements it. The format becomes the pattern
  `\d\d\d\d-(1[0-2]|0[1-9]|[1-9])-(3[01]|[12]\d|0[1-9]|[1-9]| [1-9])`. Text
  left after the match is an error. So is a date that `datetime` refuses
  (year 0, or a day past the end of its month). The module also models the
  timestamps POST writes with `strftime('%Y-%m-%d %H:%M:%S')`, and the date
  token `Timestamp.split(' ')[0]`.
- `subsequences.dfy`, module `Subsequences`: `Keep(s, p)` means the list
  comprehension `[x for x in s if p(x)]`. The module also defines the
  subsequence relation.
- `filtering.dfy`, module `Filtering`: `filter_reviews` as `FilterReviews`. It
  has three stages in the source's order: location, then start date, then end
  date. A falsy argument (`None` or `""`) skips its stage. Each date
  comprehension raises at the first stored timestamp it cannot read.
- `listing.dfy`, module `Listing`: the GET records and the stable in-place
  sort.
  - `results.sort(key=compound, reverse=True)` is an insertion sort on an
    `array`. A ghost index permutation shows that the result is the stable
    descending sort.
  - `StableSortUnique` shows that a stable descending sort has only one
    possible result. So the model's sort and Python's Timsort give the same
    list.
- `server.dfy`, module `Server`: the class `ReviewAnalyzerServer`. It holds the
  module-level `reviews` list and `valid_locations` set as fields, and the
  analyser as a constant.
  - `Get`, `Post` and `Call` model the GET branch, the POST branch and the
    dispatch of `__call__`.
  - `Ingest` (a function) and `ListsAsSpecified` (a predicate) are their
    specifications. The lemmas that span several requests use them.

Three behaviours of the code are worth stating, because its shape does not
make them obvious:

- `valid_locations.add(loc)` (server.py:136) suggests the set was meant to
  grow. But the location has already passed `loc not in valid_locations`
  (server.py:114), so the add never changes the set. `IngestKeepsLocations`
  proves this, and `Consistent` (the valid locations equal the stored
  reviews' locations) is an invariant of the server.
- A malformed date bound is not the only parse error. Once a date bound is
  given, a stored review at the requested location whose timestamp does not
  read as `%Y-%m-%d` also raises (`MalformedInputRaises`).
- `strptime` accepts more than zero-padded `YYYY-MM-DD`. It also reads
  `2024-1-5` and `2024-01- 5` as January 5. It refuses trailing text, so a
  bound of `2024-01-05 10:00` raises.

## Model

| member | source | states |
|---|---|---|
| `Dates.ParseIsoDate` | server.py:36 | text that `strptime('%Y-%m-%d')` accepts gives a real calendar date (year 1–9999, month 1–12, day within its month) from a text of 8 to 10 characters; all else is `None`, where Python raises; `ParseIsoDateExact` says which text reads as which date |
| `Dates.ParseIsoDateExact` | server.py:36 | `strptime` reads a text as a date exactly when the date is one `datetime` accepts and the text spells it: four year digits, `-`, the month in two digits or (below 10) one, `-`, the day in two digits or (below 10) one digit alone or after a blank, and nothing more; every other text raises |
| `Dates.ParseIsoDateSound` | server.py:36 | a text read as a date spells that date in one of those forms |
| `Dates.ParseIsoDateComplete` | server.py:36 | every such spelling of an accepted date reads as that date |
| `Dates.LooseSpellingsRead` | server.py:36 | `2024-1-5` and `2024-01- 5` both read as 5 January 2024 |
| `Dates.RefusedTexts` | server.py:36 | `2024-13-01`, `2023-02-29`, `0000-01-01` and `2024-01-05 10:00` are all refused |
| `Dates.MonthField` | server.py:36 | the `%m` field followed by `-` reads a month from 1 to 12 and leaves strictly less text to read; `MonthFieldSpelling` and `MonthFieldReads` tie the month to its spelling |
| `Dates.MonthFieldSpelling` | server.py:36 | the text before the `-` where the month field stops spells the month it reads |
| `Dates.MonthFieldReads` | server.py:36 | every spelling of a month from 1 to 12, followed by `-`, reads as that month, leaving the rest of the text |
| `Dates.DayField` | server.py:36 | the `%d` field, which must end the text, reads a day from 1 to 31 written in one or two characters; `DayFieldSpelling` and `DayFieldReads` tie the day to its spelling |
| `Dates.DayFieldSpelling` | server.py:36 | a text the day field reads spells the day it reads (`5`, ` 5` or `05` for day 5) |
| `Dates.DayFieldReads` | server.py:36 | every spelling of a day from 1 to 31 reads as that day |
| `Dates.NotAfter` | server.py:39-45 | the `>=` and `<=` between parsed dates: on valid dates it is exactly the order of their day keys |
| `Dates.DateOrderTotal` | server.py:39-45 | any two dates compare one way or the other, and two dates each not after the other are equal |
| `Dates.FormatTimestamp` | server.py:132 | `strftime('%Y-%m-%d %H:%M:%S')` writes 19 characters: digits, with `-` at positions 4 and 7, a blank at 10 and `:` at 13 and 16 |
| `Dates.ParseFormatRoundTrip` | server.py:132 | a valid date written as zero-padded `%Y-%m-%d` reads back as the same date |
| `Dates.DateToken` | server.py:39 | `ts.split(' ')[0]` is the longest blank-free prefix of `ts`: it has no blank, and a blank follows it unless it is all of `ts` |
| `Dates.TimeOfDayIgnored` | server.py:39 | whatever follows the first blank of a timestamp (the time of day) never affects its date token |
| `Dates.StampedDateReadsBack` | server.py:132 | the `%Y-%m-%d %H:%M:%S` timestamp a POST writes has the written day as its date token, and that token parses back to the same date |
| `Subsequences.Keep` | server.py:34 | a list comprehension returns no more elements than its source, and each one is from the source and meets the condition |
| `Subsequences.KeepIsSubsequence` | server.py:34 | a comprehension's result keeps the source order (a subsequence of it) |
| `Subsequences.KeepMultiplicity` | server.py:34 | a comprehension keeps every occurrence of an element that meets the condition and no occurrence of one that does not |
| `Filtering.ReviewDate` | server.py:39 | a review's date, when its date token reads, is a valid calendar date read from a token of 8 to 10 characters |
| `Filtering.DateStage` | server.py:37-40 | one date comprehension succeeds exactly when every review's date token reads; it then keeps the reviews whose date the bound admits, in order; otherwise it raises for the first review whose timestamp does not read |
| `Filtering.BoundStage` | server.py:35-46 | a falsy bound skips its stage; a given bound that does not read raises `MalformedStartDate` or `MalformedEndDate` with its text; a bound that reads succeeds exactly when every date reads, and then keeps only stored reviews on the right side of the bound |
| `Filtering.FilterReviews` | server.py:31-47 | `filter_reviews` returns only stored reviews, no more of them than stored, each at the location when one is given and within every given bound; a start or end error names a given bound that does not read, and a timestamp error names the timestamp of a stored review whose date does not read, raised only when a bound is given |
| `Filtering.FilterSpec` | server.py:31-47 | `filter_reviews` succeeds exactly when every given bound reads and, if a date bound is given, every review at the location has a readable date; it then returns, in stored order, the reviews that pass all active stages |
| `Filtering.NoArgumentsKeepAll` | server.py:32-35 | with location, start and end each `None` or empty, the result is the whole stored list in its order |
| `Filtering.LocationFilterExact` | server.py:33-34 | filtering by a non-empty location alone returns, in stored order, every occurrence of every review at that location and nothing else |
| `Filtering.FilterIsSubsequence` | server.py:31-47 | any successful filter result is a subsequence of the stored reviews |
| `Filtering.DateRangeInclusive` | server.py:35-46 | with both bounds, a review at the location is returned exactly when start ≤ its date ≤ end, both ends included |
| `Filtering.ReviewDateIgnoresTime` | server.py:39 | `Dates.TimeOfDayIgnored` applied to a review: a review stamped `D time` has the date of `D`, whatever the time |
| `Filtering.MalformedInputRaises` | server.py:36-45 | a start date that does not read raises `MalformedStartDate` with its text; an end date that does not read raises; an unreadable timestamp at the location raises once a date bound is given |
| `Filtering.EndOfDayStillMatches` | server.py:41-46 | a review stamped `2024-01-05 23:59:00` is returned for `end_date=2024-01-05` |
| `Listing.AsRecord` | server.py:82-88 | a review's record keeps its four fields (the review can be read back from it) and carries the analyser's scores of its body |
| `Listing.Annotated` | server.py:79-88 | the records before sorting: one per filtered review, in the same order, each keeping the review's fields and scored by its body |
| `Listing.SortByCompoundDesc` | server.py:90 | the in-place sort leaves the array a permutation of its old contents, in non-increasing compound order, and equal compounds keep their earlier order |
| `Listing.StableSortUnique` | server.py:90 | two lists that are both stable descending sorts of the same records are equal |
| `Listing.StableSortProperties` | server.py:90 | a stable descending sort is a permutation of its input (equal multisets), in non-increasing compound order, and for every compound value the records with that value come out in exactly their input order |
| `Listing.AlreadySortedIsItsSort` | server.py:90 | a list already in non-increasing compound order is its own stable sort |
| `Server.FirstValue` | server.py:68-72 | `get(name, [None])[0]` has a value exactly when the name was given, and that value is the first one given for the name |
| `Server.Validate` | server.py:111-126 | a submission passes exactly when its location is given and valid and its body is given and non-empty; a body refusal happens only once the location has passed |
| `Server.Ingest` | server.py:111-136 | a POST refuses exactly when validation fails, and then leaves the store as it was; otherwise it appends exactly the created review, which carries the fresh id, a location already valid and a non-empty body |
| `Server.ReviewAnalyzerServer.constructor` | server.py:23-24 | the server starts with the given reviews, and its valid locations are exactly the locations those reviews name |
| `Server.ReviewAnalyzerServer.Get` | server.py:65-90 | GET answers the error filtering raises, or the filtered reviews as records (the four fields unchanged plus the analyser's scores of the body), stably sorted by descending compound; it changes no state |
| `Server.ReviewAnalyzerServer.Post` | server.py:111-136 | POST refuses with 400 and changes nothing when the location is missing or not valid, or the body is missing or empty; otherwise it appends exactly one review (fresh id, body, location, current timestamp); valid locations never change, and unique ids stay unique |
| `Server.ReviewAnalyzerServer.Call` | server.py:60-145 | GET goes to the list handler and changes nothing; POST goes to the ingest handler; any other method answers nothing and changes nothing |
| `Server.LocationIsReviewed` | server.py:24 | in a consistent store a location is valid exactly when some stored review is at it |
| `Server.ValidLocationIsListed` | server.py:33-34 | on a consistent store, a GET by a valid, non-empty location lists at least one record, and every record it lists is at that location |
| `Server.UnknownLocationRefused` | server.py:114-119 | a location that is missing or not yet valid is refused first, whatever the body, and the store stays as it was |
| `Server.EmptyBodyRefused` | server.py:121-126 | a valid location with a missing or empty body is refused, and the store stays as it was |
| `Server.AcceptedPostAppends` | server.py:128-135 | an accepted POST creates the review from the submitted body and location, the fresh id and the current time; the list grows by exactly that one review at the end, and every earlier review is unchanged |
| `Server.IngestKeepsLocations` | server.py:136 | no POST changes the set of valid locations |
| `Server.IngestKeepsConsistent` | server.py:135-136 | a POST keeps the valid locations equal to the locations of the stored reviews |
| `Server.IngestKeepsIdsUnique` | server.py:129-135 | with a fresh id, a POST keeps review ids unique |
| `Server.IngestedReviewIsListed` | server.py:135 | after a POST creates a review, a GET by its location lists it with the sentiment the analyser gives its body |
| `Server.IngestedReviewIsDated` | server.py:132 | a created review's timestamp reads back, through its date token, as the day of the POST |
| `Server.IngestedReviewIsFoundByDate` | server.py:31-47 | a GET by a created review's location and a date range covering the day of the POST answers a list exactly when every review at that location has a readable date (otherwise it raises), and that list holds the created review's record |
| `Server.ParisExample` | server.py:77-90 | with "Great stay" stored at Paris, posting "Terrible" at Paris and then listing Paris gives exactly the two records, the one with the lower compound last and the stored one first on a tie |

## Left out

- The NLTK downloads, the VADER `SentimentIntensityAnalyzer` and `analyze_sentiment` (server.py:14-21, 49-51). The scorer is a function value the server is built with (`score`). Its floating-point scores are `real`s, and only `compound` is used, as the sort key.
- The pandas CSV bootstrap (server.py:23). The initial reviews are a constructor parameter, and every field is text. Missing (NaN) cells and non-text timestamps are not modelled.
- `parse_qs`/`urlparse` decoding of the query string and of the form body (server.py:65, 107). The handlers take the decoded map from name to values. `WellFormedQuery` states that no name maps to an empty list, which `parse_qs` guarantees. `parse_qs` drops blank values, so an empty parameter arrives as absent.
- `uuid.uuid4()` and `datetime.now()` (server.py:129, 132). The id and the clock reading are parameters. The id is required not to be in use, and the clock reading is required to be a valid time in a four-digit year (how `strftime` writes `%Y` below year 1000 depends on the platform).
- JSON serialisation, `Content-Type`/`Content-Length` headers, `start_response`, and reading `wsgi.input` with `CONTENT_LENGTH` (server.py:92-100, 105-106, 115-126, 138-145). A non-numeric `CONTENT_LENGTH` raising in `int` is part of this I/O.
- An exception escaping GET is a `Raised` answer. What the WSGI server then sends (a 500 response) is not modelled.
- The `wsgiref` server, the `PORT` variable, `print` calls, and the unused `adj_noun_pairs_count` and `stop_words` globals (server.py:19, 21, 74, 109, 147-152).
- Dates.ParseIsoDate: only ASCII digits are modelled. Python's `\d` and `int` also accept other Unicode decimal digits.
- Filtering.FilterReviews: returns a value. With no active stage, the source returns the global `reviews` list object itself, an alias. That aliasing is not captured.
- Listing.SortByCompoundDesc: an insertion sort stands for CPython's Timsort. Both produce the unique stable descending order (`StableSortUnique`), but the comparisons made and the intermediate states are not Timsort's.
- Concurrency: requests are handled one at a time, as with the single-threaded `wsgiref` server.
