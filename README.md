# Craiova city guide — verified model of its data transforms and state updates

The city guide is a Next.js application. Apart from its pages' markup it has a small logical core, and this project models that core in Dafny:

- **Event agenda** (`groupEventsByDay` on the events page). The events are sorted by timestamp and bucketed by UTC calendar day. Each bucket is sorted by its time of day (`HH:MM` read as minutes). The buckets are then ordered by day. The model is imperative where the source is: the bucketing `for` loop and the per-bucket `forEach` are method loops over a `map`. `Array.prototype.sort` is a library call, modelled by the stable sort `Sorting.SortBy`.
- **New-event form** (`formSchema` and `handleSubmit`). The model covers:
  - the 24-hour time pattern `^([0-1]?[0-9]|2[0-3]):[0-5][0-9]$`, checked character by character;
  - the minimum-length and minimum-value rules;
  - the field-keyed error map, where the last issue for a field wins;
  - the page state, as a class.
- **Preference table** (`/api/preferences`). This is a class holding the table's rows. `POST` answers 401 or 400, deletes the caller's matching likes for `unlike`, and otherwise appends one row. `GET` lists the caller's rows.
- **Suggestions** (`/api/suggestions`). Pure selection: the category of the place named by the caller's *first* like row, `"restaurant"` otherwise, and then the first five catalog places of that category.
- **Small UI state.** The like toggle of the suggestions page, the reviews list (prepend, filled stars, author name) and the light/dark switch.

Shared modules:

- `Basics` holds `Option` and the sequence helpers `Filter`, `Take` and `Count`, which stand for JavaScript's `filter` and SQL's `WHERE`/`LIMIT`.
- `Text` holds `split` and the subset of `Number(string)` the code relies on.
- `Sorting` is ECMAScript's stable `Array.prototype.sort`, written as an insertion sort, with its sortedness, permutation and stability lemmas.

The day key is the day number `timestamp div 86400000` rather than the string `toISOString().split("T")[0]`. The two are in one-to-one correspondence, and `new Date(key)` of such a string is UTC midnight of that day, so the final sort by `new Date(day).getTime()` orders by day number.

Behaviour of the code worth noting:

- Suggestions do **not** exclude places the user already liked. `LikedPlaceSuggested` exhibits one being suggested.
- The target category comes from the first like row *of any kind*. A like of an event has a NULL place id, so `"restaurant"` is used even when later rows like places (`FirstLikeOnly`). The code does not skip like rows without a place id.
- Interactions include `unlike`, which is never stored: it deletes the caller's matching likes.
- The day key is the UTC day, as `toISOString` gives it.

## Model

| member | source | states |
|---|---|---|
| EventGrouping.GroupEventsByDay | src/app/events/page.tsx:20-60 | The result is empty exactly when the input is. Laid end to end, the groups are a permutation of the input: nothing is dropped or duplicated. No group is empty. Every event is in the group of its own UTC day. Days strictly ascend, so each day appears once. A group whose times all parse is in non-decreasing minutes order. Events with equal day and time keep the order of the stable timestamp sort. A group none of whose times parses holds its day's events in timestamp order. The input is a value and is not changed. |
| EventGrouping.BucketByDay | src/app/events/page.tsx:26-32 | After the `for ... of` loop, three things hold. The keys are exactly the days of the events. The key insertion order is strictly ascending. Each bucket is non-empty and holds that day's events in date-sorted order. |
| EventGrouping.PushNewDay | src/app/events/page.tsx:28-31 | The first event of an unseen day creates its bucket and appends the day to the insertion order, which stays ascending because the input is date-sorted. |
| EventGrouping.PushOntoDay | src/app/events/page.tsx:31 | An event whose day already has a bucket is appended to that bucket; the key order is unchanged. |
| EventGrouping.IndexedSummary | src/app/events/page.tsx:26-32 | The loop's invariant in the form the later steps use: distinct ascending keys, each covering every event of its day, and no keys for an empty input. |
| EventGrouping.SortEachDay | src/app/events/page.tsx:34-51 | The `forEach` keeps the same keys and leaves every bucket sorted by its time comparator. |
| EventGrouping.CompareTimes | src/app/events/page.tsx:37-48 | If either time has no `:`, the comparator returns 0: such a time compares equal to everything, with no error. If both times parse, the result is negative exactly when the first time of day is earlier. |
| EventGrouping.Clock | src/app/events/page.tsx:38-46 | A time with no `:` has no second piece, so it gives no minutes value. |
| EventGrouping.FormTimeParses | src/app/events/page.tsx:38-48 | A time accepted by the form's pattern parses here to `hour * 60 + minute`, a value inside one day. |
| EventGrouping.FormTimesTimed | src/app/events/page.tsx:37-48 | Events whose times all came through the form form a bucket that is sorted by time. |
| EventGrouping.BucketFacts | src/app/events/page.tsx:35-49 | A sorted bucket holds only its own day's events, as a permutation of them. When its times parse, it is ordered by minutes, and equal times keep their date-sorted order. |
| EventGrouping.UntimedBucketKept | src/app/events/page.tsx:34-51 | In a bucket where no time parses, the model's comparator is 0 on every pair, and the per-day sort leaves the bucket in its date-sorted order. In the source every comparison is 0, and this order is fixed, when no time of the bucket contains `:`. |
| EventGrouping.GroupFacts | src/app/events/page.tsx:37-49 | Every group holds only its own day. Each timed group is sorted and stable by time. A group none of whose times parses is its day's events in timestamp order. |
| EventGrouping.GroupsPermutation | src/app/events/page.tsx:22-32 | When the days are distinct and cover every event, the flattened groups are a permutation of the date-sorted events. |
| EventGrouping.DateSortStable | src/app/events/page.tsx:22-24 | The timestamp sort, `SortBy` with `CompareDates` (the comparator of line 23), is stable: events with the same timestamp keep their input order. |
| EventGrouping.DayOfMonotone | src/app/events/page.tsx:27 | `DayOf`, the UTC day of line 27 that `DayKey` reads from an event, never puts a later timestamp on an earlier day. |
| EventGrouping.CompareDays | src/app/events/page.tsx:53-57 | Comparing `new Date(day).getTime()` values is negative exactly when the first day is earlier. |
| EventGrouping.Entries | src/app/events/page.tsx:53 | `Object.entries` lists one (day, bucket) pair per key, in key insertion order. |
| EventGrouping.LayoutAscending | src/app/events/page.tsx:53-59 | Entries built from ascending insertion order are ascending by day. |
| EventGrouping.LayoutNonEmpty | src/app/events/page.tsx:28-31 | Every entry is non-empty, because a key is only created together with an event. |
| EventGrouping.SortEntries | src/app/events/page.tsx:53-57 | The final sort gives a permutation of the entries that is ordered by day. Entries already in ascending day order are left as they are. |
| Sorting.SortBySorted | src/app/events/page.tsx:22-24 | `SortBy` (the sort of lines 22-24 and 37) with a comparator that is consistent with a key gives a sequence in non-decreasing key order. |
| Sorting.SortByStable | src/app/events/page.tsx:22-24 | Under such a comparator, the elements of each key value keep their relative order (a stable sort). |
| Sorting.SortByMembers | src/app/events/page.tsx:37 | A sort keeps exactly the same elements. |
| Sorting.ConcatFilterPermutation | src/app/events/page.tsx:26-32 | Taking each of a set of distinct keys in turn and concatenating its elements gives a permutation of the whole sequence, provided the keys cover every element. |
| Text.Split | src/app/events/page.tsx:38 | `split(":")` has at least one piece. No piece contains the separator. The first piece is the prefix before the first separator, or the whole string when there is none. |
| Text.JoinSplit | src/app/events/page.tsx:38 | Joining the pieces with the separator gives back the original string. |
| Text.NumberOfDigits | src/app/events/page.tsx:38 | `NumberValue`, the model of `Number` at line 38, gives for a string of digits the integer it writes. |
| EventForm.TimeTextMatches | src/app/events/new/page.tsx:36-38 | `MatchesTime`, the regular expression of line 38, accepts every `h:mm` and `hh:mm` with the hour below 24 and the minutes below 60. From the accepted text one reads back that hour and minute. |
| EventForm.MatchedIsTimeText | src/app/events/new/page.tsx:36-38 | Conversely, every accepted string is such a time: an hour 0-9, 00-19 or 20-23, and minutes 00-59. |
| EventForm.MatchedRanges | src/app/events/new/page.tsx:38 | An accepted string has an hour below 24, one-digit in the short form, and minutes below 60. |
| EventForm.RejectedTimes | src/app/events/new/page.tsx:38 | `24:00`, `7:5` and the empty string are rejected. `7:05`, `07:05` and `23:59` are accepted. |
| EventForm.Position | src/app/events/new/page.tsx:31-42 | Every field has a place in the schema. |
| EventForm.Issues | src/app/events/new/page.tsx:31-42 | `Passes` holds the rules of lines 32-41 and `Message` their messages. Parsing raises no issue exactly when the title and location have at least 2 characters, the description at least 10, the time matches the pattern, `maxParticipants` is at least 1, the photo is non-empty and the link is a URL. |
| EventForm.IssuesOfFailing | src/app/events/new/page.tsx:31-42 | Every issue belongs to a failing field and carries that rule's message. Every failing field raises its issue. |
| EventForm.LastMessagesKeys | src/app/events/new/page.tsx:90-95 | `LastMessages` is the map the `forEach` of lines 90-95 leaves. Its keys are exactly the first path components of the issues. Each key maps to the message of one of its issues. |
| EventForm.LastMessagesValue | src/app/events/new/page.tsx:91-94 | For a key named by several issues, the message of the last one wins. |
| EventForm.ErrorMap | src/app/events/new/page.tsx:90-95 | The `forEach` that fills `newErrors` computes the last-wins map of the issues. |
| EventForm.FormErrorKeys | src/app/events/new/page.tsx:89-96 | After a failed parse, the error map holds only fields whose rule fails, each with that rule's message. |
| EventForm.FormErrorShown | src/app/events/new/page.tsx:89-96 | Every field whose rule fails appears in the error map with its message. |
| EventForm.NewEventForm.constructor | src/app/events/new/page.tsx:49-62 | The page starts empty: no errors, not submitting, one participant, and today's date. |
| EventForm.NewEventForm.HandleSubmit | src/app/events/new/page.tsx:64-103 | Without a user e-mail address, nothing changes and nothing is sent. Otherwise valid values clear the errors and send the request with that address. Invalid values set the error map from the issues and send nothing. In both of those cases the page ends not submitting. |
| Preferences.PreferenceTable.Post | src/app/api/preferences/route.ts:14-62 | With no signed-in user (`SignedIn`, line 17) the answer is 401, and with both ids falsy (`Truthy`, line 27) it is 400; an id of 0 counts as missing, and neither case changes the table. `unlike` answers success and deletes exactly the rows the delete conditions match; it inserts nothing. Any other type appends exactly one row carrying the given fields and the next id, and keeps every existing row. The row ids stay distinct. |
| Preferences.UnlikeConditions | src/app/api/preferences/route.ts:35-44 | The conditions are the caller's id and type `like`, plus the place id when it is truthy, or else the event id. So when both ids are given, only the place id is used. |
| Preferences.UnlikePlace | src/app/api/preferences/route.ts:34-46 | `DeleteWhere`, the `DELETE ... WHERE` of line 46, removes on an `unlike` with a truthy place id exactly this caller's `like` rows of that place, and no others. |
| Preferences.UnlikeEvent | src/app/api/preferences/route.ts:40-46 | `DeleteWhere` removes on an `unlike` with no truthy place id exactly this caller's `like` rows of that event. |
| Preferences.UnlikeSparesOthers | src/app/api/preferences/route.ts:35-38 | An `unlike` never removes another user's row or a row that is not a like. |
| Preferences.UnlikeIdempotent | src/app/api/preferences/route.ts:46 | Repeating a delete removes nothing more. |
| Preferences.DeleteKeepsIds | src/app/api/preferences/route.ts:46 | Deleting rows keeps the row ids strictly increasing, so they stay distinct. |
| Preferences.RowsOf | src/app/api/preferences/route.ts:82-85 | The rows listed are exactly the rows whose user id is the caller's. |
| Preferences.PreferenceTable.Get | src/app/api/preferences/route.ts:72-87 | With no signed-in user the answer is 401. Otherwise it lists `RowsOf` the table: exactly the caller's rows, each once, in table order. |
| Preferences.RowsOfCounts | src/app/api/preferences/route.ts:82-85 | Each of the caller's rows is listed as many times as it occurs in the table, and no other row is listed. |
| Suggestions.Suggest | src/app/api/suggestions/route.ts:9-41 | The answer is 401 exactly when no user is signed in (`SignedIn`, line 10), and then no suggestion is computed. Otherwise at most 5 places are returned, all from the catalog and all of the target category. |
| Suggestions.LikeRows | src/app/api/suggestions/route.ts:17-27 | The rows consulted are exactly the caller's `like` rows. |
| Suggestions.SuggestedAreFirstMatches | src/app/api/suggestions/route.ts:35-39 | `InCategory` is the `WHERE` of line 38. The suggestions are the leading catalog places of the target category, in catalog order: five of them when there are at least five, otherwise all of them. |
| Suggestions.TargetOfLikedPlace | src/app/api/suggestions/route.ts:29-38 | `TargetCategory` models lines 29-38. Suppose the first like row has a truthy place id, the place exists and its category is set. Then the target is that place's category. |
| Suggestions.TargetFromLikedPlace | src/app/api/suggestions/route.ts:29-38 | A target other than `"restaurant"` comes only from a catalog place of that category. That place is named by the first like row's truthy place id. |
| Suggestions.NoLikesMeansRestaurants | src/app/api/suggestions/route.ts:29-38 | With no like rows the target is `"restaurant"`. |
| Suggestions.FirstLikeOnly | src/app/api/suggestions/route.ts:29-33 | Only the first like row is consulted. If it has no place id, as an event like does not, the target is `"restaurant"` whatever later rows like. |
| Suggestions.LikedPlaceSuggested | src/app/api/suggestions/route.ts:35-39 | Already-liked places are not excluded: a liked place that leads the catalog is suggested. |
| Suggestions.EmptyCatalog | src/app/api/suggestions/route.ts:35-41 | An empty catalog gives an empty list, not an error. |
| LikeToggle.Toggle | src/app/suggestions/page.tsx:58-63 | The update keeps every existing key and adds the clicked one. |
| LikeToggle.ToggleFlips | src/app/suggestions/page.tsx:59-62 | Toggling an id flips its liked status, as `IsLiked` (`!!likes[id]`, line 79) reads it. |
| LikeToggle.ToggleKeepsOthers | src/app/suggestions/page.tsx:60 | Toggling one id leaves every other id's entry as it was, whether present or absent. |
| LikeToggle.ToggleTwice | src/app/suggestions/page.tsx:58-63 | Toggling the same id twice restores every id's liked status. |
| LikeToggle.ClicksParity | src/app/suggestions/page.tsx:56-63 | After any sequence of clicks, an id's liked status is its initial status flipped once per click on it. Starting from the initial empty record (read at line 79), an id is liked exactly when it was clicked an odd number of times. An id never clicked reads as not liked. |
| LikeToggle.LabelShowsLike | src/app/suggestions/page.tsx:104-109 | The caption is "Apreciat", and the button variant is "default", exactly when the item is liked. |
| Reviews.AddReview | src/app/_components/ReviewsSection.tsx:28-30 | A new review goes in front. The list grows by one, and the old reviews follow in their order. |
| Reviews.FilledStars | src/app/_components/ReviewsSection.tsx:43-52 | Of the five stars that `Stars` renders, `min(5, max(0, rating))` are filled. |
| Reviews.AuthorName | src/app/_components/ReviewsSection.tsx:55 | The author shown is the e-mail prefix before the first `@`, or the whole string when there is no `@`. |
| Reviews.Render | src/app/_components/ReviewsSection.tsx:35-63 | "No reviews yet." is shown exactly when the list is empty. Otherwise there is one card per review, in order, with its stars, author and comment. |
| Reviews.AddedReviewShown | src/app/_components/ReviewsSection.tsx:28-36 | After a review is added, the list shows cards. The new review comes first, followed by the old cards unchanged. |
| ThemeSwitch.CurrentTheme | src/app/_components/ThemeSwitch.tsx:18 | The effective theme is `systemTheme` when the theme is `"system"`, and the theme itself otherwise. |
| ThemeSwitch.ClickSetsOpposite | src/app/_components/ThemeSwitch.tsx:22 | `ClickTarget`, the click handler: a click sets `"light"` when the effective theme is dark and `"dark"` otherwise, including when it is undefined. It never sets `"system"`, so after the click the set theme is the effective one. |
| ThemeSwitch.ClicksAlternate | src/app/_components/ThemeSwitch.tsx:22 | Once a click has set a theme, later clicks alternate between light and dark. |
| ThemeSwitch.LabelIffDark | src/app/_components/ThemeSwitch.tsx:25 | Once mounted, the button's caption, `Label`, reads "Light Mode" exactly when the effective theme is dark. |
| ThemeSwitch.Render | src/app/_components/ThemeSwitch.tsx:14-27 | Nothing is rendered before the component is mounted. |

## Left out

- Database, authentication, HTTP, React rendering, the router and the clock are inputs or are left out.
  - The signed-in user id and e-mail address are `Option` parameters.
  - A table is a sequence in the order the database happens to return it: the queries have no `ORDER BY`, so "first row" and "first five" are taken over that given order.
  - `new Date()` is the constructor's `today`.
- The `500` answers of the three handlers are left out. Their `catch` blocks answer an exception from `auth()`, from `request.json()` on a body that is not JSON (or a `null` body, whose destructuring throws), or from a failing database call; none of these is modelled.
- Preferences.PreferenceTable.Post does not model a database rejection of the insert.
- The interaction type is one of the four kinds the request type declares. The request body is cast, not validated, so other strings are not modelled.
- EventForm.NewEventForm.HandleSubmit models only the payload the request carries: the `fetch` outcome, the thrown error when it fails, and the navigation to `/events` are left out. It also does not model the brief `isSubmitting = true` while the request is in flight.
- The schema library's `.url()` check is a library call, so the model takes its outcome as the input `linkIsUrl`.
- `z.date()` always passes, because the date comes from a calendar picker. Its message is the library default, "Invalid date", which can therefore never appear.
- `z.coerce.number()` is modelled on integers. A `NaN` or fractional participant count, and the library's own "expected number" message, are left out.
- Text.NumberValue models only what `Number(string)` does on the strings that matter here: blank strings give 0, and an optional sign followed by decimal digits gives that integer. Every other syntax is treated as `NaN`, which is weaker than JavaScript for hexadecimal (`0x`), binary (`0b`) and octal (`0o`) forms, exponent and decimal-point forms, and `Infinity`. Only ASCII white space is trimmed (`Text.IsSpace`): JavaScript also trims U+00A0, U+FEFF, U+2028, U+2029 and the other space separators, so `Number("\u00A0")` is 0 there but `NaN` here.
- NaN and floating-point arithmetic in the time comparator are left out (malformed minute fields). A time that does not parse compares equal to everything.
  - EventGrouping.GroupEventsByDay consequently proves sortedness and stability only for buckets whose times all parse, and the date order only for buckets none of whose times parses; for mixed buckets it states only conservation and grouping.
  - In the source, a comparison returns 0 when either time has no `:`, and `NaN` when both have one but a piece is not a number (`"12:ab"` against `"ab:30"`). ECMAScript fixes the result of the sort only when the comparator is consistent: no comparison is `NaN`, and no time without `:` sits in a bucket beside two parsed times with different minutes. Otherwise the order is implementation-defined. The model fixes one such order, that of its insertion sort, and proves only conservation and grouping there.
  - The model's comparator reads every unparsed time as comparing equal. `EventGrouping.UntimedBucketKept` proves that a bucket none of whose times parses keeps its date-sorted order, and `EventGrouping.GroupEventsByDay` states it for such groups. This matches the source when no time in the bucket contains `:`, since then every comparison is 0.
- Strings are sequences of characters. JavaScript's UTF-16 `length` for the minimum-length rules is not modelled, and neither is locale date formatting.
- EventForm.HasKey treats an issue as keyed when its path is non-empty. `err.path[0]` is falsy only for an empty path or an empty key, and this flat schema has no empty key.
- Photo upload (`UploadButton`), the map pages, the contact mail route and the thin insert routes for events, reviews and places have no logic beyond I/O, so they are not modelled.
- The mock recommendation cards of the suggestions page and their icons are markup. Only the like state is modelled.
- Reviews.Stars takes an integer rating; a fractional rating, which would fill `ceil(rating)` stars, is not modelled.
