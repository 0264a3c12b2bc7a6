# snips RMV skill: trip answer to spoken text, in Dafny

A Dafny model of the core of the `App` class in `action-s710-rmv.py`. The file
is a voice-assistant action that answers "when is the next train to X?" from
the public-transport planner of the Rhein-Main-Verkehrsverbund (RMV).

The model covers the path from the decoded planner answers to the spoken German sentence:

- **Slot cleanup.** The departure-time slot is cleaned down to a clock time.
- **Station searches.** The model chooses the city that qualifies each station search and builds the search text.
- **Location answer.** It reads the location answer. This is modelled twice: as written, where some malformed answers raise, and in the corrected form.
- **Leg list.** It extracts the first trip's leg list. Each raw leg is normalised into a stop record, and one bad leg rejects the whole list.
- **Response.** The response is built one clause per stop, with the short mode that stops after the first ride.

Modules:

- `Wrappers`: `Option`.
- `PyText`: the Python string operations used: `split`, `join`, `strip`, `str(int)` and `in` on strings.
- `Json`: the decoded value. Python's `key in v`, `v[key]` and `v[0]` return `None` where Python would raise.
- `Legs`: the `Stop` record, `process_leg_list` and the leg-list extraction.
- `Speech`: `get_train_title` and `make_response`.
- `Query`: the slot, the search text, the city choice and the location answer.
- `Scenarios`: whole itineraries, from raw legs to the spoken answer.

`process_leg_list` and `make_response` are loops in the source. They are
modelled as the methods `Legs.ProcessLegList` and `Speech.MakeResponse`. Each
method is proved equal to a recursive specification function:
`Legs.NormalizeLegs` for the first and `Speech.Response` for the second. The
lemmas state the source's promises about those functions. The rest of the
core is made of expressions, so it is modelled as functions. `App` keeps no
state that these methods change. Its configuration values (`short_info`,
`rmv_homecity`, `rmv_homecity_only`, `rmv_homestation`) are therefore
parameters.

One might expect short mode, which speaks only up to the first ride, never to
say "Umsteigen". The code picks the change phrasing by the stop's index
(line 324), so in short mode a ride after a walk is still announced as a
change. The model follows the code, and `Speech.ShortModeWalkThenRide` states it.

## Model

| member | source | states |
|---|---|---|
| Legs.NormalizeLeg | action-s710-rmv.py:281-298 | one leg normalises exactly when every field it reads is present and usable; times are the truncated raw times, the stations are copied; direction, train (stripped) and distance (decimal text of `dist`) are present exactly when the raw key is; the category is the stripped `Product.catOutL` when that key exists, else `"walk"` exactly when `type == "WALK"`, else absent |
| Legs.TrainOf | action-s710-rmv.py:287-288 | `train` is present exactly when the raw leg has `name`, and is then that name stripped; a non-string name raises |
| Legs.CategoryOf | action-s710-rmv.py:290-293 | the category is the stripped `Product.catOutL` whenever that key exists (even for a walk); otherwise it is present exactly when `type == "WALK"`, and is then `"walk"`; a product on which `in` raises makes the leg fail |
| Legs.DistanceOf | action-s710-rmv.py:295-296 | `distance` is present exactly when the raw leg has `dist`, and for an integer it is `str(dist)` |
| Legs.StopLabelsStripped | action-s710-rmv.py:287-293 | the train and category of a normalised stop carry no surrounding whitespace |
| Wrappers.AllSome | action-s710-rmv.py:278-307 | applying a step to every element either fails because some element fails, or gives one result per element, in order |
| Legs.NormalizeLegs | action-s710-rmv.py:277-307 | all or nothing: the list fails only because some leg fails, and otherwise gives one stop per leg, in the input order, each the normalisation of its leg |
| Legs.NormalizeLegsAllOrNothing | action-s710-rmv.py:277-307 | the list normalises exactly when every leg is well formed (has its four required fields with usable types) |
| Legs.ProcessLegList | action-s710-rmv.py:277-307 | the loop that appends one stop per leg and returns `None` at the first bad leg computes exactly `NormalizeLegs` |
| Legs.OneBadLegSpoilsAll | action-s710-rmv.py:280-305 | a single leg that fails to normalise makes the whole list `None`, never a partial list |
| Legs.MissingFieldRejectsList | action-s710-rmv.py:280-302 | a leg missing `Origin.time`, `Origin.name`, `Destination.time` or `Destination.name` rejects the whole list |
| Legs.StopsDetermineList | action-s710-rmv.py:278-307 | a list of stops with one normalised stop per leg, in order, is exactly the result |
| Legs.SingleLeg | action-s710-rmv.py:277-307 | a one-leg list gives the one stop of that leg |
| Legs.TwoLegs | action-s710-rmv.py:277-307 | a two-leg list gives the two stops in order |
| Legs.TruncateTimeIsClockPrefix | action-s710-rmv.py:282 | the truncated time is a prefix of the raw time with at most one colon; it is the whole text, or it ends just before the second colon |
| Legs.TruncateTimeDropsSeconds | action-s710-rmv.py:282 | `HH:MM:<anything>` truncates to `HH:MM` whatever follows the second colon |
| Legs.LegListStops | action-s710-rmv.py:272-280 | a list value is normalised as above; any other `Leg` value never gives a non-empty list of stops |
| Legs.FirstLegList | action-s710-rmv.py:266-270 | `Trip[0].LegList.Leg` is found exactly when the answer has that shape, and it is that value |
| Legs.FirstLegListOfTripAnswer | action-s710-rmv.py:267 | an answer built around a leg list yields that leg list |
| Legs.TripStops | action-s710-rmv.py:266-272 | an answer without the `Trip[0].LegList.Leg` shape gives no stops; an answer with it gives exactly the stops of that leg list, whatever else the answer holds |
| Legs.TripStopsOfTripAnswer | action-s710-rmv.py:266-272 | an answer built from a list of legs gives exactly the normalised legs |
| Speech.TrainTitle | action-s710-rmv.py:340-344 | the title is `category + " " + train` for `U-Bahn` and `S-Bahn`; for every other category it is the train unchanged; it always ends with the train |
| Speech.FirstRideFrom | action-s710-rmv.py:318-330 | the index of the first stop from `i` on that is not a walk: all stops before it are walks |
| Speech.Spoken | action-s710-rmv.py:318-330 | full mode gives every stop a clause; short mode gives clauses only to the walks before the first ride and to that ride, so at most one ride is spoken |
| Speech.Response | action-s710-rmv.py:312-316 | the answer is `None` exactly for an empty list of stops |
| Speech.ResponseEndsWithArrival | action-s710-rmv.py:315-334 | in either mode a non-empty answer ends with `"Ankunft um " + arrival + " Uhr."` of the last stop |
| Speech.MakeResponse | action-s710-rmv.py:312-335 | the loop with its `+=` and its short-mode `break` computes exactly `Response` |
| Speech.ClauseShapes | action-s710-rmv.py:321-327 | a walk clause starts with the distance and ends with `". "`; a ride at index 0 starts with its title and ends with its departure time and `" Uhr. "`; a ride at a later index starts with `"Umsteigen an "` |
| Speech.WalkClauseShape | action-s710-rmv.py:321-322 | a walk clause starts with the distance and ends with `". "` |
| Speech.RideClauseShape | action-s710-rmv.py:324-325 | a ride clause at index 0 starts with the train title and ends with the departure time and `" Uhr. "` |
| Speech.ArrivalClauseReadBack | action-s710-rmv.py:334 | the arrival clause is `"Ankunft um "`, the arrival time and `" Uhr."`, so the time can be read back from it |
| Speech.ChangeClauseByIndex | action-s710-rmv.py:324-327 | a ride at a later index is the index-0 ride clause prefixed by `"Umsteigen an " + station + " zu "` |
| Speech.ClausesStep | action-s710-rmv.py:318-327 | one more stop appends exactly its own clause |
| Speech.ClausesPrefix | action-s710-rmv.py:318-327 | the clauses of the first stops are a prefix of the clauses of more stops |
| Speech.ClausesOfSamePrefix | action-s710-rmv.py:318-327 | the clauses of the first `n` stops depend only on those stops |
| Speech.WalkFirstClause | action-s710-rmv.py:321-322 | an itinerary starting with a walk is spoken starting with `distance + " Meter laufen bis " + dest_station + ". "` |
| Speech.ShortModeIgnoresLaterStops | action-s710-rmv.py:329-334 | in short mode, two itineraries that agree up to their first ride and arrive at the same time get the same answer |
| Speech.SameFirstRide | action-s710-rmv.py:318-330 | itineraries that agree up to the first ride of one have their first ride at the same index |
| Speech.FirstRideIsFirst | action-s710-rmv.py:318-330 | a ride preceded only by walks is the first ride |
| Speech.ShortModeWalkThenRide | action-s710-rmv.py:321-334 | in short mode a walk then a ride gives the walk clause, a change clause for the ride and the arrival |
| Speech.SingleRideResponse | action-s710-rmv.py:321-334 | a single ride is answered `title + " Richtung " + direction + " um " + time + " Uhr. "` and the arrival, in either mode |
| Speech.WalkThenRideText | action-s710-rmv.py:321-334 | the short-mode text of a walk and a ride, written out in full |
| Query.CleanSlot | action-s710-rmv.py:150 | the cleaned slot never holds a space |
| Query.CleanSlotOfTimestamp | action-s710-rmv.py:150 | `"<date> <clock> +<zone>"` cleans to `<clock>`, whatever the date and zone |
| Query.CleanSlotOfClock | action-s710-rmv.py:150 | a bare clock time is left unchanged |
| Query.CleanSlotExample | action-s710-rmv.py:150 | `"2019-08-26 18:30:00 +00:00"` cleans to `"18:30:00"` |
| Query.CleanSlotOfNegativeOffset | action-s710-rmv.py:150 | as written, `"<date> <clock> -<zone>"` cleans to the offset `-<zone>`, not to the clock |
| Query.SlotClock | action-s710-rmv.py:150 | corrected reading: the clock word, never holding a space |
| Query.SlotClockOfTimestamp | action-s710-rmv.py:150 | corrected reading: `"<date> <clock> <sign><zone>"` gives `<clock>` for a positive and a negative offset alike |
| Query.SlotClockAgreesOnClock | action-s710-rmv.py:150 | on a bare clock time the corrected reading and the code as written agree |
| PyText.SplitConcat | action-s710-rmv.py:150 | splitting `h + sep + t` splits `h` and `t` separately |
| Query.SearchInput | action-s710-rmv.py:209-212 | the search text is the name alone (possibly `None`) without a city; with a city it is the name, one space and the city; a `None` name with a city raises |
| Query.StationInputs | action-s710-rmv.py:169-176 | building the texts raises exactly when a city is set and the home station, or (searching in the home city only) the spoken destination, is `None`; otherwise the home station is qualified by the home city, and the destination text differs from the spoken name exactly when the search is restricted to the home city and a home city is set |
| Query.LocationAsWritten | action-s710-rmv.py:232-240 | as written: on every answer of the full shape it returns the corrected reading's `(extId, name)`, and it returns a stop only for such answers |
| Query.Location | action-s710-rmv.py:232-240 | corrected reading: a stop is found exactly when the answer has the full `stopLocationOrCoordLocation[0].StopLocation.{extId,name}` shape, and it is that `(extId, name)` |
| Query.LocationAgreesWhereWrittenReturns | action-s710-rmv.py:232-240 | wherever the code as written returns, it returns what the corrected reading returns |
| Query.EmptyMatchListRaises | action-s710-rmv.py:235 | an empty match list makes the code as written raise, while the corrected reading answers "not found" |
| Query.LocationOfAnswer | action-s710-rmv.py:232-240 | both readings find exactly the stop an answer was built with |
| PyText.JoinSplit | action-s710-rmv.py:282 | joining the colon-split parts gives back the time, which the truncation proofs build on |
| PyText.StripIdempotent | action-s710-rmv.py:288-291 | stripping a stripped train or category changes nothing (used by `Legs.StopLabelsStripped`) |
| PyText.IntTextRoundTrip | action-s710-rmv.py:296 | `str(dist)` of an integer distance is a well-formed decimal text that reads back as the distance |
| PyText.NatTextRoundTrip | action-s710-rmv.py:296 | the decimal text of a natural number reads back as that number |
| Scenarios.TruncateClock | action-s710-rmv.py:282 | an `HH:MM:SS` clock truncates to its first five characters |
| Scenarios.RideLegNormalized | action-s710-rmv.py:281-298 | a ride leg becomes a stop with minute times, its direction, line name and product category, and no distance |
| Scenarios.WalkLegNormalized | action-s710-rmv.py:281-298 | a walk leg becomes a stop with category `"walk"`, no train and the decimal text of its distance |
| Scenarios.DirectRide | action-s710-rmv.py:277-335 | a trip of one ride leg is answered with the ride clause and the arrival, in either mode |
| Scenarios.WalkThenRide | action-s710-rmv.py:277-335 | a trip of a walk leg and a ride leg is answered in short mode with the walk, the change to the ride and the arrival |
| Scenarios.SBahnExample | action-s710-rmv.py:321-344 | the S5 towards Bad Homburg at 08:15 is announced as "S-Bahn S5 Richtung Bad Homburg um 08:15 Uhr. Ankunft um 08:22 Uhr." |

## Left out

- HTTP requests and the status-code checks (lines 214-218, 251-255) are network I/O. The model takes the decoded answers as values.
- `json.loads` and its error handling (lines 220-230, 257-264) are a foreign library. The model starts from the decoded `Json` value.
- Reading the configuration file (lines 78-124) is file I/O. The settings it yields are parameters.
- The Hermes/MQTT subscription, `done` and `publish_end_session` (lines 129-131, 156, 349-353) are message-broker plumbing.
- The `now + time_offset` default time (lines 184-186) reads the wall clock.
- Logging has no logical content.
- `query` (lines 178-203) is left out beyond the choice of search texts: its checks of the location results and its chaining of the calls only pass values between the modelled parts.
- Slot extraction from the intent message (lines 143-152) is left out; only the cleanup expression at line 150 is modelled. The `except: pass` around it swallows errors that cannot arise from a string. Without a slot, `location` and `dep_time` stay `None` (lines 138-139); the search text takes that as an `Option` name.
- JSON numbers are integers. Floating-point `dist` or times are not modelled.
- Legs.NormalizeLeg: a `dist` holding a list or an object is treated as malformed. Python would instead store its `repr`, and reproducing `repr` of containers is not modelled.
- Legs.LegListStops: a `Leg` value that is a number, a boolean or null makes the `for` loop raise an uncaught `TypeError`. The model answers `None`, the same as a rejected list.
- Speech.MakeResponse: a stop missing a key the loop reads, or holding a non-string there, raises an uncaught `KeyError`/`TypeError` in the source. The model makes those keys a precondition (`Speakable`).
- PyText.IsSpace covers the characters Python's `str.strip()` removes. No other Unicode handling is modelled.

## Findings

| source | as written | input that shows it | evidently intended | confidence | as-written member | corrected member |
|---|---|---|---|---|---|---|
| action-s710-rmv.py:150 | the slot is cut at `+` only, so a negative UTC offset stays on and becomes the last word | `"2019-08-26 18:30:00 -05:00"` cleans to `"-05:00"`, which is then sent as the trip time | the clock time `"18:30:00"`, whatever the sign of the offset | not executed | Query.CleanSlotOfNegativeOffset | Query.SlotClock |
| action-s710-rmv.py:232-240 | the location answer is indexed with `[0]`, `["extId"]` and `["name"]` without checks, so a malformed answer raises out of `get_location_id` instead of returning `None` as its other failures do | `{"stopLocationOrCoordLocation": []}` (no match for the spoken station) raises `IndexError` | answer `None` ("not found") for every answer without a first stop location holding `extId` and `name` | not executed | Query.EmptyMatchListRaises | Query.Location |
