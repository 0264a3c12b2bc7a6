/**
 * The string and shape handling around the two service calls: cleaning the
 * departure-time slot (`App.on_intent`), choosing the city that qualifies each
 * station search (`App.query`), building the search text and reading the
 * decoded location answer (`App.get_location_id`).
 */
module Query {
  import opened Wrappers
  import opened PyText
  import opened Json

  /** What a Python function can do: return a value (possibly `None`) or let an exception escape. */
  datatype Outcome<T> = Returned(value: Option<T>) | Raised

  // ---------------------------------------------------------------------------
  // The departure-time slot

  /** `dep_time.split("+")[0].strip().split(" ")[-1]`. */
  function CleanSlot(depTime: string): (r: string)
    ensures ' ' !in r
  {
    Last(Split(Strip(Split(depTime, '+')[0]), ' '))
  }

  /**
   * A slot value `"<date> <clock> +<zone>"` cleans to `<clock>`, whatever the
   * date and the zone are.
   */
  lemma CleanSlotOfTimestamp(date: string, clock: string, zone: string)
    requires '+' !in date && date != [] && !IsSpace(date[0])
    requires '+' !in clock && ' ' !in clock && clock != [] && !IsSpace(clock[|clock| - 1])
    ensures CleanSlot(date + " " + clock + " +" + zone) == clock
  {
    var p := date + " " + clock + " ";
    assert '+' !in p;
    assert date + " " + clock + " +" + zone == p + ['+'] + zone;
    SplitAtFirstSep(p, '+', zone);
    var q := date + [' '] + clock;
    assert p[..|p| - 1] == q;
    assert LStrip(p) == p;
    assert RStrip(p) == RStrip(q) == q;
    LastPartAfterSep(date, ' ', clock);
  }

  /** A slot value that is already a bare clock time is left as it is. */
  lemma CleanSlotOfClock(clock: string)
    requires '+' !in clock && ' ' !in clock
    requires clock != [] ==> !IsSpace(clock[0]) && !IsSpace(clock[|clock| - 1])
    ensures CleanSlot(clock) == clock
  {
    SplitWithoutSep(clock, '+');
    StripUntrimmed(clock);
    SplitWithoutSep(clock, ' ');
  }

  /** The example the source gives for its slot format. */
  lemma CleanSlotExample(depTime: string)
    requires depTime == "2019-08-26 18:30:00 +00:00"
    ensures CleanSlot(depTime) == "18:30:00"
  {
    var date, clock, zone := depTime[..10], depTime[11..19], depTime[21..];
    ExampleSlotParts(depTime, date, clock, zone);
    CleanSlotOfTimestamp(date, clock, zone);
  }

  lemma ExampleSlotParts(depTime: string, date: string, clock: string, zone: string)
    requires depTime == "2019-08-26 18:30:00 +00:00"
    requires date == depTime[..10] && clock == depTime[11..19] && zone == depTime[21..]
    ensures clock == "18:30:00" && date + " " + clock + " +" + zone == depTime
    ensures '+' !in date && date != [] && !IsSpace(date[0])
    ensures '+' !in clock && ' ' !in clock && clock != [] && !IsSpace(clock[|clock| - 1])
  {
    assert date == "2019-08-26" && clock == "18:30:00";
  }

  /**
   * The cleanup splits on `+` only: a slot with a negative offset,
   * `"<date> <clock> -<zone>"`, cleans to the offset instead of the clock.
   */
  lemma CleanSlotOfNegativeOffset(date: string, clock: string, zone: string)
    requires '+' !in date && date != [] && !IsSpace(date[0])
    requires '+' !in clock
    requires '+' !in zone && ' ' !in zone && zone != [] && !IsSpace(zone[|zone| - 1])
    ensures CleanSlot(date + " " + clock + " -" + zone) == "-" + zone
  {
    var s := date + " " + clock + " -" + zone;
    assert '+' !in s;
    SplitWithoutSep(s, '+');
    StripUntrimmed(s);
    assert s == (date + " " + clock) + [' '] + ("-" + zone);
    LastPartAfterSep(date + " " + clock, ' ', "-" + zone);
  }

  /** A trailing word that is a UTC offset: a sign followed by the rest. */
  predicate IsOffsetWord(w: string) {
    w != [] && (w[0] == '+' || w[0] == '-')
  }

  /**
   * The clock time of a slot value, as the cleanup evidently intends: the last
   * word, or the word before it when the last word is a UTC offset of either sign.
   */
  function SlotClock(depTime: string): (r: string)
    ensures ' ' !in r
  {
    var words := Split(Strip(depTime), ' ');
    if |words| >= 2 && IsOffsetWord(words[|words| - 1]) then words[|words| - 2] else Last(words)
  }

  /** `"<date> <clock> <sign><zone>"` gives `<clock>`, for a positive and a negative offset alike. */
  lemma SlotClockOfTimestamp(date: string, clock: string, sign: char, zone: string)
    requires sign == '+' || sign == '-'
    requires date != [] && !IsSpace(date[0])
    requires ' ' !in clock && ' ' !in zone
    requires zone != [] && !IsSpace(zone[|zone| - 1])
    ensures SlotClock(date + " " + clock + " " + [sign] + zone) == clock
  {
    var s := date + " " + clock + " " + [sign] + zone;
    StripUntrimmed(s);
    var word := [sign] + zone;
    assert s == (date + [' '] + clock) + [' '] + word;
    SplitConcat(date + [' '] + clock, ' ', word);
    SplitConcat(date, ' ', clock);
    SplitWithoutSep(clock, ' ');
    SplitWithoutSep(word, ' ');
    var words := Split(s, ' ');
    assert words == Split(date, ' ') + [clock] + [word];
  }

  /** Wherever the cleanup as written gives a clock time, the corrected reading gives the same. */
  lemma SlotClockAgreesOnClock(clock: string)
    requires '+' !in clock && ' ' !in clock && clock != [] && clock[0] != '-'
    requires !IsSpace(clock[0]) && !IsSpace(clock[|clock| - 1])
    ensures SlotClock(clock) == CleanSlot(clock) == clock
  {
    CleanSlotOfClock(clock);
    StripUntrimmed(clock);
    SplitWithoutSep(clock, ' ');
  }

  // ---------------------------------------------------------------------------
  // The station searches

  /**
   * The `input` parameter of a location search. The name is `None` when no
   * station was spoken or configured: it is then passed on as `None`, and
   * appending a city to it raises a `TypeError`.
   */
  function SearchInput(name: Option<string>, city: Option<string>): (r: Outcome<string>)
    ensures r.Raised? <==> name.None? && city.Some?
    ensures city.None? ==> r == Returned(name)
    ensures name.Some? && city.Some? ==>
      && r.value.Some?
      && var n, c, input := name.value, city.value, r.value.value;
      |input| == |n| + 1 + |c| && input[..|n|] == n && input[|n|] == ' ' && input[|n| + 1..] == c
  {
    if city.None? then Returned(name)
    else if name.None? then Raised
    else Returned(Some(name.value + " " + city.value))
  }

  /**
   * The two search texts of one query: the home station is always qualified by
   * the home city (when one is configured); the spoken destination only when the
   * skill is set to search in the home city only. The origin is searched first;
   * if building either text raises, the query raises.
   */
  function StationInputs(homeStation: Option<string>, location: Option<string>, homeCity: Option<string>, homeCityOnly: bool)
    : (r: Outcome<(Option<string>, Option<string>)>)
    ensures r.Raised? <==> homeCity.Some? && (homeStation.None? || (homeCityOnly && location.None?))
    ensures r.Returned? ==> r.value.Some? && SearchInput(homeStation, homeCity) == Returned(r.value.value.0)
    ensures r.Returned? ==> (r.value.value.1 != location <==> homeCityOnly && homeCity.Some?)
    ensures r.Returned? && homeCityOnly ==> SearchInput(location, homeCity) == Returned(r.value.value.1)
  {
    var origin := SearchInput(homeStation, homeCity);
    if origin.Raised? then Raised
    else
      var destination := if homeCityOnly then SearchInput(location, homeCity) else SearchInput(location, None);
      if destination.Raised? then Raised
      else Returned(Some((origin.value, destination.value)))
  }

  // ---------------------------------------------------------------------------
  // The location answer

  const MatchesKey := "stopLocationOrCoordLocation"

  /**
   * The shape checks of `get_location_id` as written, on the decoded answer.
   * Only some failures are checked; the rest raise out of the function.
   */
  function LocationAsWritten(resp: Json): (r: Outcome<(Json, Json)>)
    ensures IsLocationAnswer(resp) ==> r == Returned(Location(resp))
    ensures r.Returned? && r.value.Some? ==> IsLocationAnswer(resp)
  {
    var hasMatches := Contains(resp, MatchesKey);
    if hasMatches.None? then Raised
    else if !hasMatches.value then Returned(None)
    else
      var matches := Lookup(resp, MatchesKey);
      if matches.None? then Raised
      else if !matches.value.Arr? then Returned(None)
      else
        var first := First(matches.value);
        if first.None? then Raised  // IndexError on an empty list
        else
          var hasStop := Contains(first.value, "StopLocation");
          if hasStop.None? then Raised
          else if !hasStop.value then Returned(None)
          else
            var stop := Lookup(first.value, "StopLocation");
            if stop.None? then Raised
            else
              var extId := Lookup(stop.value, "extId");
              var name := Lookup(stop.value, "name");
              if extId.None? || name.None? then Raised  // KeyError
              else Returned(Some((extId.value, name.value)))
  }

  /** The answer has the shape `{"stopLocationOrCoordLocation": [{"StopLocation": {"extId": .., "name": ..}}, ...]}`. */
  predicate IsLocationAnswer(resp: Json) {
    && resp.Obj? && MatchesKey in resp.fields
    && resp.fields[MatchesKey].Arr? && resp.fields[MatchesKey].items != []
    && resp.fields[MatchesKey].items[0].Obj?
    && "StopLocation" in resp.fields[MatchesKey].items[0].fields
    && resp.fields[MatchesKey].items[0].fields["StopLocation"].Obj?
    && "extId" in resp.fields[MatchesKey].items[0].fields["StopLocation"].fields
    && "name" in resp.fields[MatchesKey].items[0].fields["StopLocation"].fields
  }

  /** `get_location_id` with every shape failure answered by `None`, as its other failures are. */
  function Location(resp: Json): (r: Option<(Json, Json)>)
    ensures r.Some? <==> IsLocationAnswer(resp)
    ensures r.Some? ==>
      var stop := resp.fields[MatchesKey].items[0].fields["StopLocation"].fields;
      r.value == (stop["extId"], stop["name"])
  {
    var matches := Lookup(resp, MatchesKey);
    if matches.None? || !matches.value.Arr? then None
    else
      var first := First(matches.value);
      if first.None? then None
      else
        var stop := Lookup(first.value, "StopLocation");
        if stop.None? then None
        else
          var extId := Lookup(stop.value, "extId");
          var name := Lookup(stop.value, "name");
          if extId.None? || name.None? then None
          else Some((extId.value, name.value))
  }

  /** Wherever the code as written returns, the corrected reading returns the same. */
  lemma LocationAgreesWhereWrittenReturns(resp: Json)
    ensures LocationAsWritten(resp).Returned? ==> LocationAsWritten(resp).value == Location(resp)
  {
  }

  /** An answer with an empty match list makes the code as written raise, where the corrected reading says "not found". */
  lemma EmptyMatchListRaises()
    ensures LocationAsWritten(Obj(map[MatchesKey := Arr([])])) == Raised
    ensures Location(Obj(map[MatchesKey := Arr([])])) == None
  {
  }

  /** The smallest answer naming one stop. */
  function LocationAnswer(extId: Json, name: Json): Json {
    Obj(map[MatchesKey := Arr([Obj(map["StopLocation" := Obj(map["extId" := extId, "name" := name])])])])
  }

  /** Both readings find exactly the stop the answer was built with. */
  lemma LocationOfAnswer(extId: Json, name: Json)
    ensures Location(LocationAnswer(extId, name)) == Some((extId, name))
    ensures LocationAsWritten(LocationAnswer(extId, name)) == Returned(Some((extId, name)))
  {
  }
}
