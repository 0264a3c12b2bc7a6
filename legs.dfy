/**
 * Leg normalisation (`App.process_leg_list`) and the extraction of the first
 * trip's leg list from a trip-planner answer (`App.get_trip`).
 *
 * Each raw leg becomes a `Stop`: the record `process_leg_list` builds as a dict.
 * The four required fields come first; the optional ones are copied only when
 * the raw leg has them. One leg that cannot be read rejects the whole list.
 */
module Legs {
  import opened Wrappers
  import opened PyText
  import opened Json

  /**
   * A normalised leg. `station`, `destStation` and `direction` are copied from
   * the raw leg without looking at their type, so they stay JSON values; the
   * others are strings the normaliser computed.
   */
  datatype Stop = Stop(
    time: string,
    arrival: string,
    station: Json,
    destStation: Json,
    direction: Option<Json>,
    train: Option<string>,
    category: Option<string>,
    distance: Option<string>)

  // ---------------------------------------------------------------------------
  // Time truncation

  /** `":".join(t.split(":")[:2])`: keep the first two colon-separated fields. */
  function TruncateTime(t: string): string {
    Join(':', Take(Split(t, ':'), 2))
  }

  predicate AtMostOneColon(r: string) {
    forall i, j :: 0 <= i < j < |r| && r[i] == ':' ==> r[j] != ':'
  }

  /** Two colon-free fields joined by one colon hold exactly that colon. */
  lemma OneColon(h: string, m: string)
    requires ':' !in h && ':' !in m
    ensures AtMostOneColon(h + ":" + m) && ':' in h + ":" + m
  {
    var r := h + ":" + m;
    assert r[|h|] == ':';
    forall i, j | 0 <= i < j < |r| && r[i] == ':' ensures r[j] != ':' {
      assert i == |h|;
      assert r[j] == m[j - |h| - 1];
    }
  }

  /**
   * The truncated time is the longest prefix of the raw time holding at most
   * one colon: it is the whole text, or it stops just before the second colon.
   */
  lemma TruncateTimeIsClockPrefix(t: string)
    ensures var r := TruncateTime(t);
      && r <= t
      && AtMostOneColon(r)
      && (r != t ==> |r| < |t| && t[|r|] == ':' && ':' in r)
  {
    var parts := Split(t, ':');
    JoinSplit(t, ':');
    if |parts| == 1 {
      assert TruncateTime(t) == parts[0] == t;
    } else {
      JoinCons(':', parts);
      var h, m := parts[0], parts[1];
      OneColon(h, m);
      assert Take(parts, 2) == [h, m];
      assert Join(':', [h, m]) == h + ":" + m by {
        JoinCons(':', [h, m]);
        assert [h, m][1..] == [m];
      }
      if |parts| == 2 {
        assert parts[1..] == [m];
      } else {
        JoinCons(':', parts[1..]);
        assert t == h + ":" + m + ":" + Join(':', parts[2..]) by {
          assert parts[1..][1..] == parts[2..];
        }
      }
    }
  }

  /** `"HH:MM:SS"` (and anything else after the second colon) truncates to `"HH:MM"`, whatever the seconds are. */
  lemma TruncateTimeDropsSeconds(h: string, m: string, rest: string)
    requires ':' !in h && ':' !in m
    ensures TruncateTime(h + ":" + m + ":" + rest) == h + ":" + m
  {
    var t := h + ":" + m + ":" + rest;
    assert t == h + [':'] + (m + [':'] + rest);
    SplitAtFirstSep(h, ':', m + [':'] + rest);
    SplitAtFirstSep(m, ':', rest);
    var parts := Split(t, ':');
    assert parts == [h] + ([m] + Split(rest, ':'));
    assert Take(parts, 2) == [h, m];
    JoinCons(':', [h, m]);
    assert [h, m][1..] == [m];
  }

  // ---------------------------------------------------------------------------
  // What a raw leg must look like

  /** The raw leg has `Origin.time`, `Origin.name`, `Destination.time` and `Destination.name`. */
  predicate HasRequiredFields(leg: Json) {
    && leg.Obj?
    && "Origin" in leg.fields && leg.fields["Origin"].Obj?
    && "time" in leg.fields["Origin"].fields && "name" in leg.fields["Origin"].fields
    && "Destination" in leg.fields && leg.fields["Destination"].Obj?
    && "time" in leg.fields["Destination"].fields && "name" in leg.fields["Destination"].fields
  }

  /** The raw leg's product is a dict with a `catOutL` key. */
  predicate HasCatOutL(leg: Json)
    requires leg.Obj?
  {
    "Product" in leg.fields && leg.fields["Product"].Obj? && "catOutL" in leg.fields["Product"].fields
  }

  /** The raw leg's `type` is the string `"WALK"`. */
  predicate IsWalkType(leg: Json)
    requires leg.Obj?
  {
    "type" in leg.fields && leg.fields["type"] == Str("WALK")
  }

  /** `"catOutL" in product` does not raise, and when it holds the category is a string. */
  predicate ProductReadable(product: Json) {
    match product
    case Obj(pm) => "catOutL" in pm ==> pm["catOutL"].Str?
    case Arr(items) => Str("catOutL") !in items
    case Str(s) => !IsInfix("catOutL", s)
    case _ => false
  }

  /** Every field the normaliser reads is there and has a type the normaliser can use. */
  predicate LegWellFormed(leg: Json) {
    && HasRequiredFields(leg)
    && leg.fields["Origin"].fields["time"].Str?
    && leg.fields["Destination"].fields["time"].Str?
    && ("name" in leg.fields ==> leg.fields["name"].Str?)
    && ("Product" in leg.fields ==> ProductReadable(leg.fields["Product"]))
    && ("dist" in leg.fields ==> IsScalar(leg.fields["dist"]))
  }

  // ---------------------------------------------------------------------------
  // Normalising one leg. In the helpers the outer `None` means Python raised.

  /** `leg["name"].strip()` when the key is there. */
  function TrainOf(m: map<string, Json>): (r: Option<Option<string>>)
    ensures r.Some? <==> ("name" in m ==> m["name"].Str?)
    ensures r.Some? ==> (r.value.Some? <==> "name" in m)
    ensures r.Some? && "name" in m ==> r.value.value == Strip(m["name"].s)
  {
    if "name" !in m then Some(None)
    else if m["name"].Str? then Some(Some(Strip(m["name"].s)))
    else None
  }

  /** The category: `Product.catOutL` stripped, else `"walk"` for a walk, else none. */
  function CategoryOf(m: map<string, Json>): (r: Option<Option<string>>)
    ensures r.Some? <==> ("Product" in m ==> ProductReadable(m["Product"]))
    ensures r.Some? && HasCatOutL(Obj(m)) ==> r.value == Some(Strip(m["Product"].fields["catOutL"].s))
    ensures r.Some? && !HasCatOutL(Obj(m)) ==>
      (r.value.Some? <==> IsWalkType(Obj(m))) && (IsWalkType(Obj(m)) ==> r.value == Some("walk"))
  {
    var inProduct := if "Product" in m then Contains(m["Product"], "catOutL") else Some(false);
    if inProduct.None? then None
    else if inProduct.value then
      var cat := Lookup(m["Product"], "catOutL");
      if cat.Some? && cat.value.Str? then Some(Some(Strip(cat.value.s))) else None
    else if "type" in m && m["type"] == Str("WALK") then Some(Some("walk"))
    else Some(None)
  }

  /** `str(leg["dist"])` when the key is there. */
  function DistanceOf(m: map<string, Json>): (r: Option<Option<string>>)
    ensures r.Some? <==> ("dist" in m ==> IsScalar(m["dist"]))
    ensures r.Some? ==> (r.value.Some? <==> "dist" in m)
    ensures r.Some? && "dist" in m && m["dist"].Num? ==> r.value.value == IntText(m["dist"].n)
  {
    if "dist" !in m then Some(None)
    else if IsScalar(m["dist"]) then Some(Some(ScalarText(m["dist"])))
    else None
  }

  /** The body of the `try` in `process_leg_list`, for one leg; `None` where it raises. */
  function NormalizeLeg(leg: Json): (r: Option<Stop>)
    ensures r.Some? <==> LegWellFormed(leg)
    ensures r.Some? ==>
      var origin, dest := leg.fields["Origin"].fields, leg.fields["Destination"].fields;
      && r.value.time == TruncateTime(origin["time"].s)
      && r.value.arrival == TruncateTime(dest["time"].s)
      && r.value.station == origin["name"]
      && r.value.destStation == dest["name"]
    ensures r.Some? ==>
      && (r.value.direction.Some? <==> "direction" in leg.fields)
      && ("direction" in leg.fields ==> r.value.direction.value == leg.fields["direction"])
    ensures r.Some? ==>
      && (r.value.train.Some? <==> "name" in leg.fields)
      && ("name" in leg.fields ==> r.value.train.value == Strip(leg.fields["name"].s))
    ensures r.Some? ==>
      && (r.value.distance.Some? <==> "dist" in leg.fields)
      && ("dist" in leg.fields && leg.fields["dist"].Num? ==>
            r.value.distance.value == IntText(leg.fields["dist"].n))
    ensures r.Some? && HasCatOutL(leg) ==>
      r.value.category == Some(Strip(leg.fields["Product"].fields["catOutL"].s))
    ensures r.Some? && !HasCatOutL(leg) ==>
      (r.value.category.Some? <==> IsWalkType(leg)) && (IsWalkType(leg) ==> r.value.category == Some("walk"))
  {
    var origin := Lookup(leg, "Origin");
    var dest := Lookup(leg, "Destination");
    if origin.None? || dest.None? then None
    else
      var time := Lookup(origin.value, "time");
      var station := Lookup(origin.value, "name");
      var arrival := Lookup(dest.value, "time");
      var destStation := Lookup(dest.value, "name");
      if time.None? || station.None? || arrival.None? || destStation.None? then None
      // `.split` on anything but a string raises
      else if !time.value.Str? || !arrival.value.Str? then None
      else
        var m := leg.fields;
        var direction := if "direction" in m then Some(m["direction"]) else None;
        var train := TrainOf(m);
        var category := CategoryOf(m);
        var distance := DistanceOf(m);
        if train.None? || category.None? || distance.None? then None
        else Some(Stop(TruncateTime(time.value.s), TruncateTime(arrival.value.s),
                       station.value, destStation.value,
                       direction, train.value, category.value, distance.value))
  }

  /** The train and category labels of a normalised leg carry no surrounding whitespace. */
  lemma StopLabelsStripped(leg: Json)
    requires NormalizeLeg(leg).Some?
    ensures var stop := NormalizeLeg(leg).value;
      && (stop.train.Some? ==> Strip(stop.train.value) == stop.train.value)
      && (stop.category.Some? ==> Strip(stop.category.value) == stop.category.value)
  {
    var stop := NormalizeLeg(leg).value;
    if stop.train.Some? {
      StripIdempotent(leg.fields["name"].s);
    }
    if HasCatOutL(leg) {
      StripIdempotent(leg.fields["Product"].fields["catOutL"].s);
    } else if stop.category.Some? {
      WalkIsStripped();
    }
  }

  lemma WalkIsStripped()
    ensures Strip("walk") == "walk"
  {
    var w := "walk";
    assert w[0] == 'w' && w[|w| - 1] == 'k';
    StripUntrimmed(w);
  }

  // ---------------------------------------------------------------------------
  // Normalising the list: all or nothing

  /** What `process_leg_list` returns for a list of raw legs. */
  function NormalizeLegs(legs: seq<Json>): (r: Option<seq<Stop>>)
    ensures r.None? ==> exists i {:trigger NormalizeLeg(legs[i])} :: 0 <= i < |legs| && NormalizeLeg(legs[i]).None?
    ensures r.Some? ==>
      && |r.value| == |legs|
      && forall i {:trigger NormalizeLeg(legs[i])} :: 0 <= i < |legs| ==> NormalizeLeg(legs[i]) == Some(r.value[i])
  {
    AllSome(NormalizeLeg, legs)
  }

  /** All or nothing: the list normalises exactly when every leg is well formed. */
  lemma NormalizeLegsAllOrNothing(legs: seq<Json>)
    ensures NormalizeLegs(legs).Some? <==> forall i :: 0 <= i < |legs| ==> LegWellFormed(legs[i])
  {
    if NormalizeLegs(legs).None? {
      var i :| 0 <= i < |legs| && NormalizeLeg(legs[i]).None?;
      assert !LegWellFormed(legs[i]);
    } else {
      forall i | 0 <= i < |legs| ensures LegWellFormed(legs[i]) {
        assert NormalizeLeg(legs[i]).Some?;
      }
    }
  }

  /** `process_leg_list` over a list: append one stop per leg, give up at the first leg that raises. */
  method ProcessLegList(legList: seq<Json>) returns (stops: Option<seq<Stop>>)
    ensures stops == NormalizeLegs(legList)
  {
    var acc: seq<Stop> := [];
    for i := 0 to |legList|
      invariant |acc| == i
      invariant forall k :: 0 <= k < i ==> NormalizeLeg(legList[k]) == Some(acc[k])
    {
      var stop := NormalizeLeg(legList[i]);
      if stop.None? {
        OneBadLegSpoilsAll(legList, i);
        return None;
      }
      ExtendStops(legList, acc, stop.value);
      acc := acc + [stop.value];
    }
    StopsDetermineList(legList, acc);
    return Some(acc);
  }

  /** The stops of the first legs, followed by the stop of the next leg, are the stops of one more leg. */
  lemma ExtendStops(legs: seq<Json>, acc: seq<Stop>, stop: Stop)
    requires |acc| < |legs| && NormalizeLeg(legs[|acc|]) == Some(stop)
    requires forall k :: 0 <= k < |acc| ==> NormalizeLeg(legs[k]) == Some(acc[k])
    ensures forall k :: 0 <= k < |acc| + 1 ==> NormalizeLeg(legs[k]) == Some((acc + [stop])[k])
  {
  }

  /** One leg that does not normalise makes the whole list fail. */
  lemma OneBadLegSpoilsAll(legs: seq<Json>, i: nat)
    requires i < |legs| && NormalizeLeg(legs[i]).None?
    ensures NormalizeLegs(legs).None?
  {
  }

  /** A leg without `Origin.time`, `Origin.name`, `Destination.time` or `Destination.name` rejects the whole list. */
  lemma MissingFieldRejectsList(legs: seq<Json>, i: nat)
    requires i < |legs| && !HasRequiredFields(legs[i])
    ensures NormalizeLegs(legs) == None
  {
    OneBadLegSpoilsAll(legs, i);
  }

  /** A stop for every leg, in order, is exactly what the list normalises to. */
  lemma StopsDetermineList(legs: seq<Json>, stops: seq<Stop>)
    requires |stops| == |legs|
    requires forall k :: 0 <= k < |legs| ==> NormalizeLeg(legs[k]) == Some(stops[k])
    ensures NormalizeLegs(legs) == Some(stops)
  {
    var all := NormalizeLegs(legs);
    assert all.Some?;
    assert all.value == stops;
  }

  /** A list of one leg normalises to the one stop of that leg. */
  lemma SingleLeg(leg: Json)
    requires NormalizeLeg(leg).Some?
    ensures NormalizeLegs([leg]) == Some([NormalizeLeg(leg).value])
  {
    var legs := [leg];
    assert legs[0] == leg && legs[1..] == [];
    assert NormalizeLegs(legs[1..]) == Some([]);
    assert [NormalizeLeg(leg).value] + [] == [NormalizeLeg(leg).value];
  }

  /** A list of two legs normalises to their two stops, in order. */
  lemma TwoLegs(a: Json, b: Json)
    requires NormalizeLeg(a).Some? && NormalizeLeg(b).Some?
    ensures NormalizeLegs([a, b]) == Some([NormalizeLeg(a).value, NormalizeLeg(b).value])
  {
    var legs := [a, b];
    assert legs[0] == a && legs[1..] == [b];
    SingleLeg(b);
    assert [NormalizeLeg(a).value] + [NormalizeLeg(b).value] == [NormalizeLeg(a).value, NormalizeLeg(b).value];
  }

  /**
   * `process_leg_list` given whatever value the answer holds under `Leg`.
   * Iterating a string or a dict yields strings, each of which fails as a
   * leg; iterating a number, a bool or None raises outside the `try`.
   */
  function LegListStops(legList: Json): (r: Option<seq<Stop>>)
    ensures legList.Arr? ==> r == NormalizeLegs(legList.items)
    ensures r.Some? && r.value != [] ==> legList.Arr?
  {
    match legList
    case Arr(items) => NormalizeLegs(items)
    case Str(s) =>
      var chars := seq(|s|, k requires 0 <= k < |s| => Str([s[k]]));
      assert s != [] ==> !LegWellFormed(chars[0]);
      NormalizeLegs(chars)
    case Obj(m) => if m == map[] then Some([]) else None
    case _ => None
  }

  // ---------------------------------------------------------------------------
  // The first trip's leg list

  /** The answer has the shape `{"Trip": [{"LegList": {"Leg": ...}}, ...]}`. */
  predicate HasFirstLegList(resp: Json) {
    && resp.Obj? && "Trip" in resp.fields
    && resp.fields["Trip"].Arr? && resp.fields["Trip"].items != []
    && resp.fields["Trip"].items[0].Obj? && "LegList" in resp.fields["Trip"].items[0].fields
    && resp.fields["Trip"].items[0].fields["LegList"].Obj?
    && "Leg" in resp.fields["Trip"].items[0].fields["LegList"].fields
  }

  /** `dict["Trip"][0]["LegList"]["Leg"]`, with every exception turned into `None`. */
  function FirstLegList(resp: Json): (r: Option<Json>)
    ensures r.Some? <==> HasFirstLegList(resp)
    ensures r.Some? ==> r.value == resp.fields["Trip"].items[0].fields["LegList"].fields["Leg"]
  {
    var trips := Lookup(resp, "Trip");
    if trips.None? then None
    else
      var trip := First(trips.value);
      if trip.None? then None
      else
        var legList := Lookup(trip.value, "LegList");
        if legList.None? then None
        else Lookup(legList.value, "Leg")
  }

  /** The smallest answer carrying the given leg list as its first trip. */
  function TripAnswer(legs: Json): Json {
    Obj(map["Trip" := Arr([Obj(map["LegList" := Obj(map["Leg" := legs])])])])
  }

  /** The extraction finds exactly the leg list the answer was built with. */
  lemma FirstLegListOfTripAnswer(legs: Json)
    ensures FirstLegList(TripAnswer(legs)) == Some(legs)
  {
  }

  /** The part of `get_trip` after decoding: extract the first leg list, then normalise it. */
  function TripStops(resp: Json): (r: Option<seq<Stop>>)
    ensures !HasFirstLegList(resp) ==> r.None?
    ensures HasFirstLegList(resp) ==> r == LegListStops(resp.fields["Trip"].items[0].fields["LegList"].fields["Leg"])
  {
    var legList := FirstLegList(resp);
    if legList.None? then None else LegListStops(legList.value)
  }

  /** An answer built from a list of legs yields exactly the normalised legs. */
  lemma TripStopsOfTripAnswer(legs: seq<Json>)
    ensures TripStops(TripAnswer(Arr(legs))) == NormalizeLegs(legs)
  {
    FirstLegListOfTripAnswer(Arr(legs));
  }
}
