/**
 * Itineraries followed from the raw legs of a trip answer to the spoken text:
 * a single ride, and a walk followed by a ride. Legs are given in the shape the
 * trip service sends (`Origin`/`Destination` with `"HH:MM:SS"` times, a
 * `Product` with `catOutL`, or `type: "WALK"` with a `dist`).
 */
module Scenarios {
  import opened Wrappers
  import opened PyText
  import opened Json
  import opened Legs
  import opened Speech

  /** A clock time `"HH:MM:SS"`: colons at positions 2 and 5 and nowhere else. */
  predicate IsClock(t: string) {
    && |t| == 8 && t[2] == ':' && t[5] == ':'
    && forall k :: 0 <= k < 8 && k != 2 && k != 5 ==> t[k] != ':'
  }

  /** A clock time truncates to `"HH:MM"`. */
  lemma TruncateClock(t: string)
    requires IsClock(t)
    ensures TruncateTime(t) == t[..5]
  {
    var h, m, s := t[..2], t[3..5], t[6..];
    assert ':' !in h && ':' !in m;
    assert t == h + ":" + m + ":" + s;
    TruncateTimeDropsSeconds(h, m, s);
  }

  /** An `Origin` or `Destination` entry. */
  predicate IsEndpoint(v: Json, time: string, name: Json) {
    v == Obj(map["time" := Str(time), "name" := name])
  }

  /** A ride leg: endpoints, direction, line name and a product category; no distance. */
  predicate IsRideLeg(leg: Json, dep: string, arr: string, from: Json, to: Json, direction: Json, name: string, category: string) {
    && leg.Obj? && "dist" !in leg.fields
    && "Origin" in leg.fields && IsEndpoint(leg.fields["Origin"], dep, from)
    && "Destination" in leg.fields && IsEndpoint(leg.fields["Destination"], arr, to)
    && "direction" in leg.fields && leg.fields["direction"] == direction
    && "name" in leg.fields && leg.fields["name"] == Str(name)
    && "Product" in leg.fields && leg.fields["Product"] == Obj(map["catOutL" := Str(category)])
  }

  lemma RideLegWellFormed(leg: Json, dep: string, arr: string, from: Json, to: Json, direction: Json, name: string, category: string)
    requires IsRideLeg(leg, dep, arr, from, to, direction, name, category)
    ensures LegWellFormed(leg) && HasCatOutL(leg)
  {
  }

  lemma RideLegTimes(leg: Json, dep: string, arr: string, from: Json, to: Json, direction: Json, name: string, category: string)
    requires IsRideLeg(leg, dep, arr, from, to, direction, name, category) && IsClock(dep) && IsClock(arr)
    ensures NormalizeLeg(leg).Some?
    ensures NormalizeLeg(leg).value.time == dep[..5] && NormalizeLeg(leg).value.arrival == arr[..5]
    ensures NormalizeLeg(leg).value.distance == None
  {
    RideLegWellFormed(leg, dep, arr, from, to, direction, name, category);
    TruncateClock(dep);
    TruncateClock(arr);
  }

  lemma RideLegLabels(leg: Json, dep: string, arr: string, from: Json, to: Json, direction: Json, name: string, category: string)
    requires IsRideLeg(leg, dep, arr, from, to, direction, name, category)
    ensures NormalizeLeg(leg).Some?
    ensures var r := NormalizeLeg(leg).value;
      r.train == Some(Strip(name)) && r.category == Some(Strip(category))
  {
    RideLegWellFormed(leg, dep, arr, from, to, direction, name, category);
  }

  /** A ride leg normalises to a ride stop with minute-precision times and no distance. */
  lemma RideLegNormalized(leg: Json, dep: string, arr: string, from: Json, to: Json, direction: Json, name: string, category: string)
    requires IsRideLeg(leg, dep, arr, from, to, direction, name, category) && IsClock(dep) && IsClock(arr)
    requires Strip(name) == name && Strip(category) == category
    ensures NormalizeLeg(leg) == Some(Stop(dep[..5], arr[..5], from, to, Some(direction), Some(name), Some(category), None))
  {
    RideLegTimes(leg, dep, arr, from, to, direction, name, category);
    RideLegLabels(leg, dep, arr, from, to, direction, name, category);
  }

  /** A walk leg: endpoints, `type: "WALK"` and a distance in metres; no product and no line name. */
  predicate IsWalkLeg(leg: Json, dep: string, arr: string, from: Json, to: Json, dist: int) {
    && leg.Obj? && "Product" !in leg.fields && "name" !in leg.fields
    && "Origin" in leg.fields && IsEndpoint(leg.fields["Origin"], dep, from)
    && "Destination" in leg.fields && IsEndpoint(leg.fields["Destination"], arr, to)
    && "type" in leg.fields && leg.fields["type"] == Str("WALK")
    && "dist" in leg.fields && leg.fields["dist"] == Num(dist)
  }

  /** A walk leg normalises to a walk stop whose distance is the decimal text of the metres. */
  lemma WalkLegNormalized(leg: Json, dep: string, arr: string, from: Json, to: Json, dist: int)
    requires IsWalkLeg(leg, dep, arr, from, to, dist) && IsClock(dep) && IsClock(arr)
    ensures NormalizeLeg(leg).Some?
    ensures var r := NormalizeLeg(leg).value;
      r == Stop(dep[..5], arr[..5], from, to, r.direction, None, Some("walk"), Some(IntText(dist)))
  {
    TruncateClock(dep);
    TruncateClock(arr);
    assert LegWellFormed(leg);
  }

  /** A trip of one ride leg is answered with the ride and the arrival, in either mode. */
  lemma DirectRide(leg: Json, dep: string, arr: string, from: Json, to: Json, direction: string, name: string, category: string,
                   shortInfo: bool)
    requires IsRideLeg(leg, dep, arr, from, to, Str(direction), name, category) && IsClock(dep) && IsClock(arr)
    requires Strip(name) == name && Strip(category) == category && category != "walk"
    ensures NormalizeLegs([leg]).Some? && Speakable(NormalizeLegs([leg]).value, shortInfo)
    ensures var ride := TrainTitle(category, name) + " Richtung " + direction + " um " + dep[..5] + " Uhr. ";
      Response(NormalizeLegs([leg]).value, shortInfo) == Some(ride + "Ankunft um " + arr[..5] + " Uhr.")
  {
    RideLegNormalized(leg, dep, arr, from, to, Str(direction), name, category);
    SingleLeg(leg);
    SingleRideResponse(NormalizeLeg(leg).value, shortInfo);
  }

  /**
   * A trip of a walk and then a ride, in short mode: the walk, then the ride
   * announced as a change at its origin, then the arrival.
   */
  lemma WalkThenRide(walk: Json, ride: Json, dep1: string, arr1: string, from1: Json, to1: string, dist: int,
                     dep2: string, arr2: string, from2: string, to2: Json, direction: string, name: string, category: string)
    requires IsWalkLeg(walk, dep1, arr1, from1, Str(to1), dist) && IsClock(dep1) && IsClock(arr1)
    requires IsRideLeg(ride, dep2, arr2, Str(from2), to2, Str(direction), name, category) && IsClock(dep2) && IsClock(arr2)
    requires Strip(name) == name && Strip(category) == category && category != "walk"
    ensures NormalizeLegs([walk, ride]).Some? && Speakable(NormalizeLegs([walk, ride]).value, true)
    ensures var walkText := IntText(dist) + " Meter laufen bis " + to1 + ". ";
            var change := "Umsteigen an " + from2 + " zu ";
            var rideText := TrainTitle(category, name) + " Richtung " + direction + " um " + dep2[..5] + " Uhr. ";
      Response(NormalizeLegs([walk, ride]).value, true)
        == Some(walkText + change + rideText + ("Ankunft um " + arr2[..5] + " Uhr."))
  {
    WalkLegNormalized(walk, dep1, arr1, from1, Str(to1), dist);
    RideLegNormalized(ride, dep2, arr2, Str(from2), to2, Str(direction), name, category);
    TwoLegs(walk, ride);
    WalkThenRideText(NormalizeLeg(walk).value, NormalizeLeg(ride).value);
  }

  /** The ride clause of the S5 towards Bad Homburg at 08:15. */
  lemma SBahnRideText(title: string, ride: string)
    requires title == TrainTitle("S-Bahn", "S5")
    requires ride == title + " Richtung " + "Bad Homburg" + " um " + "08:15" + " Uhr. "
    ensures ride == "S-Bahn S5 Richtung Bad Homburg um 08:15 Uhr. "
  {
    assert title == "S-Bahn S5";
    assert "S-Bahn S5" + " Richtung " == "S-Bahn S5 Richtung ";
    assert "S-Bahn S5 Richtung " + "Bad Homburg" == "S-Bahn S5 Richtung Bad Homburg";
    assert "S-Bahn S5 Richtung Bad Homburg" + " um " == "S-Bahn S5 Richtung Bad Homburg um ";
    assert "S-Bahn S5 Richtung Bad Homburg um " + "08:15" == "S-Bahn S5 Richtung Bad Homburg um 08:15";
    assert "S-Bahn S5 Richtung Bad Homburg um 08:15" + " Uhr. " == "S-Bahn S5 Richtung Bad Homburg um 08:15 Uhr. ";
  }

  /** The S5 from Hauptbahnhof at 08:15, arriving 08:22: the S-Bahn category is spoken before the line. */
  lemma SBahnExample(st: Stop, shortInfo: bool)
    requires st == Stop("08:15", "08:22", Str("Hauptbahnhof"), Str("Hauptwache"),
                        Some(Str("Bad Homburg")), Some("S5"), Some("S-Bahn"), None)
    ensures Speakable([st], shortInfo)
    ensures Response([st], shortInfo) == Some("S-Bahn S5 Richtung Bad Homburg um 08:15 Uhr. Ankunft um 08:22 Uhr.")
  {
    SingleRideResponse(st, shortInfo);
    var title := TrainTitle("S-Bahn", "S5");
    SBahnRideText(title, title + " Richtung " + "Bad Homburg" + " um " + "08:15" + " Uhr. ");
    assert "S-Bahn S5 Richtung Bad Homburg um 08:15 Uhr. " + "Ankunft um " == "S-Bahn S5 Richtung Bad Homburg um 08:15 Uhr. Ankunft um ";
    assert "S-Bahn S5 Richtung Bad Homburg um 08:15 Uhr. Ankunft um " + "08:22" == "S-Bahn S5 Richtung Bad Homburg um 08:15 Uhr. Ankunft um 08:22";
    assert "S-Bahn S5 Richtung Bad Homburg um 08:15 Uhr. Ankunft um 08:22" + " Uhr."
      == "S-Bahn S5 Richtung Bad Homburg um 08:15 Uhr. Ankunft um 08:22 Uhr.";
  }
}
