/**
 * Response synthesis (`App.make_response`, `App.get_train_title`): one German
 * clause per stop, then the arrival clause of the last stop.
 *
 * The transfer phrasing ("Umsteigen an ... zu ...") is chosen by the stop's
 * index in the list, not by whether an earlier stop was a ride: a ride that
 * follows a walk is announced as a change. In short mode the clauses stop after
 * the first ride.
 */
module Speech {
  import opened Wrappers
  import opened Json
  import opened Legs

  /** The two categories whose name is spoken before the train label. */
  predicate IsLocalRail(category: string) {
    category == "U-Bahn" || category == "S-Bahn"
  }

  /** `get_train_title`: the label a ride is announced by. */
  function TrainTitle(category: string, train: string): (r: string)
    ensures |r| >= |train| && r[|r| - |train|..] == train
    ensures r == train <==> !IsLocalRail(category)
    ensures IsLocalRail(category) ==> r == category + " " + train
  {
    if IsLocalRail(category) then category + " " + train else train
  }

  /** `stop["category"] == "walk"`. */
  predicate IsWalk(stop: Stop) {
    stop.category == Some("walk")
  }

  /**
   * The keys `make_response` reads from the stop at index `i` are present and
   * are strings: otherwise Python raises a `KeyError` or `TypeError` there.
   */
  predicate Renderable(stop: Stop, i: nat) {
    && stop.category.Some?
    && if IsWalk(stop) then
         stop.distance.Some? && stop.destStation.Str?
       else
         && stop.train.Some?
         && stop.direction.Some? && stop.direction.value.Str?
         && (i > 0 ==> stop.station.Str?)
  }

  /** The clause the stop at index `i` contributes. */
  function ClauseText(stop: Stop, i: nat): string
    requires Renderable(stop, i)
  {
    if IsWalk(stop) then
      stop.distance.value + " Meter laufen bis " + stop.destStation.s + ". "
    else
      var ride := TrainTitle(stop.category.value, stop.train.value)
        + " Richtung " + stop.direction.value.s + " um " + stop.time + " Uhr. ";
      if i == 0 then ride else "Umsteigen an " + stop.station.s + " zu " + ride
  }

  /** A ride after the first position is announced as a change at its origin station to that same ride. */
  lemma ChangeClauseByIndex(stop: Stop, i: nat)
    requires Renderable(stop, i) && !IsWalk(stop) && i > 0
    ensures Renderable(stop, 0)
    ensures ClauseText(stop, i) == "Umsteigen an " + stop.station.s + " zu " + ClauseText(stop, 0)
    ensures "Umsteigen an " <= ClauseText(stop, i)
  {
    var tail := stop.station.s + " zu " + ClauseText(stop, 0);
    assert ClauseText(stop, i) == "Umsteigen an " + tail;
  }

  /**
   * How a clause begins and ends: a walk with its distance, a ride at index 0
   * with its title, a ride later on with the change phrase (followed by the
   * index-0 clause, see `ChangeClauseByIndex`); a walk clause ends with `". "`
   * and a ride clause with its departure time and `" Uhr. "`.
   */
  lemma ClauseShapes(stop: Stop, i: nat)
    requires Renderable(stop, i)
    ensures var r := ClauseText(stop, i);
      && (IsWalk(stop) ==> stop.distance.value <= r && |r| >= 2 && r[|r| - 2..] == ". ")
      && (!IsWalk(stop) && i == 0 ==> TrainTitle(stop.category.value, stop.train.value) <= r)
      && (!IsWalk(stop) && i > 0 ==> "Umsteigen an " <= r)
      && (!IsWalk(stop) && i == 0 ==> |r| >= |stop.time| + 6 && r[|r| - |stop.time| - 6..] == stop.time + " Uhr. ")
  {
    if IsWalk(stop) {
      WalkClauseShape(stop, i);
    } else if i == 0 {
      RideClauseShape(stop);
    } else {
      ChangeClauseByIndex(stop, i);
    }
  }

  lemma WalkClauseShape(stop: Stop, i: nat)
    requires Renderable(stop, i) && IsWalk(stop)
    ensures var r := ClauseText(stop, i);
      stop.distance.value <= r && |r| >= 2 && r[|r| - 2..] == ". "
  {
    var d, tail := stop.distance.value, " Meter laufen bis " + stop.destStation.s;
    var r := ClauseText(stop, i);
    assert r == d + " Meter laufen bis " + stop.destStation.s + ". ";
    assert d + " Meter laufen bis " + stop.destStation.s == d + tail;
    StartsWith(d, tail);
    PrefixOfAppend(d, d + tail, ". ");
    EndsWith(d + tail, ". ");
  }

  lemma RideClauseShape(stop: Stop)
    requires Renderable(stop, 0) && !IsWalk(stop)
    ensures var r := ClauseText(stop, 0);
      && TrainTitle(stop.category.value, stop.train.value) <= r
      && |r| >= |stop.time| + 6 && r[|r| - |stop.time| - 6..] == stop.time + " Uhr. "
  {
    var title := TrainTitle(stop.category.value, stop.train.value);
    var middle := " Richtung " + stop.direction.value.s + " um ";
    var end := stop.time + " Uhr. ";
    var r := ClauseText(stop, 0);
    assert r == title + " Richtung " + stop.direction.value.s + " um " + stop.time + " Uhr. ";
    assert r == title + middle + end;
    StartsWith(title, middle);
    PrefixOfAppend(title, title + middle, end);
    EndsWith(title + middle, end);
  }

  /** `a` starts `a + b`. */
  lemma StartsWith(a: string, b: string)
    ensures a <= a + b
  {
    assert (a + b)[..|a|] == a;
  }

  /** `b` ends `a + b`. */
  lemma EndsWith(a: string, b: string)
    ensures |a + b| >= |b| && (a + b)[|a + b| - |b|..] == b
  {
    assert (a + b)[|a|..] == b;
  }

  /** The trailing clause, taken from the last stop. */
  function ArrivalClause(stop: Stop): string {
    "Ankunft um " + stop.arrival + " Uhr."
  }

  /** The arrival clause is its two fixed words around the arrival time, which can be read back from it. */
  lemma ArrivalClauseReadBack(stop: Stop)
    ensures var r := ArrivalClause(stop);
      && |r| == |stop.arrival| + 16
      && r[..11] == "Ankunft um " && r[|r| - 5..] == " Uhr."
      && r[11..|r| - 5] == stop.arrival
  {
  }

  /** The index of the first stop at or after `i` that is not a walk, or `|stops|` if there is none. */
  function FirstRideFrom(stops: seq<Stop>, i: nat): (r: nat)
    requires i <= |stops|
    ensures i <= r <= |stops|
    ensures forall k :: i <= k < r ==> IsWalk(stops[k])
    ensures r < |stops| ==> !IsWalk(stops[r])
    decreases |stops| - i
  {
    if i == |stops| || !IsWalk(stops[i]) then i else FirstRideFrom(stops, i + 1)
  }

  /**
   * How many stops get a clause. In full mode every stop does. In short mode
   * the walks before the first ride do, and the first ride does; nothing after.
   */
  function Spoken(stops: seq<Stop>, shortInfo: bool): (n: nat)
    ensures n <= |stops|
    ensures !shortInfo ==> n == |stops|
    ensures stops != [] ==> n >= 1
    ensures shortInfo ==> forall j :: 0 <= j < n - 1 ==> IsWalk(stops[j])
    ensures shortInfo && n < |stops| ==> !IsWalk(stops[n - 1])
    ensures shortInfo && (exists k :: 0 <= k < |stops| && !IsWalk(stops[k])) ==> !IsWalk(stops[n - 1])
  {
    if !shortInfo then |stops|
    else
      var first := FirstRideFrom(stops, 0);
      if first < |stops| then first + 1 else |stops|
  }

  /** Every stop that gets a clause can be rendered at its index. */
  predicate Speakable(stops: seq<Stop>, shortInfo: bool) {
    forall k :: 0 <= k < Spoken(stops, shortInfo) ==> Renderable(stops[k], k)
  }

  /** The clauses of the first `n` stops, in order. */
  function Clauses(stops: seq<Stop>, n: nat): string
    requires n <= |stops|
    requires forall k :: 0 <= k < n ==> Renderable(stops[k], k)
  {
    if n == 0 then "" else Clauses(stops, n - 1) + ClauseText(stops[n - 1], n - 1)
  }

  /** What `make_response` returns. */
  function Response(stops: seq<Stop>, shortInfo: bool): (r: Option<string>)
    requires Speakable(stops, shortInfo)
    ensures r.None? <==> stops == []
  {
    if stops == [] then None
    else Some(Clauses(stops, Spoken(stops, shortInfo)) + ArrivalClause(stops[|stops| - 1]))
  }

  /** Whatever the mode, a non-empty itinerary's answer ends with the arrival clause of its last stop. */
  lemma ResponseEndsWithArrival(stops: seq<Stop>, shortInfo: bool)
    requires Speakable(stops, shortInfo) && stops != []
    ensures var r, arrival := Response(stops, shortInfo).value, ArrivalClause(stops[|stops| - 1]);
      |r| >= |arrival| && r[|r| - |arrival|..] == arrival
  {
    var clauses := Clauses(stops, Spoken(stops, shortInfo));
    var arrival := ArrivalClause(stops[|stops| - 1]);
    assert (clauses + arrival)[|clauses|..] == arrival;
  }

  /** `make_response`: accumulate the clauses, stop after the first ride in short mode, then add the arrival. */
  method MakeResponse(stops: seq<Stop>, shortInfo: bool) returns (response: Option<string>)
    requires Speakable(stops, shortInfo)
    ensures response == Response(stops, shortInfo)
  {
    if stops == [] {
      return None;
    }
    ghost var n := Spoken(stops, shortInfo);
    var text := "";
    var i := 0;
    while i < |stops|
      invariant 0 <= i <= n
      invariant shortInfo ==> forall k :: 0 <= k < i ==> IsWalk(stops[k])
      invariant text == Clauses(stops, i)
    {
      assert i < n;
      ClausesStep(stops, i + 1);
      text := text + ClauseText(stops[i], i);
      i := i + 1;
      if !IsWalk(stops[i - 1]) && shortInfo {
        break;
      }
    }
    assert i == n;
    text := text + ArrivalClause(stops[|stops| - 1]);
    return Some(text);
  }

  // ---------------------------------------------------------------------------
  // Properties of the spoken text

  /** One more stop appends its clause. */
  lemma ClausesStep(stops: seq<Stop>, n: nat)
    requires 0 < n <= |stops|
    requires forall k :: 0 <= k < n ==> Renderable(stops[k], k)
    ensures Clauses(stops, n) == Clauses(stops, n - 1) + ClauseText(stops[n - 1], n - 1)
  {
  }

  /** The clauses of the first `n` stops, one string per stop. */
  function ClauseList(stops: seq<Stop>, n: nat): (r: seq<string>)
    requires n <= |stops|
    requires forall k :: 0 <= k < n ==> Renderable(stops[k], k)
    ensures |r| == n
  {
    if n == 0 then [] else ClauseList(stops, n - 1) + [ClauseText(stops[n - 1], n - 1)]
  }

  /** The strings of `parts`, in order. */
  function Concat(parts: seq<string>): string {
    if parts == [] then "" else Concat(parts[..|parts| - 1]) + parts[|parts| - 1]
  }

  lemma {:induction false} ClausesAsConcat(stops: seq<Stop>, n: nat)
    requires n <= |stops|
    requires forall k :: 0 <= k < n ==> Renderable(stops[k], k)
    ensures Clauses(stops, n) == Concat(ClauseList(stops, n))
  {
    if n > 0 {
      ClausesAsConcat(stops, n - 1);
      ClausesStep(stops, n);
      var l := ClauseList(stops, n);
      assert l[..n - 1] == ClauseList(stops, n - 1);
    }
  }

  lemma {:induction false} ClauseListPrefix(stops: seq<Stop>, m: nat, n: nat)
    requires m <= n <= |stops|
    requires forall k :: 0 <= k < n ==> Renderable(stops[k], k)
    ensures ClauseList(stops, n)[..m] == ClauseList(stops, m)
    decreases n
  {
    if m < n {
      ClauseListPrefix(stops, m, n - 1);
      assert ClauseList(stops, n)[..n - 1] == ClauseList(stops, n - 1);
    }
  }

  lemma {:induction false} ConcatPrefix(parts: seq<string>, m: nat)
    requires m <= |parts|
    ensures Concat(parts[..m]) <= Concat(parts)
    decreases |parts|
  {
    if m < |parts| {
      var init := parts[..|parts| - 1];
      ConcatPrefix(init, m);
      assert init[..m] == parts[..m];
      var a, b, c := Concat(parts[..m]), Concat(init), parts[|parts| - 1];
      assert Concat(parts) == b + c;
      assert (b + c)[..|a|] == b[..|a|];
    } else {
      assert parts[..m] == parts;
    }
  }

  /** The clauses of a prefix of the stops are a prefix of the clauses of more stops. */
  lemma ClausesPrefix(stops: seq<Stop>, m: nat, n: nat)
    requires m <= n <= |stops|
    requires forall k :: 0 <= k < n ==> Renderable(stops[k], k)
    ensures Clauses(stops, m) <= Clauses(stops, n)
  {
    ClausesAsConcat(stops, m);
    ClausesAsConcat(stops, n);
    ClauseListPrefix(stops, m, n);
    ConcatPrefix(ClauseList(stops, n), m);
  }

  /** The clauses of the first `n` stops depend on those stops only. */
  lemma {:induction false} ClausesOfSamePrefix(s1: seq<Stop>, s2: seq<Stop>, n: nat)
    requires n <= |s1| && n <= |s2| && s1[..n] == s2[..n]
    requires forall k :: 0 <= k < n ==> Renderable(s1[k], k)
    ensures forall k :: 0 <= k < n ==> Renderable(s2[k], k)
    ensures Clauses(s1, n) == Clauses(s2, n)
  {
    assert forall k :: 0 <= k < n ==> s1[k] == s1[..n][k] == s2[..n][k] == s2[k];
    if n > 0 {
      assert s1[..n - 1] == s1[..n][..n - 1] == s2[..n][..n - 1] == s2[..n - 1];
      ClausesOfSamePrefix(s1, s2, n - 1);
    }
  }

  /** A non-empty itinerary that starts with a walk is spoken starting with that walk's clause. */
  lemma WalkFirstClause(stops: seq<Stop>, shortInfo: bool)
    requires Speakable(stops, shortInfo) && stops != [] && IsWalk(stops[0])
    ensures Renderable(stops[0], 0)
    ensures var walk := stops[0].distance.value + " Meter laufen bis " + stops[0].destStation.s + ". ";
      walk <= Response(stops, shortInfo).value
  {
    var n := Spoken(stops, shortInfo);
    ClausesPrefix(stops, 1, n);
    var walk := Clauses(stops, 1);
    assert walk == ClauseText(stops[0], 0);
    PrefixOfAppend(walk, Clauses(stops, n), ArrivalClause(stops[|stops| - 1]));
  }

  /** A prefix of `b` is a prefix of anything `b` starts. */
  lemma PrefixOfAppend(a: string, b: string, c: string)
    requires a <= b
    ensures a <= b + c
  {
    assert (b + c)[..|a|] == b[..|a|];
  }

  /**
   * In short mode nothing after the first ride is spoken, except the arrival of
   * the last stop: two itineraries that agree up to their first ride and
   * arrive at the same time get the same answer.
   */
  lemma ShortModeIgnoresLaterStops(s1: seq<Stop>, s2: seq<Stop>)
    requires Speakable(s1, true)
    requires FirstRideFrom(s1, 0) < |s1|
    requires var n := FirstRideFrom(s1, 0) + 1; n <= |s2| && s1[..n] == s2[..n]
    requires s1[|s1| - 1].arrival == s2[|s2| - 1].arrival
    ensures Speakable(s2, true)
    ensures Response(s1, true) == Response(s2, true)
  {
    var n := FirstRideFrom(s1, 0) + 1;
    SameFirstRide(s1, s2, n);
    assert Spoken(s1, true) == n && Spoken(s2, true) == n;
    ClausesOfSamePrefix(s1, s2, n);
  }

  /** Itineraries that agree up to and including the first ride of one have their first ride at the same place. */
  lemma SameFirstRide(s1: seq<Stop>, s2: seq<Stop>, n: nat)
    requires n == FirstRideFrom(s1, 0) + 1 && n <= |s1| && n <= |s2| && s1[..n] == s2[..n]
    ensures FirstRideFrom(s2, 0) == n - 1
  {
    assert forall k :: 0 <= k < n ==> s1[k] == s1[..n][k] == s2[..n][k] == s2[k];
    assert forall k :: 0 <= k < n - 1 ==> IsWalk(s2[k]);
    assert !IsWalk(s2[n - 1]);
    FirstRideIsFirst(s2, 0, n - 1);
  }

  /** The first ride is the first stop that is not a walk. */
  lemma {:induction false} FirstRideIsFirst(stops: seq<Stop>, i: nat, r: nat)
    requires i <= r < |stops|
    requires forall k :: i <= k < r ==> IsWalk(stops[k])
    requires !IsWalk(stops[r])
    ensures FirstRideFrom(stops, i) == r
    decreases r - i
  {
    if i < r {
      FirstRideIsFirst(stops, i + 1, r);
    }
  }

  /**
   * Short mode still says "Umsteigen" when the first ride comes after a walk:
   * the change phrasing follows the index, so a walk and a ride give the walk
   * clause, a change clause and the arrival.
   */
  lemma ShortModeWalkThenRide(walk: Stop, ride: Stop)
    requires IsWalk(walk) && Renderable(walk, 0)
    requires !IsWalk(ride) && Renderable(ride, 1)
    ensures Speakable([walk, ride], true) && Renderable(ride, 0)
    ensures Response([walk, ride], true) == Some(ClauseText(walk, 0) + ClauseText(ride, 1) + ArrivalClause(ride))
  {
    var stops := [walk, ride];
    FirstRideIsFirst(stops, 0, 1);
    assert Spoken(stops, true) == 2;
    ClausesStep(stops, 1);
    ClausesStep(stops, 2);
    assert Clauses(stops, 1) == "" + ClauseText(walk, 0) == ClauseText(walk, 0);
  }

  /** A single ride is announced as the ride and its arrival, in either mode. */
  lemma SingleRideResponse(stop: Stop, shortInfo: bool)
    requires Renderable(stop, 0) && !IsWalk(stop)
    ensures Speakable([stop], shortInfo)
    ensures var ride := TrainTitle(stop.category.value, stop.train.value)
                        + " Richtung " + stop.direction.value.s + " um " + stop.time + " Uhr. ";
      Response([stop], shortInfo) == Some(ride + "Ankunft um " + stop.arrival + " Uhr.")
  {
    assert Spoken([stop], shortInfo) == 1;
    ClausesStep([stop], 1);
    var ride := ClauseText(stop, 0);
    assert Clauses([stop], 1) == ride;
    assert ride + ("Ankunft um " + stop.arrival + " Uhr.") == ride + "Ankunft um " + stop.arrival + " Uhr.";
  }

  /** The full short-mode text of a walk followed by a ride: the walk, the change at the ride's origin, the ride, the arrival. */
  lemma WalkThenRideText(w: Stop, r: Stop)
    requires IsWalk(w) && Renderable(w, 0) && !IsWalk(r) && Renderable(r, 1)
    ensures Speakable([w, r], true)
    ensures var walkText := w.distance.value + " Meter laufen bis " + w.destStation.s + ". ";
            var change := "Umsteigen an " + r.station.s + " zu ";
            var rideText := TrainTitle(r.category.value, r.train.value) + " Richtung " + r.direction.value.s + " um " + r.time + " Uhr. ";
      Response([w, r], true) == Some(walkText + change + rideText + ("Ankunft um " + r.arrival + " Uhr."))
  {
    ShortModeWalkThenRide(w, r);
    var walkText := w.distance.value + " Meter laufen bis " + w.destStation.s + ". ";
    var change := "Umsteigen an " + r.station.s + " zu ";
    var rideText := TrainTitle(r.category.value, r.train.value) + " Richtung " + r.direction.value.s + " um " + r.time + " Uhr. ";
    assert ClauseText(w, 0) == walkText;
    assert ClauseText(r, 1) == change + rideText;
    assert walkText + (change + rideText) == walkText + change + rideText;
  }
}
