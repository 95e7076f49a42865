/** The 1-based house locator and sign classifier of
    src/astrologer/planetHouse.js: sign numbers 1..12, the fixed modality,
    element and ruler tables, the cusp-interval search with its two unwrap
    rules and its sign span, and the enrichment of planets and houses. */
module PlanetHouse {
  import opened Common
  import opened Chart

  /** `getZodiacSign`: `Math.floor(longitude / 30) % 12 + 1`. */
  function ZodiacSign(longitude: real): (s: int)
    ensures longitude >= 0.0 ==> 1 <= s <= 12
  {
    Rem12((longitude / 30.0).Floor) + 1
  }

  /** A whole turn does not change the sign of a non-negative longitude. */
  lemma ZodiacSignPeriodic(longitude: real)
    requires longitude >= 0.0
    ensures ZodiacSign(longitude + 360.0) == ZodiacSign(longitude)
  {
    var f := (longitude / 30.0).Floor;
    assert (longitude + 360.0) / 30.0 == longitude / 30.0 + 12.0;
    assert ((longitude + 360.0) / 30.0).Floor == f + 12;
  }

  /** Within one turn, sign s is the one whose 30 degree band holds the
      longitude. */
  lemma ZodiacSignBand(longitude: real, s: int)
    requires 0.0 <= longitude < 360.0
    ensures ZodiacSign(longitude) == s <==> 30.0 * (s - 1) as real <= longitude < 30.0 * s as real
  {
    var f := (longitude / 30.0).Floor;
    assert f as real <= longitude / 30.0 < f as real + 1.0;
    assert 0 <= f < 12;
  }

  /** `getSignModality`: cardinal for 1, 4, 7, 10, fixed for 2, 5, 8, 11,
      and mutable for everything else. */
  function SignModality(sign: int): (m: Modality)
    ensures 1 <= sign <= 12 ==> (m == Cardinal <==> (sign - 1) % 3 == 0)
    ensures 1 <= sign <= 12 ==> (m == Fixed <==> (sign - 1) % 3 == 1)
    ensures 1 <= sign <= 12 ==> (m == Mutable <==> (sign - 1) % 3 == 2)
    ensures !(1 <= sign <= 12) ==> m == Mutable
  {
    if sign in [1, 4, 7, 10] then Cardinal
    else if sign in [2, 5, 8, 11] then Fixed
    else Mutable
  }

  /** `getSignElement`: fire for 1, 5, 9, earth for 2, 6, 10, air for 3, 7,
      11, and water for everything else. */
  function SignElement(sign: int): (e: Element)
    ensures 1 <= sign <= 12 ==> (e == Fire <==> (sign - 1) % 4 == 0)
    ensures 1 <= sign <= 12 ==> (e == Earth <==> (sign - 1) % 4 == 1)
    ensures 1 <= sign <= 12 ==> (e == Air <==> (sign - 1) % 4 == 2)
    ensures 1 <= sign <= 12 ==> (e == Water <==> (sign - 1) % 4 == 3)
    ensures !(1 <= sign <= 12) ==> e == Water
  {
    if sign in [1, 5, 9] then Fire
    else if sign in [2, 6, 10] then Earth
    else if sign in [3, 7, 11] then Air
    else Water
  }

  /** The modality and element of a sign field that may be absent: an
      absent sign is in none of the lists. */
  function ModalityOf(sign: Option<int>): Modality {
    if sign.Some? then SignModality(sign.value) else Mutable
  }

  function ElementOf(sign: Option<int>): Element {
    if sign.Some? then SignElement(sign.value) else Water
  }

  /** The unwrapped end cusp of house i: the next cusp, plus 360 when it
      lies below the current one. */
  function NextCusp(houses: seq<House>, i: nat): real
    requires i < |houses|
  {
    var current, next := houses[i].longitude, houses[NextIndex(i, |houses|)].longitude;
    if next < current then next + 360.0 else next
  }

  /** The planet's longitude as compared with house i: plus 360 when it
      lies below a current cusp beyond 270 degrees. */
  function Adjusted(planetLongitude: real, current: real): real {
    if planetLongitude < current && current > 270.0 then planetLongitude + 360.0 else planetLongitude
  }

  /** The match test of the search loop at house i. */
  predicate InHouse(planetLongitude: real, houses: seq<House>, i: nat)
    requires i < |houses|
  {
    var current := houses[i].longitude;
    current <= Adjusted(planetLongitude, current) < NextCusp(houses, i)
  }

  /** The first house index from i on whose interval holds the planet. */
  function FirstMatch(planetLongitude: real, houses: seq<House>, i: nat): (r: Option<nat>)
    ensures r.None? <==> forall t | i <= t < |houses| :: !InHouse(planetLongitude, houses, t)
    ensures r.Some? ==> i <= r.value < |houses| && InHouse(planetLongitude, houses, r.value)
    ensures r.Some? ==> forall t | i <= t < r.value :: !InHouse(planetLongitude, houses, t)
    decreases |houses| - i
  {
    if i >= |houses| then None
    else if InHouse(planetLongitude, houses, i) then Some(i)
    else FirstMatch(planetLongitude, houses, i + 1)
  }

  /** The integers lo, lo + 1, ..., hi - 1 (empty when hi <= lo). */
  function Range(lo: int, hi: int): (r: seq<int>)
    ensures |r| == if hi <= lo then 0 else hi - lo
    ensures forall t | 0 <= t < |r| :: r[t] == lo + t
    decreases hi - lo
  {
    if hi <= lo then [] else Range(lo, hi - 1) + [hi - 1]
  }

  /** The `signs` array of a house from its start and end cusp signs: the
      start sign, then the push loops. A span whose end sign is 1 takes the
      non-wrapping branch, whose loop does not run. */
  function SignSpan(start: int, end: int): seq<int> {
    [start] + (if start == end then []
               else if end < start && end != 1 then Range(start + 1, 13) + Range(1, end)
               else Range(start + 1, end))
  }

  /** One push loop: `for (let s = lo; s < hi; s++) signs.push(s)`. */
  method PushSigns(signs0: seq<int>, lo: int, hi: int) returns (signs: seq<int>)
    ensures signs == signs0 + Range(lo, hi)
  {
    signs := signs0;
    var s := lo;
    while s < hi
      invariant lo <= s && (s <= hi || s == lo)
      invariant signs == signs0 + Range(lo, s)
      decreases hi - s
    {
      signs := signs + [s];
      s := s + 1;
    }
    assert Range(lo, s) == Range(lo, hi);
  }

  /** The span constructed by the push loops of the source (the first loop
      runs while s <= 12, that is, while s < 13). */
  method BuildSignSpan(start: int, end: int) returns (signs: seq<int>)
    ensures signs == SignSpan(start, end)
  {
    signs := [start];
    if start != end {
      if end < start && end != 1 {
        signs := PushSigns(signs, start + 1, 13);
        signs := PushSigns(signs, 1, end);
      } else {
        signs := PushSigns(signs, start + 1, end);
      }
    }
  }

  /** For two different signs with an end sign other than 1, the span is
      the cyclic run of signs from the start sign up to, not including, the
      end sign. */
  lemma SignSpanCyclic(start: int, end: int)
    requires 1 <= start <= 12 && 1 <= end <= 12 && start != end && end != 1
    ensures |SignSpan(start, end)| == (end - start) % 12
    ensures forall t | 0 <= t < |SignSpan(start, end)| :: SignSpan(start, end)[t] == (start - 1 + t) % 12 + 1
  {
    if end < start {
      SignSpanWraps(start, end);
    } else {
      SignSpanForward(start, end);
    }
  }

  /** A span that does not cross the end of the zodiac. */
  lemma SignSpanForward(start: int, end: int)
    requires 1 <= start < end <= 12
    ensures |SignSpan(start, end)| == end - start
    ensures forall t | 0 <= t < |SignSpan(start, end)| :: SignSpan(start, end)[t] == (start - 1 + t) % 12 + 1
  {
    var signs, rest := SignSpan(start, end), Range(start + 1, end);
    assert signs == [start] + rest;
    forall t | 0 <= t < |signs| ensures signs[t] == (start - 1 + t) % 12 + 1 {
      assert 0 <= start - 1 + t < 12;
      if t > 0 {
        assert signs[t] == rest[t - 1];
      }
    }
  }

  /** A span that crosses from sign 12 to sign 1. */
  lemma SignSpanWraps(start: int, end: int)
    requires 1 < end < start <= 12
    ensures |SignSpan(start, end)| == 12 - start + end
    ensures forall t | 0 <= t < |SignSpan(start, end)| :: SignSpan(start, end)[t] == (start - 1 + t) % 12 + 1
  {
    var head, tail := Range(start + 1, 13), Range(1, end);
    var signs := SignSpan(start, end);
    assert signs == [start] + head + tail;
    forall t | 0 <= t < |signs| ensures signs[t] == (start - 1 + t) % 12 + 1 {
      if t == 0 {
      } else if t <= |head| {
        assert signs[t] == head[t - 1] == start + t;
        assert 0 <= start - 1 + t < 12;
      } else {
        var u := t - 1 - |head|;
        assert signs[t] == tail[u] == 1 + u;
        assert start - 1 + t == 12 + u;
      }
    }
  }

  /** The span always starts with the start sign; a house within one sign,
      or one ending in sign 1, has just that sign. */
  lemma SignSpanDegenerate(start: int, end: int)
    requires 1 <= start <= 12 && 1 <= end <= 12
    ensures SignSpan(start, end)[0] == start
    ensures start == end || end == 1 ==> SignSpan(start, end) == [start]
  {
  }

  /** What a match at house i returns: its number, its sign span, and
      whether the planet's own sign is missing from a span of more than
      one sign. */
  function PlacementAt(planetLongitude: real, houses: seq<House>, i: nat): Placement
    requires i < |houses|
  {
    var signs := SignSpan(ZodiacSign(houses[i].longitude), ZodiacSign(NextCusp(houses, i)));
    Placement(houses[i].houseNumber, |signs| > 1 && ZodiacSign(planetLongitude) !in signs, signs)
  }

  /** `getPlanetHouse`: the placement at the first house whose interval
      holds the planet, or nothing when none does (an empty house list
      included). */
  function Locate(planetLongitude: real, houses: seq<House>): Option<Placement> {
    var m := FirstMatch(planetLongitude, houses, 0);
    if m.None? then None else Some(PlacementAt(planetLongitude, houses, m.value))
  }

  /** The search finds nothing exactly when no house holds the planet, and
      otherwise returns the placement at the first house that does. */
  lemma LocateFirst(planetLongitude: real, houses: seq<House>)
    ensures var r := Locate(planetLongitude, houses);
      && (r.None? <==> forall i | 0 <= i < |houses| :: !InHouse(planetLongitude, houses, i))
      && (r.Some? ==> exists i | 0 <= i < |houses| ::
            && InHouse(planetLongitude, houses, i)
            && (forall t | 0 <= t < i :: !InHouse(planetLongitude, houses, t))
            && r.value == PlacementAt(planetLongitude, houses, i))
  {
    var m := FirstMatch(planetLongitude, houses, 0);
    if m.Some? {
      var i := m.value;
      assert InHouse(planetLongitude, houses, i);
    }
  }

  /** The search loop with its early return. */
  method GetPlanetHouse(planet: Planet, houses: seq<House>) returns (r: Option<Placement>)
    ensures r == Locate(planet.longitude, houses)
  {
    var planetLongitude := planet.longitude;
    for i := 0 to |houses|
      invariant FirstMatch(planetLongitude, houses, 0) == FirstMatch(planetLongitude, houses, i)
    {
      var currentHouse := houses[i];
      var nextHouse := houses[(i + 1) % |houses|];
      var currentLongitude := currentHouse.longitude;
      var nextLongitude := nextHouse.longitude;
      if nextLongitude < currentLongitude {
        nextLongitude := nextLongitude + 360.0;
      }
      var adjustedPlanetLongitude := planetLongitude;
      if adjustedPlanetLongitude < currentLongitude && currentLongitude > 270.0 {
        adjustedPlanetLongitude := adjustedPlanetLongitude + 360.0;
      }
      assert nextLongitude == NextCusp(houses, i);
      assert adjustedPlanetLongitude == Adjusted(planetLongitude, currentLongitude);
      if adjustedPlanetLongitude >= currentLongitude && adjustedPlanetLongitude < nextLongitude {
        var currentHouseSign := ZodiacSign(currentLongitude);
        var nextHouseSign := ZodiacSign(nextLongitude);
        var signs := BuildSignSpan(currentHouseSign, nextHouseSign);
        var planetSign := ZodiacSign(planetLongitude);
        var isInterceptedSign := |signs| > 1 && planetSign !in signs;
        assert FirstMatch(planetLongitude, houses, i) == Some(i);
        return Some(Placement(currentHouse.houseNumber, isInterceptedSign, signs));
      }
      assert !InHouse(planetLongitude, houses, i);
    }
    assert FirstMatch(planetLongitude, houses, |houses|) == None;
    return None;
  }

  /** Twelve cusps 30 degrees apart, the first at 355 degrees. */
  function SeamCusps(): seq<House> {
    seq(12, i => House(i + 1, if i == 0 then 355.0 else 30.0 * i as real - 5.0, 0, None))
  }

  /** A planet at 2 degrees lands in the 355 to 25 degree house rather than
      in no house. */
  lemma SeamExample()
    ensures Locate(2.0, SeamCusps()) == Some(Placement(1, false, [12]))
  {
    var houses := SeamCusps();
    assert houses[0].longitude == 355.0 && houses[1].longitude == 25.0;
    assert NextCusp(houses, 0) == 385.0;
    assert InHouse(2.0, houses, 0);
    assert ZodiacSign(355.0) == 12 && ZodiacSign(385.0) == 1;
    assert FirstMatch(2.0, houses, 0) == Some(0);
    assert SignSpan(12, 1) == [12];
    assert PlacementAt(2.0, houses, 0) == Placement(1, false, [12]);
  }

  /** A house from 35 to 95 degrees spans signs 2 and 3; a planet at 92
      degrees, in sign 4, is flagged. */
  lemma InterceptedExample()
    ensures Locate(92.0, [House(1, 35.0, 2, None), House(2, 95.0, 4, None)]) == Some(Placement(1, true, [2, 3]))
  {
    var houses := [House(1, 35.0, 2, None), House(2, 95.0, 4, None)];
    assert InHouse(92.0, houses, 0);
    assert ZodiacSign(35.0) == 2 && ZodiacSign(95.0) == 4 && ZodiacSign(92.0) == 4;
    assert SignSpan(2, 4) == [2, 3];
  }

  /** A house from 35 to 65 degrees has cusp signs 2 and 3 but the span
      [2]: a planet at 62 degrees, in sign 3, is not flagged. */
  lemma AdjacentSignsExample()
    ensures Locate(62.0, [House(1, 35.0, 2, None), House(2, 65.0, 3, None)]) == Some(Placement(1, false, [2]))
  {
    var houses := [House(1, 35.0, 2, None), House(2, 65.0, 3, None)];
    assert InHouse(62.0, houses, 0);
    assert ZodiacSign(35.0) == 2 && ZodiacSign(65.0) == 3;
    assert SignSpan(2, 3) == [2];
  }

  /** `addSignPropertiesToPlanets` for one planet: a planet with a sign
      gains its modality and element. */
  function WithSignProperties(p: Planet): Planet {
    if HasSign(p) then p.(signModality := Some(SignModality(p.sign.value)), signElement := Some(SignElement(p.sign.value)))
    else p
  }

  /** The house fields `addHouseInfoToPlanets` adds to one planet that
      lands in a house. */
  function WithHouse(p: Planet, houses: seq<House>): Planet {
    match Locate(p.longitude, houses)
    case None => p
    case Some(placement) =>
      p.(house := Some(placement.houseNumber), isInterceptedSign := Some(placement.isInterceptedSign),
         houseSignSpan := Some(placement.signs))
  }

  /** The object `addSignPropertiesToPlanets` returns. */
  function SignProperties(planets: Dict<Planet>): Dict<Planet> {
    Dict(planets.keys, map k | k in planets.entries :: WithSignProperties(planets.entries[k]))
  }

  /** The object `addHouseInfoToPlanets` returns: house fields, then sign
      properties. */
  function HouseInfo(planets: Dict<Planet>, houses: seq<House>): Dict<Planet> {
    SignProperties(Housed(planets, houses))
  }

  /** The copy after the house `forEach`, before sign properties. */
  function Housed(planets: Dict<Planet>, houses: seq<House>): (d: Dict<Planet>)
    ensures planets.Valid() ==> d.Valid()
  {
    Dict(planets.keys, map k | k in planets.entries :: WithHouse(planets.entries[k], houses))
  }

  /** The body of the `forEach` in `addSignPropertiesToPlanets`. */
  method SignPlanet(planet: Planet) returns (q: Planet)
    ensures q == WithSignProperties(planet)
  {
    q := planet;
    if planet.sign.Some? && planet.sign.value != 0 {
      q := planet.(signModality := Some(SignModality(planet.sign.value)),
                   signElement := Some(SignElement(planet.sign.value)));
    }
  }

  /** The `forEach` that overwrites planets with a sign in a copy of the
      dictionary. */
  method AddSignPropertiesToPlanets(planets: Dict<Planet>) returns (r: Dict<Planet>)
    requires planets.Valid()
    ensures r == SignProperties(planets)
  {
    var keys := planets.keys;
    var result := planets.entries;
    for i := 0 to |keys|
      invariant result == MapPrefix(planets, WithSignProperties, i)
    {
      var planetKey := keys[i];
      MapPrefixUntouched(planets, WithSignProperties, i, i);
      var planet := SignPlanet(result[planetKey]);
      result := result[planetKey := planet];
    }
    MapPrefixAll(planets, WithSignProperties);
    r := Dict(keys, result);
  }

  /** The body of the `forEach` in `addHouseInfoToPlanets`. */
  method HousePlanet(planet: Planet, houses: seq<House>) returns (q: Planet)
    ensures q == WithHouse(planet, houses)
  {
    q := planet;
    var houseInfo := GetPlanetHouse(planet, houses);
    if houseInfo.Some? {
      q := planet.(house := Some(houseInfo.value.houseNumber),
                   isInterceptedSign := Some(houseInfo.value.isInterceptedSign),
                   houseSignSpan := Some(houseInfo.value.signs));
    }
  }

  /** The `forEach` that overwrites planets with a house match in a copy of
      the dictionary. */
  method AddHouses(planets: Dict<Planet>, houses: seq<House>) returns (r: Dict<Planet>)
    requires planets.Valid()
    ensures r == Housed(planets, houses)
  {
    var keys := planets.keys;
    var result := planets.entries;
    ghost var f := p => WithHouse(p, houses);
    for i := 0 to |keys|
      invariant result == MapPrefix(planets, f, i)
    {
      var planetKey := keys[i];
      MapPrefixUntouched(planets, f, i, i);
      var planet := HousePlanet(result[planetKey], houses);
      result := result[planetKey := planet];
    }
    MapPrefixAll(planets, f);
    r := Dict(keys, result);
  }

  /** `addHouseInfoToPlanets`: the house `forEach`, then
      `addSignPropertiesToPlanets` on its result. */
  method AddHouseInfoToPlanets(planets: Dict<Planet>, houses: seq<House>) returns (r: Dict<Planet>)
    requires planets.Valid()
    ensures r == HouseInfo(planets, houses)
  {
    var housed := AddHouses(planets, houses);
    r := AddSignPropertiesToPlanets(housed);
  }

  /** Enrichment keeps every key and the longitude and sign of every
      planet; only a planet in a house gains house fields, and only a
      planet with a sign gains a modality and an element. */
  lemma HouseInfoFields(planets: Dict<Planet>, houses: seq<House>, k: string)
    requires k in planets.entries
    ensures HouseInfo(planets, houses).keys == planets.keys
    ensures k in HouseInfo(planets, houses).entries
    ensures
      var p, q := planets.entries[k], HouseInfo(planets, houses).entries[k];
      var placement := Locate(p.longitude, houses);
      && q.longitude == p.longitude && q.sign == p.sign
      && (placement.Some? ==>
            q.house == Some(placement.value.houseNumber)
            && q.isInterceptedSign == Some(placement.value.isInterceptedSign)
            && q.houseSignSpan == Some(placement.value.signs))
      && (placement.None? ==>
            q.house == p.house && q.isInterceptedSign == p.isInterceptedSign && q.houseSignSpan == p.houseSignSpan)
      && (HasSign(p) ==>
            q.signModality == Some(SignModality(p.sign.value)) && q.signElement == Some(SignElement(p.sign.value)))
      && (!HasSign(p) ==> q.signModality == p.signModality && q.signElement == p.signElement)
  {
  }

  /** Enriching an enriched dictionary again with the same houses changes
      nothing. */
  lemma HouseInfoIdempotent(planets: Dict<Planet>, houses: seq<House>)
    ensures HouseInfo(HouseInfo(planets, houses), houses) == HouseInfo(planets, houses)
  {
    var once := HouseInfo(planets, houses);
    forall k | k in once.entries
      ensures HouseInfo(once, houses).entries[k] == once.entries[k]
    {
      var p := planets.entries[k];
      var q := once.entries[k];
      assert q.longitude == p.longitude && q.sign == p.sign;
    }
  }

  /** The counters of `calculateSignDistribution`. */
  datatype Distribution = Distribution(cardinal: nat, fixed: nat, mutable: nat,
                                       fire: nat, earth: nat, air: nat, water: nat)

  /** One planet with a sign counted under its modality and its element. */
  function Count(d: Distribution, sign: int): Distribution {
    var d1 := match SignModality(sign)
      case Cardinal => d.(cardinal := d.cardinal + 1)
      case Fixed => d.(fixed := d.fixed + 1)
      case Mutable => d.(mutable := d.mutable + 1);
    match SignElement(sign)
    case Fire => d1.(fire := d1.fire + 1)
    case Earth => d1.(earth := d1.earth + 1)
    case Air => d1.(air := d1.air + 1)
    case Water => d1.(water := d1.water + 1)
  }

  /** Counting one sign adds exactly one to the modality counts and one to
      the element counts. */
  lemma CountSums(d: Distribution, sign: int)
    ensures var c := Count(d, sign);
      c.cardinal + c.fixed + c.mutable == d.cardinal + d.fixed + d.mutable + 1
      && c.fire + c.earth + c.air + c.water == d.fire + d.earth + d.air + d.water + 1
  {
  }

  /** The counters after the first n planets, in key order. */
  function Tally(planets: Dict<Planet>, n: nat): Distribution
    requires planets.Valid() && n <= |planets.keys|
  {
    if n == 0 then Distribution(0, 0, 0, 0, 0, 0, 0)
    else
      var d, p := Tally(planets, n - 1), planets.entries[planets.keys[n - 1]];
      if HasSign(p) then Count(d, p.sign.value) else d
  }

  /** How many of the first n planets have a sign. */
  function Signed(planets: Dict<Planet>, n: nat): nat
    requires planets.Valid() && n <= |planets.keys|
  {
    if n == 0 then 0
    else Signed(planets, n - 1) + if HasSign(planets.entries[planets.keys[n - 1]]) then 1 else 0
  }

  /** The modality counts, and likewise the element counts, add up to the
      number of planets with a sign. */
  lemma {:induction false} TallySums(planets: Dict<Planet>, n: nat)
    requires planets.Valid() && n <= |planets.keys|
    ensures var d := Tally(planets, n);
      d.cardinal + d.fixed + d.mutable == Signed(planets, n)
      && d.fire + d.earth + d.air + d.water == Signed(planets, n)
  {
    if n > 0 {
      TallySums(planets, n - 1);
      var p := planets.entries[planets.keys[n - 1]];
      if HasSign(p) {
        CountSums(Tally(planets, n - 1), p.sign.value);
      }
    }
  }

  /** The counting loop over `Object.values(planets)`. */
  method CalculateSignDistribution(planets: Dict<Planet>) returns (d: Distribution)
    requires planets.Valid()
    ensures d == Tally(planets, |planets.keys|)
  {
    d := Distribution(0, 0, 0, 0, 0, 0, 0);
    for i := 0 to |planets.keys|
      invariant d == Tally(planets, i)
    {
      var planet := planets.entries[planets.keys[i]];
      if planet.sign.Some? && planet.sign.value != 0 {
        var modality := SignModality(planet.sign.value);
        var element := SignElement(planet.sign.value);
        match modality {
          case Cardinal => d := d.(cardinal := d.cardinal + 1);
          case Fixed => d := d.(fixed := d.fixed + 1);
          case Mutable => d := d.(mutable := d.mutable + 1);
        }
        match element {
          case Fire => d := d.(fire := d.fire + 1);
          case Earth => d := d.(earth := d.earth + 1);
          case Air => d := d.(air := d.air + 1);
          case Water => d := d.(water := d.water + 1);
        }
      }
    }
  }

  /** The modern rulers of the twelve signs. */
  const Rulers: seq<string> :=
    ["mars", "venus", "mercury", "moon", "sun", "mercury", "venus", "pluto", "jupiter", "saturn", "uranus", "neptune"]

  /** `getRuler`: the ruler of signs 1..12, nothing for any other value. */
  function GetRuler(sign: int): (r: Option<string>)
    ensures r.Some? <==> 1 <= sign <= 12
    ensures r.Some? ==> r.value in Rulers && r.value == Rulers[sign - 1]
  {
    if 1 <= sign <= 12 then Some(Rulers[sign - 1]) else None
  }

  /** Only Mercury and Venus rule two signs each; every other ruler rules
      one. */
  lemma RulersShared(a: int, b: int)
    requires 1 <= a < b <= 12
    ensures GetRuler(a) == GetRuler(b) <==> (a == 2 && b == 7) || (a == 3 && b == 6)
  {
  }

  /** The ruler descriptor built from the ruling planet. */
  function RulerOf(name: string, planet: Planet): RulerInfo {
    RulerInfo(name, planet.house, planet.sign, ModalityOf(planet.sign), ElementOf(planet.sign))
  }

  /** `addRulerInfoToHouses`: each house whose sign's ruler is a planet key
      gains that planet's ruler descriptor; the others are kept as they
      are. */
  function AddRulerInfoToHouses(houses: seq<House>, planets: Dict<Planet>): (r: seq<House>)
    ensures |r| == |houses|
    ensures forall i | 0 <= i < |houses| :: r[i].(ruler := houses[i].ruler) == houses[i]
    ensures forall i | 0 <= i < |houses| ::
      var ruler := GetRuler(houses[i].sign);
      ruler.Some? && ruler.value in planets.entries ==> r[i].ruler == Some(RulerOf(ruler.value, planets.entries[ruler.value]))
    ensures forall i | 0 <= i < |houses| ::
      var ruler := GetRuler(houses[i].sign);
      !(ruler.Some? && ruler.value in planets.entries) ==> r[i] == houses[i]
  {
    if houses == [] then []
    else
      var house, rest := houses[0], AddRulerInfoToHouses(houses[1..], planets);
      var ruler := GetRuler(house.sign);
      var first := if ruler.Some? && ruler.value in planets.entries
        then house.(ruler := Some(RulerOf(ruler.value, planets.entries[ruler.value])))
        else house;
      [first] + rest
  }
}
