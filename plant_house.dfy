/** The older 0-based house locator of src/astrologer/plantHouse.js: sign
    numbers 0..11, the same cusp-interval search as the 1-based locator,
    a house flagged as intercepted when its two cusp signs differ, and an
    enrichment that adds house fields only. */
module PlantHouse {
  import opened Common
  import opened Chart
  import PlanetHouse

  /** `getZodiacSign`: `Math.floor(longitude / 30) % 12`. */
  function ZodiacSign(longitude: real): (s: int)
    ensures longitude >= 0.0 ==> 0 <= s <= 11
  {
    Rem12((longitude / 30.0).Floor)
  }

  /** The two numberings differ by exactly one. */
  lemma ZodiacSignShift(longitude: real)
    ensures ZodiacSign(longitude) + 1 == PlanetHouse.ZodiacSign(longitude)
  {
  }

  /** Reducing a non-negative longitude modulo 360 keeps its sign. */
  lemma ZodiacSignTurn(longitude: real)
    requires longitude >= 0.0
    ensures ZodiacSign(Rem360(longitude)) == ZodiacSign(longitude)
  {
    var k := (longitude / 360.0).Floor;
    var f := (longitude / 30.0).Floor;
    assert Rem360(longitude) / 30.0 == longitude / 30.0 - 12.0 * k as real;
    assert (Rem360(longitude) / 30.0).Floor == f - 12 * k;
    assert 0 <= f - 12 * k;
    assert (f - 12 * k) % 12 == f % 12;
  }

  /** The unwrapped end cusp of house i. */
  function NextCusp(houses: seq<House>, i: nat): real
    requires i < |houses|
  {
    var current, next := houses[i].longitude, houses[NextIndex(i, |houses|)].longitude;
    if next < current then next + 360.0 else next
  }

  /** The planet's longitude as compared with house i. */
  function Adjusted(planetLongitude: real, current: real): real {
    if planetLongitude < current && current > 270.0 then planetLongitude + 360.0 else planetLongitude
  }

  /** The match test of the search loop at house i. */
  predicate InHouse(planetLongitude: real, houses: seq<House>, i: nat)
    requires i < |houses|
  {
    var current := houses[i].longitude;
    current <= Adjusted(planetLongitude, current) < NextCusp(houses, i)
  }

  /** The first house index from i on whose interval holds the planet. */
  function FirstMatch(planetLongitude: real, houses: seq<House>, i: nat): (r: Option<nat>)
    ensures r.None? <==> forall t | i <= t < |houses| :: !InHouse(planetLongitude, houses, t)
    ensures r.Some? ==> i <= r.value < |houses| && InHouse(planetLongitude, houses, r.value)
    ensures r.Some? ==> forall t | i <= t < r.value :: !InHouse(planetLongitude, houses, t)
    decreases |houses| - i
  {
    if i >= |houses| then None
    else if InHouse(planetLongitude, houses, i) then Some(i)
    else FirstMatch(planetLongitude, houses, i + 1)
  }

  /** What a match at house i returns: the start cusp sign and the sign of
      the end cusp reduced modulo 360, both when they differ. */
  function PlacementAt(houses: seq<House>, i: nat): Placement
    requires i < |houses|
  {
    var houseStartSign := ZodiacSign(houses[i].longitude);
    var houseEndSign := ZodiacSign(Rem360(NextCusp(houses, i)));
    var isInterceptedSign := houseStartSign != houseEndSign;
    Placement(houses[i].houseNumber, isInterceptedSign,
              if isInterceptedSign then [houseStartSign, houseEndSign] else [houseStartSign])
  }

  /** `getPlanetHouse`: the placement at the first house whose interval
      holds the planet, or nothing. */
  function Locate(planetLongitude: real, houses: seq<House>): Option<Placement> {
    var m := FirstMatch(planetLongitude, houses, 0);
    if m.None? then None else Some(PlacementAt(houses, m.value))
  }

  /** The search finds nothing exactly when no house holds the planet (an
      empty house list included); a placement is the one at the first such
      house: it lists the start sign first, then the end cusp's sign
      exactly when the two differ, in which case it is flagged. */
  lemma LocateFirst(planetLongitude: real, houses: seq<House>)
    ensures var r := Locate(planetLongitude, houses);
      && (r.None? <==> forall i | 0 <= i < |houses| :: !InHouse(planetLongitude, houses, i))
      && (r.Some? ==> exists i | 0 <= i < |houses| ::
            && InHouse(planetLongitude, houses, i)
            && (forall t | 0 <= t < i :: !InHouse(planetLongitude, houses, t))
            && r.value.houseNumber == houses[i].houseNumber
            && r.value.signs[0] == ZodiacSign(houses[i].longitude)
            && (r.value.isInterceptedSign <==> ZodiacSign(houses[i].longitude) != ZodiacSign(Rem360(NextCusp(houses, i))))
            && |r.value.signs| == (if r.value.isInterceptedSign then 2 else 1)
            && (r.value.isInterceptedSign ==> r.value.signs[1] == ZodiacSign(Rem360(NextCusp(houses, i))))
            && r.value == PlacementAt(houses, i))
  {
    var m := FirstMatch(planetLongitude, houses, 0);
    if m.Some? {
      var i := m.value;
      assert InHouse(planetLongitude, houses, i);
    }
  }

  /** The search loop with its early return. */
  method GetPlanetHouse(planet: Planet, houses: seq<House>) returns (r: Option<Placement>)
    ensures r == Locate(planet.longitude, houses)
  {
    var planetLongitude := planet.longitude;
    for i := 0 to |houses|
      invariant FirstMatch(planetLongitude, houses, 0) == FirstMatch(planetLongitude, houses, i)
    {
      var currentHouse := houses[i];
      var nextHouse := houses[(i + 1) % |houses|];
      var currentLongitude := currentHouse.longitude;
      var nextLongitude := nextHouse.longitude;
      if nextLongitude < currentLongitude {
        nextLongitude := nextLongitude + 360.0;
      }
      var adjustedPlanetLongitude := planetLongitude;
      if adjustedPlanetLongitude < currentLongitude && currentLongitude > 270.0 {
        adjustedPlanetLongitude := adjustedPlanetLongitude + 360.0;
      }
      assert nextLongitude == NextCusp(houses, i);
      assert adjustedPlanetLongitude == Adjusted(planetLongitude, currentLongitude);
      if adjustedPlanetLongitude >= currentLongitude && adjustedPlanetLongitude < nextLongitude {
        var houseStartSign := ZodiacSign(currentLongitude);
        var houseEndSign := ZodiacSign(Rem360(nextLongitude));
        var isInterceptedSign := houseStartSign != houseEndSign;
        assert FirstMatch(planetLongitude, houses, i) == Some(i);
        return Some(Placement(currentHouse.houseNumber, isInterceptedSign,
                              if isInterceptedSign then [houseStartSign, houseEndSign] else [houseStartSign]));
      }
      assert !InHouse(planetLongitude, houses, i);
    }
    assert FirstMatch(planetLongitude, houses, |houses|) == None;
    return None;
  }

  /** The two searches test the same intervals. */
  lemma InHouseAgrees(planetLongitude: real, houses: seq<House>, i: nat)
    requires i < |houses|
    ensures InHouse(planetLongitude, houses, i) == PlanetHouse.InHouse(planetLongitude, houses, i)
    ensures NextCusp(houses, i) == PlanetHouse.NextCusp(houses, i)
  {
  }

  /** From any index on, the two searches stop at the same house. */
  lemma {:induction false} FirstMatchAgrees(planetLongitude: real, houses: seq<House>, i: nat)
    ensures FirstMatch(planetLongitude, houses, i) == PlanetHouse.FirstMatch(planetLongitude, houses, i)
    decreases |houses| - i
  {
    if i < |houses| {
      InHouseAgrees(planetLongitude, houses, i);
      FirstMatchAgrees(planetLongitude, houses, i + 1);
    }
  }

  /** For the same planet and houses both locators find no house in the
      same cases and otherwise the same house. */
  lemma SameHouse(planetLongitude: real, houses: seq<House>)
    ensures Locate(planetLongitude, houses).None? <==> PlanetHouse.Locate(planetLongitude, houses).None?
    ensures Locate(planetLongitude, houses).Some? ==>
      Locate(planetLongitude, houses).value.houseNumber == PlanetHouse.Locate(planetLongitude, houses).value.houseNumber
  {
    FirstMatchAgrees(planetLongitude, houses, 0);
  }

  /** With non-negative cusps the two locators' start signs differ by one,
      and the 0-based one flags house i exactly when the 1-based one sees
      two different cusp signs. */
  lemma SameSigns(planetLongitude: real, houses: seq<House>, i: nat)
    requires i < |houses| && forall h | h in houses :: h.longitude >= 0.0
    ensures PlacementAt(houses, i).signs[0] + 1 == PlanetHouse.PlacementAt(planetLongitude, houses, i).signs[0]
    ensures PlacementAt(houses, i).isInterceptedSign <==>
      PlanetHouse.ZodiacSign(houses[i].longitude) != PlanetHouse.ZodiacSign(PlanetHouse.NextCusp(houses, i))
  {
    var current, next := houses[i].longitude, NextCusp(houses, i);
    assert houses[i] in houses && houses[NextIndex(i, |houses|)] in houses;
    assert next >= 0.0;
    ZodiacSignShift(current);
    ZodiacSignShift(next);
    ZodiacSignTurn(next);
  }

  /** The house fields `addHouseInfoToPlanets` adds to one planet that
      lands in a house. */
  function WithHouse(p: Planet, houses: seq<House>): Planet {
    match Locate(p.longitude, houses)
    case None => p
    case Some(placement) =>
      p.(house := Some(placement.houseNumber), isInterceptedSign := Some(placement.isInterceptedSign),
         houseSignSpan := Some(placement.signs))
  }

  /** The object `addHouseInfoToPlanets` returns. */
  function HouseInfo(planets: Dict<Planet>, houses: seq<House>): Dict<Planet> {
    Dict(planets.keys, map k | k in planets.entries :: WithHouse(planets.entries[k], houses))
  }

  /** The body of the `forEach` in `addHouseInfoToPlanets`. */
  method HousePlanet(planet: Planet, houses: seq<House>) returns (q: Planet)
    ensures q == WithHouse(planet, houses)
  {
    q := planet;
    var houseInfo := GetPlanetHouse(planet, houses);
    if houseInfo.Some? {
      q := planet.(house := Some(houseInfo.value.houseNumber),
                   isInterceptedSign := Some(houseInfo.value.isInterceptedSign),
                   houseSignSpan := Some(houseInfo.value.signs));
    }
  }

  /** The `forEach` that overwrites planets with a house match in a copy of
      the dictionary. */
  method AddHouseInfoToPlanets(planets: Dict<Planet>, houses: seq<House>) returns (r: Dict<Planet>)
    requires planets.Valid()
    ensures r == HouseInfo(planets, houses)
  {
    var keys := planets.keys;
    var result := planets.entries;
    ghost var f := p => WithHouse(p, houses);
    for i := 0 to |keys|
      invariant result == MapPrefix(planets, f, i)
    {
      var planetKey := keys[i];
      MapPrefixUntouched(planets, f, i, i);
      var planet := HousePlanet(result[planetKey], houses);
      result := result[planetKey := planet];
    }
    MapPrefixAll(planets, f);
    r := Dict(keys, result);
  }

  /** Enrichment keeps every key and changes only planets in a house, whose
      house fields it sets; it adds no modality or element. */
  lemma HouseInfoFields(planets: Dict<Planet>, houses: seq<House>, k: string)
    requires k in planets.entries
    ensures HouseInfo(planets, houses).keys == planets.keys
    ensures k in HouseInfo(planets, houses).entries
    ensures
      var p, q := planets.entries[k], HouseInfo(planets, houses).entries[k];
      var placement := Locate(p.longitude, houses);
      && q.(house := p.house, isInterceptedSign := p.isInterceptedSign, houseSignSpan := p.houseSignSpan) == p
      && (placement.None? ==> q == p)
      && (placement.Some? ==>
            q.house == Some(placement.value.houseNumber)
            && q.isInterceptedSign == Some(placement.value.isInterceptedSign)
            && q.houseSignSpan == Some(placement.value.signs))
  {
  }

  /** Enriching twice with the same houses is enriching once. */
  lemma HouseInfoIdempotent(planets: Dict<Planet>, houses: seq<House>)
    ensures HouseInfo(HouseInfo(planets, houses), houses) == HouseInfo(planets, houses)
  {
  }
}
