/** The records the two house engines read and enrich: a planet as the
    chart carries it, a house cusp, the ruler descriptor attached to a
    house, and the result of locating a planet among the houses. */
module Chart {
  import opened Common

  datatype Modality = Cardinal | Fixed | Mutable

  datatype Element = Fire | Earth | Air | Water

  /** A planet entry: its raw ecliptic longitude, its sign number when one
      is present, and the fields the engines add. A field the source has
      not set is `None`. */
  datatype Planet = Planet(
    longitude: real,
    sign: Option<int>,
    house: Option<int>,
    isInterceptedSign: Option<bool>,
    houseSignSpan: Option<seq<int>>,
    signModality: Option<Modality>,
    signElement: Option<Element>)

  /** `ruler` of a house: the ruling planet's key and what that planet
      carries. */
  datatype RulerInfo = RulerInfo(name: string, house: Option<int>, sign: Option<int>,
                                 signModality: Modality, signElement: Element)

  /** A house cusp: its number, its cusp longitude, its sign number, and the
      ruler descriptor once attached. */
  datatype House = House(houseNumber: int, longitude: real, sign: int, ruler: Option<RulerInfo>)

  /** What `getPlanetHouse` returns on a match. */
  datatype Placement = Placement(houseNumber: int, isInterceptedSign: bool, signs: seq<int>)

  /** `if (planet.sign)`: a present, non-zero sign number. */
  predicate HasSign(p: Planet) {
    p.sign.Some? && p.sign.value != 0
  }

  /** The cusp pair the search loop looks at for house i: the next cusp
      wraps from the last house to the first. */
  function NextIndex(i: nat, n: nat): (j: nat)
    requires i < n
    ensures j < n && (j == i + 1 || (i == n - 1 && j == 0))
  {
    (i + 1) % n
  }
}
