# Astrology chart derivations in Dafny

This project models the chart-derivation core of the astrology API. There are three engines, and each works on longitudes that have already been computed:

- **The aspect engine** (`src/astrologer/aspects.js`). It holds the `ASPECTS` name table and the `DEFAULT_ORBS` orb table. `calculateAspect` is the per-side candidate filter: closed orb windows around each nominal angle, and only the 0° key when either body is an axis. `aspect` is the resolver. It rejects unknown categories, takes the Set union of the two candidate lists, and picks the closest nominal angle with a strict-`<` reduce, so the first angle in union order wins ties. It also derives the direction and the per-side `exist` flags. `aspects` is the imperative graph builder: nested `forEach` loops over the planet keys, the `processedPairs` set, a planet × axis loop, and a final `delete` loop.
- **The 1-based house locator and sign classifier** (`src/astrologer/planetHouse.js`). It computes sign numbers 1..12 and has fixed modality, element and ruler tables. The cusp-interval search unwraps the seam twice and builds a sign span with push loops and its own wrap rule. The rest enriches the planet dictionary, counts the sign distribution and annotates houses with rulers.
- **The older 0-based house locator** (`src/astrologer/plantHouse.js`). It has sign numbers 0..11 and the same interval search. A house is flagged as intercepted exactly when its two cusp signs differ.

The modules are `Common` (Option, JavaScript objects as ordered dictionaries, JavaScript remainders), `Aspects`, `AspectGraph`, `Chart` (records the two house engines share), `PlanetHouse` and `PlantHouse`.

Each imperative routine is a method proved against a specification function:
- the `aspects` loops;
- the push loops and the early-return search of `getPlanetHouse`;
- the `forEach` enrichments;
- the counters of `calculateSignDistribution`.

The properties are then lemmas about those functions.

The loop methods of `aspects` are generic over the resolver (a function value) and over how `processedPairs` names a pair. `BuildAspectsByName` instantiates them as the source does: `aspect` without an orb table, which means the default orbs, and the name `${a}-${b}`. `BuildAspectsByPair` instantiates them with ordered pairs of keys as names.

Behaviours of the code worth knowing, which the model keeps as written:
- **Span of two adjacent signs.** In `planetHouse.js` a house whose cusps lie in two adjacent signs has the span `[start]`, because the push loops stop before the end sign. None of its planets is therefore flagged as intercepted, whatever its own sign. `PlanetHouse.AdjacentSignsExample` shows a planet of sign 3 in a house with cusp signs 2 and 3 left unflagged. `PlanetHouse.InterceptedExample` shows a planet of sign 4 flagged in a house from sign 2 to sign 4, whose span is [2, 3].
- **End sign 1.** When the end cusp sign is 1 and the start sign is larger, the wrapping branch is skipped by its `!== 1` guard. The span is then just `[start]` (for example, 11 → 1 gives `[11]`, not `[11, 12]`). `PlanetHouse.SignSpanDegenerate` states this behaviour as written.
- **Unknown category.** An unknown body category gives plain "no result" (the warning is I/O).

## Model

| member | source | states |
|---|---|---|
| Common.Rem12 | src/astrologer/planetHouse.js:106 | JavaScript `%` by 12: the remainder has the sign of the dividend and differs from it by a multiple of 12 |
| Common.Rem360 | src/astrologer/plantHouse.js:42 | `x % 360` on a non-negative number lies in [0, 360) and is x minus whole turns |
| Aspects.AspectNamesDistinct | src/astrologer/aspects.js:3-11 | ASPECTS gives its seven nominal angles seven different names |
| Aspects.DefaultOrbsShape | src/astrologer/aspects.js:13-20 | DEFAULT_ORBS has exactly the six categories luminary, personal, social, transpersonal, axis and other; an axis has an orb of 5 for the conjunction and no other angle; every other category has a positive orb for exactly the seven nominal angles |
| Aspects.Separation | src/astrologer/aspects.js:74-77 | the separation lies in [0, 180], is the smaller of the direct and the wrapped arc, and is one of them |
| Aspects.SeparationSymmetric | src/astrologer/aspects.js:74-77 | the separation does not depend on the order of the two bodies |
| Aspects.SeparationAcrossSeam | src/astrologer/aspects.js:50 | 359° and 1° are 2° apart, not 358° |
| Aspects.WithinOrbs | src/astrologer/aspects.js:41-53 | an angle is kept iff it is listed and its closed window [a - orb, a + orb] holds the separation (no orb, no window); the order of an ascending list is kept |
| Aspects.Candidates | src/astrologer/aspects.js:22-54 | the candidate list is ascending; with an axis, 0 is its only possible member and is in it iff that side's own 0° window holds the separation; otherwise an angle is in it iff it is a nominal angle whose window, under that side's orbs, holds the separation |
| Aspects.CandidatesAre | src/astrologer/aspects.js:41-53 | for two non-axis bodies the candidate list is exactly the ascending list of the admitted nominal angles |
| Aspects.DedupShape | src/astrologer/aspects.js:69 | `[...new Set(s)]` has the same members as s, no duplicates, and is s itself when s has none |
| Aspects.DedupOrder | src/astrologer/aspects.js:69 | `[...new Set(s)]` keeps first occurrences in their order: two first occurrences at positions p < q of s appear in that order |
| Aspects.Union | src/astrologer/aspects.js:69 | the union holds exactly the members of either list, without duplicates, and begins, position by position, with the whole first list when that list has no duplicates |
| Aspects.UnionOrder | src/astrologer/aspects.js:69 | the union lists the members of both lists in the order of their first occurrence in the first list followed by the second, which fixes where the second list's new members go |
| Aspects.UnionExample | src/astrologer/aspects.js:69 | the union of [90] and [30, 60] is [90, 30, 60] |
| Aspects.Nearest | src/astrologer/aspects.js:79-82 | the strict-`<` reduce returns the start value or a list member, is never farther than the start value and moves off it only to a strictly closer member, and no member is strictly closer than the result |
| Aspects.NearestEarliest | src/astrologer/aspects.js:79-82 | when a member is exactly as close as the result, the result is the start value or a member at or before that position: the earliest of equally close candidates wins |
| Aspects.Closest | src/astrologer/aspects.js:79-82 | the chosen angle is a member, no member is strictly closer to the separation, and ties go to the earliest member |
| Aspects.Resolve | src/astrologer/aspects.js:69-91 | no result iff both candidate lists are empty; `bidirectional` iff both `exist` flags hold; at least one `exist` flag holds |
| Aspects.ResolveChoice | src/astrologer/aspects.js:79-91 | a result names an angle of the union that no union member beats, ties going to the earlier union member, and each side's `exist` flag says whether its own list has that angle |
| Aspects.Aspect | src/astrologer/aspects.js:56-92 | no result when either category is missing from the orb table in force (the default table when none is given); otherwise the choice over the two sides' candidate lists, each computed with that side's own orbs; any result involving an axis is a conjunction |
| Aspects.NoFalseConjunction | src/astrologer/aspects.js:41-53 | two personal bodies 40° apart form no aspect under the default orbs |
| Aspects.NoSquareWithAxis | src/astrologer/aspects.js:23-39 | a luminary 45° from an axis forms no aspect: the square is never tried against an axis |
| Aspects.ClosestAngleWins | src/astrologer/aspects.js:79-82 | at 29° with both 30° and 60° admitted, the semisextile is chosen, seen by both sides |
| Aspects.OneSidedAspect | src/astrologer/aspects.js:84-91 | at 27° a luminary's orbs admit the semisextile and a personal body's do not: the result is unidirectional with `exist` true for the luminary only |
| AspectGraph.WalkInRange | src/astrologer/aspects.js:102-104 | the pair loops only evaluate positions of the key list, and never a key with itself |
| AspectGraph.Visited | src/astrologer/aspects.js:102-116 | the evaluated pairs are positions of distinct keys |
| AspectGraph.VisitedOnce | src/astrologer/aspects.js:102-116 | for any keys and any way of naming pairs, the loops evaluate no pair twice and never a pair together with its reverse, so a name collision can only make them skip pairs |
| AspectGraph.AllPairs | src/astrologer/aspects.js:102-116 | the reference list of unordered pairs has the smaller position first |
| AspectGraph.AllPairsShape | src/astrologer/aspects.js:102-116 | the reference list holds every pair a < b exactly once |
| AspectGraph.WalkIsAllPairs | src/astrologer/aspects.js:102-116 | when pair names tell ordered pairs apart, the loops evaluate exactly every unordered pair of distinct keys, once each, the earlier key first, in key order |
| AspectGraph.WalkFrom | src/astrologer/aspects.js:102-116 | from any loop position, with the names recorded so far, the rest of the evaluation is the rest of the reference pair list |
| AspectGraph.PairNameInjective | src/astrologer/aspects.js:104-105 | without hyphens in the keys, `${a}-${b}` names different ordered pairs differently |
| AspectGraph.HyphenFreeVisitsAllPairs | src/astrologer/aspects.js:102-116 | without hyphens in the keys, the loops as written evaluate every unordered pair exactly once |
| AspectGraph.PairsVisitAllPairs | src/astrologer/aspects.js:102-116 | with ordered pairs as names, the loops evaluate every unordered pair exactly once, whatever the keys |
| AspectGraph.PairNameCollision | src/astrologer/aspects.js:104-105 | with keys "a", "b-a", "a-b" the loops evaluate only (a, b-a) and (b-a, a-b), never the pair a / a-b |
| AspectGraph.Prune | src/astrologer/aspects.js:141-145 | the pruned object has exactly the planet keys whose list is non-empty, each with its whole list, and is well formed when the planet keys are distinct |
| AspectGraph.PruneOrder | src/astrologer/aspects.js:141-145 | the `delete` loop keeps the order of the survivors: two kept keys appear in the order of the planet keys |
| AspectGraph.EmptyLists | src/astrologer/aspects.js:98-100 | the first loop puts an empty list under every planet key and nothing else |
| AspectGraph.VisitPair | src/astrologer/aspects.js:103-115 | one inner iteration keeps the loop state: the lists hold the entries of the pairs evaluated so far, and those pairs followed by the rest of the walk are the whole walk |
| AspectGraph.AddPairs | src/astrologer/aspects.js:102-116 | after the pair loops, each planet's list holds, in order, the aspects of the evaluated pairs it opens, tagged with the other key |
| AspectGraph.AxesWithType | src/astrologer/aspects.js:119-126 | `axesWithType` maps every axis key to a body named after that key, of type "axis", at that axis's longitude |
| AspectGraph.VisitAxis | src/astrologer/aspects.js:129-137 | one planet × axis iteration appends that axis's hit to that planet's list only |
| AspectGraph.VisitAxes | src/astrologer/aspects.js:129-137 | the inner axis `forEach` for planet i appends that planet's hits against every axis, in axis order, and leaves the other planets' lists alone |
| AspectGraph.AddAxes | src/astrologer/aspects.js:118-139 | after the axis loops, each planet's list is its pair entries followed by its hits against every axis, in axis order |
| AspectGraph.PruneEmpty | src/astrologer/aspects.js:141-145 | the `delete` loop leaves exactly the pruned object |
| AspectGraph.CollectLists | src/astrologer/aspects.js:96-139 | before the `delete` loop, each planet's list holds its entries from the evaluated pairs followed by its axis hits, and there is a list for every planet key and no other |
| AspectGraph.BuildAspects | src/astrologer/aspects.js:94-148 | the whole builder returns the pruned lists of the evaluated pairs and the axis hits, as a well-formed object |
| AspectGraph.BuildAspectsByName | src/astrologer/aspects.js:94-148 | `aspects` as written: the graph of the pairs the `${a}-${b}` bookkeeping lets through, which is every unordered pair when no key has a hyphen |
| AspectGraph.BuildAspectsByPair | src/astrologer/aspects.js:94-148 | with collision-free pair names the graph covers every unordered pair exactly once |
| AspectGraph.PairEntriesMembers | src/astrologer/aspects.js:107-113 | an entry is under key k iff some evaluated pair opened by k resolves to its aspect and its `with` is the pair's other key |
| AspectGraph.PairStoredOnce | src/astrologer/aspects.js:102-116 | when every unordered pair is evaluated (ordered-pair names, as in `BuildAspectsByPair`, or keys without hyphens), an aspect between the planets at positions a < b is stored under the earlier key tagged with the later, and never under the later key tagged with the earlier |
| AspectGraph.VisitedForward | src/astrologer/aspects.js:102-116 | for any keys and any pair naming, every pair the nested loop evaluates has the smaller position first |
| AspectGraph.PairNeverReversed | src/astrologer/aspects.js:102-116 | for `aspects` as written, with any pair naming, no entry under the key at a later position is tagged with the key at an earlier position |
| AspectGraph.AxisHitsMembers | src/astrologer/aspects.js:128-138 | an axis entry is in a planet's list iff some axis resolves to its aspect against the planet and its `with` is that axis's key |
| AspectGraph.AxisHitsConjunctions | src/astrologer/aspects.js:128-138 | with the default orbs every axis entry is a conjunction |
| AspectGraph.GraphKeys | src/astrologer/aspects.js:141-145 | a key is in the result iff it is a planet key with a pair or an axis entry, and its list is exactly those entries |
| Chart.NextIndex | src/astrologer/planetHouse.js:121 | the next house index is the following one, wrapping from the last house to the first |
| PlanetHouse.ZodiacSign | src/astrologer/planetHouse.js:105-107 | a non-negative longitude has a sign in 1..12 |
| PlanetHouse.ZodiacSignPeriodic | src/astrologer/planetHouse.js:105-107 | adding a whole turn to a non-negative longitude keeps its sign |
| PlanetHouse.ZodiacSignBand | src/astrologer/planetHouse.js:105-107 | within one turn the sign is s iff the longitude lies in [30(s-1), 30s) |
| PlanetHouse.SignModality | src/astrologer/planetHouse.js:6-19 | for signs 1..12, cardinal, fixed or mutable according as (s-1) mod 3 is 0, 1 or 2; any other value is mutable |
| PlanetHouse.SignElement | src/astrologer/planetHouse.js:26-43 | for signs 1..12, fire, earth, air or water according as (s-1) mod 4 is 0, 1, 2 or 3; any other value is water |
| PlanetHouse.FirstMatch | src/astrologer/planetHouse.js:119-139 | the search returns nothing iff no house from the start index on holds the planet, and otherwise the first index that does |
| PlanetHouse.Range | src/astrologer/planetHouse.js:149-158 | the integers a push loop `for (s = lo; s < hi; s++)` visits: position t holds lo + t, and there are hi - lo of them (none when hi <= lo) |
| PlanetHouse.PushSigns | src/astrologer/planetHouse.js:149-158 | one push loop appends to the array exactly lo, lo+1, ..., hi-1 in that order and leaves what was there before |
| PlanetHouse.BuildSignSpan | src/astrologer/planetHouse.js:145-160 | the push loops build exactly the sign span |
| PlanetHouse.SignSpanCyclic | src/astrologer/planetHouse.js:145-159 | for different cusp signs with an end sign other than 1, the span is the cyclic run from the start sign up to, not including, the end sign, of length (end - start) mod 12 |
| PlanetHouse.SignSpanDegenerate | src/astrologer/planetHouse.js:145-159 | the span starts with the start sign, and is just that sign when the cusp signs are equal or the end sign is 1 |
| PlanetHouse.LocateFirst | src/astrologer/planetHouse.js:115-176 | `getPlanetHouse` returns null iff no house interval holds the planet (an empty house list included), and otherwise the placement at the first house that does |
| PlanetHouse.GetPlanetHouse | src/astrologer/planetHouse.js:115-176 | the loop with its early return computes exactly that placement |
| PlanetHouse.SeamExample | src/astrologer/planetHouse.js:119-139 | a planet at 2° with cusps 355°, 25°, ... lands in house 1 |
| PlanetHouse.InterceptedExample | src/astrologer/planetHouse.js:141-170 | a house from 35° to 95° spans signs 2 and 3, and a planet at 92° (sign 4) in it is flagged |
| PlanetHouse.AdjacentSignsExample | src/astrologer/planetHouse.js:141-164 | a house with cusp signs 2 and 3 has the span [2], and a planet of sign 3 in it is not flagged |
| PlanetHouse.AddSignPropertiesToPlanets | src/astrologer/planetHouse.js:50-65 | the loop gives every planet with a truthy sign its modality and element and leaves the others as they are |
| PlanetHouse.SignPlanet | src/astrologer/planetHouse.js:54-61 | the `forEach` body gives a planet with a truthy sign its modality and element and returns any other planet unchanged |
| PlanetHouse.AddHouses | src/astrologer/planetHouse.js:185-200 | the `forEach` gives every planet with a house match its house, interception flag and span, and leaves the others and the key order as they are |
| PlanetHouse.HousePlanet | src/astrologer/planetHouse.js:188-199 | the `forEach` body gives a planet with a house match that placement's house number, interception flag and span, and returns any other planet unchanged |
| PlanetHouse.AddHouseInfoToPlanets | src/astrologer/planetHouse.js:184-204 | the loop adds house fields to every planet with a house match, then sign properties |
| PlanetHouse.HouseInfoFields | src/astrologer/planetHouse.js:184-204 | enrichment keeps the key set, longitude and sign; exactly the housed planets gain house, interception flag and span; exactly the planets with a sign gain modality and element; nothing else changes |
| PlanetHouse.HouseInfoIdempotent | src/astrologer/planetHouse.js:184-204 | enriching again with the same houses changes nothing |
| PlanetHouse.TallySums | src/astrologer/planetHouse.js:72-98 | the three modality counts, and likewise the four element counts, add up to the number of planets with a truthy sign |
| PlanetHouse.CalculateSignDistribution | src/astrologer/planetHouse.js:72-98 | the counting loop computes the tally over all planets |
| PlanetHouse.GetRuler | src/astrologer/planetHouse.js:211-228 | a ruler exists iff the sign is in 1..12, and is then the table entry for that sign |
| PlanetHouse.RulersShared | src/astrologer/planetHouse.js:211-228 | two different signs share a ruler iff they are 2 and 7 (Venus) or 3 and 6 (Mercury) |
| PlanetHouse.AddRulerInfoToHouses | src/astrologer/planetHouse.js:236-256 | the houses keep their length, order and every field but `ruler`; a house gets the ruler descriptor (name, and that planet's house, sign, modality and element) iff its sign's ruler is a planet key, and is otherwise unchanged |
| PlantHouse.ZodiacSign | src/astrologer/plantHouse.js:6-8 | a non-negative longitude has a sign in 0..11 |
| PlantHouse.ZodiacSignShift | src/astrologer/plantHouse.js:6-8 | the 0-based sign is the 1-based sign minus one |
| PlantHouse.ZodiacSignTurn | src/astrologer/plantHouse.js:42 | reducing a non-negative longitude modulo 360 keeps its sign |
| PlantHouse.FirstMatch | src/astrologer/plantHouse.js:20-39 | the search returns nothing iff no house from the start index on holds the planet, and otherwise the first index that does |
| PlantHouse.LocateFirst | src/astrologer/plantHouse.js:16-56 | null iff no house holds the planet; otherwise the placement at the first such house: its number, a span that starts with the start cusp sign, flagged iff the start sign differs from the sign of the end cusp modulo 360, in which case the span is exactly those two signs, else the start sign alone |
| PlantHouse.GetPlanetHouse | src/astrologer/plantHouse.js:16-56 | the loop with its early return computes exactly that placement |
| PlantHouse.InHouseAgrees | src/astrologer/plantHouse.js:20-39 | both locators test the same interval for each house |
| PlantHouse.FirstMatchAgrees | src/astrologer/plantHouse.js:20-39 | both searches stop at the same house from any index on |
| PlantHouse.SameHouse | src/astrologer/plantHouse.js:20-39 | for the same planet and houses both locators return null in the same cases and otherwise the same house number |
| PlantHouse.SameSigns | src/astrologer/plantHouse.js:41-49 | with non-negative cusps the start signs differ by one, and the 0-based locator flags a house iff the 1-based one sees two different cusp signs |
| PlantHouse.HousePlanet | src/astrologer/plantHouse.js:68-79 | the `forEach` body gives a planet with a house match that placement's house number, interception flag and span, and returns any other planet unchanged |
| PlantHouse.AddHouseInfoToPlanets | src/astrologer/plantHouse.js:64-83 | the loop adds house fields to every planet with a house match |
| PlantHouse.HouseInfoFields | src/astrologer/plantHouse.js:64-83 | enrichment keeps the key set; a planet without a house is unchanged; a housed planet gains exactly house, interception flag and span, and no modality or element |
| PlantHouse.HouseInfoIdempotent | src/astrologer/plantHouse.js:64-83 | enriching again with the same houses changes nothing |

## Left out

- `src/astrologer/houses.js`: the ephemeris wrapper (the Swiss Ephemeris bindings and the `utils` module, not modelled) is not part of this model. House cusps and axes are inputs.
- `src/astrologer/charts.js`: the composition glue over the ephemeris is not part of this model.
- `normalizeDegrees` (the `utils` module, not modelled): aspect bodies carry a longitude already in [0, 360) (the `Longitude` subset type), so normalisation is the identity.
- The `console.warn` for an unknown category is I/O; only the "no result" outcome is modelled.
- Longitudes and orbs are exact reals, so IEEE rounding is not modelled. NaN appears only where an orb key is missing, and then no window holds anything.
- Axes without positions (the no-geoposition case, where the source would dereference `undefined.position`) are excluded: axes are a dictionary of defined longitudes.
- JavaScript key enumeration is given as the dictionary's key order. The special ordering of integer-like keys is not modelled.
- `aspect` is passed to the graph builder as a function value. `BuildAspectsByName` and `BuildAspectsByPair` fix it to `aspect` without an orb table, as `aspects` calls it.
- Planet and house fields the engines never read or write are not represented. The `{...planet}` spreads copy them unchanged.
- Crashes on a planet or house without `position` are not modelled: every planet and house has a longitude.
- `getRuler` returning null makes the source look up `planets[null]`, meaning the key "null". The model treats a null ruler as naming no planet.
- A house's `sign` comes from `zodiacSign` of the `utils` module (not modelled) and is taken as a given integer.

## Findings

| source | as written | input that shows it | evidently intended | confidence | as-written member | corrected member |
|---|---|---|---|---|---|---|
| src/astrologer/aspects.js:104-105 | `processedPairs` records `${firstKey}-${secondKey}`, so two different ordered pairs can share a name when keys contain a hyphen | planet keys "a", "b-a", "a-b": evaluating (a, b-a) records "a-b-a", which is also the reverse name of (a, a-b), so that pair is skipped in both orders | every unordered pair of planets is evaluated exactly once | not executed | AspectGraph.PairNameCollision | AspectGraph.BuildAspectsByPair |
