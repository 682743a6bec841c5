# Pub discovery service, modelled in Dafny

This project models the pub-discovery service of a small React Native app
that shows nearby pubs on a map. The service exists twice in the
repository with the same behaviour: `services/PubService.ts` (typed) and
`services/PubService.js` (untyped). The only differences are types, field
initialisers instead of a constructor, and `id` fields on the JavaScript
sample records that the spread in `getMockPubsNearLocation` overwrites.
There is one model for both files, and the table below cites whichever file
reads more clearly for each member.

The service answers "which pubs are near this point?":

- **Cache lookup.** It rounds the point to a `toFixed(4)` key. A cache entry
  younger than five minutes (300000 ms) is returned as stored. The model
  posts no query and leaves the cache alone in that case.
- **Query.** Otherwise the service posts an Overpass QL query for every node
  and way tagged `amenity=pub`, `amenity=bar`, `amenity=biergarten` or
  `craft=brewery` within `radiusKm * 1000` metres.
- **Parsing.** It turns the response's `elements` into `Pub` records and
  keeps the first fifty that have a coordinate. It stores them under the key,
  overwriting the previous entry, and returns them.
- **Fallback.** If the query fails in any way, it returns the three sample
  venues, scattered within 0.005 degrees of the point. The cache is left
  unchanged.

A response without `elements` (or without a body) is a successful, empty
answer. It is cached and does not trigger the fallback.

JavaScript truthiness is modelled where the code relies on it:

- A coordinate of `0` counts as missing.
- A tag whose value is `""` counts as absent.
- A present `tags` object counts even when it is empty.
- `element.lat || (element.center && element.center.lat)` falls back to the
  center separately for each axis.

The cache key is the real `toFixed(4)` text. Its sign is written before
rounding, so a point at any longitude x with -0.00005 < x < 0 gets the key
`…,-0.0000`. That is a different slot from its mirror point at -x, whose key
is `…,0.0000` (`CacheKey.MinusZeroKey`).

Modules, one per part of the service:

- `Pubs` — tag maps, truthiness, the `Pub` record (its `type` field is `kind`).
- `Address` — `formatAddress`.
- `Overpass` — response types and `parseOverpassResponse`.
- `OverpassQuery` — the query text built by `queryOverpassAPI`.
- `MockData` — `MOCK_PUBS` and `getMockPubsNearLocation`.
- `CacheKey` — the `toFixed(4)` key.
- `Service` — the `PubService` class, with `Find`, the function that
  specifies `findNearbyPubs`, and the lemmas about repeated lookups.
- `Text` and `Wrappers` — decimal numerals, `join`, and `Option`.

The outside world enters `findNearbyPubs` as parameters:

- `now` is the clock reading used for the freshness check.
- `fetchedAt` is the second clock reading, stored as the entry's timestamp.
- `upstream` is the outcome of the HTTP POST: a body, or a failure.
- `draws` are the six `Math.random()` values, latitude then longitude for
  each sample.
- `show` is JavaScript's rendering of a number in the query template.

The method also returns the query text it posted, or `None` when it served
the request from the cache.

## Model

| member | source | states |
|---|---|---|
| `Address.PresentFields` | services/PubService.ts:146-157 | Never more fields than keys. `PresentFieldsAddressKeys`, `PresentFieldsAreTruthyValues` and `PresentFieldsEmptyIff` characterise which fields are kept. |
| `Address.AddressOf` | services/PubService.ts:143-160 | The address is never the empty string: the sentinel is not empty, and a join with a present field is not empty either. |
| `Text.Join` | services/PubService.ts:159 | A join of at least one part starts with the first part. `JoinShowsSeparator` places the separator after it, and `JoinNonEmpty` gives a non-empty result. |
| `Address.FormatAddress` | services/PubService.ts:143-160 | The four conditional pushes followed by the join, or the sentinel, give exactly `AddressOf`. That is, the truthy `addr:housenumber`, `addr:street`, `addr:city`, `addr:postcode` values, in that order. |
| `Address.PresentFieldsAddressKeys` | services/PubService.js:136-147 | Filtering the four address tags gives each truthy value in turn, in housenumber, street, city, postcode order. |
| `Address.PresentFieldsAreTruthyValues` | services/PubService.ts:146-157 | Every present field is a non-empty value of one of the address tags. |
| `Address.PresentFieldsEmptyIff` | services/PubService.js:136-147 | No field is pushed iff no address tag is truthy. |
| `Address.PresentFieldsIgnoresOtherTags` | services/PubService.js:136-147 | Changing a tag that is not one of the keys leaves the present fields unchanged. |
| `Address.AddressWithoutFields` | services/PubService.ts:159 | With no truthy address tag the result is "Address not available". |
| `Address.AddressWithFields` | services/PubService.ts:146-159 | With some truthy address tag the result is the present fields joined by ", ". |
| `Address.AddressIsSentinelIff` | services/PubService.js:149 | The result equals the sentinel iff no field is present, or the only present field is itself spelled like the sentinel. |
| `Address.AddressIgnoresOtherTags` | services/PubService.ts:143-160 | Tags other than the four `addr:*` tags never change the address. |
| `Text.Decimal` | services/PubService.ts:130 | A rendered element id is a non-empty string of digits with no leading zero. |
| `Text.ValueOfDecimal` | services/PubService.ts:130 | Reading a rendered id back gives the id. |
| `Text.DecimalInjective` | services/PubService.js:120 | Distinct ids render differently. |
| `Text.JoinNonEmpty` | services/PubService.ts:159 | `join` of parts of which one is non-empty is non-empty. |
| `Text.JoinShowsSeparator` | services/PubService.js:149 | With two or more parts, the separator follows the first part. |
| `Overpass.Latitude` | services/PubService.ts:117 | A truthy own `lat` is taken as is. Any other truthy latitude comes from the element's `center`. |
| `Overpass.Longitude` | services/PubService.ts:118 | A truthy own `lon` is taken as is. Any other truthy longitude comes from the element's `center`. |
| `Overpass.TagOrIsFirstPresent` | services/PubService.ts:125-127 | The name and type defaulting gives the first truthy value among the two tags, using the address's own filter, else the fallback. A non-empty fallback gives a non-empty result. |
| `Overpass.DropNulls` | services/PubService.ts:139 | The filter never lengthens the list. `DropNullsIsSurvivors` shows it keeps exactly the records, in order. |
| `Overpass.ParseElement` | services/PubService.ts:116-122 | An element yields a record iff both axes have a truthy value, its own or else its center's; the others become the `null` the filter drops. |
| `Overpass.ParseElementFacts` | services/PubService.ts:117-137 | The own `lat`/`lon` wins when truthy, and the center's is used only otherwise; both coordinates are non-zero. The id is `osm-<type>-<id>`, name and type are never empty, and tags are the element's or `{}`. |
| `Overpass.OsmId` | services/PubService.ts:130 | Every parsed id starts with "osm-". |
| `Overpass.Parse` | services/PubService.js:100-131 | At most fifty records; `[]` when the body or its `elements` is missing. |
| `Overpass.DropNullsIsSurvivors` | services/PubService.ts:115-139 | Mapping elements to records or `null`, then filtering out the nulls, keeps exactly the usable elements' records, in input order. |
| `Overpass.ParseIsFirstFiftySurvivors` | services/PubService.ts:115-140 | The result is the first fifty survivors in upstream order, dropped before capped. |
| `Overpass.SurvivorsAppend` | services/PubService.js:105-129 | Survivors of concatenated inputs are the concatenated survivors, so order is kept. |
| `Overpass.ParseIgnoresElementsAfterFiftySurvivors` | services/PubService.js:129-130 | Once fifty elements have survived, later elements never reach the result. |
| `Overpass.SurvivorFrom` | services/PubService.js:105-129 | Every survivor is the record of some usable input element. |
| `Overpass.ParsedPubFields` | services/PubService.js:114-127 | Each result record comes from a usable element. It has id `osm-<type>-<id>`, name `name`, else `name:en`, else "Unnamed Pub", and type `amenity`, else `craft`, else "pub". It also has the formatted address, the tags or `{}`, and the chosen coordinates. |
| `Overpass.ParsedPubsLocated` | services/PubService.ts:117-122 | Every result record has a non-zero latitude and longitude, and an "osm-" id. |
| `Overpass.SplitAtLastDash` | services/PubService.ts:130 | An id splits back at its last dash, because the numeral part has none. |
| `Overpass.OsmIdInjective` | services/PubService.js:120 | Two elements get the same id only if their rendered types and their ids agree. |
| `Overpass.SurvivorIdsDistinct` | services/PubService.ts:130 | Distinct upstream elements give survivors with distinct ids. |
| `Overpass.HeadIdNotInTail` | services/PubService.ts:130 | The first usable element's id differs from the id of every later survivor. |
| `Overpass.ParsedIdsUnique` | services/PubService.js:119-130 | Distinct upstream elements give a result whose ids are unique. |
| `OverpassQuery.RadiusMeters` | services/PubService.ts:78 | The radius in metres, divided by 1000, gives back the radius in kilometres. |
| `OverpassQuery.Around` | services/PubService.ts:84 | The filter shared by every clause opens with `(around:` and closes with `)`. |
| `OverpassQuery.QueryText` | services/PubService.ts:81-94 | The template, spelled line by line, is the `[out:json][timeout:25];` header, one line per (kind, filter) pair, and the `out center meta;` footer. Every line uses the same `(around:radiusKm*1000,lat,lon)` filter. |
| `OverpassQuery.Pairs` | services/PubService.ts:84-91 | Eight clauses, each pairing one of the kinds with one of the filters. |
| `OverpassQuery.PairsInOrder` | services/PubService.ts:84-91 | The clauses run node first, then way, each with pub, bar, biergarten, brewery in that order. |
| `OverpassQuery.PairsAreEveryKindWithEveryFilter` | services/PubService.js:71-84 | Eight clauses: node and way each with amenity=pub, amenity=bar, amenity=biergarten and craft=brewery, each pair exactly once. |
| `MockData.Jitter` | services/PubService.ts:167-168 | `(Math.random() - 0.5) * 0.01` lies in [-0.005, 0.005). |
| `MockData.MockId` | services/PubService.js:156 | Every sample id starts with "mock-". |
| `MockData.MockPubsNear` | services/PubService.ts:162-170 | Three records in `MOCK_PUBS` order. Each has id `mock-<i+1>`, the sample's name, address and type, no tags, and coordinates within 0.005 of the request on each axis. |
| `MockData.MockIds` | services/PubService.js:152-160 | The sample ids are "mock-1", "mock-2", "mock-3". |
| `MockData.MockIdsDistinct` | services/PubService.ts:166 | No two sample ids coincide. |
| `MockData.MockIdIsNotOsm` | services/PubService.ts:164-166 | A sample id never equals a parsed "osm-" id, so fallback data can be told from real data. |
| `CacheKey.ScaledMagnitude` | services/PubService.ts:49 | The magnitude in ten-thousandths is within one half of the exact value. Halves round up. |
| `CacheKey.Pointed` | services/PubService.ts:49 | Inserting the point adds one character. The point sits four places from the end, and the first digit stays first. |
| `CacheKey.Fixed4` | services/PubService.ts:49 | The text has a point followed by exactly four decimals. It starts with '-' iff the number was negative. |
| `CacheKey.ToFixed4` | services/PubService.ts:49 | `toFixed(4)` has exactly four decimals after the point. It starts with '-' iff the number is negative, even when it rounds to 0. |
| `CacheKey.Key` | services/PubService.ts:49 | The key has exactly one comma, right after the latitude's text. `SameKeyIff` says when two requests share a key. |
| `CacheKey.OnlyComma` | services/PubService.ts:49 | Two comma-free texts joined by a comma have that comma as their only one. |
| `CacheKey.Padded` | services/PubService.ts:49 | The digits of the rounded magnitude, zero-padded to at least five, still denote it. |
| `CacheKey.PointedInjective` | services/PubService.ts:49 | Removing the decimal point gives the digits back. |
| `CacheKey.Fixed4Injective` | services/PubService.js:39 | A `toFixed(4)` text determines its sign and its value in ten-thousandths. |
| `CacheKey.Fixed4HasNoComma` | services/PubService.ts:49 | A `toFixed(4)` text contains no comma. |
| `CacheKey.SplitAtComma` | services/PubService.js:39 | A key splits back into its two halves at the comma. |
| `CacheKey.SameKeyIff` | services/PubService.ts:49 | Two points share a slot iff both axes agree in sign and in rounded four-decimal magnitude. |
| `CacheKey.MinusZeroKey` | services/PubService.js:39 | Every x with -0.00005 < x < 0 renders "-0.0000" while -x renders "0.0000", so the two points get different slots at any latitude. |
| `CacheKey.ZeroText` | services/PubService.js:39 | The value 0 renders as "0.0000", with a minus sign when the number was negative. |
| `CacheKey.TinyRoundsToZero` | services/PubService.ts:49 | Every number strictly between -0.00005 and 0.00005 rounds to 0 ten-thousandths. |
| `Service.Find` | services/PubService.ts:47-75 | No query is posted exactly when a fresh entry exists under the key. A hit or a failure leaves the cache unchanged, and at most the request's slot is added. When the cache holds only parsed responses, the answer has at most fifty records. |
| `Service.PubService.constructor` | services/PubService.js:32-35 | The cache starts empty and the timeout is 5 × 60 × 1000 ms. |
| `Service.PubService.FindNearbyPubs` | services/PubService.ts:47-75 | The cache-check / query / store-or-fallback steps return and leave behind exactly what `Find` describes. At most fifty records are returned. A cache hit and a failure both leave the cache unchanged, and at most the request's own slot is added. The cache keeps only parsed responses. |
| `Service.PubService.ClearCache` | services/PubService.js:162-164 | The cache is empty afterwards. |
| `Service.ParseIsCacheable` | services/PubService.ts:59-67 | What a successful query stores has at most fifty located "osm-" records. |
| `Service.FindPreservesCacheValid` | services/PubService.js:49-64 | No lookup puts fallback samples or unlocated records into the cache. |
| `Service.FreshEntryIsServed` | services/PubService.ts:49-57 | With an entry younger than the timeout under the key, the stored list is returned. No query is posted and the cache is unchanged. |
| `Service.MissOrStaleQueries` | services/PubService.js:42-49 | A missing or expired entry makes the service post the query. The answer is the parsed response or the fallback; it is the stale list only if the new answer happens to equal it. |
| `Service.SuccessOverwritesOnlyItsSlot` | services/PubService.ts:59-67 | On success, the key's slot becomes `{data: result, timestamp: fetchedAt}`. The result is the parsed response, and every other slot is untouched. |
| `Service.AnswerIsStored` | services/PubService.ts:62-67 | After a lookup that did not fail, the request's slot holds exactly the list returned. |
| `Service.FailureFallsBackToSamples` | services/PubService.js:58-64 | On failure the cache is unchanged. The answer is three samples, mock-1 to mock-3, with the samples' names, addresses and types, each within 0.005 of the request. |
| `Service.AnswerIsBoundedAndMarked` | services/PubService.ts:59-74 | Every answer has at most fifty records. Each record is a located "osm-" record or a "mock-" sample, never both. |
| `Service.RepeatWithinTimeoutIsServedFromCache` | services/PubService.js:39-57 | After a lookup that did not fail, a second lookup under the same key while the entry is fresh returns the same list. It posts no query and leaves the cache as it was. |
| `Service.ExpiredEntryIsRefetched` | services/PubService.ts:52-65 | An entry at least the timeout old leads to a new query, and a successful answer replaces the entry. On a failure the stale entry stays. |
| `Service.ClearedCacheAlwaysQueries` | services/PubService.ts:172-174 | After `clearCache()` every lookup posts a query. |

## Left out

- The HTTP POST itself is not modelled: the endpoint URL, the `text/plain` header, the 15 s timeout and axios. Its outcome is the parameter `upstream`.
- `console.error` and `console.warn` logging is not modelled.
- `async`/`await` is not modelled. Neither are overlapping lookups for the same key, which may each post a query.
- The module-level singleton `export default new PubService()` is not modelled.
- Number-to-string rendering inside the query template is the parameter `show`.
- Numbers are unbounded reals, not IEEE doubles. `toFixed(4)` rounds the exact decimal, where the source rounds the nearest double. NaN, -0 and magnitudes of 10^21 or more, which `toFixed` writes differently, are not represented. The jitter is computed exactly.
- Response shapes a typed element cannot hold are not represented: `elements` that is not an array, a `null` element, a string coordinate, non-string tag values.
  - Those shapes that make the source throw are covered by `Upstream.Failed`.
  - A string coordinate such as `"51.5"` is truthy in the source. The model cannot express it.
- Aliasing is not modelled. A cache hit returns the very array stored in the cache, and a record's `tags` is the element's own object. The model has value semantics.
- `Service.PubService.FindNearbyPubs`: `radiusKm` has no default value of 1. Callers pass it explicitly.
- `MockData.MockPubsNear`: the source overwrites the coordinates written in `MOCK_PUBS` and the samples' `id` fields. The coordinates are kept in the data but never reach a record. The sample ids are not represented.
- `Service.FailureFallsBackToSamples` states the jitter bound as a closed interval. `MockData.MockPubsNear` proves the half-open one.
- There is no search or filter operation over pubs in the service source, so none is modelled.
- Distance computation belongs to the location service and is not part of this model.
