# Vehicle catalog: a Dafny model of the core services

This project models, in Dafny, the core of a car-dealership catalog: its
backend vehicle service, its backend contact service and the contact
form's field validators on the frontend.

- **Vehicle service** (`vehicle_logic.dfy`, types in `vehicle_types.dfy`).
  It holds the in-memory catalog of 15 vehicles. `vehicleList` narrows the
  catalog through seven optional filters (brands, models, year and price
  bounds, transmissions). It then sorts by one of seven criteria and returns
  one page with totals. `getFilterOptions` lists the distinct brands, models,
  years and transmissions. `getModelosByMarcas` lists the models of chosen
  brands. `vehicleGetDetail` builds the detail view of one vehicle, with its
  share URL and up to six similar vehicles (`getSimilarVehicles`).
- **Contact service** (`contact_logic.dfy`). A `ContactRegister` class holds
  the submitted contacts and the counter that numbers them. `contactCreate`
  stamps each submission with a protocol (`YYYYMMDD` plus the counter padded
  to five digits) and an id (`contact_<timestamp>_<counter>`), stores it with
  status `Novo` and answers the id and protocol. `contactList` and
  `contactGet` read the store.
- **Validators** (`validators.dfy`). These are the checks for full name,
  e-mail, telephone and message, and the Brazilian phone mask
  `formatTelefone`.

Supporting modules:

- `seqs.dfy`: `filter`, `map` and `Array.from(new Set(..))`.
- `sorting.dfy`: the stable sort that `Array.prototype.sort` performs. It is
  a stable insertion sort, given both as a function and as an in-place array
  method proved equal to it.
- `strings.dfy`: decimal rendering, `padStart`, `toLowerCase`, the
  UTF-16 length JavaScript reports, and the order used for string sorting.
- `wrappers.dfy`: `Option`.

Each operation takes the catalog, and for contacts the clock readings, as
parameters. So everything proved about the listing holds for any catalog,
not only for the seed data in `VehicleLogic.Catalog`. The controllers'
input checks become preconditions of `VehicleList`: `anoMin <= anoMax`,
`precoMin <= precoMax`, `pagina >= 1` and `1 <= itensPorPagina <= 100`.
Year bounds are integers, as the controller demands; price bounds may be
fractional and are real numbers, compared with each vehicle's integer price.
String lengths in the validators are JavaScript lengths: UTF-16 code units,
two for a character outside the Basic Multilingual Plane.

Functions that only compute carry no contract of their own. Each is stated
by the lemmas named in the table:

- `Validators.ValidateNomeCompleto`: `NomeCompletoIff`, `NomeCompletoPadding`.
- `Validators.ValidateEmail`: `EmailPatternIsRegex`, `ValidateEmailIff`.
- `Validators.ValidateTelefone`: `ValidateFormatted`.
- `Validators.FormatTelefone` and `Validators.Mask`: `FormatKeepsDigits`,
  `FormatLength`, `FormatIdempotent`.
- `Validators.ValidateMensagem`: `MensagemPadding`.
- `Validators.Trim`: `TrimFacts`, `TrimIdempotent`, `TrimPadding`.
- `VehicleLogic.GetFilterOptions`: `BrandsFacts`, `ModelsFacts`,
  `YearsFacts`, `TransmissionsFacts`.
- `VehicleLogic.GetModelosByMarcas`: `ModelosByMarcasFacts`.
- `VehicleLogic.IsSimilar` and `VehicleLogic.SimilarityOrder`:
  `SimilarMembers`, `SimilarityComparator`, `SimilarOrdered`.
- `VehicleLogic.Title`: `TitleFacts`. `VehicleLogic.ShareUrl`:
  `ShareUrlFacts`. `VehicleLogic.BuildDetail`: `DetailFacts`,
  `VehicleGetDetail`.
- `ContactLogic.Protocol`: `ProtocolLayout`, `ProtocolInjective`.
  `ContactLogic.ContactId`: `ContactIdInjective`.
  `ContactLogic.NewContact`: `NewContactNumbered`,
  `ContactRegister.Create`.
- `Strings.CompareStrings`: `CompareStringsFacts`,
  `CompareStringsTransitive`, `StringsComparator`.

## Model

| member | source | states |
|---|---|---|
| VehicleTypes.ParseSortCriteria | backend/src/services/vehicle/vehicleTypes.ts:338-346 | a request string names one of the seven criteria exactly when it is one of their labels; any other string is kept as an unrecognised criterion |
| VehicleTypes.SortLabel | backend/src/services/vehicle/vehicleTypes.ts:338-346 | parsing the label of a criterion gives that criterion back |
| VehicleTypes.ParseSortCriteriaLabel | backend/src/services/vehicle/vehicleTypes.ts:338-346 | every request string is the label of the criterion it parses to, so parsing loses nothing |
| VehicleLogic.ApplyStage | backend/src/services/vehicle/vehicleLogic.ts:212-237 | one `if` block of the filter chain; when its filter is active it narrows the list by that filter, otherwise it leaves the list unchanged; in both cases the result is the catalog filtered by the first k+1 filters |
| VehicleLogic.ApplyFilters | backend/src/services/vehicle/vehicleLogic.ts:210-237 | the list after the seven `if` blocks is the catalog filtered by the conjunction of every active filter, in catalog order |
| VehicleLogic.FilteredContents | backend/src/services/vehicle/vehicleLogic.ts:210-237 | a vehicle is in the filtered list iff it is in the catalog and passes every active filter; each passing vehicle keeps its multiplicity |
| VehicleLogic.FilteredCount | backend/src/services/vehicle/vehicleLogic.ts:270 | `total` equals the number of catalog entries that pass every active filter |
| VehicleLogic.NoFiltersKeepAll | backend/src/services/vehicle/vehicleLogic.ts:210-237 | absent or empty filters keep the whole catalog, in order |
| VehicleLogic.TransmissionFilterExcludesMissing | backend/src/services/vehicle/vehicleLogic.ts:236-237 | when a transmission filter is active, a vehicle with no transmission (or an empty one) is always excluded |
| VehicleLogic.SortByCriteria | backend/src/services/vehicle/vehicleLogic.ts:243-265 | the in-place sort leaves the array holding the stable ordering by the chosen criterion |
| VehicleLogic.SortedCopy | backend/src/services/vehicle/vehicleLogic.ts:243-265 | sorting the filtered list yields its stable ordering by the criterion |
| VehicleLogic.ComparatorForFacts | backend/src/services/vehicle/vehicleLogic.ts:243-261 | each of the six comparators is a total preorder, and says "a before b" exactly on the price, year or model relation the criterion names |
| VehicleLogic.OrderedPermutation | backend/src/services/vehicle/vehicleLogic.ts:243-265 | sorting is a permutation, and `Relevância` or an unrecognised criterion keeps the filtered order |
| VehicleLogic.OrderedInOrder | backend/src/services/vehicle/vehicleLogic.ts:243-261 | after sorting, every earlier vehicle is at or before every later one by the criterion's key |
| VehicleLogic.OrderedStable | backend/src/services/vehicle/vehicleLogic.ts:243-261 | vehicles with equal sort keys keep their relative catalog order |
| VehicleLogic.CeilDivBounds | backend/src/services/vehicle/vehicleLogic.ts:271 | `Math.ceil(total / n)` is the least page count whose pages hold every result |
| VehicleLogic.PageFacts | backend/src/services/vehicle/vehicleLogic.ts:272-274 | page p holds at most n vehicles: the ones at positions (p-1)n onward, in order, and exactly min(n, rest) of them |
| VehicleLogic.PageBeyondLast | backend/src/services/vehicle/vehicleLogic.ts:271-274 | a page number past `totalPaginas` yields an empty page |
| VehicleLogic.PagesUpToPrefix | backend/src/services/vehicle/vehicleLogic.ts:272-274 | pages 1..k laid end to end are the first k·n results |
| VehicleLogic.PagesCoverList | backend/src/services/vehicle/vehicleLogic.ts:270-274 | pages 1..`totalPaginas` laid end to end give back the whole sorted list, with no gaps and no repeats |
| VehicleLogic.VehicleList | backend/src/services/vehicle/vehicleLogic.ts:193-283 | the response is the requested page of the stable sort of the filtered catalog, with its totals; defaults are `Relevância`, page 1 and 12 per page |
| VehicleLogic.ListTotals | backend/src/services/vehicle/vehicleLogic.ts:270-282 | `total` counts the matching vehicles, `pagina` and `itensPorPagina` echo the request or defaults, and `totalPaginas` is the ceiling of total over page size |
| VehicleLogic.ListPage | backend/src/services/vehicle/vehicleLogic.ts:270-282 | the page holds at most `itensPorPagina` vehicles, each from the catalog and passing every filter, and is empty past the last page |
| VehicleLogic.BrandsFacts | backend/src/services/vehicle/vehicleLogic.ts:298 | the brand facet lists each brand of the catalog exactly once, nothing else, in strictly ascending order |
| VehicleLogic.ModelsFacts | backend/src/services/vehicle/vehicleLogic.ts:299 | the model facet lists each model exactly once, nothing else, in strictly ascending order |
| VehicleLogic.YearsFacts | backend/src/services/vehicle/vehicleLogic.ts:300 | the year facet lists each year exactly once, nothing else, newest first |
| VehicleLogic.TransmissionsFacts | backend/src/services/vehicle/vehicleLogic.ts:301-303 | the transmission facet lists each non-null transmission exactly once, nothing else, in ascending order |
| VehicleLogic.SortedDistinctFacts | backend/src/services/vehicle/vehicleLogic.ts:298-303 | deduplicating and then sorting gives no duplicates, the same members, and a sorted list |
| VehicleLogic.PresentValues | backend/src/services/vehicle/vehicleLogic.ts:302 | dropping nulls keeps exactly the values that were present |
| VehicleLogic.ModelosByMarcasFacts | backend/src/services/vehicle/vehicleLogic.ts:327-335 | no brands gives the full model facet; otherwise each model of a vehicle of a chosen brand appears exactly once, nothing else, in ascending order |
| VehicleLogic.SimilarityComparator | backend/src/services/vehicle/vehicleLogic.ts:506-513 | the similarity order (same brand first, then nearer price) is a total preorder, so the stable sort is well defined |
| VehicleLogic.GetSimilarVehicles | backend/src/services/vehicle/vehicleLogic.ts:492-518 | the result is the first six vehicles of the similarity-sorted list of candidates |
| VehicleLogic.SimilarIsPrefix | backend/src/services/vehicle/vehicleLogic.ts:518 | the result is the first min(6, candidates) entries of the sorted candidates |
| VehicleLogic.SimilarMembers | backend/src/services/vehicle/vehicleLogic.ts:492-501 | at most six vehicles, each from the catalog, with a different id, and within 130% of the price; unless it shares the brand, also at least 70% of it |
| VehicleLogic.SimilarOrdered | backend/src/services/vehicle/vehicleLogic.ts:506-513 | same-brand vehicles come before the others, and within each group nearer prices come first |
| VehicleLogic.FindById | backend/src/services/vehicle/vehicleLogic.ts:355 | `find` gives nothing iff no vehicle has the id, otherwise the first vehicle with it |
| VehicleLogic.VehicleGetDetail | backend/src/services/vehicle/vehicleLogic.ts:355-471 | `null` iff no vehicle has the id; otherwise the detail of the first such vehicle with its similar vehicles |
| VehicleLogic.TitleFacts | backend/src/services/vehicle/vehicleLogic.ts:366 | the title is brand, space, model, space, then the decimal year, which reads back as the vehicle's year |
| VehicleLogic.ShareUrlFacts | backend/src/services/vehicle/vehicleLogic.ts:465-467 | the share URL starts with the site's vehicle path and ends with `-` and the vehicle's id |
| VehicleLogic.DetailFacts | backend/src/services/vehicle/vehicleLogic.ts:364-468 | the detail carries the vehicle's id, price and similar vehicles and status `Disponível`; it has five photos with only the first principal, mileage defaulting to 0 and transmission to `Manual` |
| Sorting.InsertInPlace | backend/src/services/vehicle/vehicleLogic.ts:243-265 | inserting element i into the sorted prefix in place leaves the array equal to the functional insertion |
| Sorting.SortInPlace | backend/src/services/vehicle/vehicleLogic.ts:243-265 | the in-place sort leaves the array equal to the stable insertion sort of its old contents |
| Sorting.SortPermutation | backend/src/services/vehicle/vehicleLogic.ts:243-265 | sorting preserves the multiset of elements |
| Sorting.SortSorted | backend/src/services/vehicle/vehicleLogic.ts:243-265 | under a total preorder, the result is sorted |
| Sorting.SortStable | backend/src/services/vehicle/vehicleLogic.ts:243-265 | elements the comparator ties with a given key keep their relative order |
| Seqs.FilterCounts | backend/src/services/vehicle/vehicleLogic.ts:213 | `filter` keeps each passing element with its multiplicity and drops the rest |
| Seqs.FilterFuse | backend/src/services/vehicle/vehicleLogic.ts:210-237 | filtering twice is filtering by the conjunction |
| Seqs.Distinct | backend/src/services/vehicle/vehicleLogic.ts:298 | `Array.from(new Set(xs))` has no duplicates and the same members as `xs` |
| Seqs.MapMembers | backend/src/services/vehicle/vehicleLogic.ts:298 | the members of `xs.map(f)` are exactly the images of members of `xs` |
| Strings.NatToString | backend/src/services/contact/contactLogic.ts:48-57 | `String(n)` of a natural number is a non-empty string of decimal digits without a leading zero, unless it is `0` |
| Strings.Utf16Length | frontend/src/domain/contact/utils/validators.ts:11 | JavaScript's `length` counts between one and two code units per character, and exactly one each when no character lies outside the Basic Multilingual Plane |
| Strings.NatToStringRoundTrip | backend/src/services/contact/contactLogic.ts:48-51 | `String(n)` reads back as n |
| Strings.NatToStringInjective | backend/src/services/contact/contactLogic.ts:57 | distinct numbers render as distinct strings |
| Strings.NatToStringLength | backend/src/services/contact/contactLogic.ts:48-51 | n has at most w digits iff n < 10^w |
| Strings.PadStart | backend/src/services/contact/contactLogic.ts:49-51 | `padStart` yields max(width, length) characters: the fill, then the original string |
| Strings.ZeroPadValue | backend/src/services/contact/contactLogic.ts:49-51 | zero-padding a decimal string keeps its value |
| Strings.ToLowerCase | backend/src/services/vehicle/vehicleLogic.ts:465-467 | `toLowerCase` keeps the length and maps each character |
| Strings.CompareStringsFacts | backend/src/services/vehicle/vehicleLogic.ts:257-260 | string comparison is -1, 0 or 1, antisymmetric, and 0 exactly on equal strings |
| Strings.StringsComparator | backend/src/services/vehicle/vehicleLogic.ts:298-303 | string comparison is a total preorder |
| ContactLogic.ProtocolLayout | backend/src/services/contact/contactLogic.ts:47-52 | for a real date, the protocol is all digits: four of year, two of month, two of day, then the counter in at least five digits, each reading back as its number (13 digits below 100000) |
| ContactLogic.ProtocolInjective | backend/src/services/contact/contactLogic.ts:47-52 | on the same date, different counters give different protocols |
| ContactLogic.ContactIdInjective | backend/src/services/contact/contactLogic.ts:57 | an id determines its timestamp and its counter |
| ContactLogic.FindContact | backend/src/services/contact/contactLogic.ts:167-170 | nothing iff no record has the id, otherwise the first record with it |
| ContactLogic.NewContactNumbered | backend/src/services/contact/contactLogic.ts:62-80 | the record built for a submission has the id and protocol of its counter, timestamp and date, and status `Novo` |
| ContactLogic.NumberedAt | backend/src/services/contact/contactLogic.ts:57-86 | in a numbered store, record i has the id and protocol of counter i+1 and status `Novo` |
| ContactLogic.RecordsDiffer | backend/src/services/contact/contactLogic.ts:47-57 | records with different counters have different ids, and different protocols when made on the same date |
| ContactLogic.NumberedAppend | backend/src/services/contact/contactLogic.ts:85-86 | appending the record made with the next counter keeps every record numbered by its position |
| ContactLogic.NumberedIdsDistinct | backend/src/services/contact/contactLogic.ts:57 | in a numbered store, ids are pairwise distinct |
| ContactLogic.NumberedProtocols | backend/src/services/contact/contactLogic.ts:47-52 | in a numbered store, record i's protocol ends in the number i+1, and records of the same date have distinct protocols |
| ContactLogic.ContactRegister.constructor | backend/src/services/contact/contactLogic.ts:12-13 | the store starts empty with the counter at 1 |
| ContactLogic.ContactRegister.Create | backend/src/services/contact/contactLogic.ts:43-98 | appends the request's record, with status `Novo` and the counter's id and protocol, advances the counter by one, and answers the new record's id and protocol |
| ContactLogic.ContactRegister.List | backend/src/services/contact/contactLogic.ts:152-154 | every record in submission order, their number being the counter minus one |
| ContactLogic.ContactRegister.Get | backend/src/services/contact/contactLogic.ts:167-170 | the first record with the id, or nothing when none has it |
| ContactLogic.ContactRegister.IdsDistinct | backend/src/services/contact/contactLogic.ts:57 | no two stored records share an id |
| ContactLogic.ContactRegister.ProtocolsNumbered | backend/src/services/contact/contactLogic.ts:47-52 | record i's protocol ends in i+1, and no two records of one date share a protocol |
| Validators.TrimFacts | frontend/src/domain/contact/utils/validators.ts:9 | `trim` returns the slice left after removing white space from both ends, and it neither starts nor ends with white space |
| Validators.TrimIdempotent | frontend/src/domain/contact/utils/validators.ts:9 | trimming twice is trimming once |
| Validators.TrimPadding | frontend/src/domain/contact/utils/validators.ts:9 | white space added around a string does not change its trim |
| Validators.SplitWs | frontend/src/domain/contact/utils/validators.ts:10 | `split(/\s+/)` yields at least one piece, none containing white space |
| Validators.SplitCount | frontend/src/domain/contact/utils/validators.ts:10 | the split has two or more pieces iff the string contains white space |
| Validators.NomeCompletoIff | frontend/src/domain/contact/utils/validators.ts:8-12 | a name passes iff its trimmed form has at least 3 UTF-16 code units and white space strictly inside it |
| Validators.NomeCompletoPadding | frontend/src/domain/contact/utils/validators.ts:8-12 | padding a name with white space does not change the verdict |
| Validators.EmailPatternIsRegex | frontend/src/domain/contact/utils/validators.ts:22 | the one-pass check accepts exactly the strings of the form atom `@` atom `.` atom, where an atom is one or more characters other than white space and `@` |
| Validators.ValidateEmailIff | frontend/src/domain/contact/utils/validators.ts:21-24 | an address passes iff it matches that pattern and has at most 100 UTF-16 code units |
| Validators.Digits | frontend/src/domain/contact/utils/validators.ts:34 | `replace(/\D/g, '')` leaves only digits |
| Validators.FormatKeepsDigits | frontend/src/domain/contact/utils/validators.ts:45-61 | the digits of the formatted number are the first min(11, k) digits of the input, in order |
| Validators.FormatLength | frontend/src/domain/contact/utils/validators.ts:48-61 | the output has k characters up to 2 digits, k+3 for 3 to 6, k+4 for 7 to 10, and 15 from 11 on |
| Validators.FormatIdempotent | frontend/src/domain/contact/utils/validators.ts:45-61 | formatting an already formatted number changes nothing |
| Validators.ValidateFormatted | frontend/src/domain/contact/utils/validators.ts:33-36 | a formatted number passes the telephone check iff the input had at least 10 digits |
| Validators.MensagemPadding | frontend/src/domain/contact/utils/validators.ts:70-73 | padding a message with white space does not change the verdict, which depends only on the trimmed length, in UTF-16 code units, being in 10..1000 |

## Left out

- `async`/`await`: every operation is synchronous. The services never interleave.
- The clock: `new Date()` and `Date.now()` are parameters of `ContactRegister.Create`. These are the local calendar date, its ISO rendering and the millisecond timestamp. `ContactLogic.ProtocolLayout` assumes a four-digit year.
- The mock e-mail senders `sendConfirmationEmail` and `sendNotificationEmail` only log. They are left out.
- HTTP controllers and schema validation are left out. Their numeric checks are the preconditions of `VehicleList`.
- VehicleLogic.IsSimilar: the ±30% price band is decided by integer cross-multiplication (10·p ≥ 7·ref, 10·p ≤ 13·ref), not with floating point. Prices are integers; floating-point rounding at the band edges is not modelled.
- Strings.CompareStrings: `localeCompare` and the default `.sort()` are both modelled as lexicographic order on characters. Locale collation is not modelled. Characters are Unicode scalar values, not UTF-16 code units.
- Strings.ToLowerCase: only ASCII letters are lowered; other characters pass through unchanged.
- VehicleLogic.DetailFacts: the fixed blocks of the detail response are not modelled. These are the equipment items, vehicle history, sale conditions and documentation constants. The other fixed specification values are kept in `BuildSpecifications` but not stated.
- `getSimilarVehicles` maps each result to a `SimilarVehicle` holding the same eight fields as the catalog record. The model returns the records themselves.
- ContactLogic.ContactRegister.Get and ContactLogic.ContactRegister.List leave the store unchanged. No `ensures` says so; their lack of a `modifies` clause guarantees it.
- Validators.IsSpace: the white-space set is the one ECMAScript uses for `\s` and `trim`.
