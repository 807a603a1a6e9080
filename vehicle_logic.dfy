/**
 * The vehicle query engine over the in-memory catalog: filtered, sorted and
 * paginated listing, the filter facets, the models of chosen brands, and the
 * detail view with its similar-vehicle recommendations.
 *
 * Every operation takes the catalog as a parameter; the service runs them on
 * `Catalog`. What is proved holds for any catalog.
 */
module VehicleLogic {
  import opened Wrappers
  import opened Seqs
  import opened Sorting
  import opened Strings
  import opened VehicleTypes

  /** The fixed seed catalog the service is loaded with. */
  const Catalog: seq<Vehicle> := [
    Vehicle("1", "Civic", "Honda", 2023, 145000,
      "https://via.placeholder.com/300x169?text=Honda+Civic+2023", Some(5000), Some("Automático")),
    Vehicle("2", "Corolla", "Toyota", 2022, 135000,
      "https://via.placeholder.com/300x169?text=Toyota+Corolla+2022", Some(15000), Some("CVT")),
    Vehicle("3", "Onix", "Chevrolet", 2023, 85000,
      "https://via.placeholder.com/300x169?text=Chevrolet+Onix+2023", Some(2000), Some("Manual")),
    Vehicle("4", "HB20", "Hyundai", 2021, 72000,
      "https://via.placeholder.com/300x169?text=Hyundai+HB20+2021", Some(35000), Some("Manual")),
    Vehicle("5", "Compass", "Jeep", 2023, 185000,
      "https://via.placeholder.com/300x169?text=Jeep+Compass+2023", Some(8000), Some("Automático")),
    Vehicle("6", "Gol", "Volkswagen", 2020, 58000,
      "https://via.placeholder.com/300x169?text=VW+Gol+2020", Some(45000), Some("Manual")),
    Vehicle("7", "T-Cross", "Volkswagen", 2023, 125000,
      "https://via.placeholder.com/300x169?text=VW+T-Cross+2023", Some(3000), Some("Automático")),
    Vehicle("8", "Kicks", "Nissan", 2022, 98000,
      "https://via.placeholder.com/300x169?text=Nissan+Kicks+2022", Some(18000), Some("CVT")),
    Vehicle("9", "Argo", "Fiat", 2023, 78000,
      "https://via.placeholder.com/300x169?text=Fiat+Argo+2023", Some(1500), Some("Manual")),
    Vehicle("10", "Creta", "Hyundai", 2023, 115000,
      "https://via.placeholder.com/300x169?text=Hyundai+Creta+2023", Some(6000), Some("Automático")),
    Vehicle("11", "Fit", "Honda", 2021, 82000,
      "https://via.placeholder.com/300x169?text=Honda+Fit+2021", Some(28000), Some("CVT")),
    Vehicle("12", "Renegade", "Jeep", 2022, 135000,
      "https://via.placeholder.com/300x169?text=Jeep+Renegade+2022", Some(12000), Some("Automático")),
    Vehicle("13", "Polo", "Volkswagen", 2023, 95000,
      "https://via.placeholder.com/300x169?text=VW+Polo+2023", Some(4000), Some("Automático")),
    Vehicle("14", "Tracker", "Chevrolet", 2023, 128000,
      "https://via.placeholder.com/300x169?text=Chevrolet+Tracker+2023", Some(7000), Some("Automático")),
    Vehicle("15", "Yaris", "Toyota", 2022, 92000,
      "https://via.placeholder.com/300x169?text=Toyota+Yaris+2022", Some(22000), Some("CVT"))
  ]

  // ---------------------------------------------------------------------
  // Listing: filters
  // ---------------------------------------------------------------------

  /** A multi-value filter is active only when present and non-empty. */
  predicate Active(values: Option<seq<string>>) {
    values.Some? && |values.value| > 0
  }

  predicate BrandOk(req: ListRequest, v: Vehicle) {
    !Active(req.marcas) || v.marca in req.marcas.value
  }

  predicate ModelOk(req: ListRequest, v: Vehicle) {
    !Active(req.modelos) || v.modelo in req.modelos.value
  }

  predicate YearMinOk(req: ListRequest, v: Vehicle) {
    req.anoMin.None? || v.ano >= req.anoMin.value
  }

  predicate YearMaxOk(req: ListRequest, v: Vehicle) {
    req.anoMax.None? || v.ano <= req.anoMax.value
  }

  predicate PriceMinOk(req: ListRequest, v: Vehicle) {
    req.precoMin.None? || v.preco as real >= req.precoMin.value
  }

  predicate PriceMaxOk(req: ListRequest, v: Vehicle) {
    req.precoMax.None? || v.preco as real <= req.precoMax.value
  }

  /** `v.cambio && cambios.includes(v.cambio)`: a missing or empty transmission never matches. */
  predicate TransmissionOk(req: ListRequest, v: Vehicle) {
    !Active(req.cambios) || (v.cambio.Some? && v.cambio.value != "" && v.cambio.value in req.cambios.value)
  }

  /** A vehicle is listed when it passes every filter (AND across filters). */
  predicate Matches(req: ListRequest, v: Vehicle) {
    && BrandOk(req, v) && ModelOk(req, v)
    && YearMinOk(req, v) && YearMaxOk(req, v)
    && PriceMinOk(req, v) && PriceMaxOk(req, v)
    && TransmissionOk(req, v)
  }

  /** Passing the first `k` of the seven filters, in the order they are applied. */
  predicate PassesFirst(req: ListRequest, k: nat, v: Vehicle) {
    && (k >= 1 ==> BrandOk(req, v)) && (k >= 2 ==> ModelOk(req, v))
    && (k >= 3 ==> YearMinOk(req, v)) && (k >= 4 ==> YearMaxOk(req, v))
    && (k >= 5 ==> PriceMinOk(req, v)) && (k >= 6 ==> PriceMaxOk(req, v))
    && (k >= 7 ==> TransmissionOk(req, v))
  }

  function Through(req: ListRequest, k: nat): Vehicle -> bool {
    v => PassesFirst(req, k, v)
  }

  function MatchingFilter(req: ListRequest): Vehicle -> bool {
    v => Matches(req, v)
  }

  /** The catalog narrowed by every active filter, in catalog order. */
  function Filtered(catalog: seq<Vehicle>, req: ListRequest): seq<Vehicle> {
    Filter(catalog, MatchingFilter(req))
  }

  // ---------------------------------------------------------------------
  // Listing: sorting
  // ---------------------------------------------------------------------

  function PriceAscending(a: Vehicle, b: Vehicle): int { a.preco - b.preco }
  function PriceDescending(a: Vehicle, b: Vehicle): int { b.preco - a.preco }
  function YearDescending(a: Vehicle, b: Vehicle): int { b.ano - a.ano }
  function YearAscending(a: Vehicle, b: Vehicle): int { a.ano - b.ano }
  function ModelAscending(a: Vehicle, b: Vehicle): int { CompareStrings(a.modelo, b.modelo) }
  function ModelDescending(a: Vehicle, b: Vehicle): int { CompareStrings(b.modelo, a.modelo) }

  /** The comparator the criterion selects; none for `Relevância` and unrecognised strings. */
  function ComparatorFor(crit: SortCriteria): Option<(Vehicle, Vehicle) -> int> {
    match crit
    case PrecoMenor => Some(PriceAscending)
    case PrecoMaior => Some(PriceDescending)
    case AnoRecente => Some(YearDescending)
    case AnoAntigo => Some(YearAscending)
    case ModeloAZ => Some(ModelAscending)
    case ModeloZA => Some(ModelDescending)
    case _ => None
  }

  /** The filtered list after the criterion's stable sort. */
  function Ordered(crit: SortCriteria, s: seq<Vehicle>): seq<Vehicle> {
    match ComparatorFor(crit)
    case Some(cmp) => InsertionSort(s, cmp)
    case None => s
  }

  /** What each criterion promises of every pair of positions `i < j`. */
  predicate InOrder(crit: SortCriteria, a: Vehicle, b: Vehicle) {
    match crit
    case PrecoMenor => a.preco <= b.preco
    case PrecoMaior => a.preco >= b.preco
    case AnoRecente => a.ano >= b.ano
    case AnoAntigo => a.ano <= b.ano
    case ModeloAZ => CompareStrings(a.modelo, b.modelo) <= 0
    case ModeloZA => CompareStrings(a.modelo, b.modelo) >= 0
    case _ => true
  }

  /** Two vehicles the criterion cannot tell apart (equal key). */
  predicate SameKey(crit: SortCriteria, a: Vehicle, b: Vehicle) {
    match crit
    case PrecoMenor => a.preco == b.preco
    case PrecoMaior => a.preco == b.preco
    case AnoRecente => a.ano == b.ano
    case AnoAntigo => a.ano == b.ano
    case ModeloAZ => a.modelo == b.modelo
    case ModeloZA => a.modelo == b.modelo
    case _ => true
  }

  lemma ComparatorForFacts(crit: SortCriteria)
    ensures ComparatorFor(crit).Some? ==> Comparator(ComparatorFor(crit).value)
    ensures ComparatorFor(crit).Some? ==> forall a, b ::
      (ComparatorFor(crit).value(a, b) <= 0 <==> InOrder(crit, a, b))
    ensures ComparatorFor(crit).Some? ==> forall a, b ::
      (ComparatorFor(crit).value(a, b) <= 0 && ComparatorFor(crit).value(b, a) <= 0 <==> SameKey(crit, a, b))
  {
    if crit.ModeloAZ? || crit.ModeloZA? {
      StringsComparator();
      forall a: string, b: string ensures CompareStrings(b, a) == -CompareStrings(a, b)
        && (CompareStrings(a, b) == 0 <==> a == b) {
        CompareStringsFacts(a, b);
      }
    }
  }

  // ---------------------------------------------------------------------
  // Listing: pagination
  // ---------------------------------------------------------------------

  /** `Math.ceil(total / n)`: the fewest pages of `n` that hold `total` items. */
  function CeilDiv(total: nat, n: int): nat
    requires n >= 1
  {
    (total + n - 1) / n
  }

  lemma CeilDivBounds(total: nat, n: int)
    requires n >= 1
    ensures CeilDiv(total, n) * n >= total
    ensures CeilDiv(total, n) == 0 || (CeilDiv(total, n) - 1) * n < total
  {
  }

  function Min(a: int, b: int): int { if a <= b then a else b }

  function Max(a: int, b: int): int { if a >= b then a else b }

  /** A `slice` bound resolved against length `len`: negative counts from the end, then clamped. */
  function SliceBound(i: int, len: nat): (b: nat)
    ensures b <= len
    ensures 0 <= i <= len ==> b == i
  {
    if i < 0 then Max(len + i, 0) else Min(i, len)
  }

  /** `s.slice(start, end)`: the elements between the resolved bounds, empty if they cross. */
  function Slice<T>(s: seq<T>, start: int, end: int): seq<T> {
    var lo, hi := SliceBound(start, |s|), SliceBound(end, |s|);
    if lo <= hi then s[lo..hi] else []
  }

  /** The controller's checks on the query, which the listing relies on. */
  predicate ValidListRequest(req: ListRequest) {
    && (req.pagina.Some? ==> req.pagina.value >= 1)
    && (req.itensPorPagina.Some? ==> 1 <= req.itensPorPagina.value <= 100)
    && (req.anoMin.Some? && req.anoMax.Some? ==> req.anoMin.value <= req.anoMax.value)
    && (req.precoMin.Some? && req.precoMax.Some? ==> req.precoMin.value <= req.precoMax.value)
  }

  function PageNumber(req: ListRequest): int {
    if req.pagina.Some? then req.pagina.value else 1
  }

  function PageSize(req: ListRequest): int {
    if req.itensPorPagina.Some? then req.itensPorPagina.value else 12
  }

  function Criteria(req: ListRequest): SortCriteria {
    if req.ordenacao.Some? then ParseSortCriteria(req.ordenacao.value) else Relevancia
  }

  /** Page `p` (from 1) of `n` items. */
  function Page<T>(s: seq<T>, p: int, n: int): seq<T>
    requires p >= 1 && n >= 1
  {
    Slice(s, (p - 1) * n, (p - 1) * n + n)
  }

  /** The response the listing produces for `req`. */
  function ListSpec(catalog: seq<Vehicle>, req: ListRequest): ListResponse
    requires ValidListRequest(req)
  {
    var sorted := Ordered(Criteria(req), Filtered(catalog, req));
    ListResponse(
      Page(sorted, PageNumber(req), PageSize(req)),
      |sorted|,
      PageNumber(req),
      PageSize(req),
      CeilDiv(|sorted|, PageSize(req)))
  }

  /** The `k`-th filter (from 0), in the order `vehicleList` applies them. */
  predicate Stage(req: ListRequest, k: nat, v: Vehicle) {
    if k == 0 then BrandOk(req, v)
    else if k == 1 then ModelOk(req, v)
    else if k == 2 then YearMinOk(req, v)
    else if k == 3 then YearMaxOk(req, v)
    else if k == 4 then PriceMinOk(req, v)
    else if k == 5 then PriceMaxOk(req, v)
    else TransmissionOk(req, v)
  }

  /**
   * One `if` block of the filtering: when the filter is active, filtering by
   * `keep` (which agrees with the stage's filter) extends the prefix of
   * filters applied by one; when it is inactive, skipping it does too.
   */
  lemma PassesFirstStep(req: ListRequest, k: nat, v: Vehicle)
    requires k < 7
    ensures PassesFirst(req, k + 1, v) == (PassesFirst(req, k, v) && Stage(req, k, v))
  {
  }

  lemma StageStep(catalog: seq<Vehicle>, req: ListRequest, k: nat, f: seq<Vehicle>, active: bool, keep: Vehicle -> bool)
    requires k < 7
    requires f == Filter(catalog, Through(req, k))
    requires active ==> forall v :: keep(v) == Stage(req, k, v)
    requires !active ==> forall v :: Stage(req, k, v)
    ensures (if active then Filter(f, keep) else f) == Filter(catalog, Through(req, k + 1))
  {
    forall v ensures PassesFirst(req, k + 1, v) == (PassesFirst(req, k, v) && Stage(req, k, v)) {
      PassesFirstStep(req, k, v);
    }
    if active {
      FilterFuse(catalog, Through(req, k), keep, Through(req, k + 1));
    } else {
      FilterExt(catalog, Through(req, k), Through(req, k + 1));
    }
  }

  /**
   * The `k`-th `if` block of `vehicleList`: when its filter is present (and,
   * for a list, non-empty) it narrows `filtered` with the source's predicate.
   */
  method ApplyStage(catalog: seq<Vehicle>, req: ListRequest, k: nat, filtered: seq<Vehicle>)
    returns (narrowed: seq<Vehicle>)
    requires k < 7
    requires filtered == Filter(catalog, Through(req, k))
    ensures narrowed == Filter(catalog, Through(req, k + 1))
  {
    narrowed := filtered;
    if k == 0 {
      if req.marcas.Some? && |req.marcas.value| > 0 {
        var marcas := req.marcas.value;
        var keep := (v: Vehicle) => v.marca in marcas;
        StageStep(catalog, req, k, filtered, true, keep);
        narrowed := Filter(filtered, keep);
      } else {
        StageStep(catalog, req, k, filtered, false, _ => true);
      }
    } else if k == 1 {
      if req.modelos.Some? && |req.modelos.value| > 0 {
        var modelos := req.modelos.value;
        var keep := (v: Vehicle) => v.modelo in modelos;
        StageStep(catalog, req, k, filtered, true, keep);
        narrowed := Filter(filtered, keep);
      } else {
        StageStep(catalog, req, k, filtered, false, _ => true);
      }
    } else if k == 2 {
      if req.anoMin.Some? {
        var anoMin := req.anoMin.value;
        var keep := (v: Vehicle) => v.ano >= anoMin;
        StageStep(catalog, req, k, filtered, true, keep);
        narrowed := Filter(filtered, keep);
      } else {
        StageStep(catalog, req, k, filtered, false, _ => true);
      }
    } else if k == 3 {
      if req.anoMax.Some? {
        var anoMax := req.anoMax.value;
        var keep := (v: Vehicle) => v.ano <= anoMax;
        StageStep(catalog, req, k, filtered, true, keep);
        narrowed := Filter(filtered, keep);
      } else {
        StageStep(catalog, req, k, filtered, false, _ => true);
      }
    } else if k == 4 {
      if req.precoMin.Some? {
        var precoMin := req.precoMin.value;
        var keep := (v: Vehicle) => v.preco as real >= precoMin;
        StageStep(catalog, req, k, filtered, true, keep);
        narrowed := Filter(filtered, keep);
      } else {
        StageStep(catalog, req, k, filtered, false, _ => true);
      }
    } else if k == 5 {
      if req.precoMax.Some? {
        var precoMax := req.precoMax.value;
        var keep := (v: Vehicle) => v.preco as real <= precoMax;
        StageStep(catalog, req, k, filtered, true, keep);
        narrowed := Filter(filtered, keep);
      } else {
        StageStep(catalog, req, k, filtered, false, _ => true);
      }
    } else {
      if req.cambios.Some? && |req.cambios.value| > 0 {
        var cambios := req.cambios.value;
        var keep := (v: Vehicle) => v.cambio.Some? && v.cambio.value != "" && v.cambio.value in cambios;
        StageStep(catalog, req, k, filtered, true, keep);
        narrowed := Filter(filtered, keep);
      } else {
        StageStep(catalog, req, k, filtered, false, _ => true);
      }
    }
  }

  /** The filtering half of `vehicleList`: a copy of the catalog narrowed filter by filter. */
  method ApplyFilters(catalog: seq<Vehicle>, req: ListRequest) returns (filtered: seq<Vehicle>)
    ensures filtered == Filtered(catalog, req)
  {
    filtered := catalog;
    FilterKeepsAll(catalog, Through(req, 0));
    filtered := ApplyStage(catalog, req, 0, filtered);
    filtered := ApplyStage(catalog, req, 1, filtered);
    filtered := ApplyStage(catalog, req, 2, filtered);
    filtered := ApplyStage(catalog, req, 3, filtered);
    filtered := ApplyStage(catalog, req, 4, filtered);
    filtered := ApplyStage(catalog, req, 5, filtered);
    filtered := ApplyStage(catalog, req, 6, filtered);
    FilterExt(catalog, Through(req, 7), MatchingFilter(req));
  }

  /** The `switch` of `vehicleList`: sorts in place with the criterion's comparator, if any. */
  method SortByCriteria(a: array<Vehicle>, ordenacao: SortCriteria)
    modifies a
    ensures a[..] == Ordered(ordenacao, old(a[..]))
  {
    match ordenacao {
      case PrecoMenor => SortInPlace(a, PriceAscending);
      case PrecoMaior => SortInPlace(a, PriceDescending);
      case AnoRecente => SortInPlace(a, YearDescending);
      case AnoAntigo => SortInPlace(a, YearAscending);
      case ModeloAZ => SortInPlace(a, ModelAscending);
      case ModeloZA => SortInPlace(a, ModelDescending);
      case _ =>
    }
  }

  /** `filteredVehicles.sort(...)`: the filtered list held in an array and sorted there. */
  method SortedCopy(filtered: seq<Vehicle>, ordenacao: SortCriteria) returns (sorted: seq<Vehicle>)
    ensures sorted == Ordered(ordenacao, filtered)
  {
    var a := new Vehicle[|filtered|](i requires 0 <= i < |filtered| => filtered[i]);
    assert a[..] == filtered;
    SortByCriteria(a, ordenacao);
    sorted := a[..];
  }

  /**
   * `vehicleList`: narrows a copy of the catalog filter by filter, sorts it in
   * place by the requested criterion, and cuts out the requested page.
   */
  method VehicleList(catalog: seq<Vehicle>, req: ListRequest) returns (resp: ListResponse)
    requires ValidListRequest(req)
    ensures resp == ListSpec(catalog, req)
  {
    var filtered := ApplyFilters(catalog, req);
    var ordenacao := if req.ordenacao.Some? then ParseSortCriteria(req.ordenacao.value) else Relevancia;
    filtered := SortedCopy(filtered, ordenacao);

    var pagina := if req.pagina.Some? then req.pagina.value else 1;
    var itensPorPagina := if req.itensPorPagina.Some? then req.itensPorPagina.value else 12;
    var total := |filtered|;
    var totalPaginas := CeilDiv(total, itensPorPagina);
    var startIndex := (pagina - 1) * itensPorPagina;
    var endIndex := startIndex + itensPorPagina;
    var veiculos := Slice(filtered, startIndex, endIndex);
    assert filtered == Ordered(Criteria(req), Filtered(catalog, req));
    assert veiculos == Page(filtered, PageNumber(req), PageSize(req));
    resp := ListResponse(veiculos, total, pagina, itensPorPagina, totalPaginas);
  }

  // ---------------------------------------------------------------------
  // Listing: what the response promises
  // ---------------------------------------------------------------------

  /** How many catalog entries pass every filter, counted one by one. */
  function CountMatching(catalog: seq<Vehicle>, req: ListRequest): nat {
    if catalog == [] then 0
    else (if Matches(req, catalog[0]) then 1 else 0) + CountMatching(catalog[1..], req)
  }

  lemma {:induction false} FilteredCount(catalog: seq<Vehicle>, req: ListRequest)
    ensures |Filtered(catalog, req)| == CountMatching(catalog, req)
  {
    if catalog != [] {
      FilteredCount(catalog[1..], req);
    }
  }

  /**
   * The filtered list holds exactly the catalog entries that pass every
   * filter (AND across filters, any value within a multi-value filter),
   * each as often as in the catalog, in catalog order.
   */
  lemma FilteredContents(catalog: seq<Vehicle>, req: ListRequest)
    ensures forall v :: v in Filtered(catalog, req) <==> v in catalog && Matches(req, v)
    ensures forall v :: multiset(Filtered(catalog, req))[v] == if Matches(req, v) then multiset(catalog)[v] else 0
  {
    FilterCounts(catalog, MatchingFilter(req));
  }

  /** A request whose filters are all absent, or empty lists, lists the whole catalog. */
  lemma NoFiltersKeepAll(catalog: seq<Vehicle>, req: ListRequest)
    requires !Active(req.marcas) && !Active(req.modelos) && !Active(req.cambios)
    requires req.anoMin.None? && req.anoMax.None? && req.precoMin.None? && req.precoMax.None?
    ensures Filtered(catalog, req) == catalog
  {
    FilterKeepsAll(catalog, MatchingFilter(req));
  }

  /** With a non-empty `cambios`, an entry without a transmission (or with an empty one) is never listed. */
  lemma TransmissionFilterExcludesMissing(catalog: seq<Vehicle>, req: ListRequest, v: Vehicle)
    requires Active(req.cambios)
    requires v.cambio.None? || v.cambio.value == ""
    ensures v !in Filtered(catalog, req)
  {
    FilteredContents(catalog, req);
  }

  /**
   * The sorted list is a rearrangement of the filtered one; `Relevância`
   * and unrecognised criteria leave it exactly as filtered.
   */
  lemma OrderedPermutation(crit: SortCriteria, s: seq<Vehicle>)
    ensures multiset(Ordered(crit, s)) == multiset(s)
    ensures |Ordered(crit, s)| == |s|
    ensures crit.Relevancia? || crit.Unrecognised? ==> Ordered(crit, s) == s
  {
    if ComparatorFor(crit).Some? {
      SortPermutation(s, ComparatorFor(crit).value);
    }
  }

  /** Every pair of listed positions respects the criterion's key. */
  lemma OrderedInOrder(crit: SortCriteria, s: seq<Vehicle>)
    ensures forall i, j :: 0 <= i < j < |Ordered(crit, s)| ==> InOrder(crit, Ordered(crit, s)[i], Ordered(crit, s)[j])
  {
    ComparatorForFacts(crit);
    if ComparatorFor(crit).Some? {
      SortSorted(s, ComparatorFor(crit).value);
    }
  }

  function SameKeyAs(crit: SortCriteria, k: Vehicle): Vehicle -> bool {
    v => SameKey(crit, v, k)
  }

  /** Stability: entries with equal sort keys keep their filtered order. */
  lemma OrderedStable(crit: SortCriteria, s: seq<Vehicle>, k: Vehicle)
    ensures Filter(Ordered(crit, s), SameKeyAs(crit, k)) == Filter(s, SameKeyAs(crit, k))
  {
    ComparatorForFacts(crit);
    if ComparatorFor(crit).Some? {
      SortStable(s, ComparatorFor(crit).value, k, SameKeyAs(crit, k));
    }
  }

  lemma MulNonNegative(a: int, b: int)
    requires a >= 0 && b >= 0
    ensures a * b >= 0
  {
  }

  /**
   * Page `p` of `n` is the run of the list starting at index `(p - 1) * n`:
   * at most `n` entries, fewer only on the last page, none past the end.
   */
  lemma PageFacts<T>(s: seq<T>, p: int, n: int)
    requires p >= 1 && n >= 1
    ensures |Page(s, p, n)| <= n
    ensures forall i :: 0 <= i < |Page(s, p, n)| ==> Page(s, p, n)[i] == s[(p - 1) * n + i]
    ensures |Page(s, p, n)| == if (p - 1) * n >= |s| then 0 else Min(n, |s| - (p - 1) * n)
  {
    MulNonNegative(p - 1, n);
  }

  /** A page past the last one is empty. */
  lemma PageBeyondLast<T>(s: seq<T>, p: int, n: int)
    requires n >= 1 && p > CeilDiv(|s|, n)
    ensures Page(s, p, n) == []
  {
    var c := CeilDiv(|s|, n);
    CeilDivBounds(|s|, n);
    assert (p - 1) * n >= c * n by {
      MulMonotone(c, p - 1, n);
    }
    PageFacts(s, p, n);
  }

  lemma MulMonotone(a: int, b: int, n: int)
    requires 0 <= a <= b && n >= 0
    ensures a * n <= b * n
  {
  }

  /** Pages `1..k` of `n`, one after another. */
  function PagesUpTo<T>(s: seq<T>, n: int, k: nat): seq<T>
    requires n >= 1
  {
    if k == 0 then [] else PagesUpTo(s, n, k - 1) + Page(s, k, n)
  }

  /** A page starting where a prefix ends extends that prefix by up to `n` elements. */
  lemma PageExtendsPrefix<T>(s: seq<T>, n: int, lo: int)
    requires n >= 1 && lo >= 0
    ensures s[..Min(lo, |s|)] + Slice(s, lo, lo + n) == s[..Min(lo + n, |s|)]
  {
    if lo < |s| {
      assert s[..Min(lo + n, |s|)] == s[..lo] + s[lo..Min(lo + n, |s|)];
    }
  }

  lemma {:induction false} PagesUpToPrefix<T>(s: seq<T>, n: int, k: nat)
    requires n >= 1
    ensures PagesUpTo(s, n, k) == s[..Min(k * n, |s|)]
  {
    if k > 0 {
      PagesUpToPrefix(s, n, k - 1);
      var lo := (k - 1) * n;
      assert k * n == lo + n;
      MulNonNegative(k - 1, n);
      PageExtendsPrefix(s, n, lo);
    }
  }

  /** Reading every page from 1 to `totalPaginas` gives back the whole list, in order. */
  lemma PagesCoverList<T>(s: seq<T>, n: int)
    requires n >= 1
    ensures PagesUpTo(s, n, CeilDiv(|s|, n)) == s
  {
    CeilDivBounds(|s|, n);
    PagesUpToPrefix(s, n, CeilDiv(|s|, n));
    assert s[..|s|] == s;
  }

  /**
   * The listing's counters: `total` counts every matching entry whatever the
   * page, and `totalPaginas` is the ceiling of `total / n`.
   */
  lemma ListTotals(catalog: seq<Vehicle>, req: ListRequest)
    requires ValidListRequest(req)
    ensures ListSpec(catalog, req).total == CountMatching(catalog, req)
    ensures ListSpec(catalog, req).pagina == PageNumber(req)
    ensures ListSpec(catalog, req).itensPorPagina == PageSize(req)
    ensures ListSpec(catalog, req).totalPaginas * PageSize(req) >= ListSpec(catalog, req).total
    ensures ListSpec(catalog, req).totalPaginas == 0
      || (ListSpec(catalog, req).totalPaginas - 1) * PageSize(req) < ListSpec(catalog, req).total
  {
    var filtered := Filtered(catalog, req);
    var total := |Ordered(Criteria(req), filtered)|;
    assert ListSpec(catalog, req).total == total;
    assert ListSpec(catalog, req).totalPaginas == CeilDiv(total, PageSize(req));
    assert total == CountMatching(catalog, req) by {
      FilteredCount(catalog, req);
      OrderedPermutation(Criteria(req), filtered);
    }
    CeilDivBounds(total, PageSize(req));
  }

  /**
   * The listed page: at most `n` entries, each a catalog entry passing every
   * filter, and none at all for a page past the last.
   */
  lemma ListPage(catalog: seq<Vehicle>, req: ListRequest)
    requires ValidListRequest(req)
    ensures |ListSpec(catalog, req).veiculos| <= PageSize(req)
    ensures forall v :: v in ListSpec(catalog, req).veiculos ==> v in catalog && Matches(req, v)
    ensures PageNumber(req) > ListSpec(catalog, req).totalPaginas ==> ListSpec(catalog, req).veiculos == []
  {
    var filtered := Filtered(catalog, req);
    var sorted := Ordered(Criteria(req), filtered);
    var p, n := PageNumber(req), PageSize(req);
    var page := Page(sorted, p, n);
    assert ListSpec(catalog, req).veiculos == page;
    assert |page| <= n by {
      PageFacts(sorted, p, n);
    }
    forall v | v in page ensures v in catalog && Matches(req, v) {
      assert v in sorted by {
        PageFacts(sorted, p, n);
      }
      assert v in filtered by {
        OrderedPermutation(Criteria(req), filtered);
        assert v in multiset(sorted);
      }
      FilteredContents(catalog, req);
    }
    if p > CeilDiv(|sorted|, n) {
      PageBeyondLast(sorted, p, n);
    }
  }

  // ---------------------------------------------------------------------
  // Facets: getFilterOptions and getModelosByMarcas
  // ---------------------------------------------------------------------

  /** `(a, b) => b - a`: years, most recent first. */
  function YearsDescending(a: int, b: int): int { b - a }

  /** `Array.from(new Set(xs)).sort()`: the distinct values in code-unit order. */
  function SortedDistinct(xs: seq<string>): seq<string> {
    InsertionSort(Distinct(xs), CompareStrings)
  }

  /** `.filter((c): c is string => c !== null)`: the transmissions that are present. */
  function PresentValues(cs: seq<Option<string>>): (r: seq<string>)
    ensures forall x :: x in r <==> Some(x) in cs
  {
    if cs == [] then []
    else (if cs[0].Some? then [cs[0].value] else []) + PresentValues(cs[1..])
  }

  function Brands(catalog: seq<Vehicle>): seq<string> {
    SortedDistinct(Map(catalog, (v: Vehicle) => v.marca))
  }

  function Models(catalog: seq<Vehicle>): seq<string> {
    SortedDistinct(Map(catalog, (v: Vehicle) => v.modelo))
  }

  function Years(catalog: seq<Vehicle>): seq<int> {
    InsertionSort(Distinct(Map(catalog, (v: Vehicle) => v.ano)), YearsDescending)
  }

  function Transmissions(catalog: seq<Vehicle>): seq<string> {
    SortedDistinct(PresentValues(Map(catalog, (v: Vehicle) => v.cambio)))
  }

  /** `getFilterOptions`: the four facet lists of the catalog. */
  function GetFilterOptions(catalog: seq<Vehicle>): FilterOptions {
    FilterOptions(Brands(catalog), Models(catalog), Years(catalog), Transmissions(catalog))
  }

  /** Deduplicating and sorting keeps exactly the values, once each, in comparator order. */
  lemma SortedDistinctFacts<T(!new)>(xs: seq<T>, cmp: (T, T) -> int)
    requires Comparator(cmp)
    ensures NoDup(InsertionSort(Distinct(xs), cmp))
    ensures forall x :: x in InsertionSort(Distinct(xs), cmp) <==> x in xs
    ensures Sorted(InsertionSort(Distinct(xs), cmp), cmp)
  {
    var d := Distinct(xs);
    var r := InsertionSort(d, cmp);
    SortPermutation(d, cmp);
    NoDupPermutation(d, r);
    forall x ensures x in r <==> x in d {
      assert x in r <==> x in multiset(r);
      assert x in d <==> x in multiset(d);
    }
    SortSorted(d, cmp);
  }

  /** A string facet: each value once, exactly the values given, strictly ascending. */
  lemma StringFacetFacts(xs: seq<string>)
    ensures NoDup(SortedDistinct(xs))
    ensures forall x :: x in SortedDistinct(xs) <==> x in xs
    ensures forall i, j :: 0 <= i < j < |SortedDistinct(xs)| ==>
      CompareStrings(SortedDistinct(xs)[i], SortedDistinct(xs)[j]) < 0
  {
    var r := SortedDistinct(xs);
    StringsComparator();
    SortedDistinctFacts(xs, CompareStrings);
    forall i, j | 0 <= i < j < |r| ensures CompareStrings(r[i], r[j]) < 0 {
      CompareStringsFacts(r[i], r[j]);
    }
  }

  /** A facet of one field: each catalog value once, nothing else, strictly ascending. */
  lemma FieldFacetFacts(catalog: seq<Vehicle>, field: Vehicle -> string)
    ensures NoDup(SortedDistinct(Map(catalog, field)))
    ensures forall x :: x in SortedDistinct(Map(catalog, field)) <==> exists v :: v in catalog && field(v) == x
    ensures forall i, j :: 0 <= i < j < |SortedDistinct(Map(catalog, field))| ==>
      CompareStrings(SortedDistinct(Map(catalog, field))[i], SortedDistinct(Map(catalog, field))[j]) < 0
  {
    StringFacetFacts(Map(catalog, field));
    MapMembers(catalog, field);
  }

  /** `marcas` of `getFilterOptions`: every brand of the catalog once, strictly ascending. */
  lemma BrandsFacts(catalog: seq<Vehicle>)
    ensures NoDup(Brands(catalog))
    ensures forall x :: x in Brands(catalog) <==> exists v :: v in catalog && v.marca == x
    ensures forall i, j :: 0 <= i < j < |Brands(catalog)| ==> CompareStrings(Brands(catalog)[i], Brands(catalog)[j]) < 0
  {
    FieldFacetFacts(catalog, (v: Vehicle) => v.marca);
  }

  /** `modelos` of `getFilterOptions`: every model of the catalog once, strictly ascending. */
  lemma ModelsFacts(catalog: seq<Vehicle>)
    ensures NoDup(Models(catalog))
    ensures forall x :: x in Models(catalog) <==> exists v :: v in catalog && v.modelo == x
    ensures forall i, j :: 0 <= i < j < |Models(catalog)| ==> CompareStrings(Models(catalog)[i], Models(catalog)[j]) < 0
  {
    FieldFacetFacts(catalog, (v: Vehicle) => v.modelo);
  }

  /**
   * `cambios` of `getFilterOptions`: every transmission present in the
   * catalog once, strictly ascending; a missing one is not a value.
   */
  lemma TransmissionsFacts(catalog: seq<Vehicle>)
    ensures NoDup(Transmissions(catalog))
    ensures forall x :: x in Transmissions(catalog) <==> exists v :: v in catalog && v.cambio == Some(x)
    ensures forall i, j :: 0 <= i < j < |Transmissions(catalog)| ==>
      CompareStrings(Transmissions(catalog)[i], Transmissions(catalog)[j]) < 0
  {
    var cambio := (v: Vehicle) => v.cambio;
    StringFacetFacts(PresentValues(Map(catalog, cambio)));
    MapMembers(catalog, cambio);
  }

  lemma YearsDescendingComparator()
    ensures Comparator(YearsDescending)
  {
  }

  /** `anos` of `getFilterOptions`: every model year of the catalog once, strictly descending. */
  lemma YearsFacts(catalog: seq<Vehicle>)
    ensures NoDup(Years(catalog))
    ensures forall y :: y in Years(catalog) <==> exists v :: v in catalog && v.ano == y
    ensures forall i, j :: 0 <= i < j < |Years(catalog)| ==> Years(catalog)[i] > Years(catalog)[j]
  {
    var ano := (v: Vehicle) => v.ano;
    var anos := Years(catalog);
    YearsDescendingComparator();
    SortedDistinctFacts(Map(catalog, ano), YearsDescending);
    MapMembers(catalog, ano);
    forall i, j | 0 <= i < j < |anos| ensures anos[i] > anos[j] {
      assert YearsDescending(anos[i], anos[j]) <= 0;
    }
  }

  /**
   * `getModelosByMarcas`: with no brand selected, the models facet;
   * otherwise the distinct models of the selected brands' vehicles, sorted.
   */
  function GetModelosByMarcas(catalog: seq<Vehicle>, marcas: seq<string>): seq<string> {
    if |marcas| == 0 then Models(catalog)
    else SortedDistinct(Map(Filter(catalog, (v: Vehicle) => v.marca in marcas), (v: Vehicle) => v.modelo))
  }

  /**
   * The models offered for a brand selection: each once, strictly ascending,
   * and exactly those of some catalog vehicle of a selected brand; with no
   * selection, those of every vehicle.
   */
  lemma ModelosByMarcasFacts(catalog: seq<Vehicle>, marcas: seq<string>)
    ensures |marcas| == 0 ==> GetModelosByMarcas(catalog, marcas) == Models(catalog)
    ensures NoDup(GetModelosByMarcas(catalog, marcas))
    ensures forall x :: x in GetModelosByMarcas(catalog, marcas) <==>
      exists v :: v in catalog && (|marcas| == 0 || v.marca in marcas) && v.modelo == x
    ensures forall i, j :: 0 <= i < j < |GetModelosByMarcas(catalog, marcas)| ==>
      CompareStrings(GetModelosByMarcas(catalog, marcas)[i], GetModelosByMarcas(catalog, marcas)[j]) < 0
  {
    if |marcas| == 0 {
      ModelsFacts(catalog);
    } else {
      var selected := (v: Vehicle) => v.marca in marcas;
      FieldFacetFacts(Filter(catalog, selected), (v: Vehicle) => v.modelo);
      FilterCounts(catalog, selected);
    }
  }

  // ---------------------------------------------------------------------
  // Similar vehicles
  // ---------------------------------------------------------------------

  function Abs(x: int): nat { if x < 0 then -x else x }

  /**
   * The candidate test of `getSimilarVehicles`: another vehicle, priced at
   * most 30% above the reference, and either of the same brand or priced at
   * least 70% of the reference. `preco * 0.3` is compared exactly, by
   * multiplying through by 10.
   */
  predicate IsSimilar(ref: Vehicle, v: Vehicle) {
    && v.id != ref.id
    && (v.marca == ref.marca || 10 * v.preco >= 7 * ref.preco)
    && 10 * v.preco <= 13 * ref.preco
  }

  function SimilarTo(ref: Vehicle): Vehicle -> bool {
    v => IsSimilar(ref, v)
  }

  /** Same brand as the reference first; within each group, the closer price first. */
  function SimilarityOrder(ref: Vehicle): (Vehicle, Vehicle) -> int {
    (a: Vehicle, b: Vehicle) =>
      if a.marca == ref.marca && b.marca != ref.marca then -1
      else if a.marca != ref.marca && b.marca == ref.marca then 1
      else Abs(a.preco - ref.preco) - Abs(b.preco - ref.preco)
  }

  /** The similar vehicles `getSimilarVehicles` answers: the first six candidates in similarity order. */
  function SimilarSpec(catalog: seq<Vehicle>, ref: Vehicle): seq<Vehicle> {
    Slice(InsertionSort(Filter(catalog, SimilarTo(ref)), SimilarityOrder(ref)), 0, 6)
  }

  lemma SimilarityComparator(ref: Vehicle)
    ensures Comparator(SimilarityOrder(ref))
  {
    var cmp := SimilarityOrder(ref);
    forall a, b, c | cmp(a, b) <= 0 && cmp(b, c) <= 0 ensures cmp(a, c) <= 0 {
      if (a.marca == ref.marca) == (c.marca == ref.marca) {
        assert (b.marca == ref.marca) == (a.marca == ref.marca);
      }
    }
  }

  /**
   * `getSimilarVehicles`: filters the catalog, sorts the candidates in
   * place by similarity, and keeps the first six.
   */
  method GetSimilarVehicles(catalog: seq<Vehicle>, ref: Vehicle) returns (similares: seq<Vehicle>)
    ensures similares == SimilarSpec(catalog, ref)
  {
    var similar := Filter(catalog, SimilarTo(ref));
    var a := new Vehicle[|similar|](i requires 0 <= i < |similar| => similar[i]);
    assert a[..] == similar;
    SortInPlace(a, SimilarityOrder(ref));
    similares := Slice(a[..], 0, 6);
  }

  /** The first six candidates in similarity order. */
  lemma SimilarIsPrefix(catalog: seq<Vehicle>, ref: Vehicle)
    ensures |SimilarSpec(catalog, ref)| == Min(6, |Filter(catalog, SimilarTo(ref))|)
    ensures SimilarSpec(catalog, ref) == InsertionSort(Filter(catalog, SimilarTo(ref)), SimilarityOrder(ref))[..|SimilarSpec(catalog, ref)|]
  {
  }

  /**
   * At most six similar vehicles, each a catalog vehicle other than the
   * reference, priced within the band.
   */
  lemma SimilarMembers(catalog: seq<Vehicle>, ref: Vehicle)
    ensures |SimilarSpec(catalog, ref)| <= 6
    ensures forall v :: v in SimilarSpec(catalog, ref) ==> v in catalog && IsSimilar(ref, v)
  {
    var candidates := Filter(catalog, SimilarTo(ref));
    var sorted := InsertionSort(candidates, SimilarityOrder(ref));
    var r := SimilarSpec(catalog, ref);
    SimilarIsPrefix(catalog, ref);
    forall v | v in r ensures v in catalog && IsSimilar(ref, v) {
      assert v in sorted;
      assert v in candidates by {
        SortPermutation(candidates, SimilarityOrder(ref));
        assert v in multiset(sorted);
      }
      FilterCounts(catalog, SimilarTo(ref));
    }
  }

  /** Same-brand vehicles before the others. */
  predicate BrandFirst(ref: Vehicle, r: seq<Vehicle>) {
    forall i, j :: 0 <= i < j < |r| && r[j].marca == ref.marca ==> r[i].marca == ref.marca
  }

  /** Within the same-brand group and within the rest, the price distance never decreases. */
  predicate CloserFirst(ref: Vehicle, r: seq<Vehicle>) {
    forall i, j :: 0 <= i < j < |r| && (r[i].marca == ref.marca <==> r[j].marca == ref.marca) ==>
      Abs(r[i].preco - ref.preco) <= Abs(r[j].preco - ref.preco)
  }

  /** The similar vehicles come same brand first, then by closeness of price. */
  lemma SimilarOrdered(catalog: seq<Vehicle>, ref: Vehicle)
    ensures BrandFirst(ref, SimilarSpec(catalog, ref))
    ensures CloserFirst(ref, SimilarSpec(catalog, ref))
  {
    var cmp := SimilarityOrder(ref);
    var sorted := InsertionSort(Filter(catalog, SimilarTo(ref)), cmp);
    var r := SimilarSpec(catalog, ref);
    SimilarIsPrefix(catalog, ref);
    assert Sorted(sorted, cmp) by {
      SimilarityComparator(ref);
      SortSorted(Filter(catalog, SimilarTo(ref)), cmp);
    }
    forall i, j | 0 <= i < j < |r| ensures cmp(r[i], r[j]) <= 0 {
      assert r[i] == sorted[i] && r[j] == sorted[j];
    }
  }

  // ---------------------------------------------------------------------
  // Detail: vehicleGetDetail
  // ---------------------------------------------------------------------

  /** `vehicles.find((v) => v.id === id)`: the first vehicle with that id, if any. */
  function FindById(catalog: seq<Vehicle>, id: string): (r: Option<Vehicle>)
    ensures r.None? <==> forall v :: v in catalog ==> v.id != id
    ensures r.Some? ==> r.value.id == id && exists i :: (0 <= i < |catalog| && catalog[i] == r.value
      && forall k :: 0 <= k < i ==> catalog[k].id != id)
  {
    if catalog == [] then None
    else if catalog[0].id == id then Some(catalog[0])
    else
      var r := FindById(catalog[1..], id);
      assert forall v :: v in catalog[1..] ==> v in catalog;
      if r.Some? then
        var i :| 0 <= i < |catalog[1..]| && catalog[1..][i] == r.value
          && forall k :: 0 <= k < i ==> catalog[1..][k].id != id;
        assert catalog[i + 1] == r.value;
        r
      else r
  }

  function Title(v: Vehicle): string {
    v.marca + " " + v.modelo + " " + IntToString(v.ano)
  }

  function ShareUrl(v: Vehicle): string {
    "https://catalogo-carros.com/veiculo/" + ToLowerCase(v.marca) + "-" + ToLowerCase(v.modelo)
      + "-" + IntToString(v.ano) + "-" + v.id
  }

  function PlaceholderPhoto(v: Vehicle, view: string, legenda: string): Photo {
    Photo("https://via.placeholder.com/800x600?text=" + v.marca + "+" + v.modelo + "+" + view, legenda, false)
  }

  /** The gallery: the principal image first, then four placeholder views. */
  function Photos(v: Vehicle): seq<Photo> {
    [ Photo(v.imagemPrincipal, "Vista frontal", true),
      PlaceholderPhoto(v, "Lateral", "Vista lateral"),
      PlaceholderPhoto(v, "Traseira", "Vista traseira"),
      PlaceholderPhoto(v, "Interior", "Interior"),
      PlaceholderPhoto(v, "Painel", "Painel") ]
  }

  /** `vehicle.quilometragem || 0`: a missing mileage reads as 0 (and 0 stays 0). */
  function MileageOrZero(v: Vehicle): int {
    match v.quilometragem
    case Some(k) => if k != 0 then k else 0
    case None => 0
  }

  /** `vehicle.cambio || TransmissionType.Manual`: a missing or empty transmission reads as `Manual`. */
  function TransmissionOrManual(v: Vehicle): string {
    match v.cambio
    case Some(c) => if c != "" then c else TransmissionLabel(Manual)
    case None => TransmissionLabel(Manual)
  }

  function BuildSpecifications(v: Vehicle): Specifications {
    Specifications(v.marca, v.modelo, v.ano, v.ano, MileageOrZero(v), Flex, TransmissionOrManual(v),
      "120 cv", "Prata", 4, Sedan, "1.8", 5)
  }

  /** The derived fields of the detail response for `v`. */
  function BuildDetail(v: Vehicle, similares: seq<Vehicle>): VehicleDetail {
    VehicleDetail(v.id, Title(v), v.preco, Disponivel, Photos(v), BuildSpecifications(v), ShareUrl(v), similares)
  }

  /**
   * `vehicleGetDetail`: `null` when no vehicle has the id; otherwise the
   * detail of the first vehicle with it, with its similar vehicles.
   */
  method VehicleGetDetail(catalog: seq<Vehicle>, id: string) returns (detail: Option<VehicleDetail>)
    ensures detail.None? <==> forall v :: v in catalog ==> v.id != id
    ensures detail.Some? ==> (FindById(catalog, id).Some?
      && detail.value == BuildDetail(FindById(catalog, id).value, SimilarSpec(catalog, FindById(catalog, id).value)))
  {
    var found := FindById(catalog, id);
    if found.None? {
      return None;
    }
    var vehicle := found.value;
    var similares := GetSimilarVehicles(catalog, vehicle);
    detail := Some(BuildDetail(vehicle, similares));
  }

  /**
   * The title: the brand, a space, the model, a space and the model year,
   * which reads back from the end of the title.
   */
  lemma TitleFacts(v: Vehicle)
    requires v.ano >= 0
    ensures |Title(v)| > |v.marca| + |v.modelo| + 2
    ensures Title(v)[..|v.marca| + 1] == v.marca + " "
    ensures Title(v)[|v.marca| + 1..|v.marca| + |v.modelo| + 2] == v.modelo + " "
    ensures AllDigits(Title(v)[|v.marca| + |v.modelo| + 2..])
    ensures DecimalValue(Title(v)[|v.marca| + |v.modelo| + 2..]) == v.ano
  {
    var year := NatToString(v.ano);
    assert Title(v) == (v.marca + " ") + (v.modelo + " ") + year;
    NatToStringRoundTrip(v.ano);
  }

  /** The share URL lies under the site's vehicle path and ends with `-` and the id. */
  lemma ShareUrlFacts(v: Vehicle)
    ensures |ShareUrl(v)| >= 36 + |v.id| + 1
    ensures ShareUrl(v)[..36] == "https://catalogo-carros.com/veiculo/"
    ensures ShareUrl(v)[|ShareUrl(v)| - |v.id| - 1..] == "-" + v.id
  {
    var head := "https://catalogo-carros.com/veiculo/" + ToLowerCase(v.marca) + "-" + ToLowerCase(v.modelo)
      + "-" + IntToString(v.ano);
    assert ShareUrl(v) == head + ("-" + v.id);
  }

  /**
   * The rest of the derived detail: id, price and status; the principal
   * photo first and the only principal one; mileage 0 and transmission
   * `Manual` when absent.
   */
  lemma DetailFacts(v: Vehicle, similares: seq<Vehicle>)
    ensures BuildDetail(v, similares).id == v.id && BuildDetail(v, similares).preco == v.preco
    ensures BuildDetail(v, similares).statusVeiculo == Disponivel
    ensures BuildDetail(v, similares).veiculosSimilares == similares
    ensures |BuildDetail(v, similares).fotos| == 5
    ensures BuildDetail(v, similares).fotos[0] == Photo(v.imagemPrincipal, "Vista frontal", true)
    ensures forall i :: 1 <= i < 5 ==> !BuildDetail(v, similares).fotos[i].principal
    ensures v.quilometragem.None? ==> BuildDetail(v, similares).especificacoes.quilometragem == 0
    ensures v.quilometragem.Some? ==> BuildDetail(v, similares).especificacoes.quilometragem == v.quilometragem.value
    ensures (v.cambio.None? || v.cambio == Some("")) ==> BuildDetail(v, similares).especificacoes.cambio == "Manual"
    ensures (v.cambio.Some? && v.cambio.value != "") ==>
      BuildDetail(v, similares).especificacoes.cambio == v.cambio.value
  {
  }
}

