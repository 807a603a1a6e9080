/**
 * The records and enumerations of the vehicle catalog: the catalog entry,
 * the list request and response, the facet lists and the detail view.
 */
module VehicleTypes {
  import opened Wrappers

  /** A catalog entry; mileage and transmission may be absent (`null`). */
  datatype Vehicle = Vehicle(
    id: string,
    modelo: string,
    marca: string,
    ano: int,
    preco: int,
    imagemPrincipal: string,
    quilometragem: Option<int>,
    cambio: Option<string>)

  datatype TransmissionType = Manual | Automatico | CVT | SemiAutomatico

  function TransmissionLabel(t: TransmissionType): string {
    match t
    case Manual => "Manual"
    case Automatico => "Automático"
    case CVT => "CVT"
    case SemiAutomatico => "Semi-automático"
  }

  /**
   * The sort criterion named by the request's `ordenacao` string; a string
   * that names none of the seven criteria is kept as `Unrecognised`.
   */
  datatype SortCriteria =
    | Relevancia
    | PrecoMenor
    | PrecoMaior
    | AnoRecente
    | AnoAntigo
    | ModeloAZ
    | ModeloZA
    | Unrecognised(text: string)

  /** The request string that names `c`; parsing it gives `c` back. */
  function SortLabel(c: SortCriteria): (s: string)
    requires c.Unrecognised? ==> c.text !in KnownSortLabels
    ensures ParseSortCriteria(s) == c
  {
    match c
    case Relevancia => "Relevância"
    case PrecoMenor => "Preço (menor para maior)"
    case PrecoMaior => "Preço (maior para menor)"
    case AnoRecente => "Ano (mais recente)"
    case AnoAntigo => "Ano (mais antigo)"
    case ModeloAZ => "Modelo (A-Z)"
    case ModeloZA => "Modelo (Z-A)"
    case Unrecognised(s) => s
  }

  const KnownSortLabels: set<string> := {
    "Relevância", "Preço (menor para maior)", "Preço (maior para menor)", "Ano (mais recente)",
    "Ano (mais antigo)", "Modelo (A-Z)", "Modelo (Z-A)"
  }

  function ParseSortCriteria(s: string): (c: SortCriteria)
    ensures c.Unrecognised? <==> s !in KnownSortLabels
    ensures c.Unrecognised? ==> c.text == s
  {
    if s == "Relevância" then Relevancia
    else if s == "Preço (menor para maior)" then PrecoMenor
    else if s == "Preço (maior para menor)" then PrecoMaior
    else if s == "Ano (mais recente)" then AnoRecente
    else if s == "Ano (mais antigo)" then AnoAntigo
    else if s == "Modelo (A-Z)" then ModeloAZ
    else if s == "Modelo (Z-A)" then ModeloZA
    else Unrecognised(s)
  }

  /** Every request string is the label of the criterion it parses to. */
  lemma ParseSortCriteriaLabel(s: string)
    ensures SortLabel(ParseSortCriteria(s)) == s
  {
  }

  /** Query parameters of the listing; every field is optional. */
  datatype ListRequest = ListRequest(
    marcas: Option<seq<string>>,
    modelos: Option<seq<string>>,
    anoMin: Option<int>,
    anoMax: Option<int>,
    precoMin: Option<real>,
    precoMax: Option<real>,
    cambios: Option<seq<string>>,
    ordenacao: Option<string>,
    pagina: Option<int>,
    itensPorPagina: Option<int>)

  datatype ListResponse = ListResponse(
    veiculos: seq<Vehicle>,
    total: nat,
    pagina: int,
    itensPorPagina: int,
    totalPaginas: nat)

  datatype FilterOptions = FilterOptions(
    marcas: seq<string>,
    modelos: seq<string>,
    anos: seq<int>,
    cambios: seq<string>)

  datatype VehicleStatus = Disponivel | Reservado | Vendido

  datatype FuelType = Gasolina | Etanol | Flex | Diesel | Eletrico | Hibrido

  datatype BodyType = Hatch | Sedan | SUV | Picape | Minivan | Conversivel | Coupe | Wagon

  datatype Photo = Photo(url: string, legenda: string, principal: bool)

  datatype Specifications = Specifications(
    marca: string,
    modelo: string,
    anoFabricacao: int,
    anoModelo: int,
    quilometragem: int,
    combustivel: FuelType,
    cambio: string,
    potencia: string,
    cor: string,
    portas: int,
    carroceria: BodyType,
    motor: string,
    finalPlaca: int)

  /** The derived fields of a vehicle's detail page. */
  datatype VehicleDetail = VehicleDetail(
    id: string,
    tituloAnuncio: string,
    preco: int,
    statusVeiculo: VehicleStatus,
    fotos: seq<Photo>,
    especificacoes: Specifications,
    urlCompartilhamento: string,
    veiculosSimilares: seq<Vehicle>)
}
