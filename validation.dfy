/**
 * The validating half of the `POST /api/projetos` handler: reading the
 * parsed body, destructuring the ten charter fields, and the three guard
 * clauses (presence, types, date) that run, in this order, before the
 * single insert.
 */
module CharterValidation {
  import opened Wrappers
  import opened Js

  const NomeProjeto := "nomeProjeto"
  const Objetivo := "objetivo"
  const Justificativa := "justificativa"
  const StakeholdersPrincipais := "stakeholdersPrincipais"
  const GerenteProjeto := "gerenteProjeto"
  const Premissas := "premissas"
  const Restricoes := "restricoes"
  const PrincipaisEntregas := "principaisEntregas"
  const OrcamentoEstimado := "orcamentoEstimado"
  const CronogramaInicial := "cronogramaInicial"

  /** The eight required text fields, in the order the handler lists them. */
  const TextKeys: seq<string> :=
    [NomeProjeto, Objetivo, Justificativa, StakeholdersPrincipais,
     GerenteProjeto, Premissas, Restricoes, PrincipaisEntregas]

  /** The fields whose presence is judged by truthiness. */
  const TruthyKeys: seq<string> := TextKeys + [CronogramaInicial]

  /** All ten fields the handler destructures (autorizacaoFormal is not one). */
  const CharterKeys: seq<string> := TruthyKeys + [OrcamentoEstimado]

  /** What `await request.json()` gives: a parsed value, a SyntaxError for
      text that is not JSON, or some other failure to read the body. */
  datatype BodyRead = Parsed(value: JsValue) | SyntaxError | ReadFailed

  /** The ways the handler can fail, one per error response it returns. */
  datatype Failure =
    | InvalidJson        // SyntaxError caught
    | MissingFields      // presence guard
    | InvalidDataTypes   // type guard
    | InvalidDateFormat  // date guard
    | CreateFailed       // any other error caught

  /** The ten destructured fields. */
  datatype Fields = Fields(
    nomeProjeto: JsValue,
    objetivo: JsValue,
    justificativa: JsValue,
    stakeholdersPrincipais: JsValue,
    gerenteProjeto: JsValue,
    premissas: JsValue,
    restricoes: JsValue,
    principaisEntregas: JsValue,
    orcamentoEstimado: JsValue,
    cronogramaInicial: JsValue)

  /** The data handed to the store's create call. */
  datatype CharterData = CharterData(
    nomeProjeto: string,
    objetivo: string,
    justificativa: string,
    stakeholdersPrincipais: string,
    gerenteProjeto: string,
    premissas: string,
    restricoes: string,
    principaisEntregas: string,
    orcamentoEstimado: Number,
    cronogramaInicial: TimeValue)

  /** Reading property `key` of a body that is neither null nor undefined.
      None of the charter keys names a property of a built-in prototype, so
      only an object's own entry is found; any other value gives undefined. */
  function Lookup(body: JsValue, key: string): JsValue {
    match body
    case Obj(m) => if key in m then m[key] else Undefined
    case _ => Undefined
  }

  /** `const { ... } = body`: None where destructuring throws a TypeError,
      that is, for a null or undefined body. */
  function Destructure(body: JsValue): (f: Option<Fields>)
    ensures f.None? <==> Nullish(body)
  {
    if Nullish(body) then None
    else Some(Fields(
      Lookup(body, NomeProjeto),
      Lookup(body, Objetivo),
      Lookup(body, Justificativa),
      Lookup(body, StakeholdersPrincipais),
      Lookup(body, GerenteProjeto),
      Lookup(body, Premissas),
      Lookup(body, Restricoes),
      Lookup(body, PrincipaisEntregas),
      Lookup(body, OrcamentoEstimado),
      Lookup(body, CronogramaInicial)))
  }

  /** The presence guard: a falsy text field or schedule, or an undefined
      budget (a budget of 0 or null passes). */
  predicate MissingRequired(f: Fields) {
    || !Truthy(f.nomeProjeto)
    || !Truthy(f.objetivo)
    || !Truthy(f.justificativa)
    || !Truthy(f.stakeholdersPrincipais)
    || !Truthy(f.gerenteProjeto)
    || !Truthy(f.premissas)
    || !Truthy(f.restricoes)
    || !Truthy(f.principaisEntregas)
    || f.orcamentoEstimado == Undefined
    || !Truthy(f.cronogramaInicial)
  }

  /** The type guard: a text field that is not a string, a budget that is
      not a number, or a schedule that is neither a string nor a Date. */
  predicate WrongTypes(f: Fields) {
    || TypeOf(f.nomeProjeto) != "string"
    || TypeOf(f.objetivo) != "string"
    || TypeOf(f.justificativa) != "string"
    || TypeOf(f.stakeholdersPrincipais) != "string"
    || TypeOf(f.gerenteProjeto) != "string"
    || TypeOf(f.premissas) != "string"
    || TypeOf(f.restricoes) != "string"
    || TypeOf(f.principaisEntregas) != "string"
    || TypeOf(f.orcamentoEstimado) != "number"
    || (TypeOf(f.cronogramaInicial) != "string" && !IsDateObject(f.cronogramaInicial))
  }

  /** The three guards in order, then the record the create call receives:
      the fields unchanged except the schedule, which becomes the parsed
      time value. */
  function ValidateFields(f: Fields, parse: DateParser): Result<CharterData, Failure> {
    if MissingRequired(f) then Failure(MissingFields)
    else if WrongTypes(f) then Failure(InvalidDataTypes)
    else
      match NewDate(f.cronogramaInicial, parse)
      case None => Failure(InvalidDateFormat)
      case Some(t) =>
        Success(CharterData(
          f.nomeProjeto.s, f.objetivo.s, f.justificativa.s,
          f.stakeholdersPrincipais.s, f.gerenteProjeto.s, f.premissas.s,
          f.restricoes.s, f.principaisEntregas.s,
          f.orcamentoEstimado.n, t))
  }

  /** Reading `key` of a null or undefined body throws a TypeError. */
  predicate Nullish(v: JsValue) {
    v.Null? || v.Undefined?
  }

  /** Reference form of the presence guard, over the field names: every
      truthiness-checked field is truthy and the budget is not undefined. */
  predicate Present(body: JsValue) {
    && (forall k :: k in TruthyKeys ==> Truthy(Lookup(body, k)))
    && Lookup(body, OrcamentoEstimado) != Undefined
  }

  /** Reference form of the type guard, over the field names. */
  predicate WellTyped(body: JsValue) {
    && (forall k :: k in TextKeys ==> Lookup(body, k).Str?)
    && Lookup(body, OrcamentoEstimado).Num?
    && (Lookup(body, CronogramaInicial).Str? || Lookup(body, CronogramaInicial).DateVal?)
  }

  /** `d` is what the create call receives for `body`: every text field and
      the budget verbatim, the schedule as the time value of its Date. */
  predicate Forwarded(body: JsValue, parse: DateParser, d: CharterData) {
    && Lookup(body, NomeProjeto) == Str(d.nomeProjeto)
    && Lookup(body, Objetivo) == Str(d.objetivo)
    && Lookup(body, Justificativa) == Str(d.justificativa)
    && Lookup(body, StakeholdersPrincipais) == Str(d.stakeholdersPrincipais)
    && Lookup(body, GerenteProjeto) == Str(d.gerenteProjeto)
    && Lookup(body, Premissas) == Str(d.premissas)
    && Lookup(body, Restricoes) == Str(d.restricoes)
    && Lookup(body, PrincipaisEntregas) == Str(d.principaisEntregas)
    && Lookup(body, OrcamentoEstimado) == Num(d.orcamentoEstimado)
    && (Lookup(body, CronogramaInicial).Str? || Lookup(body, CronogramaInicial).DateVal?)
    && NewDate(Lookup(body, CronogramaInicial), parse) == Some(d.cronogramaInicial)
  }

  /** Everything the handler does before the create call, with the throws
      that can happen on the way classified as its catch block does. Each
      failure is tied to the first guard that rejects the payload, so the
      guards' priority is part of the contract, and an accepted payload is
      forwarded unchanged but for its schedule. */
  function Validate(read: BodyRead, parse: DateParser): (r: Result<CharterData, Failure>)
    ensures r == Failure(InvalidJson) <==> read.SyntaxError?
    ensures r == Failure(CreateFailed) <==> read.ReadFailed? || (read.Parsed? && Nullish(read.value))
    ensures read.Parsed? && !Nullish(read.value) ==>
      var body := read.value;
      && (r == Failure(MissingFields) <==> !Present(body))
      && (r == Failure(InvalidDataTypes) <==> Present(body) && !WellTyped(body))
      && (r == Failure(InvalidDateFormat) <==>
            Present(body) && WellTyped(body) && NewDate(Lookup(body, CronogramaInicial), parse).None?)
      && (r.Success? <==>
            Present(body) && WellTyped(body) && NewDate(Lookup(body, CronogramaInicial), parse).Some?)
      && (r.Success? ==> Forwarded(body, parse, r.value))
  {
    match read
    case SyntaxError => Failure(InvalidJson)
    case ReadFailed => Failure(CreateFailed)
    case Parsed(body) =>
      match Destructure(body)
      case None => Failure(CreateFailed)
      case Some(f) => ValidateFields(f, parse)
  }
}
