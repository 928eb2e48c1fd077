/** `UsuarioInvestimentoService`: registering a user, replacing all of a
    user's investments, looking a user up and deleting a user, each as a
    transition of the store. */
module UsuarioService {
  import opened Wrappers
  import opened JavaText
  import opened Aggregate

  /** A daily yield built from its request. A date that is null or does not
      parse as `dd-MM-yyyy` is stored as null: the parse exception is caught. */
  function BuildDailyYield(dto: DailyYieldDto, parseDate: string -> Option<Date>): (y: DailyYield)
    ensures y.unitPrice == dto.unitPrice && y.rate == dto.rate && y.accumulated == dto.accumulated
    ensures y.date.Some? <==> dto.date.Some? && parseDate(dto.date.value).Some?
    ensures y.date.Some? ==> y.date == parseDate(dto.date.value)
  {
    var date := if dto.date.Some? then parseDate(dto.date.value) else None;
    DailyYield(date, dto.unitPrice, dto.rate, dto.accumulated)
  }

  /** The daily yields of a new investment: the mapped requests in order, or
      an empty list for a null or empty request list. */
  function BuildDailyYields(dtos: Option<seq<DailyYieldDto>>, parseDate: string -> Option<Date>): (ys: seq<DailyYield>)
    ensures dtos.None? ==> ys == []
    ensures dtos.Some? ==> |ys| == |dtos.value|
    ensures dtos.Some? ==> forall k :: 0 <= k < |ys| ==> ys[k] == BuildDailyYield(dtos.value[k], parseDate)
  {
    if dtos.None? || |dtos.value| == 0 then []
    else seq(|dtos.value|, k requires 0 <= k < |dtos.value| => BuildDailyYield(dtos.value[k], parseDate))
  }

  /** One new investment, linked to `owner` and given identity `id`. A null
      type throws NullPointerException; an unknown one is rethrown as a
      RuntimeException. */
  function BuildInvestment(dto: InvestmentDto, owner: string, id: nat, typeNames: set<string>,
                           parseDate: string -> Option<Date>): (r: Result<Investment, Exception>)
    ensures r.Success? <==> ParseType(typeNames, dto.kind).Parsed?
    ensures dto.kind.None? ==> r == Failure(NullPointer)
    ensures ParseType(typeNames, dto.kind).UnknownName? ==> r == Failure(InvalidInvestmentType(dto.kind.value))
    ensures r.Success? ==>
      && r.value.id == id && r.value.owner == owner
      && r.value.kind == Some(ParseType(typeNames, dto.kind).name)
      && r.value.bankName == dto.bankName && r.value.bankCode == None
      && r.value.name == dto.name && r.value.initialAmount == dto.initialAmount
      && r.value.initialUnitPrice == dto.initialUnitPrice && r.value.rate == dto.rate
      && r.value.initialUnits == dto.initialUnits
      && r.value.dailyYields == Some(BuildDailyYields(dto.dailyYields, parseDate))
  {
    match ParseType(typeNames, dto.kind)
    case NullName => Failure(NullPointer)
    case UnknownName => Failure(InvalidInvestmentType(dto.kind.value))
    case Parsed(t) =>
      Success(Investment(id, owner, dto.bankName, None, Some(t), dto.name, dto.initialAmount,
                         dto.initialUnitPrice, dto.rate, dto.initialUnits,
                         Some(BuildDailyYields(dto.dailyYields, parseDate))))
  }

  /** The stream over the request list: builds in order, the first failure
      aborts the whole list. The k-th investment gets identity `firstId + k`. */
  function BuildInvestments(dtos: seq<InvestmentDto>, owner: string, firstId: nat, typeNames: set<string>,
                            parseDate: string -> Option<Date>): (r: Result<seq<Investment>, Exception>)
    ensures r.Success? <==> forall k :: 0 <= k < |dtos| ==> ParseType(typeNames, dtos[k].kind).Parsed?
    ensures r.Success? ==> |r.value| == |dtos|
    ensures r.Success? ==> forall k :: 0 <= k < |dtos| ==>
      BuildInvestment(dtos[k], owner, firstId + k, typeNames, parseDate) == Success(r.value[k])
    ensures r.Failure? ==> exists k :: (
      && 0 <= k < |dtos|
      && BuildInvestment(dtos[k], owner, firstId + k, typeNames, parseDate) == Failure(r.error)
      && forall j :: 0 <= j < k ==> BuildInvestment(dtos[j], owner, firstId + j, typeNames, parseDate).Success?)
    decreases |dtos|
  {
    if dtos == [] then Success([])
    else match BuildInvestment(dtos[0], owner, firstId, typeNames, parseDate)
      case Failure(e) => Failure(e)
      case Success(inv) =>
        match BuildInvestments(dtos[1..], owner, firstId + 1, typeNames, parseDate)
        case Failure(e) => Failure(e)
        case Success(rest) => Success([inv] + rest)
  }

  /** `criarUsuarioInvestimento`: a blank CPF or one already registered is
      rejected with no change; otherwise exactly one user, with no
      investments, is added under the CPF exactly as given (it is not
      validated as a CPF). */
  function CriarUsuarioInvestimento(s: Store, cpf: Option<string>): (r: Step<()>)
    ensures r.outcome == BadRequest(CpfRequired) <==> cpf.None? || IsBlank(cpf.value)
    ensures r.outcome == BadRequest(CpfAlreadyRegistered) <==> cpf.Some? && !IsBlank(cpf.value) && cpf.value in s.users
    ensures !r.outcome.Ok? ==> r.store == s
    ensures r.outcome.Ok? <==> r.outcome != BadRequest(CpfRequired) && cpf.value !in s.users
    ensures r.outcome.Ok? ==>
      && r.store.users.Keys == s.users.Keys + {cpf.value}
      && r.store.users[cpf.value] == User([])
      && (forall c :: c in s.users ==> r.store.users[c] == s.users[c])
      && r.store.nextId == s.nextId
  {
    if cpf.None? || |Trim(cpf.value)| == 0 then
      TrimEmptyIffBlank(if cpf.None? then [] else cpf.value);
      Step(BadRequest(CpfRequired), s)
    else if cpf.value in s.users then
      TrimEmptyIffBlank(cpf.value);
      Step(BadRequest(CpfAlreadyRegistered), s)
    else
      TrimEmptyIffBlank(cpf.value);
      Step(Ok(()), Store(s.users[cpf.value := User([])], s.nextId))
  }

  /** `salvarInvestimentos`: replaces ALL of a user's investments by the ones
      built from the request. Rejects a blank CPF, an unknown user and a null or
      empty list without change; an unknown or null type throws and the
      transaction leaves the store unchanged. */
  function SalvarInvestimentos(s: Store, dto: UserInvestmentsDto, typeNames: set<string>,
                               parseDate: string -> Option<Date>): (r: Step<()>)
    ensures dto.cpf.None? || IsBlank(dto.cpf.value) <==> r.outcome == BadRequest(CpfRequired)
    ensures r.outcome.BadRequest? && r.outcome.reason.UserNotFound? <==>
            r.outcome != BadRequest(CpfRequired) && dto.cpf.value !in s.users
    ensures r.outcome == BadRequest(EmptyInvestmentList) <==>
            r.outcome != BadRequest(CpfRequired) && dto.cpf.value in s.users
            && (dto.investments.None? || |dto.investments.value| == 0)
    ensures r.outcome.Thrown? <==>
      && dto.cpf.Some? && !IsBlank(dto.cpf.value) && dto.cpf.value in s.users
      && dto.investments.Some? && |dto.investments.value| > 0
      && BuildInvestments(dto.investments.value, dto.cpf.value, s.nextId, typeNames, parseDate).Failure?
    ensures r.outcome.Thrown? ==>
      r.outcome.exception == BuildInvestments(dto.investments.value, dto.cpf.value, s.nextId, typeNames, parseDate).error
    ensures !r.outcome.Ok? ==> r.store == s
    ensures r.outcome.Ok? ==>
      && var c := dto.cpf.value;
      && var built := BuildInvestments(dto.investments.value, c, s.nextId, typeNames, parseDate);
      && built.Success?
      && r.store.users.Keys == s.users.Keys
      && r.store.users[c] == User(built.value)
      && (forall c' :: c' in s.users && c' != c ==> r.store.users[c'] == s.users[c'])
      && r.store.nextId == s.nextId + |dto.investments.value|
  {
    var cpf := dto.cpf;
    if cpf.Some? then TrimEmptyIffBlank(cpf.value); ValidateThenReplace(s, dto, typeNames, parseDate)
    else ValidateThenReplace(s, dto, typeNames, parseDate)
  }

  /** The checks of `salvarInvestimentos` in source order, with the blank
      test as written (`trim().isEmpty()`), then the replacement. */
  function ValidateThenReplace(s: Store, dto: UserInvestmentsDto, typeNames: set<string>,
                               parseDate: string -> Option<Date>): (r: Step<()>)
    ensures r.outcome == BadRequest(CpfRequired) <==> dto.cpf.None? || |Trim(dto.cpf.value)| == 0
    ensures r.outcome.BadRequest? && r.outcome.reason.UserNotFound? <==>
            r.outcome != BadRequest(CpfRequired) && dto.cpf.value !in s.users
    ensures r.outcome == BadRequest(EmptyInvestmentList) <==>
            r.outcome != BadRequest(CpfRequired) && dto.cpf.value in s.users
            && (dto.investments.None? || |dto.investments.value| == 0)
    ensures r.outcome.Thrown? <==>
      && dto.cpf.Some? && |Trim(dto.cpf.value)| != 0 && dto.cpf.value in s.users
      && dto.investments.Some? && |dto.investments.value| > 0
      && BuildInvestments(dto.investments.value, dto.cpf.value, s.nextId, typeNames, parseDate).Failure?
    ensures r.outcome.Thrown? ==>
      r.outcome.exception == BuildInvestments(dto.investments.value, dto.cpf.value, s.nextId, typeNames, parseDate).error
    ensures !r.outcome.Ok? ==> r.store == s
    ensures r.outcome.Ok? ==>
      && dto.cpf.Some? && dto.cpf.value in s.users && dto.investments.Some?
      && r == ReplaceAll(s, dto.cpf.value, dto.investments.value, typeNames, parseDate)
  {
    var cpf := dto.cpf;
    if cpf.None? || |Trim(cpf.value)| == 0 then Step(BadRequest(CpfRequired), s)
    else if cpf.value !in s.users then Step(BadRequest(UserNotFound(cpf.value)), s)
    else if dto.investments.None? || |dto.investments.value| == 0 then Step(BadRequest(EmptyInvestmentList), s)
    else ReplaceAll(s, cpf.value, dto.investments.value, typeNames, parseDate)
  }

  /** Builds the list and, if every investment builds, makes it the whole
      list of user `c`; a failure is thrown and the store is unchanged. */
  function ReplaceAll(s: Store, c: string, dtos: seq<InvestmentDto>, typeNames: set<string>,
                      parseDate: string -> Option<Date>): (r: Step<()>)
    requires c in s.users
    ensures var built := BuildInvestments(dtos, c, s.nextId, typeNames, parseDate);
      && (r.outcome.Ok? || r.outcome.Thrown?)
      && (r.outcome.Ok? <==> built.Success?)
      && (r.outcome.Thrown? ==> r.outcome.exception == built.error)
      && (!r.outcome.Ok? ==> r.store == s)
      && (r.outcome.Ok? ==>
            && r.store.users.Keys == s.users.Keys
            && r.store.users[c] == User(built.value)
            && (forall c' :: c' in s.users && c' != c ==> r.store.users[c'] == s.users[c'])
            && r.store.nextId == s.nextId + |dtos|)
  {
    match BuildInvestments(dtos, c, s.nextId, typeNames, parseDate)
    case Failure(e) => Step(Thrown(e), s)
    case Success(invs) => Step(Ok(()), Store(s.users[c := User(invs)], s.nextId + |invs|))
  }

  /** `buscarPorCpf`: the user registered under exactly this CPF, or not found. */
  function BuscarPorCpf(s: Store, cpf: string): (r: Outcome<User>)
    ensures r.Ok? <==> cpf in s.users
    ensures r.Ok? ==> r.value == s.users[cpf]
    ensures !r.Ok? ==> r == NotFound
  {
    if cpf in s.users then Ok(s.users[cpf]) else NotFound
  }

  /** `deletarPorCpf`: an unknown CPF is not found and changes nothing;
      otherwise the user and, by cascade, every investment it owns are
      removed, and every other user is untouched. */
  function DeletarPorCpf(s: Store, cpf: string): (r: Step<()>)
    ensures r.outcome.Ok? <==> cpf in s.users
    ensures !r.outcome.Ok? ==> r == Step(NotFound, s)
    ensures r.outcome.Ok? ==>
      && r.store.users.Keys == s.users.Keys - {cpf}
      && (forall c :: c in r.store.users ==> r.store.users[c] == s.users[c])
      && r.store.nextId == s.nextId
  {
    if cpf !in s.users then Step(NotFound, s)
    else Step(Ok(()), Store(s.users - {cpf}, s.nextId))
  }
}
