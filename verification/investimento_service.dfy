/** `InvestimentoService`: appending investments to a user, listing a user's
    investments, deleting one investment and updating one investment in place,
    each as a transition of the store. */
module InvestimentoService {
  import opened Wrappers
  import opened Aggregate

  /** A daily yield built from its request. Unlike the user service, the date
      is parsed without a safety net: null throws NullPointerException and
      text that is not `dd-MM-yyyy` throws DateTimeParseException. */
  function BuildDailyYield(dto: DailyYieldDto, parseDate: string -> Option<Date>): (r: Result<DailyYield, Exception>)
    ensures dto.date.None? ==> r == Failure(NullPointer)
    ensures dto.date.Some? && parseDate(dto.date.value).None? ==> r == Failure(DateTimeParse)
    ensures r.Success? <==> dto.date.Some? && parseDate(dto.date.value).Some?
    ensures r.Success? ==>
      && r.value.date == parseDate(dto.date.value)
      && r.value.unitPrice == dto.unitPrice && r.value.rate == dto.rate && r.value.accumulated == dto.accumulated
  {
    match dto.date
    case None => Failure(NullPointer)
    case Some(text) =>
      match parseDate(text)
      case None => Failure(DateTimeParse)
      case Some(d) => Success(DailyYield(Some(d), dto.unitPrice, dto.rate, dto.accumulated))
  }

  /** The yields of a request list in order; the first bad date aborts. */
  function BuildDailyYields(dtos: seq<DailyYieldDto>, parseDate: string -> Option<Date>): (r: Result<seq<DailyYield>, Exception>)
    ensures r.Success? <==> forall k :: 0 <= k < |dtos| ==> BuildDailyYield(dtos[k], parseDate).Success?
    ensures r.Success? ==> |r.value| == |dtos|
    ensures r.Success? ==> forall k :: 0 <= k < |dtos| ==> BuildDailyYield(dtos[k], parseDate) == Success(r.value[k])
    ensures r.Failure? ==> exists k :: (
      && 0 <= k < |dtos|
      && BuildDailyYield(dtos[k], parseDate) == Failure(r.error)
      && forall j :: 0 <= j < k ==> BuildDailyYield(dtos[j], parseDate).Success?)
    decreases |dtos|
  {
    if dtos == [] then Success([])
    else match BuildDailyYield(dtos[0], parseDate)
      case Failure(e) => Failure(e)
      case Success(y) =>
        match BuildDailyYields(dtos[1..], parseDate)
        case Failure(e) => Failure(e)
        case Success(rest) => Success([y] + rest)
  }

  /** Every date of the request is present and parses. */
  predicate DatesParse(dtos: Option<seq<DailyYieldDto>>, parseDate: string -> Option<Date>) {
    dtos.Some? ==> forall k :: 0 <= k < |dtos.value| ==>
      dtos.value[k].date.Some? && parseDate(dtos.value[k].date.value).Some?
  }

  /** The request's type is known and every one of its dates parses. */
  predicate Buildable(dto: InvestmentDto, typeNames: set<string>, parseDate: string -> Option<Date>) {
    ParseType(typeNames, dto.kind).Parsed? && DatesParse(dto.dailyYields, parseDate)
  }

  /** One new investment for `owner` with identity `id`. The type is parsed
      first (null throws NullPointerException, unknown a RuntimeException),
      then the yields; a null or empty yield list leaves the field null. */
  function BuildInvestment(dto: InvestmentDto, owner: string, id: nat, typeNames: set<string>,
                           parseDate: string -> Option<Date>): (r: Result<Investment, Exception>)
    ensures r.Success? <==> Buildable(dto, typeNames, parseDate)
    ensures dto.kind.None? ==> r == Failure(NullPointer)
    ensures ParseType(typeNames, dto.kind).UnknownName? ==> r == Failure(InvalidInvestmentType(dto.kind.value))
    ensures ParseType(typeNames, dto.kind).Parsed? && !DatesParse(dto.dailyYields, parseDate) ==>
      dto.dailyYields.Some? && r == Failure(BuildDailyYields(dto.dailyYields.value, parseDate).error)
    ensures r.Success? ==>
      && r.value.id == id && r.value.owner == owner
      && r.value.kind == Some(ParseType(typeNames, dto.kind).name)
      && r.value.bankName == dto.bankName && r.value.bankCode == None
      && r.value.name == dto.name && r.value.initialAmount == dto.initialAmount
      && r.value.initialUnitPrice == dto.initialUnitPrice && r.value.rate == dto.rate
      && r.value.initialUnits == dto.initialUnits
      && (r.value.dailyYields.None? <==> dto.dailyYields.None? || |dto.dailyYields.value| == 0)
      && (r.value.dailyYields.Some? ==> Success(r.value.dailyYields.value) == BuildDailyYields(dto.dailyYields.value, parseDate))
  {
    match ParseType(typeNames, dto.kind)
    case NullName => Failure(NullPointer)
    case UnknownName => Failure(InvalidInvestmentType(dto.kind.value))
    case Parsed(t) =>
      var inv := Investment(id, owner, dto.bankName, None, Some(t), dto.name, dto.initialAmount,
                            dto.initialUnitPrice, dto.rate, dto.initialUnits, None);
      if dto.dailyYields.None? || |dto.dailyYields.value| == 0 then Success(inv)
      else match BuildDailyYields(dto.dailyYields.value, parseDate)
        case Failure(e) => Failure(e)
        case Success(ys) => Success(inv.(dailyYields := Some(ys)))
  }

  /** The stream over the request list: the k-th investment gets identity
      `firstId + k`; the first failure aborts. */
  function BuildInvestments(dtos: seq<InvestmentDto>, owner: string, firstId: nat, typeNames: set<string>,
                            parseDate: string -> Option<Date>): (r: Result<seq<Investment>, Exception>)
    ensures r.Success? <==> forall k :: 0 <= k < |dtos| ==> Buildable(dtos[k], typeNames, parseDate)
    ensures r.Success? ==> |r.value| == |dtos|
    ensures r.Success? ==> forall k :: 0 <= k < |dtos| ==>
      BuildInvestment(dtos[k], owner, firstId + k, typeNames, parseDate) == Success(r.value[k])
    ensures r.Failure? ==> exists k :: (
      && 0 <= k < |dtos|
      && BuildInvestment(dtos[k], owner, firstId + k, typeNames, parseDate) == Failure(r.error)
      && forall j :: 0 <= j < k ==> BuildInvestment(dtos[j], owner, firstId + j, typeNames, parseDate).Success?)
    decreases |dtos|
  {
    if dtos == [] then Success([])
    else match BuildInvestment(dtos[0], owner, firstId, typeNames, parseDate)
      case Failure(e) => Failure(e)
      case Success(inv) =>
        match BuildInvestments(dtos[1..], owner, firstId + 1, typeNames, parseDate)
        case Failure(e) => Failure(e)
        case Success(rest) => Success([inv] + rest)
  }

  /** `salvarInvestimentos`: APPENDS the built investments to the user's
      existing ones. Rejects a null or empty CPF (it is not trimmed), an
      unknown user and a null or empty list without change; a bad type or date
      throws and the store is left unchanged. */
  function SalvarInvestimentos(s: Store, dto: UserInvestmentsDto, typeNames: set<string>,
                               parseDate: string -> Option<Date>): (r: Step<()>)
    ensures r.outcome == BadRequest(CpfRequired) <==> dto.cpf.None? || |dto.cpf.value| == 0
    ensures r.outcome.BadRequest? && r.outcome.reason.UserNotFound? <==>
            r.outcome != BadRequest(CpfRequired) && dto.cpf.value !in s.users
    ensures r.outcome == BadRequest(EmptyInvestmentList) <==>
            r.outcome != BadRequest(CpfRequired) && dto.cpf.value in s.users
            && (dto.investments.None? || |dto.investments.value| == 0)
    ensures r.outcome.Thrown? <==>
      && dto.cpf.Some? && |dto.cpf.value| > 0 && dto.cpf.value in s.users
      && dto.investments.Some? && |dto.investments.value| > 0
      && BuildInvestments(dto.investments.value, dto.cpf.value, s.nextId, typeNames, parseDate).Failure?
    ensures r.outcome.Thrown? ==>
      r.outcome.exception == BuildInvestments(dto.investments.value, dto.cpf.value, s.nextId, typeNames, parseDate).error
    ensures !r.outcome.Ok? ==> r.store == s
    ensures r.outcome.Ok? ==>
      && var c := dto.cpf.value;
      && var built := BuildInvestments(dto.investments.value, c, s.nextId, typeNames, parseDate);
      && built.Success?
      && r.store.users.Keys == s.users.Keys
      && r.store.users[c].investments == s.users[c].investments + built.value
      && (forall c' :: c' in s.users && c' != c ==> r.store.users[c'] == s.users[c'])
      && r.store.nextId == s.nextId + |dto.investments.value|
  {
    var cpf := dto.cpf;
    if cpf.None? || |cpf.value| == 0 then Step(BadRequest(CpfRequired), s)
    else if cpf.value !in s.users then Step(BadRequest(UserNotFound(cpf.value)), s)
    else if dto.investments.None? || |dto.investments.value| == 0 then Step(BadRequest(EmptyInvestmentList), s)
    else
      var c := cpf.value;
      match BuildInvestments(dto.investments.value, c, s.nextId, typeNames, parseDate)
      case Failure(e) => Step(Thrown(e), s)
      case Success(invs) =>
        Step(Ok(()), Store(s.users[c := User(s.users[c].investments + invs)], s.nextId + |invs|))
  }

  /** `criarInvestimento` delegates to `salvarInvestimentos`. */
  function CriarInvestimento(s: Store, dto: UserInvestmentsDto, typeNames: set<string>,
                             parseDate: string -> Option<Date>): (r: Step<()>)
    ensures r == SalvarInvestimentos(s, dto, typeNames, parseDate)
  {
    SalvarInvestimentos(s, dto, typeNames, parseDate)
  }

  /** `listarPorCpf`: not found for an unknown CPF, otherwise the user's
      investments. */
  function ListarPorCpf(s: Store, cpf: string): (r: Outcome<seq<Investment>>)
    ensures r.Ok? <==> cpf in s.users
    ensures !r.Ok? ==> r == NotFound
    ensures r.Ok? ==> r.value == s.users[cpf].investments
  {
    if cpf in s.users then Ok(s.users[cpf].investments) else NotFound
  }

  /** `deletarPorId`: not found (and no change) when no investment has the id;
      otherwise the investment with that id is removed wherever it is listed. */
  function DeletarPorId(s: Store, id: nat): (r: Step<()>)
    ensures r.outcome.Ok? <==> HasInvestment(s, id)
    ensures !r.outcome.Ok? ==> r == Step(NotFound, s)
    ensures r.outcome.Ok? ==>
      && r.store.users.Keys == s.users.Keys
      && r.store.nextId == s.nextId
      && !HasInvestment(r.store, id)
      && forall c, x :: c in s.users && x in s.users[c].investments && x.id != id ==> x in r.store.users[c].investments
  {
    if !HasInvestment(s, id) then Step(NotFound, s)
    else Step(Ok(()), Store(map c | c in s.users :: User(RemoveId(s.users[c].investments, id)), s.nextId))
  }

  /** The yields an update installs: the mapped request list, or an empty list
      when the request has none. */
  function UpdatedDailyYields(dtos: Option<seq<DailyYieldDto>>, parseDate: string -> Option<Date>): (r: Result<seq<DailyYield>, Exception>)
    ensures dtos.None? ==> r == Success([])
    ensures r.Success? <==> DatesParse(dtos, parseDate)
    ensures r.Success? && dtos.Some? ==>
      && |r.value| == |dtos.value|
      && forall k :: 0 <= k < |dtos.value| ==> BuildDailyYield(dtos.value[k], parseDate) == Success(r.value[k])
    ensures r.Failure? ==> dtos.Some? && exists k :: (
      && 0 <= k < |dtos.value|
      && BuildDailyYield(dtos.value[k], parseDate) == Failure(r.error)
      && forall j :: 0 <= j < k ==> BuildDailyYield(dtos.value[j], parseDate).Success?)
  {
    if dtos.None? then Success([]) else BuildDailyYields(dtos.value, parseDate)
  }

  /** The fields `atualizarInvestimento` overwrites; identity, owner and bank
      code are kept. */
  function Overwrite(inv: Investment, kind: string, dto: InvestmentDto, ys: seq<DailyYield>): (r: Investment)
    ensures r.id == inv.id && r.owner == inv.owner && r.bankCode == inv.bankCode
    ensures r.kind == Some(kind) && r.name == dto.name && r.bankName == dto.bankName
    ensures r.initialAmount == dto.initialAmount && r.initialUnitPrice == dto.initialUnitPrice
    ensures r.rate == dto.rate && r.initialUnits == dto.initialUnits
    ensures r.dailyYields == Some(ys)
  {
    inv.(kind := Some(kind), name := dto.name, initialAmount := dto.initialAmount,
         initialUnitPrice := dto.initialUnitPrice, rate := dto.rate, initialUnits := dto.initialUnits,
         bankName := dto.bankName, dailyYields := Some(ys))
  }

  function UpdateIn(invs: seq<Investment>, id: nat, kind: string, dto: InvestmentDto, ys: seq<DailyYield>): (r: seq<Investment>)
    ensures |r| == |invs|
    ensures forall k :: 0 <= k < |invs| && invs[k].id != id ==> r[k] == invs[k]
    ensures forall k :: 0 <= k < |invs| && invs[k].id == id ==> r[k] == Overwrite(invs[k], kind, dto, ys)
  {
    seq(|invs|, k requires 0 <= k < |invs| => if invs[k].id == id then Overwrite(invs[k], kind, dto, ys) else invs[k])
  }

  /** `atualizarInvestimento`: a missing id throws (it is not a not-found
      answer); a null type throws; an unknown type is a bad request; a null or
      malformed date throws. Each of those leaves the store unchanged. On
      success the investment's fields are overwritten and its yields cleared
      and refilled from the request. */
  function AtualizarInvestimento(s: Store, id: nat, dto: InvestmentDto, typeNames: set<string>,
                                 parseDate: string -> Option<Date>): (r: Step<()>)
    ensures !HasInvestment(s, id) ==> r == Step(Thrown(InvestmentNotFound), s)
    ensures HasInvestment(s, id) && dto.kind.None? ==> r == Step(Thrown(NullPointer), s)
    ensures HasInvestment(s, id) && ParseType(typeNames, dto.kind).UnknownName? ==>
            r == Step(BadRequest(UnknownInvestmentType(dto.kind.value)), s)
    ensures HasInvestment(s, id) && ParseType(typeNames, dto.kind).Parsed? && !DatesParse(dto.dailyYields, parseDate) ==>
            r == Step(Thrown(UpdatedDailyYields(dto.dailyYields, parseDate).error), s)
    ensures !r.outcome.Ok? ==> r.store == s
    ensures r.outcome.Ok? <==> HasInvestment(s, id) && ParseType(typeNames, dto.kind).Parsed?
                               && DatesParse(dto.dailyYields, parseDate)
    ensures r.outcome.Ok? ==>
      && var ys := UpdatedDailyYields(dto.dailyYields, parseDate).value;
      && var t := ParseType(typeNames, dto.kind).name;
      && r.store.users.Keys == s.users.Keys
      && r.store.nextId == s.nextId
      && forall c :: c in s.users ==> r.store.users[c].investments == UpdateIn(s.users[c].investments, id, t, dto, ys)
  {
    if !HasInvestment(s, id) then Step(Thrown(InvestmentNotFound), s)
    else match ParseType(typeNames, dto.kind)
      case NullName => Step(Thrown(NullPointer), s)
      case UnknownName => Step(BadRequest(UnknownInvestmentType(dto.kind.value)), s)
      case Parsed(t) =>
        match UpdatedDailyYields(dto.dailyYields, parseDate)
        case Failure(e) => Step(Thrown(e), s)
        case Success(ys) =>
          Step(Ok(()), Store(map c | c in s.users :: User(UpdateIn(s.users[c].investments, id, t, dto, ys)), s.nextId))
  }
}
