/** How the two services differ on the same request, and a round through
    both of them, each stated for every store or for one concrete request. */
module ServiceContrast {
  import opened Wrappers
  import opened Aggregate
  import Cpf
  import JavaText
  import U = UsuarioService
  import I = InvestimentoService
  import UP = UsuarioProperties
  import IP = InvestimentoProperties

  /** Replace-all against append: on the same store and request, the user
      service leaves the user with the new investments only, the investment
      service with the old ones followed by the new ones. */
  lemma ReplaceVersusAppend(s: Store, dto: UserInvestmentsDto, typeNames: set<string>,
                            parseDate: string -> Option<Date>)
    requires U.SalvarInvestimentos(s, dto, typeNames, parseDate).outcome.Ok?
    requires I.SalvarInvestimentos(s, dto, typeNames, parseDate).outcome.Ok?
    ensures var before := s.users[dto.cpf.value].investments;
      && |U.SalvarInvestimentos(s, dto, typeNames, parseDate).store.users[dto.cpf.value].investments|
         == |dto.investments.value|
      && |I.SalvarInvestimentos(s, dto, typeNames, parseDate).store.users[dto.cpf.value].investments|
         == |before| + |dto.investments.value|
  {
    UP.SalvarOkStore(s, dto, typeNames, parseDate);
    IP.SalvarOkStore(s, dto, typeNames, parseDate);
  }

  /** With every type known and every date present, one date that does not
      parse is stored as null by the user service, but makes the investment
      service throw DateTimeParseException, answered with 400, and leave the
      store unchanged. */
  lemma MalformedDateContrast(s: Store, dto: UserInvestmentsDto, typeNames: set<string>,
                              parseDate: string -> Option<Date>, k: nat, j: nat)
    requires dto.cpf.Some? && |dto.cpf.value| > 0 && dto.cpf.value[0] > ' ' && dto.cpf.value in s.users
    requires dto.investments.Some? && k < |dto.investments.value|
    requires forall m :: 0 <= m < |dto.investments.value| ==> ParseType(typeNames, dto.investments.value[m].kind).Parsed?
    requires forall m :: 0 <= m < |dto.investments.value| ==> AllDatesPresent(dto.investments.value[m].dailyYields)
    requires dto.investments.value[k].dailyYields.Some? && j < |dto.investments.value[k].dailyYields.value|
    requires dto.investments.value[k].dailyYields.value[j].date.Some?
    requires parseDate(dto.investments.value[k].dailyYields.value[j].date.value).None?
    ensures U.SalvarInvestimentos(s, dto, typeNames, parseDate).outcome.Ok?
    ensures U.SalvarInvestimentos(s, dto, typeNames, parseDate).store.users[dto.cpf.value]
              .investments[k].dailyYields.value[j].date.None?
    ensures I.SalvarInvestimentos(s, dto, typeNames, parseDate) == Step(Thrown(DateTimeParse), s)
    ensures HttpStatus(I.SalvarInvestimentos(s, dto, typeNames, parseDate).outcome) == 400
  {
    UP.SalvarSucceedsIffTypesParse(s, dto, typeNames, parseDate);
    UP.SalvarStoresUnparsedDatesAsNull(s, dto, typeNames, parseDate, k, j);
    InvestimentoRejectsMalformedDate(s, dto, typeNames, parseDate, k, j);
  }

  /** The investment-service half: the first failing investment can only
      have failed on a date that does not parse. */
  lemma InvestimentoRejectsMalformedDate(s: Store, dto: UserInvestmentsDto, typeNames: set<string>,
                                         parseDate: string -> Option<Date>, k: nat, j: nat)
    requires dto.cpf.Some? && |dto.cpf.value| > 0 && dto.cpf.value in s.users
    requires dto.investments.Some? && k < |dto.investments.value|
    requires forall m :: 0 <= m < |dto.investments.value| ==> ParseType(typeNames, dto.investments.value[m].kind).Parsed?
    requires forall m :: 0 <= m < |dto.investments.value| ==> AllDatesPresent(dto.investments.value[m].dailyYields)
    requires dto.investments.value[k].dailyYields.Some? && j < |dto.investments.value[k].dailyYields.value|
    requires dto.investments.value[k].dailyYields.value[j].date.Some?
    requires parseDate(dto.investments.value[k].dailyYields.value[j].date.value).None?
    ensures I.SalvarInvestimentos(s, dto, typeNames, parseDate) == Step(Thrown(DateTimeParse), s)
  {
    var c := dto.cpf.value;
    assert !I.DatesParse(dto.investments.value[k].dailyYields, parseDate);
    BuildInvestmentsErrorIsDateParse(dto.investments.value, c, s.nextId, typeNames, parseDate);
  }

  /** A yield whose date is present but malformed, placed before every yield
      with a null date, makes the append throw the date-parse failure (400),
      not the NullPointerException of the later null date. */
  lemma MalformedBeforeNullDate(s: Store, cpf: string, inv: InvestmentDto, typeNames: set<string>,
                                parseDate: string -> Option<Date>, bad: DailyYieldDto, later: seq<DailyYieldDto>)
    requires cpf in s.users && |cpf| > 0
    requires ParseType(typeNames, inv.kind).Parsed?
    requires bad.date.Some? && parseDate(bad.date.value).None?
    requires inv.dailyYields == Some([bad] + later)
    ensures var r := I.SalvarInvestimentos(s, UserInvestmentsDto(Some(cpf), Some([inv])), typeNames, parseDate);
      r == Step(Thrown(DateTimeParse), s) && HttpStatus(r.outcome) == 400
  {
    var ys := [bad] + later;
    assert ys[0] == bad;
    assert I.BuildDailyYields(ys, parseDate) == Failure(DateTimeParse);
    assert I.BuildInvestment(inv, cpf, s.nextId, typeNames, parseDate) == Failure(DateTimeParse);
    assert [inv][0] == inv;
  }

  /** Over a list whose types all parse and whose dates are all present, a
      failure of the stream is a date-parse failure. */
  lemma BuildInvestmentsErrorIsDateParse(dtos: seq<InvestmentDto>, owner: string, firstId: nat,
                                         typeNames: set<string>, parseDate: string -> Option<Date>)
    requires forall m :: 0 <= m < |dtos| ==> ParseType(typeNames, dtos[m].kind).Parsed?
    requires forall m :: 0 <= m < |dtos| ==> AllDatesPresent(dtos[m].dailyYields)
    ensures var built := I.BuildInvestments(dtos, owner, firstId, typeNames, parseDate);
      built.Failure? ==> built.error == DateTimeParse
  {
    var built := I.BuildInvestments(dtos, owner, firstId, typeNames, parseDate);
    if built.Failure? {
      var m :| 0 <= m < |dtos| && I.BuildInvestment(dtos[m], owner, firstId + m, typeNames, parseDate) == Failure(built.error);
      BuildInvestmentErrorIsDateParse(dtos[m], owner, firstId + m, typeNames, parseDate);
    }
  }

  /** No yield request of the list has a null date. */
  predicate AllDatesPresent(dtos: Option<seq<DailyYieldDto>>) {
    dtos.Some? ==> forall j :: 0 <= j < |dtos.value| ==> dtos.value[j].date.Some?
  }

  /** An investment whose type parses and whose dates are all present can
      only fail on a date that does not parse. */
  lemma BuildInvestmentErrorIsDateParse(dto: InvestmentDto, owner: string, id: nat, typeNames: set<string>,
                                        parseDate: string -> Option<Date>)
    requires ParseType(typeNames, dto.kind).Parsed? && AllDatesPresent(dto.dailyYields)
    requires I.BuildInvestment(dto, owner, id, typeNames, parseDate).Failure?
    ensures I.BuildInvestment(dto, owner, id, typeNames, parseDate).error == DateTimeParse
  {
    var ys := I.BuildDailyYields(dto.dailyYields.value, parseDate);
    var j :| 0 <= j < |dto.dailyYields.value| && I.BuildDailyYield(dto.dailyYields.value[j], parseDate) == Failure(ys.error);
  }

  /** A missing id: deleting answers 404, updating throws and answers 500. */
  lemma MissingIdStatuses(s: Store, id: nat, dto: InvestmentDto, typeNames: set<string>,
                          parseDate: string -> Option<Date>)
    requires !HasInvestment(s, id)
    ensures HttpStatus(I.DeletarPorId(s, id).outcome) == 404
    ensures HttpStatus(I.AtualizarInvestimento(s, id, dto, typeNames, parseDate).outcome) == 500
  {
  }

  /** An unknown investment type leading a request: both saves throw the
      RuntimeException for it, answered 500, while an update with the same
      request answers 400. No call changes the store. */
  lemma UnknownTypeStatuses(s: Store, cpf: string, dto: InvestmentDto, rest: seq<InvestmentDto>, id: nat,
                            typeNames: set<string>, parseDate: string -> Option<Date>)
    requires cpf in s.users && !JavaText.IsBlank(cpf)
    requires ParseType(typeNames, dto.kind).UnknownName?
    requires HasInvestment(s, id)
    ensures var req := UserInvestmentsDto(Some(cpf), Some([dto] + rest));
      var saved := U.SalvarInvestimentos(s, req, typeNames, parseDate);
      var appended := I.SalvarInvestimentos(s, req, typeNames, parseDate);
      var updated := I.AtualizarInvestimento(s, id, dto, typeNames, parseDate);
      && saved == Step(Thrown(InvalidInvestmentType(dto.kind.value)), s)
      && appended == Step(Thrown(InvalidInvestmentType(dto.kind.value)), s)
      && updated == Step(BadRequest(UnknownInvestmentType(dto.kind.value)), s)
      && HttpStatus(saved.outcome) == 500 && HttpStatus(appended.outcome) == 500
      && HttpStatus(updated.outcome) == 400
  {
    var dtos := [dto] + rest;
    assert dtos[0] == dto;
    assert U.BuildInvestment(dto, cpf, s.nextId, typeNames, parseDate) == Failure(InvalidInvestmentType(dto.kind.value));
    assert I.BuildInvestment(dto, cpf, s.nextId, typeNames, parseDate) == Failure(InvalidInvestmentType(dto.kind.value));
  }

  /** Registering a user does not validate the CPF: "123" is registered
      although it is not a valid CPF. */
  lemma CriarAcceptsInvalidCpf(s: Store)
    requires "123" !in s.users
    ensures U.CriarUsuarioInvestimento(s, Some("123")).outcome.Ok?
    ensures Cpf.Create(Some("123")).Failure?
  {
    assert "123"[0] > ' ';
  }

  const ValidCpf: string := "52998224725"

  /** A request with one investment of type "cdb" and one yield dated
      "01-01-2024". */
  function OneInvestmentRequest(cpf: string): (dto: UserInvestmentsDto)
    ensures dto.cpf == Some(cpf) && dto.investments.Some? && |dto.investments.value| == 1
  {
    var y := DailyYieldDto(Some("01-01-2024"), Some("10.0"), Some("0.01"), Some("0.01"));
    var d := InvestmentDto(Some("Nubank"), Some("cdb"), Some("CDB 110%"), Some("1000"), Some("10.0"),
                           Some("1.1"), Some("100"), Some([y]));
    UserInvestmentsDto(Some(cpf), Some([d]))
  }

  /** Registering a valid CPF in an empty store, appending one investment
      with one yield to it, and listing it: the listing holds exactly that
      investment, of type "CDB", owned by the CPF, with one yield. */
  lemma RegisterSaveList(typeNames: set<string>, parseDate: string -> Option<Date>)
    requires "CDB" in typeNames && parseDate("01-01-2024").Some?
    ensures var s0 := Store(map[], 0);
      var s1 := U.CriarUsuarioInvestimento(s0, Some(ValidCpf));
      var s2 := I.SalvarInvestimentos(s1.store, OneInvestmentRequest(ValidCpf), typeNames, parseDate);
      var listed := I.ListarPorCpf(s2.store, ValidCpf);
      && s1.outcome.Ok? && s2.outcome.Ok? && listed.Ok?
      && |listed.value| == 1
      && listed.value[0].owner == ValidCpf && listed.value[0].id == 0
      && listed.value[0].kind == Some("CDB")
      && listed.value[0].dailyYields.Some? && |listed.value[0].dailyYields.value| == 1
  {
    var s0 := Store(map[], 0);
    assert ValidCpf[0] > ' ';
    var s1 := U.CriarUsuarioInvestimento(s0, Some(ValidCpf));
    assert s1.store == Store(map[ValidCpf := User([])], 0);
    var dto := OneInvestmentRequest(ValidCpf);
    var d := dto.investments.value[0];
    CdbParses(typeNames);
    assert I.DatesParse(d.dailyYields, parseDate);
    IP.SalvarOkStore(s1.store, dto, typeNames, parseDate);
    var built := I.BuildInvestments(dto.investments.value, ValidCpf, 0, typeNames, parseDate);
    assert I.BuildInvestment(d, ValidCpf, 0, typeNames, parseDate) == Success(built.value[0]);
  }

  /** The same round through the user service, which replaces the (empty)
      list: the user then owns exactly that investment with its one yield. */
  lemma RegisterReplaceFind(typeNames: set<string>, parseDate: string -> Option<Date>)
    requires "CDB" in typeNames && parseDate("01-01-2024").Some?
    ensures var s0 := Store(map[], 0);
      var s1 := U.CriarUsuarioInvestimento(s0, Some(ValidCpf));
      var s2 := U.SalvarInvestimentos(s1.store, OneInvestmentRequest(ValidCpf), typeNames, parseDate);
      var found := U.BuscarPorCpf(s2.store, ValidCpf);
      && s1.outcome.Ok? && s2.outcome.Ok? && found.Ok?
      && |found.value.investments| == 1
      && found.value.investments[0].kind == Some("CDB")
      && found.value.investments[0].dailyYields.Some? && |found.value.investments[0].dailyYields.value| == 1
      && found.value.investments[0].dailyYields.value[0].date == parseDate("01-01-2024")
  {
    var s0 := Store(map[], 0);
    assert ValidCpf[0] > ' ';
    var s1 := U.CriarUsuarioInvestimento(s0, Some(ValidCpf));
    assert s1.store == Store(map[ValidCpf := User([])], 0);
    var dto := OneInvestmentRequest(ValidCpf);
    var d := dto.investments.value[0];
    CdbParses(typeNames);
    assert U.SalvarInvestimentos(s1.store, dto, typeNames, parseDate).outcome.Ok? by {
      assert ValidCpf[0] in ValidCpf;
      UP.SalvarSucceedsIffTypesParse(s1.store, dto, typeNames, parseDate);
    }
    UP.SalvarOkStore(s1.store, dto, typeNames, parseDate);
    UP.BuiltYieldAt(dto.investments.value, ValidCpf, 0, typeNames, parseDate, 0, 0);
    var built := U.BuildInvestments(dto.investments.value, ValidCpf, 0, typeNames, parseDate);
    assert U.BuildInvestment(d, ValidCpf, 0, typeNames, parseDate) == Success(built.value[0]);
  }

  /** The request's type "cdb" parses to "CDB". */
  lemma CdbParses(typeNames: set<string>)
    requires "CDB" in typeNames
    ensures ParseType(typeNames, OneInvestmentRequest(ValidCpf).investments.value[0].kind) == Parsed("CDB")
  {
    assert JavaText.ToUpperCase("cdb") == "CDB" by {
      assert JavaText.UpperChar('c') == 'C' && JavaText.UpperChar('d') == 'D' && JavaText.UpperChar('b') == 'B';
    }
  }

  /** Deleting a user that was never registered is not found and changes
      nothing. */
  lemma DeleteUnknownUser(s: Store)
    requires "00000000000" !in s.users
    ensures U.DeletarPorCpf(s, "00000000000") == Step(NotFound, s)
  {
  }

  /** Updating an existing investment with a type outside the enumeration
      is a bad request and leaves the store unchanged. */
  lemma UpdateWithUnknownType(s: Store, id: nat, dto: InvestmentDto, typeNames: set<string>,
                              parseDate: string -> Option<Date>)
    requires HasInvestment(s, id) && dto.kind == Some("NOT_A_TYPE") && "NOT_A_TYPE" !in typeNames
    ensures I.AtualizarInvestimento(s, id, dto, typeNames, parseDate)
            == Step(BadRequest(UnknownInvestmentType("NOT_A_TYPE")), s)
    ensures HttpStatus(I.AtualizarInvestimento(s, id, dto, typeNames, parseDate).outcome) == 400
  {
    assert JavaText.ToUpperCase("NOT_A_TYPE") == "NOT_A_TYPE";
  }
}
