/** The investor aggregate as the two services see it: the persisted entities
    (`UsuarioInvestimento`, `Investimento`, `RentabilidadeDiaria`), the request
    records (`UsuarioInvestimentoDTO`, `InvestimentoDTO`,
    `RentabilidadeDiariaDTO`), the store both services read and write, and the
    outcomes a service call can have. */
module Aggregate {
  import opened Wrappers
  import opened JavaText

  /** A `LocalDate`; only ever produced by the date parser and copied. */
  datatype Date = Date(day: int, month: int, year: int)

  /** A scalar field (`Double`, `BigDecimal`, `String` or `Integer`) that the
      services copy from request to entity without computing on it; `None` is
      null. */
  type Scalar = Option<string>

  datatype DailyYieldDto = DailyYieldDto(
    date: Option<string>,
    unitPrice: Scalar,
    rate: Scalar,
    accumulated: Scalar)

  datatype InvestmentDto = InvestmentDto(
    bankName: Option<string>,
    kind: Option<string>,
    name: Option<string>,
    initialAmount: Scalar,
    initialUnitPrice: Scalar,
    rate: Scalar,
    initialUnits: Scalar,
    dailyYields: Option<seq<DailyYieldDto>>)

  datatype UserInvestmentsDto = UserInvestmentsDto(
    cpf: Option<string>,
    investments: Option<seq<InvestmentDto>>)

  datatype DailyYield = DailyYield(
    date: Option<Date>,
    unitPrice: Scalar,
    rate: Scalar,
    accumulated: Scalar)

  /** An investment row. `owner` is the CPF string of the owning user (the
      foreign key); `kind` is the name of a `TipoInvestimentoEnum` constant. */
  datatype Investment = Investment(
    id: nat,
    owner: string,
    bankName: Option<string>,
    bankCode: Option<int>,
    kind: Option<string>,
    name: Option<string>,
    initialAmount: Scalar,
    initialUnitPrice: Scalar,
    rate: Scalar,
    initialUnits: Scalar,
    dailyYields: Option<seq<DailyYield>>)

  /** A user row with the investments it owns. */
  datatype User = User(investments: seq<Investment>)

  /** The database: users keyed by their (unique) CPF column, and the next
      value of the identity column for investments. */
  datatype Store = Store(users: map<string, User>, nextId: nat)

  /** Whether an investment with this id exists (`existsById`). */
  predicate HasInvestment(s: Store, id: nat) {
    exists c :: c in s.users && exists k :: 0 <= k < |s.users[c].investments| && s.users[c].investments[k].id == id
  }

  predicate DistinctIds(invs: seq<Investment>) {
    forall i, j :: 0 <= i < j < |invs| ==> invs[i].id != invs[j].id
  }

  /** What the relational schema guarantees: every investment is listed under
      the user its foreign key names, ids are below the identity counter, and
      no id appears twice anywhere. */
  ghost predicate WellFormed(s: Store) {
    && (forall c, inv :: c in s.users && inv in s.users[c].investments ==> inv.owner == c && inv.id < s.nextId)
    && (forall c :: c in s.users ==> DistinctIds(s.users[c].investments))
    && (forall c1, c2, a, b ::
          c1 in s.users && c2 in s.users && a in s.users[c1].investments && b in s.users[c2].investments && a.id == b.id
          ==> c1 == c2)
  }

  /** Storing `invs` as the whole list of user `c` and moving the counter to
      `n` keeps the store well formed, provided the list is owned by `c`, has
      distinct ids below `n`, and shares no id with any other user. */
  lemma PutUserPreservesWellFormed(s: Store, c: string, invs: seq<Investment>, n: nat)
    requires WellFormed(s) && c in s.users && s.nextId <= n
    requires forall x :: x in invs ==> x.owner == c && x.id < n
    requires DistinctIds(invs)
    requires forall c', x, y :: c' in s.users && c' != c && x in invs && y in s.users[c'].investments ==> x.id != y.id
    ensures WellFormed(Store(s.users[c := User(invs)], n))
  {
  }

  /** Adding a user with no investments under a new key keeps the store well
      formed. */
  lemma AddEmptyUserPreservesWellFormed(s: Store, c: string)
    requires WellFormed(s) && c !in s.users
    ensures WellFormed(Store(s.users[c := User([])], s.nextId))
  {
    var t := Store(s.users[c := User([])], s.nextId);
    forall c' | c' in t.users ensures DistinctIds(t.users[c'].investments) {
      if c' != c {
        assert DistinctIds(s.users[c'].investments);
      }
    }
  }

  /** Rewriting investments in place, keeping every list's length and every
      investment's id and owner, keeps the store well formed. */
  lemma SameKeysPreservesWellFormed(s: Store, t: Store)
    requires WellFormed(s)
    requires t.users.Keys == s.users.Keys && t.nextId == s.nextId
    requires forall c :: c in s.users ==> |t.users[c].investments| == |s.users[c].investments|
    requires forall c, k :: c in s.users && 0 <= k < |s.users[c].investments| ==>
      t.users[c].investments[k].id == s.users[c].investments[k].id
      && t.users[c].investments[k].owner == s.users[c].investments[k].owner
    ensures WellFormed(t)
  {
    forall c, x | c in t.users && x in t.users[c].investments
      ensures exists y :: y in s.users[c].investments && y.id == x.id && y.owner == x.owner
    {
      var k :| 0 <= k < |t.users[c].investments| && t.users[c].investments[k] == x;
      assert s.users[c].investments[k] in s.users[c].investments;
    }
    forall c | c in t.users ensures DistinctIds(t.users[c].investments) {
      assert DistinctIds(s.users[c].investments);
    }
  }

  /** Exceptions that escape a service method. Spring rolls the transaction
      back for each of them. */
  datatype Exception =
    | NullPointer                       // a required reference was null
    | DateTimeParse                     // `LocalDate.parse` rejected the text
    | InvalidInvestmentType(given: string) // RuntimeException for an unknown type
    | InvestmentNotFound                // RuntimeException from `orElseThrow`

  /** Why a call answered 400 without throwing. */
  datatype Rejection =
    | CpfRequired
    | CpfAlreadyRegistered
    | UserNotFound(cpf: string)
    | EmptyInvestmentList
    | UnknownInvestmentType(given: string)

  /** The `ResponseEntity` a service returns, or the exception it throws. */
  datatype Outcome<+T> = Ok(value: T) | BadRequest(reason: Rejection) | NotFound | Thrown(exception: Exception)

  /** One service call: its outcome and the store after the transaction. */
  datatype Step<+T> = Step(outcome: Outcome<T>, store: Store)

  /** The HTTP status the client sees; thrown exceptions go through
      `RestExceptionHandler`, which answers 400 for a date-parse failure and
      500 for anything else. */
  function HttpStatus<T>(o: Outcome<T>): (code: int)
    ensures code == 200 <==> o.Ok?
    ensures code == 404 <==> o.NotFound?
    ensures code == 400 <==> o.BadRequest? || o == Thrown(DateTimeParse)
    ensures code == 500 <==> o.Thrown? && o.exception != DateTimeParse
  {
    match o
    case Ok(_) => 200
    case BadRequest(_) => 400
    case NotFound => 404
    case Thrown(e) => if e == DateTimeParse then 400 else 500
  }

  /** `TipoInvestimentoEnum.valueOf(s.toUpperCase())` over the enum's constant
      names `typeNames`: a null string throws NullPointerException, an unknown
      name IllegalArgumentException. */
  datatype TypeParse = Parsed(name: string) | UnknownName | NullName

  function ParseType(typeNames: set<string>, s: Option<string>): (r: TypeParse)
    ensures r.NullName? <==> s.None?
    ensures r.Parsed? <==> s.Some? && ToUpperCase(s.value) in typeNames
    ensures r.Parsed? ==> r.name in typeNames && r.name == ToUpperCase(s.value)
  {
    match s
    case None => NullName
    case Some(t) => if ToUpperCase(t) in typeNames then Parsed(ToUpperCase(t)) else UnknownName
  }

  /** A parsed type name parses back to itself, so stored types survive being
      sent again. */
  lemma ParseTypeOfParsed(typeNames: set<string>, s: Option<string>)
    requires ParseType(typeNames, s).Parsed?
    ensures ParseType(typeNames, Some(ParseType(typeNames, s).name)) == ParseType(typeNames, s)
  {
    ToUpperCaseIdempotent(s.value);
  }

  /** The investments in `invs`, with the one whose id is `id` left out. */
  function RemoveId(invs: seq<Investment>, id: nat): (r: seq<Investment>)
    ensures |r| <= |invs|
    ensures forall x :: x in r ==> x in invs && x.id != id
    ensures forall x :: x in invs && x.id != id ==> x in r
  {
    if invs == [] then []
    else if invs[0].id == id then RemoveId(invs[1..], id)
    else [invs[0]] + RemoveId(invs[1..], id)
  }
}
