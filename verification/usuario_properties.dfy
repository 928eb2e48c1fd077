/** Properties of `UsuarioInvestimentoService` that relate its operations to
    the store invariant and to each other. */
module UsuarioProperties {
  import opened Wrappers
  import opened Aggregate
  import opened UsuarioService

  /** Built investments are numbered consecutively from `firstId` and all
      belong to `owner`. */
  lemma BuiltInvestmentsAreFresh(dtos: seq<InvestmentDto>, owner: string, firstId: nat, typeNames: set<string>,
                                 parseDate: string -> Option<Date>)
    requires BuildInvestments(dtos, owner, firstId, typeNames, parseDate).Success?
    ensures var invs := BuildInvestments(dtos, owner, firstId, typeNames, parseDate).value;
      forall k :: 0 <= k < |invs| ==> invs[k].id == firstId + k && invs[k].owner == owner
  {
  }

  /** Registering a user keeps the store well formed. */
  lemma CriarPreservesWellFormed(s: Store, cpf: Option<string>)
    requires WellFormed(s)
    ensures WellFormed(CriarUsuarioInvestimento(s, cpf).store)
  {
    var r := CriarUsuarioInvestimento(s, cpf);
    if r.outcome.Ok? {
      AddEmptyUserPreservesWellFormed(s, cpf.value);
      assert r.store == Store(s.users[cpf.value := User([])], s.nextId);
    } else {
      assert r.store == s;
    }
  }

  /** A list of fresh investments, numbered from the counter and owned by
      `c`, can replace `c`'s list without breaking the store invariant. */
  lemma FreshListPreservesWellFormed(s: Store, c: string, invs: seq<Investment>)
    requires WellFormed(s) && c in s.users
    requires forall k :: 0 <= k < |invs| ==> invs[k].id == s.nextId + k && invs[k].owner == c
    ensures WellFormed(Store(s.users[c := User(invs)], s.nextId + |invs|))
  {
    forall x | x in invs ensures x.owner == c && s.nextId <= x.id < s.nextId + |invs| {
      var k :| 0 <= k < |invs| && invs[k] == x;
    }
    PutUserPreservesWellFormed(s, c, invs, s.nextId + |invs|);
  }

  /** Replacing a user's investments keeps the store well formed. */
  lemma SalvarPreservesWellFormed(s: Store, dto: UserInvestmentsDto, typeNames: set<string>,
                                  parseDate: string -> Option<Date>)
    requires WellFormed(s)
    ensures WellFormed(SalvarInvestimentos(s, dto, typeNames, parseDate).store)
  {
    var r := SalvarInvestimentos(s, dto, typeNames, parseDate);
    if r.outcome.Ok? {
      SalvarOkStore(s, dto, typeNames, parseDate);
      var invs := BuildInvestments(dto.investments.value, dto.cpf.value, s.nextId, typeNames, parseDate).value;
      BuiltInvestmentsAreFresh(dto.investments.value, dto.cpf.value, s.nextId, typeNames, parseDate);
      FreshListPreservesWellFormed(s, dto.cpf.value, invs);
      assert r.store == Store(s.users[dto.cpf.value := User(invs)], s.nextId + |invs|);
    } else {
      assert r.store == s;
    }
  }

  /** Replace-all: after a successful call the user owns exactly the built
      investments, and none of the investments it owned before. */
  lemma SalvarReplacesAll(s: Store, dto: UserInvestmentsDto, typeNames: set<string>,
                          parseDate: string -> Option<Date>)
    requires WellFormed(s)
    requires SalvarInvestimentos(s, dto, typeNames, parseDate).outcome.Ok?
    ensures var after := SalvarInvestimentos(s, dto, typeNames, parseDate).store.users[dto.cpf.value].investments;
      && |after| == |dto.investments.value|
      && (forall x :: x in s.users[dto.cpf.value].investments ==> x !in after)
      && (forall x :: x in after ==> x.owner == dto.cpf.value)
  {
    var c := dto.cpf.value;
    BuiltInvestmentsAreFresh(dto.investments.value, c, s.nextId, typeNames, parseDate);
  }

  /** Once the CPF, the user and the list are acceptable, the call succeeds
      exactly when every type parses: dates never make it fail. */
  lemma SalvarSucceedsIffTypesParse(s: Store, dto: UserInvestmentsDto, typeNames: set<string>,
                                    parseDate: string -> Option<Date>)
    requires dto.cpf.Some? && dto.cpf.value in s.users
    requires exists i :: 0 <= i < |dto.cpf.value| && dto.cpf.value[i] > ' '
    requires dto.investments.Some? && |dto.investments.value| > 0
    ensures SalvarInvestimentos(s, dto, typeNames, parseDate).outcome.Ok? <==>
            forall k :: 0 <= k < |dto.investments.value| ==> ParseType(typeNames, dto.investments.value[k].kind).Parsed?
  {
  }

  /** A successful call stores exactly the built list under the CPF and
      draws one identity per built investment. */
  lemma SalvarOkStore(s: Store, dto: UserInvestmentsDto, typeNames: set<string>,
                      parseDate: string -> Option<Date>)
    requires SalvarInvestimentos(s, dto, typeNames, parseDate).outcome.Ok?
    ensures dto.cpf.Some? && dto.investments.Some?
    ensures var built := BuildInvestments(dto.investments.value, dto.cpf.value, s.nextId, typeNames, parseDate);
      && built.Success?
      && SalvarInvestimentos(s, dto, typeNames, parseDate).store
         == Store(s.users[dto.cpf.value := User(built.value)], s.nextId + |built.value|)
  {
  }

  /** The j-th yield of the k-th built investment is built from the j-th yield
      request of the k-th investment request. */
  lemma BuiltYieldAt(dtos: seq<InvestmentDto>, owner: string, firstId: nat, typeNames: set<string>,
                     parseDate: string -> Option<Date>, k: nat, j: nat)
    requires BuildInvestments(dtos, owner, firstId, typeNames, parseDate).Success?
    requires k < |dtos| && dtos[k].dailyYields.Some? && j < |dtos[k].dailyYields.value|
    ensures var inv := BuildInvestments(dtos, owner, firstId, typeNames, parseDate).value[k];
      && inv.dailyYields.Some? && j < |inv.dailyYields.value|
      && inv.dailyYields.value[j] == BuildDailyYield(dtos[k].dailyYields.value[j], parseDate)
  {
    var built := BuildInvestments(dtos, owner, firstId, typeNames, parseDate);
    assert BuildInvestment(dtos[k], owner, firstId + k, typeNames, parseDate) == Success(built.value[k]);
  }

  /** The stored yields of every saved investment follow the request in order;
      a yield's date is null exactly when its text was null or did not parse. */
  lemma SalvarStoresUnparsedDatesAsNull(s: Store, dto: UserInvestmentsDto, typeNames: set<string>,
                                        parseDate: string -> Option<Date>, k: nat, j: nat)
    requires SalvarInvestimentos(s, dto, typeNames, parseDate).outcome.Ok?
    requires k < |dto.investments.value|
    requires dto.investments.value[k].dailyYields.Some? && j < |dto.investments.value[k].dailyYields.value|
    ensures var inv := SalvarInvestimentos(s, dto, typeNames, parseDate).store.users[dto.cpf.value].investments[k];
      var yd := dto.investments.value[k].dailyYields.value[j];
      && inv.dailyYields.Some? && j < |inv.dailyYields.value|
      && (inv.dailyYields.value[j].date.None? <==> yd.date.None? || parseDate(yd.date.value).None?)
      && inv.dailyYields.value[j].accumulated == yd.accumulated
  {
    SalvarOkStore(s, dto, typeNames, parseDate);
    BuiltYieldAt(dto.investments.value, dto.cpf.value, s.nextId, typeNames, parseDate, k, j);
  }

  /** An investment with its identity erased, for comparing results of calls
      that drew different identities. */
  function WithoutId(inv: Investment): (r: Investment)
    ensures r.id == 0 && r == inv.(id := 0)
  {
    inv.(id := 0)
  }

  /** Building the same requests from another first identity builds the same
      investments, renumbered. */
  lemma BuildInvestmentsRenumber(dtos: seq<InvestmentDto>, owner: string, id1: nat, id2: nat,
                                 typeNames: set<string>, parseDate: string -> Option<Date>)
    requires BuildInvestments(dtos, owner, id1, typeNames, parseDate).Success?
    ensures var a := BuildInvestments(dtos, owner, id1, typeNames, parseDate);
      var b := BuildInvestments(dtos, owner, id2, typeNames, parseDate);
      && b.Success? && |b.value| == |a.value|
      && forall k :: 0 <= k < |a.value| ==> b.value[k] == a.value[k].(id := id2 + k)
  {
    var a := BuildInvestments(dtos, owner, id1, typeNames, parseDate);
    var b := BuildInvestments(dtos, owner, id2, typeNames, parseDate);
    forall k | 0 <= k < |a.value| ensures b.value[k] == a.value[k].(id := id2 + k) {
      assert BuildInvestment(dtos[k], owner, id1 + k, typeNames, parseDate) == Success(a.value[k]);
      assert BuildInvestment(dtos[k], owner, id2 + k, typeNames, parseDate) == Success(b.value[k]);
    }
  }

  /** Saving the same request twice leaves the user with the same investments
      as saving it once, up to the identities drawn. */
  lemma SalvarIdempotentUpToIds(s: Store, dto: UserInvestmentsDto, typeNames: set<string>,
                                parseDate: string -> Option<Date>)
    requires SalvarInvestimentos(s, dto, typeNames, parseDate).outcome.Ok?
    ensures var once := SalvarInvestimentos(s, dto, typeNames, parseDate);
      var twice := SalvarInvestimentos(once.store, dto, typeNames, parseDate);
      && twice.outcome.Ok?
      && twice.store.users.Keys == once.store.users.Keys
      && |twice.store.users[dto.cpf.value].investments| == |once.store.users[dto.cpf.value].investments|
      && forall k :: 0 <= k < |once.store.users[dto.cpf.value].investments| ==>
           WithoutId(twice.store.users[dto.cpf.value].investments[k]) == WithoutId(once.store.users[dto.cpf.value].investments[k])
  {
    var c := dto.cpf.value;
    var once := SalvarInvestimentos(s, dto, typeNames, parseDate);
    SalvarOkStore(s, dto, typeNames, parseDate);
    BuildInvestmentsRenumber(dto.investments.value, c, s.nextId, once.store.nextId, typeNames, parseDate);
    var twice := SalvarInvestimentos(once.store, dto, typeNames, parseDate);
    assert twice.outcome.Ok?;
    SalvarOkStore(once.store, dto, typeNames, parseDate);
  }

  /** Deleting a user keeps the store well formed. */
  lemma DeletarPreservesWellFormed(s: Store, cpf: string)
    requires WellFormed(s)
    ensures WellFormed(DeletarPorCpf(s, cpf).store)
  {
    var t := DeletarPorCpf(s, cpf).store;
    assert forall c :: c in t.users ==> c in s.users && t.users[c] == s.users[c];
  }

  /** Cascade delete: afterwards no investment anywhere belongs to the deleted
      user, and none of its investments can be found by id. */
  lemma DeletarCascades(s: Store, cpf: string)
    requires WellFormed(s)
    requires cpf in s.users
    ensures var t := DeletarPorCpf(s, cpf).store;
      && (forall c, x :: c in t.users && x in t.users[c].investments ==> x.owner != cpf)
      && (forall x :: x in s.users[cpf].investments ==> !HasInvestment(t, x.id))
  {
    var t := DeletarPorCpf(s, cpf).store;
    assert t.users == s.users - {cpf};
    forall c, x | c in t.users && x in t.users[c].investments ensures x.owner != cpf {
      assert x in s.users[c].investments;
    }
  }

  /** A user found right after registering has no investments, and the
      lookup of every other CPF answers as before. */
  lemma BuscarAfterCriar(s: Store, cpf: string)
    requires CriarUsuarioInvestimento(s, Some(cpf)).outcome.Ok?
    ensures var t := CriarUsuarioInvestimento(s, Some(cpf)).store;
      && BuscarPorCpf(t, cpf) == Ok(User([]))
      && forall c :: c != cpf ==> BuscarPorCpf(t, c) == BuscarPorCpf(s, c)
  {
  }

  /** After deleting a CPF, looking it up is not found, whether or not it was
      registered; every other CPF answers as before. */
  lemma BuscarAfterDeletar(s: Store, cpf: string)
    ensures var t := DeletarPorCpf(s, cpf).store;
      && BuscarPorCpf(t, cpf) == NotFound
      && forall c :: c != cpf ==> BuscarPorCpf(t, c) == BuscarPorCpf(s, c)
  {
  }
}
