/** Properties of `InvestimentoService`: the store invariant, what each call
    touches, and what it leaves alone. */
module InvestimentoProperties {
  import opened Wrappers
  import opened Aggregate
  import opened InvestimentoService

  /** Built investments are numbered consecutively from `firstId` and all
      belong to `owner`. */
  lemma BuiltInvestmentsAreFresh(dtos: seq<InvestmentDto>, owner: string, firstId: nat, typeNames: set<string>,
                                 parseDate: string -> Option<Date>)
    requires BuildInvestments(dtos, owner, firstId, typeNames, parseDate).Success?
    ensures var invs := BuildInvestments(dtos, owner, firstId, typeNames, parseDate).value;
      forall k :: 0 <= k < |invs| ==> invs[k].id == firstId + k && invs[k].owner == owner
  {
  }

  /** A successful call stores the prior list followed by the built list and
      draws one identity per built investment. */
  lemma SalvarOkStore(s: Store, dto: UserInvestmentsDto, typeNames: set<string>,
                      parseDate: string -> Option<Date>)
    requires SalvarInvestimentos(s, dto, typeNames, parseDate).outcome.Ok?
    ensures dto.cpf.Some? && dto.cpf.value in s.users && dto.investments.Some?
    ensures var built := BuildInvestments(dto.investments.value, dto.cpf.value, s.nextId, typeNames, parseDate);
      && built.Success?
      && SalvarInvestimentos(s, dto, typeNames, parseDate).store
         == Store(s.users[dto.cpf.value := User(s.users[dto.cpf.value].investments + built.value)],
                  s.nextId + |built.value|)
  {
  }

  /** A list with distinct ids below `bound`, followed by investments
      numbered consecutively from `bound`, still has distinct ids. */
  lemma DistinctAppend(prior: seq<Investment>, added: seq<Investment>, bound: nat)
    requires DistinctIds(prior) && forall x :: x in prior ==> x.id < bound
    requires forall k :: 0 <= k < |added| ==> added[k].id == bound + k
    ensures DistinctIds(prior + added)
  {
    var invs := prior + added;
    forall i, j | 0 <= i < j < |invs| ensures invs[i].id != invs[j].id {
      if j < |prior| {
        assert invs[i] == prior[i] && invs[j] == prior[j];
      } else if i < |prior| {
        assert invs[i] in prior && invs[j] == added[j - |prior|];
      } else {
        assert invs[i] == added[i - |prior|] && invs[j] == added[j - |prior|];
      }
    }
  }

  /** Appending fresh investments, numbered from the counter and owned by `c`,
      to `c`'s list keeps the store well formed. */
  lemma AppendFreshPreservesWellFormed(s: Store, c: string, added: seq<Investment>)
    requires WellFormed(s) && c in s.users
    requires forall k :: 0 <= k < |added| ==> added[k].id == s.nextId + k && added[k].owner == c
    ensures WellFormed(Store(s.users[c := User(s.users[c].investments + added)], s.nextId + |added|))
  {
    var prior := s.users[c].investments;
    var invs := prior + added;
    var n := s.nextId + |added|;
    forall x | x in added ensures x.owner == c && s.nextId <= x.id < n {
      var k :| 0 <= k < |added| && added[k] == x;
    }
    assert DistinctIds(prior);
    DistinctAppend(prior, added, s.nextId);
    assert forall x :: x in invs ==> x in prior || x in added;
    PutUserPreservesWellFormed(s, c, invs, n);
  }

  /** Appending investments keeps the store well formed. */
  lemma SalvarPreservesWellFormed(s: Store, dto: UserInvestmentsDto, typeNames: set<string>,
                                  parseDate: string -> Option<Date>)
    requires WellFormed(s)
    ensures WellFormed(SalvarInvestimentos(s, dto, typeNames, parseDate).store)
  {
    var r := SalvarInvestimentos(s, dto, typeNames, parseDate);
    if r.outcome.Ok? {
      SalvarOkStore(s, dto, typeNames, parseDate);
      var c := dto.cpf.value;
      var added := BuildInvestments(dto.investments.value, c, s.nextId, typeNames, parseDate).value;
      BuiltInvestmentsAreFresh(dto.investments.value, c, s.nextId, typeNames, parseDate);
      AppendFreshPreservesWellFormed(s, c, added);
      assert r.store == Store(s.users[c := User(s.users[c].investments + added)], s.nextId + |added|);
    } else {
      assert r.store == s;
    }
  }

  /** Append: a successful call keeps every investment the user had, in place,
      and adds one new investment per request after them. */
  lemma SalvarAppends(s: Store, dto: UserInvestmentsDto, typeNames: set<string>,
                      parseDate: string -> Option<Date>)
    requires SalvarInvestimentos(s, dto, typeNames, parseDate).outcome.Ok?
    ensures var before := s.users[dto.cpf.value].investments;
      var after := SalvarInvestimentos(s, dto, typeNames, parseDate).store.users[dto.cpf.value].investments;
      && |after| == |before| + |dto.investments.value|
      && after[..|before|] == before
      && forall k :: |before| <= k < |after| ==> after[k].id == s.nextId + (k - |before|) && after[k].owner == dto.cpf.value
  {
    SalvarOkStore(s, dto, typeNames, parseDate);
    BuiltInvestmentsAreFresh(dto.investments.value, dto.cpf.value, s.nextId, typeNames, parseDate);
  }

  /** Once the CPF, the user and the list are acceptable, the call succeeds
      exactly when every type parses and every date is present and parses. */
  lemma SalvarSucceedsIff(s: Store, dto: UserInvestmentsDto, typeNames: set<string>,
                          parseDate: string -> Option<Date>)
    requires dto.cpf.Some? && |dto.cpf.value| > 0 && dto.cpf.value in s.users
    requires dto.investments.Some? && |dto.investments.value| > 0
    ensures SalvarInvestimentos(s, dto, typeNames, parseDate).outcome.Ok? <==>
            forall k :: 0 <= k < |dto.investments.value| ==>
              ParseType(typeNames, dto.investments.value[k].kind).Parsed?
              && DatesParse(dto.investments.value[k].dailyYields, parseDate)
  {
  }

  /** Listing a registered user finds exactly the investments, anywhere in
      the store, whose foreign key is that CPF. */
  lemma ListarExactlyOwned(s: Store, cpf: string, x: Investment)
    requires WellFormed(s) && cpf in s.users
    ensures ListarPorCpf(s, cpf).Ok?
    ensures x in ListarPorCpf(s, cpf).value <==>
            (exists c :: c in s.users && x in s.users[c].investments) && x.owner == cpf
  {
    if x.owner == cpf && exists c :: c in s.users && x in s.users[c].investments {
      var c :| c in s.users && x in s.users[c].investments;
      assert c == cpf;
    }
  }

  /** In a list with distinct ids, removing the id at position `k` removes
      exactly that element. */
  lemma {:induction false} RemoveIdAt(invs: seq<Investment>, k: nat)
    requires DistinctIds(invs) && k < |invs|
    ensures RemoveId(invs, invs[k].id) == invs[..k] + invs[k + 1..]
  {
    var id := invs[k].id;
    var tail := invs[1..];
    DistinctTail(invs);
    if k == 0 {
      RemoveIdAbsent(tail, id);
      assert invs[..k] + invs[k + 1..] == tail;
    } else {
      assert tail[k - 1] == invs[k];
      RemoveIdAt(tail, k - 1);
      assert [invs[0]] + (tail[..k - 1] + tail[k..]) == invs[..k] + invs[k + 1..];
    }
  }

  /** The tail of a list with distinct ids has distinct ids, none of them the
      head's. */
  lemma DistinctTail(invs: seq<Investment>)
    requires DistinctIds(invs) && |invs| > 0
    ensures DistinctIds(invs[1..])
    ensures forall x :: x in invs[1..] ==> x.id != invs[0].id
  {
    var tail := invs[1..];
    forall i, j | 0 <= i < j < |tail| ensures tail[i].id != tail[j].id {
      assert tail[i] == invs[i + 1] && tail[j] == invs[j + 1];
    }
    forall x | x in tail ensures x.id != invs[0].id {
      var j :| 0 <= j < |tail| && tail[j] == x;
      assert invs[j + 1] == x;
    }
  }

  /** Removing an id that does not occur changes nothing. */
  lemma {:induction false} RemoveIdAbsent(invs: seq<Investment>, id: nat)
    requires forall x :: x in invs ==> x.id != id
    ensures RemoveId(invs, id) == invs
  {
    if invs != [] {
      assert invs[0] in invs;
      RemoveIdAbsent(invs[1..], id);
      assert [invs[0]] + invs[1..] == invs;
    }
  }

  /** Dropping one position from a list with distinct ids keeps them
      distinct and introduces nothing new. */
  lemma DropAtDistinct(invs: seq<Investment>, k: nat)
    requires DistinctIds(invs) && k < |invs|
    ensures DistinctIds(invs[..k] + invs[k + 1..])
    ensures forall x :: x in invs[..k] + invs[k + 1..] ==> x in invs
  {
    var r := invs[..k] + invs[k + 1..];
    forall i, j | 0 <= i < j < |r| ensures r[i].id != r[j].id {
      var i' := if i < k then i else i + 1;
      var j' := if j < k then j else j + 1;
      assert r[i] == invs[i'] && r[j] == invs[j'];
    }
    forall x | x in r ensures x in invs {
      var i :| 0 <= i < |r| && r[i] == x;
      assert r[i] == invs[if i < k then i else i + 1];
    }
  }

  /** The one user that lists an investment with the given id in a well-formed
      store, with its position. */
  lemma OwnerOf(s: Store, id: nat) returns (c: string, k: nat)
    requires WellFormed(s) && HasInvestment(s, id)
    ensures c in s.users && k < |s.users[c].investments| && s.users[c].investments[k].id == id
    ensures forall c' :: c' in s.users && c' != c ==> forall x :: x in s.users[c'].investments ==> x.id != id
  {
    c :| c in s.users && exists k :: 0 <= k < |s.users[c].investments| && s.users[c].investments[k].id == id;
    k :| 0 <= k < |s.users[c].investments| && s.users[c].investments[k].id == id;
    assert s.users[c].investments[k] in s.users[c].investments;
  }

  /** The store a successful delete leaves: the id removed from every list. */
  lemma DeletarOkStore(s: Store, id: nat)
    requires HasInvestment(s, id)
    ensures DeletarPorId(s, id).store == Store(map c | c in s.users :: User(RemoveId(s.users[c].investments, id)), s.nextId)
  {
  }

  /** Removing an id from every list, when only position `k` of `c`'s list
      carries it, removes just that position. */
  lemma RemoveEverywhere(users: map<string, User>, id: nat, c: string, k: nat)
    requires c in users && DistinctIds(users[c].investments)
    requires k < |users[c].investments| && users[c].investments[k].id == id
    requires forall c' :: c' in users && c' != c ==> forall x :: x in users[c'].investments ==> x.id != id
    ensures (map c' | c' in users :: User(RemoveId(users[c'].investments, id)))
            == users[c := User(users[c].investments[..k] + users[c].investments[k + 1..])]
  {
    var m := map c' | c' in users :: User(RemoveId(users[c'].investments, id));
    var m' := users[c := User(users[c].investments[..k] + users[c].investments[k + 1..])];
    RemoveIdAt(users[c].investments, k);
    forall c' | c' in users ensures m[c'] == m'[c'] {
      if c' != c {
        RemoveIdAbsent(users[c'].investments, id);
      }
    }
    assert m.Keys == m'.Keys;
  }

  /** Deleting an existing id removes exactly that one investment from the
      one user that lists it, keeps the order of the rest, and leaves every
      other user as it was. */
  lemma DeletarPorIdRemovesOnlyThat(s: Store, id: nat) returns (c: string, k: nat)
    requires WellFormed(s) && HasInvestment(s, id)
    ensures var t := DeletarPorId(s, id).store;
      && c in s.users && k < |s.users[c].investments| && s.users[c].investments[k].id == id
      && t == Store(s.users[c := User(s.users[c].investments[..k] + s.users[c].investments[k + 1..])], s.nextId)
  {
    c, k := OwnerOf(s, id);
    DeletarOkStore(s, id);
    assert DistinctIds(s.users[c].investments);
    RemoveEverywhere(s.users, id, c, k);
  }

  /** Deleting an investment keeps the store well formed. */
  lemma DeletarPorIdPreservesWellFormed(s: Store, id: nat)
    requires WellFormed(s)
    ensures WellFormed(DeletarPorId(s, id).store)
  {
    if HasInvestment(s, id) {
      var c, k := DeletarPorIdRemovesOnlyThat(s, id);
      var invs := s.users[c].investments;
      assert DistinctIds(invs);
      DropAtDistinct(invs, k);
      PutUserPreservesWellFormed(s, c, invs[..k] + invs[k + 1..], s.nextId);
    }
  }

  /** Deleting the same id twice: the second call is not found and changes
      nothing. */
  lemma DeletarPorIdTwiceNotFound(s: Store, id: nat)
    ensures var once := DeletarPorId(s, id).store;
      DeletarPorId(once, id) == Step(NotFound, once)
  {
    var once := DeletarPorId(s, id).store;
    if HasInvestment(s, id) {
      assert !HasInvestment(once, id);
    }
  }

  /** Updating an investment keeps the store well formed: ids and owners are
      untouched, and so is the length of every list. */
  lemma AtualizarPreservesWellFormed(s: Store, id: nat, dto: InvestmentDto, typeNames: set<string>,
                                     parseDate: string -> Option<Date>)
    requires WellFormed(s)
    ensures WellFormed(AtualizarInvestimento(s, id, dto, typeNames, parseDate).store)
  {
    var r := AtualizarInvestimento(s, id, dto, typeNames, parseDate);
    if r.outcome.Ok? {
      var t := r.store;
      var kind := ParseType(typeNames, dto.kind).name;
      var ys := UpdatedDailyYields(dto.dailyYields, parseDate).value;
      forall c, k | c in s.users && 0 <= k < |s.users[c].investments|
        ensures t.users[c].investments[k].id == s.users[c].investments[k].id
        ensures t.users[c].investments[k].owner == s.users[c].investments[k].owner
      {
        assert t.users[c].investments == UpdateIn(s.users[c].investments, id, kind, dto, ys);
      }
      SameKeysPreservesWellFormed(s, t);
    } else {
      assert r.store == s;
    }
  }

  /** An update changes only the investment with that id: every other
      investment of every user stays in place, and each list keeps its
      length. */
  lemma AtualizarOnlyThat(s: Store, id: nat, dto: InvestmentDto, typeNames: set<string>,
                          parseDate: string -> Option<Date>, c: string, k: nat)
    requires AtualizarInvestimento(s, id, dto, typeNames, parseDate).outcome.Ok?
    requires c in s.users && k < |s.users[c].investments|
    ensures var after := AtualizarInvestimento(s, id, dto, typeNames, parseDate).store.users[c].investments;
      && |after| == |s.users[c].investments|
      && (s.users[c].investments[k].id != id ==> after[k] == s.users[c].investments[k])
      && (s.users[c].investments[k].id == id ==>
            && after[k].id == id && after[k].owner == s.users[c].investments[k].owner
            && after[k].name == dto.name && after[k].kind == Some(ParseType(typeNames, dto.kind).name)
            && after[k].bankCode == s.users[c].investments[k].bankCode
            && after[k].dailyYields == Some(UpdatedDailyYields(dto.dailyYields, parseDate).value))
  {
  }

  /** Sending the same update twice leaves the store as sending it once. */
  lemma AtualizarIdempotent(s: Store, id: nat, dto: InvestmentDto, typeNames: set<string>,
                            parseDate: string -> Option<Date>)
    requires AtualizarInvestimento(s, id, dto, typeNames, parseDate).outcome.Ok?
    ensures var once := AtualizarInvestimento(s, id, dto, typeNames, parseDate).store;
      AtualizarInvestimento(once, id, dto, typeNames, parseDate) == Step(Ok(()), once)
  {
    var once := AtualizarInvestimento(s, id, dto, typeNames, parseDate).store;
    var c :| c in s.users && exists k :: 0 <= k < |s.users[c].investments| && s.users[c].investments[k].id == id;
    var k :| 0 <= k < |s.users[c].investments| && s.users[c].investments[k].id == id;
    assert once.users[c].investments[k].id == id;
    assert HasInvestment(once, id);
    var twice := AtualizarInvestimento(once, id, dto, typeNames, parseDate).store;
    forall c' | c' in once.users ensures twice.users[c'] == once.users[c'] {
      var a := once.users[c'].investments;
      var b := twice.users[c'].investments;
      assert |b| == |a|;
      forall i | 0 <= i < |a| ensures b[i] == a[i] {}
    }
  }
}
