# Investment API core, modelled in Dafny

This project models the core of an investment-tracking REST API. Users are keyed by CPF, the Brazilian taxpayer number. Each user owns investments, and each investment owns daily-yield rows. The core has four parts:

- **`CpfVO`**, the CPF value object. It keeps only the digits of its input. It accepts the result only when it has exactly eleven digits, they are not all the same digit, and both MOD-11 check digits are right (modules `Cpf` and `CpfChecksum`).
- **`BancoEnum`**, the fixed table of five banks and their codes. Its lookup of a code by bank name ignores case (module `Banco`).
- **`UsuarioInvestimentoService`** (module `UsuarioService`), which:
  - registers a user;
  - replaces *all* of a user's investments;
  - looks a user up;
  - deletes a user, which deletes the user's investments too.
- **`InvestimentoService`** (module `InvestimentoService`), which:
  - *appends* investments to a user;
  - lists a user's investments;
  - deletes one investment by id;
  - updates one investment in place.

Module `Aggregate` holds the entities, the request records and the store. The store maps each CPF to the user's list of investments and also holds the next value of the identity column. Every service call is a pure function from a store to a `Step`, made of:

- an `Outcome`: `Ok`, `BadRequest` with a reason, `NotFound`, or `Thrown` with an exception kind;
- the store after the transaction.

Every method is `@Transactional`, so a thrown exception leaves the store as it was. `HttpStatus` maps an outcome to what the client sees, following `RestExceptionHandler`: a date-parse failure gives 400 and any other exception gives 500. `WellFormed` is the invariant the relational schema keeps:

- every investment is listed under the user its foreign key names;
- every id is below the identity counter;
- no id occurs twice.

Three things become parameters:

- **`parseDate`** stands for `LocalDate.parse` with `dd-MM-yyyy`.
- **`typeNames`** is the set of constant names of `TipoInvestimentoEnum`. The enum is not modelled, so `valueOf(s.toUpperCase())` is a lookup of the upper-cased string in that set.
- **Java's `toUpperCase`, `equalsIgnoreCase` and `trim`** are modelled per character in `JavaText`. `%` is modelled with Java's truncating remainder.

Lemmas in `UsuarioProperties`, `InvestimentoProperties` and `ServiceContrast` cover:

- each operation keeping `WellFormed`;
- what each call changes and what it leaves alone;
- replace-all against append;
- the two services' opposite handling of a bad date;
- worked examples: a known-valid CPF, a repeated-digit CPF, register-then-save-then-list, register-then-replace-then-find, deleting an unknown user, and an update with an unknown type.

## Model

| member | source | states |
|---|---|---|
| Cpf.Normalize | src/main/java/com/challenge/investimentos/investimentos_api/model/CpfVO.java:27-30 | null stays null; otherwise the result is all digits and no longer than the input |
| CpfChecksum.KeepDigitsMembers | src/main/java/com/challenge/investimentos/investimentos_api/model/CpfVO.java:29 | a character occurs in the normalized string exactly when it is a digit that occurs in the input |
| CpfChecksum.KeepDigitsConcat | src/main/java/com/challenge/investimentos/investimentos_api/model/CpfVO.java:29 | removing non-digits distributes over concatenation, so digit order is kept |
| CpfChecksum.KeepDigitsOfDigits | src/main/java/com/challenge/investimentos/investimentos_api/model/CpfVO.java:29 | a digit-only string is left unchanged |
| CpfChecksum.NormalizeIdempotent | src/main/java/com/challenge/investimentos/investimentos_api/model/CpfVO.java:27-30 | normalizing twice is the same as normalizing once |
| Cpf.Create | src/main/java/com/challenge/investimentos/investimentos_api/model/CpfVO.java:15-21 | construction succeeds exactly when the normalized input is a valid CPF; the value then holds those 11 digits; otherwise the error carries the raw input |
| CpfChecksum.IsValidCpfMatchesReference | src/main/java/com/challenge/investimentos/investimentos_api/model/CpfVO.java:33-57 | the source's rule (descending weights, `11 - sum % 11`, 10 and 11 become 0) accepts exactly the strings the textbook rule accepts (ascending weights, `sum % 11 % 10`) |
| CpfChecksum.CheckDigitsDetermined | src/main/java/com/challenge/investimentos/investimentos_api/model/CpfVO.java:42-53 | two valid CPFs with the same first nine digits are equal: the check digits are a function of the base |
| CpfChecksum.RepdigitsPassChecksum | src/main/java/com/challenge/investimentos/investimentos_api/model/CpfVO.java:36-37 | every repeated-digit string satisfies both check-digit equations, so only the repeated-digit rule rejects it |
| CpfChecksum.CreateFromToString | src/main/java/com/challenge/investimentos/investimentos_api/model/CpfVO.java:15-21 | constructing again from `toString` of a value gives the same value |
| CpfChecksum.CreateEqualsIffSameDigits | src/main/java/com/challenge/investimentos/investimentos_api/model/CpfVO.java:59-63 | `equals` (modelled by `Cpf.Equals`) holds between two constructed values exactly when their inputs normalize to the same digits |
| CpfChecksum.CreateFormatted | src/main/java/com/challenge/investimentos/investimentos_api/model/CpfVO.java:15-30 | the punctuated form `ddd.ddd.ddd-dd` of 11 digits is accepted exactly when the bare digits are, and gives the same value |
| CpfChecksum.KnownValidFormattedCpf | src/main/java/com/challenge/investimentos/investimentos_api/model/CpfVO.java:15-21 | "529.982.247-25" gives the value "52998224725" |
| CpfChecksum.KnownValidCpf | src/main/java/com/challenge/investimentos/investimentos_api/model/CpfVO.java:15-21 | "52998224725" gives the value "52998224725" |
| CpfChecksum.KnownRepeatedCpf | src/main/java/com/challenge/investimentos/investimentos_api/model/CpfVO.java:37 | "111.111.111-11" is rejected |
| JavaText.TrimEmptyIffBlank | src/main/java/com/challenge/investimentos/investimentos_api/service/UsuarioInvestimentoService.java:33 | `trim().isEmpty()` holds exactly when every character is at most U+0020 |
| JavaText.EqualsIgnoreCaseIffFold | src/main/java/com/challenge/investimentos/investimentos_api/enums/BancoEnum.java:37 | `equalsIgnoreCase` holds exactly when both strings fold to the same string |
| JavaText.IgnoreCaseBeyondLatin1 | src/main/java/com/challenge/investimentos/investimentos_api/enums/BancoEnum.java:37 | `equalsIgnoreCase` matches sharp s with capital sharp s and the micro sign with Greek mu, but not sharp s with "SS" |
| JavaText.ToUpperCaseIdempotent | src/main/java/com/challenge/investimentos/investimentos_api/service/InvestimentoService.java:66 | upper-casing an upper-cased string changes nothing |
| Aggregate.ParseTypeOfParsed | src/main/java/com/challenge/investimentos/investimentos_api/service/InvestimentoService.java:64-69 | a parsed type name parses back to itself |
| Aggregate.HttpStatus | src/main/java/com/challenge/investimentos/investimentos_api/config/RestExceptionHandler.java:63-96 | 200 exactly for success, 404 exactly for not found, 400 exactly for a rejection or a date-parse exception, 500 exactly for any other exception |
| Banco.Ordinal | src/main/java/com/challenge/investimentos/investimentos_api/enums/BancoEnum.java:8-12 | every constant occurs in `values()` |
| Banco.NamesDistinguishConstants | src/main/java/com/challenge/investimentos/investimentos_api/enums/BancoEnum.java:8-12 | no name matches two constants ignoring case |
| Banco.GetCodigoPorNome | src/main/java/com/challenge/investimentos/investimentos_api/enums/BancoEnum.java:35-42 | succeeds exactly when some constant's name matches ignoring case, and then gives that constant's code; the code is one of the five; null or no match throws with the given name |
| Banco.LookupIgnoresCase | src/main/java/com/challenge/investimentos/investimentos_api/enums/BancoEnum.java:35-42 | names that agree ignoring case give the same answer |
| Banco.TableCodes | src/main/java/com/challenge/investimentos/investimentos_api/enums/BancoEnum.java:8-12 | each name as written gives its code: 260, 341, 237, 33, 104 |
| Banco.UpperCaseNamesFindCodes | src/main/java/com/challenge/investimentos/investimentos_api/enums/BancoEnum.java:35-42 | "NUBANK" and "ITAÚ" find the codes of Nubank and Itaú |
| Banco.LowerCaseNamesFindCodes | src/main/java/com/challenge/investimentos/investimentos_api/enums/BancoEnum.java:35-42 | "nubank" and "caixa econômica" find the codes of Nubank and Caixa Econômica |
| Banco.UnknownBankNotFound | src/main/java/com/challenge/investimentos/investimentos_api/enums/BancoEnum.java:41 | a bank outside the table is not found |
| UsuarioService.CriarUsuarioInvestimento | src/main/java/com/challenge/investimentos/investimentos_api/service/UsuarioInvestimentoService.java:31-47 | a null or blank CPF is rejected as required; a non-blank CPF is rejected as already registered exactly when it is registered; either leaves the store unchanged; otherwise exactly one user with no investments is added under the CPF as given |
| UsuarioService.BuildDailyYields | src/main/java/com/challenge/investimentos/investimentos_api/service/UsuarioInvestimentoService.java:98-120 | a null or empty list gives no yields; otherwise one yield per request, in order |
| UsuarioService.BuildDailyYield | src/main/java/com/challenge/investimentos/investimentos_api/service/UsuarioInvestimentoService.java:101-113 | the date is kept exactly when it is present and parses; otherwise it is stored as null; the other fields are copied |
| UsuarioService.BuildInvestment | src/main/java/com/challenge/investimentos/investimentos_api/service/UsuarioInvestimentoService.java:72-123 | succeeds exactly when the type parses; a null type throws NullPointerException; an unknown type throws; on success the fields are copied, the bank code stays unset and the yields are the mapped list |
| UsuarioService.BuildInvestments | src/main/java/com/challenge/investimentos/investimentos_api/service/UsuarioInvestimentoService.java:72-123 | succeeds exactly when every type parses; element k is built from request k with identity `firstId + k`; a failure is the first failing request's |
| UsuarioService.SalvarInvestimentos | src/main/java/com/challenge/investimentos/investimentos_api/service/UsuarioInvestimentoService.java:49-129 | a null or blank CPF, an unknown user and a null or empty list are rejected, each exactly in its case; past those checks the call throws exactly when building fails, with the first failing request's exception (an unknown type, so 500); any failure leaves the store unchanged; on success the user's list is exactly the built list, other users are untouched, and one identity is drawn per request |
| UsuarioService.BuscarPorCpf | src/main/java/com/challenge/investimentos/investimentos_api/service/UsuarioInvestimentoService.java:136-143 | found exactly when the CPF is registered, and then the user stored under it |
| UsuarioProperties.BuscarAfterCriar | src/main/java/com/challenge/investimentos/investimentos_api/service/UsuarioInvestimentoService.java:31-47 | right after a successful registration the CPF is found with no investments, and every other CPF is found or not as before |
| UsuarioProperties.BuscarAfterDeletar | src/main/java/com/challenge/investimentos/investimentos_api/service/UsuarioInvestimentoService.java:145-155 | after deleting a CPF it is not found, and every other CPF is found or not as before |
| UsuarioService.DeletarPorCpf | src/main/java/com/challenge/investimentos/investimentos_api/service/UsuarioInvestimentoService.java:145-159 | not found, with no change, exactly when the CPF is not registered; otherwise only that user is removed |
| UsuarioProperties.CriarPreservesWellFormed | src/main/java/com/challenge/investimentos/investimentos_api/service/UsuarioInvestimentoService.java:31-47 | registering keeps the store invariant |
| UsuarioProperties.SalvarPreservesWellFormed | src/main/java/com/challenge/investimentos/investimentos_api/service/UsuarioInvestimentoService.java:66-126 | replacing keeps the store invariant |
| UsuarioProperties.SalvarReplacesAll | src/main/java/com/challenge/investimentos/investimentos_api/service/UsuarioInvestimentoService.java:66-70 | after success the user holds one investment per request, all owned by it, and none of the investments it held before |
| UsuarioProperties.SalvarSucceedsIffTypesParse | src/main/java/com/challenge/investimentos/investimentos_api/service/UsuarioInvestimentoService.java:82-87 | once CPF, user and list pass, the call succeeds exactly when every type parses; dates never make it fail |
| UsuarioProperties.SalvarStoresUnparsedDatesAsNull | src/main/java/com/challenge/investimentos/investimentos_api/service/UsuarioInvestimentoService.java:100-115 | stored yield j of investment k has a null date exactly when the requested date was null or did not parse; its amount is copied |
| UsuarioProperties.SalvarIdempotentUpToIds | src/main/java/com/challenge/investimentos/investimentos_api/service/UsuarioInvestimentoService.java:49-129 | saving the same request twice leaves the same investments as saving it once, apart from their ids |
| UsuarioProperties.BuildInvestmentsRenumber | src/main/java/com/challenge/investimentos/investimentos_api/service/UsuarioInvestimentoService.java:72-123 | building from another first identity builds the same investments, renumbered |
| UsuarioProperties.DeletarPreservesWellFormed | src/main/java/com/challenge/investimentos/investimentos_api/service/UsuarioInvestimentoService.java:145-159 | deleting a user keeps the store invariant |
| UsuarioProperties.DeletarCascades | src/main/java/com/challenge/investimentos/investimentos_api/model/UsuarioInvestimento.java:20 | after deleting a user, no investment anywhere belongs to it, and none of its ids can be found |
| InvestimentoService.BuildDailyYield | src/main/java/com/challenge/investimentos/investimentos_api/service/InvestimentoService.java:82-88 | a null date throws NullPointerException; an unparsable one throws DateTimeParseException; success exactly when the date parses, and then the fields are copied |
| InvestimentoService.BuildDailyYields | src/main/java/com/challenge/investimentos/investimentos_api/service/InvestimentoService.java:80-91 | succeeds exactly when every yield builds, and then keeps their order; a failure is the first failing yield's |
| InvestimentoService.BuildInvestment | src/main/java/com/challenge/investimentos/investimentos_api/service/InvestimentoService.java:55-94 | succeeds exactly when the type parses and every date is present and parses; a null type throws NullPointerException and an unknown one the invalid-type exception; with a known type, a date failure throws the exception of the first yield whose date is null or does not parse; a null yield list or an empty one leaves the field null |
| InvestimentoService.BuildInvestments | src/main/java/com/challenge/investimentos/investimentos_api/service/InvestimentoService.java:55-94 | succeeds exactly when every request builds; element k has identity `firstId + k`; a failure is the first failing request's |
| InvestimentoService.SalvarInvestimentos | src/main/java/com/challenge/investimentos/investimentos_api/service/InvestimentoService.java:40-98 | a null or empty CPF (not trimmed), an unknown user and a null or empty list are rejected, each exactly in its case; past those checks the call throws exactly when building fails, with the first failing request's exception (unknown type 500, bad date 400); any failure leaves the store unchanged; on success the built list is appended after the user's existing investments |
| InvestimentoService.CriarInvestimento | src/main/java/com/challenge/investimentos/investimentos_api/service/InvestimentoService.java:166-169 | behaves exactly as `salvarInvestimentos` |
| InvestimentoService.ListarPorCpf | src/main/java/com/challenge/investimentos/investimentos_api/service/InvestimentoService.java:105-112 | not found exactly when the CPF is unknown; otherwise the user's investments |
| InvestimentoService.DeletarPorId | src/main/java/com/challenge/investimentos/investimentos_api/service/InvestimentoService.java:114-120 | not found, with no change, exactly when no investment has the id; otherwise the id is gone and every other investment stays |
| InvestimentoService.UpdatedDailyYields | src/main/java/com/challenge/investimentos/investimentos_api/service/InvestimentoService.java:145-160 | a null request list gives an empty list; success exactly when every date is present and parses, and then the yields are the requests' yields one for one in order; otherwise the error is that of the first request whose date is null or does not parse |
| InvestimentoService.Overwrite | src/main/java/com/challenge/investimentos/investimentos_api/service/InvestimentoService.java:134-142 | id, owner and bank code are kept; type, name, amounts, rate, units and bank name come from the request |
| InvestimentoService.AtualizarInvestimento | src/main/java/com/challenge/investimentos/investimentos_api/service/InvestimentoService.java:122-164 | a missing id throws; a null type throws; an unknown type is a bad request; a null or unparsable date throws the exception of the first such yield; each leaves the store unchanged; success exactly when the id exists, the type parses and every date parses; then only the investment with that id is rewritten |
| InvestimentoProperties.SalvarPreservesWellFormed | src/main/java/com/challenge/investimentos/investimentos_api/service/InvestimentoService.java:40-98 | appending keeps the store invariant |
| InvestimentoProperties.SalvarAppends | src/main/java/com/challenge/investimentos/investimentos_api/service/InvestimentoService.java:96 | after success the old list is an unchanged prefix, followed by one new investment per request with fresh consecutive ids |
| InvestimentoProperties.SalvarSucceedsIff | src/main/java/com/challenge/investimentos/investimentos_api/service/InvestimentoService.java:55-94 | once CPF, user and list pass, success exactly when every type parses and every date is present and parses |
| InvestimentoProperties.ListarExactlyOwned | src/main/java/com/challenge/investimentos/investimentos_api/service/InvestimentoService.java:105-112 | in a well-formed store, listing finds exactly the investments whose foreign key is that CPF |
| InvestimentoProperties.RemoveIdAt | src/main/java/com/challenge/investimentos/investimentos_api/service/InvestimentoService.java:118 | with distinct ids, removing the id at position k removes exactly that position |
| InvestimentoProperties.DeletarPorIdRemovesOnlyThat | src/main/java/com/challenge/investimentos/investimentos_api/service/InvestimentoService.java:114-120 | deleting an existing id removes exactly that one investment from its owner's list, keeping the order of the rest; every other user is unchanged |
| InvestimentoProperties.DeletarPorIdPreservesWellFormed | src/main/java/com/challenge/investimentos/investimentos_api/service/InvestimentoService.java:114-120 | deleting an investment keeps the store invariant |
| InvestimentoProperties.DeletarPorIdTwiceNotFound | src/main/java/com/challenge/investimentos/investimentos_api/service/InvestimentoService.java:116 | deleting the same id again is not found and changes nothing |
| InvestimentoProperties.AtualizarPreservesWellFormed | src/main/java/com/challenge/investimentos/investimentos_api/service/InvestimentoService.java:122-164 | updating keeps the store invariant |
| InvestimentoProperties.AtualizarOnlyThat | src/main/java/com/challenge/investimentos/investimentos_api/service/InvestimentoService.java:134-162 | every list keeps its length; every investment with another id is unchanged; the one with the id keeps id, owner and bank code, takes the new name and type, and holds exactly the yields built from the request |
| InvestimentoProperties.AtualizarIdempotent | src/main/java/com/challenge/investimentos/investimentos_api/service/InvestimentoService.java:122-164 | sending the same update twice leaves the store as sending it once |
| ServiceContrast.ReplaceVersusAppend | src/main/java/com/challenge/investimentos/investimentos_api/service/UsuarioInvestimentoService.java:66-125 | on the same request the user service leaves n investments, the investment service the old count plus n |
| ServiceContrast.MalformedDateContrast | src/main/java/com/challenge/investimentos/investimentos_api/service/InvestimentoService.java:84 | with every type known and every date present, one unparsable date is stored as null by the user service but makes the investment service throw, answered 400, with the store unchanged |
| ServiceContrast.BuildInvestmentsErrorIsDateParse | src/main/java/com/challenge/investimentos/investimentos_api/service/InvestimentoService.java:64-89 | when every type parses and every date is present, any failure of the build is a date-parse failure |
| ServiceContrast.MalformedBeforeNullDate | src/main/java/com/challenge/investimentos/investimentos_api/service/InvestimentoService.java:78-89 | a present but malformed date ahead of any null date makes the append throw the date-parse failure, answered 400, with the store unchanged |
| ServiceContrast.MissingIdStatuses | src/main/java/com/challenge/investimentos/investimentos_api/service/InvestimentoService.java:114-125 | for a missing id, deleting answers 404 but updating answers 500 |
| ServiceContrast.UnknownTypeStatuses | src/main/java/com/challenge/investimentos/investimentos_api/service/InvestimentoService.java:64-132 | when the first investment of a request has an unknown type, both saves throw the invalid-type exception (500) and an update with it answers 400, each with the store unchanged |
| ServiceContrast.CriarAcceptsInvalidCpf | src/main/java/com/challenge/investimentos/investimentos_api/service/UsuarioInvestimentoService.java:31-47 | "123" is registered as a user although `CpfVO` rejects it |
| ServiceContrast.RegisterSaveList | src/main/java/com/challenge/investimentos/investimentos_api/service/InvestimentoService.java:40-112 | register "52998224725", append one "cdb" investment with one yield, list: exactly one investment, type "CDB", id 0, one yield |
| ServiceContrast.RegisterReplaceFind | src/main/java/com/challenge/investimentos/investimentos_api/service/UsuarioInvestimentoService.java:31-143 | register, replace with the same request, look up: exactly one investment, type "CDB", with one yield carrying the parsed date |
| ServiceContrast.DeleteUnknownUser | src/main/java/com/challenge/investimentos/investimentos_api/service/UsuarioInvestimentoService.java:147-150 | deleting "00000000000" when it is not registered is not found and changes nothing |
| ServiceContrast.UpdateWithUnknownType | src/main/java/com/challenge/investimentos/investimentos_api/service/InvestimentoService.java:127-132 | updating with type "NOT_A_TYPE" is a 400 bad request and leaves the store unchanged |

## Behaviour worth knowing

- **Registration does not validate the CPF.** `criarUsuarioInvestimento` stores any non-blank string as given; `CpfVO` is not used there (`ServiceContrast.CriarAcceptsInvalidCpf`).
- **The user service does not fail on a bad date.** `UsuarioInvestimentoService.salvarInvestimentos` catches the parse failure and stores the yield with a null date. Only an unknown or null type makes it fail (`UsuarioProperties.SalvarSucceedsIffTypesParse`, `UsuarioProperties.SalvarStoresUnparsedDatesAsNull`).
- **Two services save investments in different ways.** `InvestimentoService.salvarInvestimentos`, also reached through `criarInvestimento`, appends rather than replaces (`ServiceContrast.ReplaceVersusAppend`).
- **A missing investment on update is a server error.** `atualizarInvestimento` on a missing id throws a RuntimeException, which the generic handler answers with 500, not a not-found answer (`ServiceContrast.MissingIdStatuses`).
- **An unknown type on save is a server error.** It is rethrown as a RuntimeException and answered with 500. On update, an unknown type is a 400 answer (`ServiceContrast.UnknownTypeStatuses`).
- **The bank code is never set.** No service sets the investment's bank code; it stays null.

## Left out

- Controllers, repositories as interfaces, Swagger configuration and bean-validation annotations. These are glue around the services; the repositories are the `Store`.
- `listarTodos` and `listarTodosUsuarios`. They return the whole table and have no logic.
- `BancoService` and `TipoInvestimentoService`. They are not part of this model.
- `TipoInvestimentoEnum`. The enum is not part of this model, so its constant names are the parameter `typeNames`.
- `CpfVO.hashCode` and the JPA no-argument constructor. Hashing is an implementation detail of `equals`, and the no-argument constructor is only for the persistence layer.
- The exception messages and response-body texts. Only the kind of outcome and the HTTP status are modelled.
- A null request object, and a null element inside a request list. A null request would throw before any check; the model's request lists hold values only.
- `LocalDate.parse` internals. `dd-MM-yyyy` parsing is the parameter `parseDate`.
- Floating-point and numeric request fields. They are copied unchanged, so they are carried as opaque optional strings.
- Case mapping outside the characters modelled. Modelled are Basic Latin, Latin-1, the characters outside Latin-1 that Java maps to or from it (`Ÿ`, `ı`, `ſ`, `İ`, the Kelvin and Angstrom signs, `ẞ`, and Greek capital mu as the upper case of the micro sign), and Greek small mu. Every other character is caseless in the model. Length-changing `String` mappings such as `"ß".toUpperCase()` giving `"SS"` and locale-sensitive mapping are left out.
- Negative investment ids. Java's `Long id` path variable accepts them, but no investment has one, so they behave like any absent id (404 on delete, 500 on update); the model's ids are `nat`.
- Cpf.Equals: `equals` against null or an object of another class (false in the source) is not modelled; both arguments are `CpfVO` values.
- The database's identity generator and its row order. Identities come from a counter in the store, and `findByUsuarioInvestimento` is modelled as returning investments in insertion order.
- Concurrency and transaction isolation. Each call is one atomic transition.
