/** `BancoEnum`: the fixed table of five banks with their bank codes, and the
    case-insensitive lookup of a code by bank name. */
module Banco {
  import opened Wrappers
  import opened JavaText

  datatype BancoEnum = NUBANK | ITAU | BRADESCO | SANTANDER | CAIXA {

    function NomeBanco(): string {
      match this
      case NUBANK => "Nubank"
      case ITAU => "Itaú"
      case BRADESCO => "Bradesco"
      case SANTANDER => "Santander"
      case CAIXA => "Caixa Econômica"
    }

    function CodigoBancario(): int {
      match this
      case NUBANK => 260
      case ITAU => 341
      case BRADESCO => 237
      case SANTANDER => 33
      case CAIXA => 104
    }
  }

  /** `BancoEnum.values()`, in declaration order. */
  const Values: seq<BancoEnum> := [NUBANK, ITAU, BRADESCO, SANTANDER, CAIXA]

  /** Position of a constant in `values()`; every constant is listed. */
  function Ordinal(b: BancoEnum): (j: nat)
    ensures j < |Values| && Values[j] == b
  {
    match b
    case NUBANK => 0
    case ITAU => 1
    case BRADESCO => 2
    case SANTANDER => 3
    case CAIXA => 4
  }

  /** The `IllegalArgumentException` for a name matching no constant. */
  datatype BankNotFound = BankNotFound(name: Option<string>)

  /** No two constants have names of the same length, so no name can match two
      constants ignoring case. */
  lemma NamesDistinguishConstants(a: BancoEnum, b: BancoEnum, nome: Option<string>)
    requires EqualsIgnoreCase(a.NomeBanco(), nome) && EqualsIgnoreCase(b.NomeBanco(), nome)
    ensures a == b
  {
  }

  /** The loop of `getCodigoPorNome` from position `i` of `values()` on. */
  function FindFrom(i: nat, nome: Option<string>): (r: Result<int, BankNotFound>)
    requires i <= |Values|
    ensures r.Success? <==> exists j :: i <= j < |Values| && EqualsIgnoreCase(Values[j].NomeBanco(), nome)
    ensures r.Success? ==> exists j :: i <= j < |Values| && EqualsIgnoreCase(Values[j].NomeBanco(), nome)
                                         && r.value == Values[j].CodigoBancario()
    ensures r.Failure? ==> r.error == BankNotFound(nome)
    decreases |Values| - i
  {
    if i == |Values| then Failure(BankNotFound(nome))
    else if EqualsIgnoreCase(Values[i].NomeBanco(), nome) then Success(Values[i].CodigoBancario())
    else FindFrom(i + 1, nome)
  }

  /** `getCodigoPorNome`: the code of the one constant whose name equals the
      argument ignoring case; a null or unmatched name throws. */
  function GetCodigoPorNome(nome: Option<string>): (r: Result<int, BankNotFound>)
    ensures r.Success? <==> exists b: BancoEnum :: EqualsIgnoreCase(b.NomeBanco(), nome)
    ensures forall b: BancoEnum :: EqualsIgnoreCase(b.NomeBanco(), nome) ==> r == Success(b.CodigoBancario())
    ensures r.Success? ==> r.value in {260, 341, 237, 33, 104}
    ensures r.Failure? ==> r.error == BankNotFound(nome)
    ensures nome.None? ==> r.Failure?
  {
    var r := FindFrom(0, nome);
    forall b: BancoEnum | EqualsIgnoreCase(b.NomeBanco(), nome)
      ensures r == Success(b.CodigoBancario())
    {
      assert EqualsIgnoreCase(Values[Ordinal(b)].NomeBanco(), nome);
      var j :| 0 <= j < |Values| && EqualsIgnoreCase(Values[j].NomeBanco(), nome) && r.value == Values[j].CodigoBancario();
      NamesDistinguishConstants(b, Values[j], nome);
    }
    r
  }

  /** Names that agree ignoring case look up the same code, or both fail. */
  lemma LookupIgnoresCase(x: string, y: string)
    requires FoldString(x) == FoldString(y)
    ensures GetCodigoPorNome(Some(x)).Success? <==> GetCodigoPorNome(Some(y)).Success?
    ensures GetCodigoPorNome(Some(x)).Success? ==> GetCodigoPorNome(Some(x)).value == GetCodigoPorNome(Some(y)).value
  {
    forall b: BancoEnum
      ensures EqualsIgnoreCase(b.NomeBanco(), Some(x)) <==> EqualsIgnoreCase(b.NomeBanco(), Some(y))
    {
      EqualsIgnoreCaseIffFold(b.NomeBanco(), x);
      EqualsIgnoreCaseIffFold(b.NomeBanco(), y);
    }
  }

  /** The five names as written in the table. */
  lemma TableCodes()
    ensures GetCodigoPorNome(Some("Nubank")) == Success(260)
    ensures GetCodigoPorNome(Some("Itaú")) == Success(341)
    ensures GetCodigoPorNome(Some("Bradesco")) == Success(237)
    ensures GetCodigoPorNome(Some("Santander")) == Success(33)
    ensures GetCodigoPorNome(Some("Caixa Econômica")) == Success(104)
  {
    assert EqualsIgnoreCase(NUBANK.NomeBanco(), Some("Nubank"));
    assert EqualsIgnoreCase(ITAU.NomeBanco(), Some("Itaú"));
    assert EqualsIgnoreCase(BRADESCO.NomeBanco(), Some("Bradesco"));
    assert EqualsIgnoreCase(SANTANDER.NomeBanco(), Some("Santander"));
    assert EqualsIgnoreCase(CAIXA.NomeBanco(), Some("Caixa Econômica"));
  }

  /** Upper-case spellings find the same codes. */
  lemma UpperCaseNamesFindCodes()
    ensures GetCodigoPorNome(Some("NUBANK")) == Success(260)
    ensures GetCodigoPorNome(Some("ITAÚ")) == Success(341)
  {
    assert EqualsIgnoreCase(NUBANK.NomeBanco(), Some("NUBANK"));
    assert EqualsIgnoreCase(ITAU.NomeBanco(), Some("ITAÚ"));
  }

  /** Lower-case spellings find the same codes. */
  lemma LowerCaseNamesFindCodes()
    ensures GetCodigoPorNome(Some("nubank")) == Success(260)
    ensures GetCodigoPorNome(Some("caixa econômica")) == Success(104)
  {
    assert EqualsIgnoreCase(NUBANK.NomeBanco(), Some("nubank"));
    assert EqualsIgnoreCase(CAIXA.NomeBanco(), Some("caixa econômica"));
  }

  /** A bank outside the table is not found. */
  lemma UnknownBankNotFound()
    ensures GetCodigoPorNome(Some("C6 Bank")) == Failure(BankNotFound(Some("C6 Bank")))
  {
    var n := Some("C6 Bank");
    forall b: BancoEnum ensures !EqualsIgnoreCase(b.NomeBanco(), n) {
      if b == BRADESCO {
        assert !CharEqualsIgnoreCase('B', 'C');
      }
    }
  }
}
