/** The CPF value object (`CpfVO`): an 11-digit Brazilian taxpayer number whose
    last two digits are MOD-11 check digits of the first nine and ten. */
module Cpf {
  import opened Wrappers
  import opened JavaText

  /** A constructed value: only the normalized digits are kept. */
  datatype CpfVO = CpfVO(cpf: string)

  /** The `IllegalArgumentException` thrown by the constructor, with the raw input. */
  datatype InvalidCpf = InvalidCpf(input: Option<string>)

  /** `replaceAll("\\D", "")`: every non-digit character dropped, the digits
      kept in their original order. */
  function KeepDigits(s: string): (r: string)
    ensures AllDigits(r)
    ensures |r| <= |s|
  {
    if s == [] then []
    else if IsDigit(s[0]) then [s[0]] + KeepDigits(s[1..])
    else KeepDigits(s[1..])
  }

  /** `normalize`: null stays null, anything else loses its non-digits. */
  function Normalize(s: Option<string>): (r: Option<string>)
    ensures r.None? <==> s.None?
    ensures r.Some? ==> AllDigits(r.value) && |r.value| <= |s.value|
  {
    match s
    case None => None
    case Some(t) => Some(KeepDigits(t))
  }

  /** The digit values of a digit string, `cpf.chars().map(c -> c - '0')`. */
  function Digits(s: string): (d: seq<int>)
    requires AllDigits(s)
    ensures |d| == |s|
    ensures forall i :: 0 <= i < |d| ==> 0 <= d[i] <= 9
  {
    seq(|s|, i requires 0 <= i < |s| => DigitValue(s[i]))
  }

  /** `sum += digits[i] * (top - i)` for `i` in `0 .. n-1`. */
  function WeightedSum(d: seq<int>, n: nat, top: int): int
    requires n <= |d|
  {
    if n == 0 then 0 else WeightedSum(d, n - 1, top) + d[n - 1] * (top - (n - 1))
  }

  /** `dv = 11 - (sum % 11); if (dv >= 10) dv = 0;` with Java's remainder. */
  function CheckDigit(sum: int): (dv: int)
    ensures 0 <= dv <= 9
  {
    var dv := 11 - JavaRem(sum, 11);
    if dv >= 10 then 0 else dv
  }

  /** All eleven characters equal: what `(\d)\1{10}` matches once the string
      is already known to be eleven digits. */
  predicate AllSame(s: string) {
    forall i :: 0 <= i < |s| ==> s[i] == s[0]
  }

  /** The first check digit (position 9) of a digit string of length at least nine. */
  function FirstCheckDigit(s: string): int
    requires AllDigits(s) && |s| >= 9
  {
    CheckDigit(WeightedSum(Digits(s), 9, 10))
  }

  /** The second check digit (position 10), over the first ten digits. */
  function SecondCheckDigit(s: string): int
    requires AllDigits(s) && |s| >= 10
  {
    CheckDigit(WeightedSum(Digits(s), 10, 11))
  }

  /** `isValidCpf`: non-null, exactly eleven digits, not a repeated digit, both
      check digits right. */
  predicate IsValidCpf(s: Option<string>) {
    && s.Some?
    && |s.value| == 11
    && AllDigits(s.value)
    && !AllSame(s.value)
    && FirstCheckDigit(s.value) == DigitValue(s.value[9])
    && SecondCheckDigit(s.value) == DigitValue(s.value[10])
  }

  /** `new CpfVO(cpf)`: succeeds exactly when the normalized input is a valid
      CPF, and then stores the normalized digits; otherwise throws. */
  function Create(s: Option<string>): (r: Result<CpfVO, InvalidCpf>)
    ensures r.Success? <==> IsValidCpf(Normalize(s))
    ensures r.Success? ==> Normalize(s) == Some(r.value.cpf)
    ensures r.Success? ==> |r.value.cpf| == 11 && AllDigits(r.value.cpf)
    ensures r.Failure? ==> r.error == InvalidCpf(s)
  {
    var digits := Normalize(s);
    if IsValidCpf(digits) then Success(CpfVO(digits.value)) else Failure(InvalidCpf(s))
  }

  /** `equals`: two values are equal exactly when their stored digits are.
      The ensures only bridges to Dafny's datatype equality; what `equals`
      means for constructed values is `CpfChecksum.CreateEqualsIffSameDigits`. */
  predicate Equals(a: CpfVO, b: CpfVO)
    ensures Equals(a, b) <==> a == b
  {
    a.cpf == b.cpf
  }

  /** `toString`: the stored digits. */
  function ToString(v: CpfVO): string {
    v.cpf
  }
}
