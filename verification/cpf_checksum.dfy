/** Properties of the CPF value object: what normalization keeps, how
    construction relates to normalization, and an independent formulation of
    the two MOD-11 check digits that the validator is proved to agree with. */
module CpfChecksum {
  import opened Wrappers
  import opened JavaText
  import opened Cpf

  /** Normalization distributes over concatenation ... */
  lemma {:induction false} KeepDigitsConcat(a: string, b: string)
    ensures KeepDigits(a + b) == KeepDigits(a) + KeepDigits(b)
    decreases |a|
  {
    if a == [] {
      assert a + b == b;
    } else {
      assert (a + b)[0] == a[0];
      assert (a + b)[1..] == a[1..] + b;
      KeepDigitsConcat(a[1..], b);
    }
  }

  /** ... and keeps a single character exactly when it is a digit, which
      together pin it down as "the digits of the input, in order". */
  lemma KeepDigitsSingle(c: char)
    ensures KeepDigits([c]) == (if IsDigit(c) then [c] else [])
  {
    assert [c][1..] == [];
  }

  /** A character survives normalization exactly when it is a digit of the input. */
  lemma {:induction false} KeepDigitsMembers(s: string, c: char)
    ensures c in KeepDigits(s) <==> c in s && IsDigit(c)
    decreases |s|
  {
    if s != [] {
      KeepDigitsMembers(s[1..], c);
      assert s == [s[0]] + s[1..];
    }
  }

  /** A digit-only string is left unchanged. */
  lemma {:induction false} KeepDigitsOfDigits(s: string)
    requires AllDigits(s)
    ensures KeepDigits(s) == s
    decreases |s|
  {
    if s != [] {
      assert IsDigit(s[0]);
      KeepDigitsOfDigits(s[1..]);
      assert [s[0]] + s[1..] == s;
    }
  }

  /** `normalize` is idempotent. */
  lemma NormalizeIdempotent(s: Option<string>)
    ensures Normalize(Normalize(s)) == Normalize(s)
  {
    if s.Some? {
      KeepDigitsOfDigits(KeepDigits(s.value));
    }
  }

  /** Constructing again from `toString` of a constructed value gives the same
      value: the stored form is a fixed point of construction. */
  lemma CreateFromToString(s: Option<string>)
    requires Create(s).Success?
    ensures Create(Some(ToString(Create(s).value))) == Create(s)
  {
    var v := Create(s).value;
    KeepDigitsOfDigits(v.cpf);
    assert Normalize(Some(v.cpf)) == Some(v.cpf);
  }

  /** Two constructed values are equal exactly when the inputs normalize to
      the same digits, however they were punctuated. */
  lemma CreateEqualsIffSameDigits(x: Option<string>, y: Option<string>)
    requires Create(x).Success? && Create(y).Success?
    ensures Equals(Create(x).value, Create(y).value) <==> Normalize(x) == Normalize(y)
  {
  }

  /** Plain digit sum of the first `n` entries. */
  function DigitSum(d: seq<int>, n: nat): int
    requires n <= |d|
  {
    if n == 0 then 0 else DigitSum(d, n - 1) + d[n - 1]
  }

  /** `sum += digits[i] * (base + i)`: the ascending-weight sum of the usual
      textbook statement of the CPF check. */
  function AscendingSum(d: seq<int>, n: nat, base: int): int
    requires n <= |d|
  {
    if n == 0 then 0 else AscendingSum(d, n - 1, base) + d[n - 1] * (base + (n - 1))
  }

  /** Reference definition: with ascending weights `1..9` and `0..9`, each check
      digit is the weighted sum modulo 11, and then modulo 10. */
  predicate IsValidCpfRef(s: Option<string>) {
    && s.Some?
    && |s.value| == 11
    && AllDigits(s.value)
    && !AllSame(s.value)
    && (AscendingSum(Digits(s.value), 9, 1) % 11) % 10 == DigitValue(s.value[9])
    && (AscendingSum(Digits(s.value), 10, 0) % 11) % 10 == DigitValue(s.value[10])
  }

  lemma Distribute(x: int, a: int, b: int)
    ensures x * a + x * b == x * (a + b)
  {
  }

  /** The descending and ascending weights at each position add up to
      `top + base`. */
  lemma {:induction false} SumsComplement(d: seq<int>, n: nat, top: int, base: int)
    requires n <= |d|
    ensures WeightedSum(d, n, top) + AscendingSum(d, n, base) == (top + base) * DigitSum(d, n)
  {
    if n > 0 {
      SumsComplement(d, n - 1, top, base);
      var x := d[n - 1];
      Distribute(x, top - (n - 1), base + (n - 1));
      Distribute(top + base, DigitSum(d, n - 1), x);
      assert x * (top + base) == (top + base) * x;
    }
  }

  lemma NonNegativeProduct(x: int, y: int)
    requires x >= 0 && y >= 0
    ensures x * y >= 0
  {
  }

  lemma {:induction false} SumsNonNegative(d: seq<int>, n: nat, top: int, base: int)
    requires n <= |d| && forall i :: 0 <= i < |d| ==> 0 <= d[i]
    requires top >= n - 1 && base >= 0
    ensures WeightedSum(d, n, top) >= 0 && AscendingSum(d, n, base) >= 0
  {
    if n > 0 {
      SumsNonNegative(d, n - 1, top, base);
      NonNegativeProduct(d[n - 1], top - (n - 1));
      NonNegativeProduct(d[n - 1], base + (n - 1));
    }
  }

  lemma ModByQuotient(x: int, q: int, r: int)
    requires x == 11 * q + r && 0 <= r < 11
    ensures x % 11 == r
  {
  }

  /** If two non-negative sums add up to a multiple of 11, the Java reduction
      of one is the other modulo 11, then modulo 10. */
  lemma CheckDigitOfComplement(w: int, a: int, k: int)
    requires w >= 0 && a >= 0 && w + a == 11 * k
    ensures CheckDigit(w) == (a % 11) % 10
  {
    var q, r := a / 11, a % 11;
    assert a == 11 * q + r;
    if r == 0 {
      ModByQuotient(w, k - q, 0);
    } else {
      ModByQuotient(w, k - q - 1, 11 - r);
    }
  }

  /** The validator agrees with the ascending-weight reference on every input. */
  lemma IsValidCpfMatchesReference(s: Option<string>)
    ensures IsValidCpf(s) <==> IsValidCpfRef(s)
  {
    if s.Some? && |s.value| == 11 && AllDigits(s.value) {
      var d := Digits(s.value);
      SumsComplement(d, 9, 10, 1);
      SumsNonNegative(d, 9, 10, 1);
      CheckDigitOfComplement(WeightedSum(d, 9, 10), AscendingSum(d, 9, 1), DigitSum(d, 9));
      SumsComplement(d, 10, 11, 0);
      SumsNonNegative(d, 10, 11, 0);
      CheckDigitOfComplement(WeightedSum(d, 10, 11), AscendingSum(d, 10, 0), DigitSum(d, 10));
    }
  }

  lemma {:induction false} WeightedSumPrefix(d: seq<int>, e: seq<int>, n: nat, top: int)
    requires n <= |d| && n <= |e| && d[..n] == e[..n]
    ensures WeightedSum(d, n, top) == WeightedSum(e, n, top)
  {
    if n > 0 {
      assert d[n - 1] == d[..n][n - 1] == e[..n][n - 1] == e[n - 1];
      assert d[..n - 1] == d[..n][..n - 1];
      assert e[..n - 1] == e[..n][..n - 1];
      WeightedSumPrefix(d, e, n - 1, top);
    }
  }

  lemma DigitsPrefix(a: string, b: string, n: nat)
    requires AllDigits(a) && AllDigits(b) && n <= |a| && n <= |b| && a[..n] == b[..n]
    ensures Digits(a)[..n] == Digits(b)[..n]
  {
    forall i | 0 <= i < n ensures Digits(a)[i] == Digits(b)[i] {
      assert a[i] == a[..n][i] == b[..n][i] == b[i];
    }
  }

  /** The nine leading digits determine the two check digits: two valid CPFs
      that share their first nine digits are the same CPF. */
  lemma CheckDigitsDetermined(a: string, b: string)
    requires IsValidCpf(Some(a)) && IsValidCpf(Some(b))
    requires a[..9] == b[..9]
    ensures a == b
  {
    DigitsPrefix(a, b, 9);
    WeightedSumPrefix(Digits(a), Digits(b), 9, 10);
    assert a[9] == b[9];
    assert a[..10] == a[..9] + [a[9]] && b[..10] == b[..9] + [b[9]];
    DigitsPrefix(a, b, 10);
    WeightedSumPrefix(Digits(a), Digits(b), 10, 11);
    assert a[10] == b[10];
    forall i | 0 <= i < 11 ensures a[i] == b[i] {
      if i < 9 {
        assert a[i] == a[..9][i];
      }
    }
  }

  /** Sum of the weights `top - i` for `i` in `0 .. n-1`. */
  function WeightTotal(n: nat, top: int): int {
    if n == 0 then 0 else WeightTotal(n - 1, top) + (top - (n - 1))
  }

  lemma {:induction false} ConstantWeightedSum(d: seq<int>, n: nat, top: int, v: int)
    requires n <= |d| && forall i :: 0 <= i < |d| ==> d[i] == v
    ensures WeightedSum(d, n, top) == v * WeightTotal(n, top)
  {
    if n > 0 {
      ConstantWeightedSum(d, n - 1, top, v);
      Distribute(v, WeightTotal(n - 1, top), top - (n - 1));
    }
  }

  /** The eleven-digit string repeating one digit. */
  function Repdigit(c: char): (s: string)
    requires IsDigit(c)
    ensures |s| == 11 && AllDigits(s) && AllSame(s)
  {
    seq(11, _ => c)
  }

  /** Every repeated-digit string satisfies both check-digit equations, so it
      is the explicit repeated-digit rule, and only that rule, that rejects them. */
  lemma RepdigitsPassChecksum(c: char)
    requires IsDigit(c)
    ensures FirstCheckDigit(Repdigit(c)) == DigitValue(c)
    ensures SecondCheckDigit(Repdigit(c)) == DigitValue(c)
    ensures !IsValidCpf(Some(Repdigit(c)))
  {
    var s := Repdigit(c);
    var v := DigitValue(c);
    ConstantWeightedSum(Digits(s), 9, 10, v);
    ConstantWeightedSum(Digits(s), 10, 11, v);
    assert WeightTotal(9, 10) == 54;
    assert WeightTotal(10, 11) == 65;
    if v == 0 {
    } else if v == 1 {
    } else if v == 2 {
    } else if v == 3 {
    } else if v == 4 {
    } else if v == 5 {
    } else if v == 6 {
    } else if v == 7 {
    } else if v == 8 {
    } else {
      assert v == 9;
    }
  }

  /** "52998224725" passes every rule of the validator. */
  lemma KnownValidDigits()
    ensures IsValidCpf(Some("52998224725"))
  {
    var s := "52998224725";
    var d := Digits(s);
    assert d == [5, 2, 9, 9, 8, 2, 2, 4, 7, 2, 5];
    assert WeightedSum(d, 1, 10) == 50;
    assert WeightedSum(d, 2, 10) == 68;
    assert WeightedSum(d, 3, 10) == 140;
    assert WeightedSum(d, 4, 10) == 203;
    assert WeightedSum(d, 5, 10) == 251;
    assert WeightedSum(d, 6, 10) == 261;
    assert WeightedSum(d, 7, 10) == 269;
    assert WeightedSum(d, 8, 10) == 281;
    assert WeightedSum(d, 9, 10) == 295;
    assert WeightedSum(d, 1, 11) == 55;
    assert WeightedSum(d, 2, 11) == 75;
    assert WeightedSum(d, 3, 11) == 156;
    assert WeightedSum(d, 4, 11) == 228;
    assert WeightedSum(d, 5, 11) == 284;
    assert WeightedSum(d, 6, 11) == 296;
    assert WeightedSum(d, 7, 11) == 306;
    assert WeightedSum(d, 8, 11) == 322;
    assert WeightedSum(d, 9, 11) == 343;
    assert WeightedSum(d, 10, 11) == 347;
    assert s[1] != s[0];
  }

  /** The usual printed form `ddd.ddd.ddd-dd`. */
  function Format(d: string): (f: string)
    requires |d| == 11
    ensures |f| == 14
  {
    d[..3] + "." + d[3..6] + "." + d[6..9] + "-" + d[9..]
  }

  lemma KeepDigitsDropsSeparator(a: string, c: char, b: string)
    requires !IsDigit(c)
    ensures KeepDigits(a + [c] + b) == KeepDigits(a) + KeepDigits(b)
  {
    KeepDigitsConcat(a + [c], b);
    KeepDigitsConcat(a, [c]);
    KeepDigitsSingle(c);
  }

  /** Normalizing the printed form gives back the bare digits. */
  lemma FormattedNormalizes(d: string)
    requires |d| == 11 && AllDigits(d)
    ensures KeepDigits(Format(d)) == d
  {
    var p1, p2, p3, p4 := d[..3], d[3..6], d[6..9], d[9..];
    KeepDigitsOfDigits(p1);
    KeepDigitsOfDigits(p2);
    KeepDigitsOfDigits(p3);
    KeepDigitsOfDigits(p4);
    assert Format(d) == p1 + ['.'] + (p2 + ['.'] + (p3 + ['-'] + p4));
    KeepDigitsDropsSeparator(p3, '-', p4);
    KeepDigitsDropsSeparator(p2, '.', p3 + ['-'] + p4);
    KeepDigitsDropsSeparator(p1, '.', p2 + ['.'] + (p3 + ['-'] + p4));
    assert p1 + (p2 + (p3 + p4)) == d;
  }

  /** Constructing from the printed form and from the bare digits gives the
      same outcome. */
  lemma CreateFormatted(d: string)
    requires |d| == 11 && AllDigits(d)
    ensures Create(Some(Format(d))).Success? <==> Create(Some(d)).Success?
    ensures Create(Some(d)).Success? ==> Create(Some(Format(d))).value == Create(Some(d)).value
  {
    FormattedNormalizes(d);
    KeepDigitsOfDigits(d);
  }

  lemma FormatKnownValid()
    ensures Format("52998224725") == "529.982.247-25"
  {
    var d := "52998224725";
    assert d[..3] == "529" && d[3..6] == "982" && d[6..9] == "247" && d[9..] == "25";
  }

  /** "52998224725" constructs a value holding exactly those digits. */
  lemma KnownValidCpf()
    ensures Create(Some("52998224725")) == Success(CpfVO("52998224725"))
  {
    KnownValidDigits();
    KeepDigitsOfDigits("52998224725");
  }

  /** "529.982.247-25" constructs the same value as "52998224725". */
  lemma KnownValidFormattedCpf()
    ensures Create(Some("529.982.247-25")) == Success(CpfVO("52998224725"))
  {
    KnownValidCpf();
    CreateFormatted("52998224725");
    FormatKnownValid();
  }

  /** "111.111.111-11" normalizes to a repeated digit and is rejected. */
  lemma KnownRepeatedCpf()
    ensures Create(Some("111.111.111-11")).Failure?
  {
    var d := Repdigit('1');
    CreateFormatted(d);
    assert Format(d) == "111.111.111-11" by {
      assert d[..3] == "111" && d[3..6] == "111" && d[6..9] == "111" && d[9..] == "11";
    }
    KeepDigitsOfDigits(d);
  }
}
