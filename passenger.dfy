/** The CPF check-digit validator and the age computation of Passenger. */
module PassengerRules {
  import opened Dates
  import opened Models

  predicate IsDigit(c: char) { '0' <= c <= '9' }

  function Digit(c: char): (d: int)
    requires IsDigit(c)
    ensures 0 <= d <= 9 && "0123456789"[d] == c
  {
    c as int - '0' as int
  }

  /** Σ_{i<n} digit(cpf[i]) · (top − i): the weighted sum behind one check digit. */
  function WeightedSum(cpf: string, n: nat, top: int): (r: int)
    requires n <= |cpf|
    requires forall i :: 0 <= i < n ==> IsDigit(cpf[i])
    ensures top >= n ==> 0 <= r && 2 * r <= 9 * (2 * n * top - n * (n - 1))
  {
    if n == 0 then 0
    else
      var w := top - (n - 1);
      var d := Digit(cpf[n - 1]);
      assert top >= n ==> 0 <= d * w <= 9 * w;
      assert 9 * (2 * (n - 1) * top - (n - 1) * (n - 2)) + 18 * w == 9 * (2 * n * top - n * (n - 1));
      WeightedSum(cpf, n - 1, top) + d * w
  }

  /**
   * The check digit of a weighted sum as the CPF standard states it: for a
   * remainder r of the sum by 11, the digit is 0 when r is 0 or 1, else 11 − r.
   */
  function StandardCheckDigit(sum: int): (d: int)
    ensures 0 <= d <= 9
  {
    var r := sum % 11;
    if r < 2 then 0 else 11 - r
  }

  /**
   * A valid CPF: eleven decimal digits, not all the same, whose last two are
   * the check digits of the first nine (weights 10 down to 2) and of the first
   * ten (weights 11 down to 2).
   */
  predicate IsValidCpf(cpf: string) {
    |cpf| == 11
    && (forall i :: 0 <= i < 11 ==> IsDigit(cpf[i]))
    && (exists i :: 0 <= i < 11 && cpf[i] != cpf[0])
    && StandardCheckDigit(WeightedSum(cpf, 9, 10)) == Digit(cpf[9])
    && StandardCheckDigit(WeightedSum(cpf, 10, 11)) == Digit(cpf[10])
  }

  /** The code's rule, (10 · sum) mod 11 with 10 read as 0, is the standard rule. */
  lemma TimesTenModElevenIsStandard(sum: int)
    ensures (if (sum * 10) % 11 == 10 then 0 else (sum * 10) % 11) == StandardCheckDigit(sum)
  {
    var q, r := sum / 11, sum % 11;
    assert sum == 11 * q + r;
    assert sum * 10 == 11 * (10 * q) + 10 * r;
    assert (sum * 10) % 11 == (10 * r) % 11 by {
      ModMultipleOfEleven(10 * q, 10 * r);
    }
    assert 0 <= r < 11;
    if r == 0 {
    } else if r == 1 {
    } else {
      assert 10 * r == 11 * (r - 1) + (11 - r);
      ModMultipleOfEleven(r - 1, 11 - r);
    }
  }

  lemma ModMultipleOfEleven(a: int, b: int)
    ensures (11 * a + b) % 11 == b % 11
  {
  }

  /**
   * ValidateCpf. A string that is not eleven decimal digits is refused; so is
   * one whose digits are all equal; otherwise the two check digits decide.
   */
  method ValidateCpf(cpf: string) returns (status: bool)
    ensures status == IsValidCpf(cpf)
  {
    if |cpf| != 11 { return false; }
    if !(forall i :: 0 <= i < 11 ==> IsDigit(cpf[i])) { return false; }

    var count := 0;
    for i := 0 to 11
      invariant count <= i
      invariant count == i <==> forall k :: 0 <= k < i ==> cpf[k] == cpf[0]
    {
      if cpf[0] == cpf[i] {
        count := count + 1;
      }
    }
    if count == 11 { return false; }

    var firstdigit := 0;
    for i := 0 to 9
      invariant firstdigit == WeightedSum(cpf, i, 10)
    {
      firstdigit := firstdigit + Digit(cpf[i]) * (10 - i);
    }

    var seconddigit := 0;
    for i := 0 to 10
      invariant seconddigit == WeightedSum(cpf, i, 11)
    {
      seconddigit := seconddigit + Digit(cpf[i]) * (11 - i);
    }

    var modfirst := (firstdigit * 10) % 11;
    var modsecond := (seconddigit * 10) % 11;
    if modfirst == 10 { modfirst := 0; }
    if modsecond == 10 { modsecond := 0; }
    TimesTenModElevenIsStandard(firstdigit);
    TimesTenModElevenIsStandard(seconddigit);
    status := modfirst == Digit(cpf[9]) && modsecond == Digit(cpf[10]);
  }

  /** Eleven equal digits satisfy both check digits and are still refused. */
  lemma RepeatedDigitsRefused()
    ensures StandardCheckDigit(WeightedSum("11111111111", 9, 10)) == 1
    ensures StandardCheckDigit(WeightedSum("11111111111", 10, 11)) == 1
    ensures !IsValidCpf("11111111111")
  {
    var c := "11111111111";
    assert WeightedSum(c, 9, 10) == 54 by {
      assert WeightedSum(c, 3, 10) == 27;
      assert WeightedSum(c, 6, 10) == 45;
    }
    assert WeightedSum(c, 10, 11) == 65 by {
      assert WeightedSum(c, 3, 11) == 30;
      assert WeightedSum(c, 6, 11) == 51;
      assert WeightedSum(c, 9, 11) == 63;
    }
  }

  /** A well-formed CPF is accepted. */
  lemma KnownCpfAccepted()
    ensures IsValidCpf("52998224725")
  {
    var c := "52998224725";
    assert c[1] != c[0];
    assert WeightedSum(c, 9, 10) == 295 by {
      assert WeightedSum(c, 3, 10) == 140;
      assert WeightedSum(c, 6, 10) == 261;
    }
    assert WeightedSum(c, 10, 11) == 347 by {
      assert WeightedSum(c, 3, 11) == 156;
      assert WeightedSum(c, 6, 11) == 296;
      assert WeightedSum(c, 9, 11) == 343;
    }
  }

  /** The birthday of year n has come by now: (birth.year + n, birth.month, birth.day) is not after now. */
  predicate AnniversaryReached(birth: Date, now: Date, n: int) {
    NotAfter(Date(birth.year + n, birth.month, birth.day), now)
  }

  /**
   * ValidateAge: the number of whole years from birth to now, the birthday
   * counting as a full year. It is the one n whose anniversary has come and
   * whose next has not, hence now.year − birth.year or one less.
   */
  method ValidateAge(passenger: Passenger, now: Date) returns (result: int)
    ensures AnniversaryReached(passenger.dateBirth, now, result)
    ensures !AnniversaryReached(passenger.dateBirth, now, result + 1)
    ensures result == now.year - passenger.dateBirth.year
         || result == now.year - passenger.dateBirth.year - 1
    ensures NotAfter(passenger.dateBirth, now) ==> result >= 0
  {
    var birth := passenger.dateBirth;
    result := now.year - birth.year;
    if now.month < birth.month || (now.month == birth.month && now.day < birth.day) {
      result := result - 1;
    }
    if NotAfter(birth, now) && result < 0 {
      AnniversaryMonotone(birth, now, 0, result + 1);
    }
  }

  /** An anniversary that has come means every earlier one has too. */
  lemma AnniversaryMonotone(birth: Date, now: Date, m: int, n: int)
    requires m <= n && AnniversaryReached(birth, now, n)
    ensures AnniversaryReached(birth, now, m)
  {
  }

  /** Given what ValidateAge returns, "under 18" means the 18th birthday has not come. */
  lemma UnderAgeIff(birth: Date, now: Date, age: int, limit: int)
    requires AnniversaryReached(birth, now, age) && !AnniversaryReached(birth, now, age + 1)
    ensures age < limit <==> !AnniversaryReached(birth, now, limit)
  {
    if age < limit && AnniversaryReached(birth, now, limit) {
      AnniversaryMonotone(birth, now, age + 1, limit);
    }
    if age >= limit {
      AnniversaryMonotone(birth, now, limit, age);
    }
  }
}
