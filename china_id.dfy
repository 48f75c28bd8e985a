/** check_china_id: the check character of an 18-character resident identity
    number. Weights are powers of two taken modulo 11; the check character is
    the digit (or `X` for ten) that brings the weighted sum to 1 modulo 11. */
module ChinaId {
  import opened Results
  import opened PyText

  /** Why the check raises instead of answering: the length assertion fails,
      or `int()` is given a character that is not a digit. */
  datatype IdError = WrongLength(length: nat) | NotADigit(index: nat)

  /** `2 ** n`. */
  function Pow2(n: nat): nat
  {
    if n == 0 then 1 else 2 * Pow2(n - 1)
  }

  /** The weights of the ISO 7064 MOD 11-2 check as GB 11643-1999 tabulates
      them for the 17 body digits. */
  const Weights: seq<nat> := [7, 9, 10, 5, 8, 4, 2, 1, 6, 3, 7, 9, 10, 5, 8, 4, 2]

  /** The powers `2 ** (17 - i)` reduced modulo 11 are the weights that ISO 7064
      MOD 11-2 tabulates for the 17 digits of the number. */
  lemma WeightsAreTabulated()
    ensures forall i :: 0 <= i < 17 ==> Pow2(17 - i) % 11 == Weights[i]
  {
    assert Pow2(1) == 2;
    assert Pow2(2) == 4;
    assert Pow2(3) == 8;
    assert Pow2(4) == 16;
    assert Pow2(5) == 32;
    assert Pow2(6) == 64;
    assert Pow2(7) == 128;
    assert Pow2(8) == 256;
    assert Pow2(9) == 512;
    assert Pow2(10) == 1024;
    assert Pow2(11) == 2048;
    assert Pow2(12) == 4096;
    assert Pow2(13) == 8192;
    assert Pow2(14) == 16384;
    assert Pow2(15) == 32768;
    assert Pow2(16) == 65536;
    assert Pow2(17) == 131072;
  }

  /** The first `n` characters of `s` are decimal digits. */
  predicate DigitsBefore(s: string, n: nat)
    requires n <= |s|
  {
    forall j :: 0 <= j < n ==> IsDigit(s[j])
  }

  /** The weighted sum of the first `n` body digits, without any reduction:
      digit `i` has weight 2^(17-i). */
  function WeightedSum(s: string, n: nat): nat
    requires n <= 17 && n <= |s| && DigitsBefore(s, n)
  {
    if n == 0 then 0 else WeightedSum(s, n - 1) + DigitValue(s[n - 1]) * Pow2(17 - (n - 1))
  }

  /** The sum the loop accumulates: each term reduced modulo 11 on its own. */
  function TermSum(s: string, n: nat): nat
    requires n <= 17 && n <= |s| && DigitsBefore(s, n)
  {
    if n == 0 then 0 else TermSum(s, n - 1) + (DigitValue(s[n - 1]) * Pow2(17 - (n - 1))) % 11
  }

  /** Reducing each term first does not change the sum modulo 11. */
  lemma {:induction false} TermSumMod(s: string, n: nat)
    requires n <= 17 && n <= |s| && DigitsBefore(s, n)
    ensures TermSum(s, n) % 11 == WeightedSum(s, n) % 11
  {
    if n > 0 {
      TermSumMod(s, n - 1);
      var t := DigitValue(s[n - 1]) * Pow2(17 - (n - 1));
      ModAdd(TermSum(s, n - 1), WeightedSum(s, n - 1), t % 11, t);
    }
  }

  lemma ModAdd(a: nat, b: nat, c: nat, d: nat)
    requires a % 11 == b % 11 && c % 11 == d % 11
    ensures (a + c) % 11 == (b + d) % 11
  {
    assert a == (a / 11) * 11 + a % 11 && b == (b / 11) * 11 + b % 11;
    assert c == (c / 11) * 11 + c % 11 && d == (d / 11) * 11 + d % 11;
    assert (a + c) - (b + d) == (a / 11 + c / 11 - b / 11 - d / 11) * 11;
  }

  /** The value a check character stands for: a digit, or `X` for ten. */
  function CheckValue(c: char): Option<nat>
  {
    if IsDigit(c) then Some(DigitValue(c)) else if c == 'X' then Some(10) else None
  }

  /** The number is valid under ISO 7064 MOD 11-2: seventeen body digits and a
      check character whose value, added to the weighted sum of the body,
      leaves remainder 1 modulo 11. */
  predicate Valid(id: string)
  {
    && |id| == 18
    && DigitsBefore(id, 17)
    && CheckValue(id[17]).Some?
    && (WeightedSum(id, 17) + CheckValue(id[17]).value) % 11 == 1
  }

  /** check_china_id: the length is asserted, each body digit is read with
      `int()` and its weighted term reduced modulo 11 and added up, the check
      character is computed from the sum and compared with the last character.
      The answer is exactly ISO 7064 validity. */
  method CheckChinaId(id: string) returns (r: Result<bool, IdError>)
    ensures |id| != 18 <==> r == Failure(WrongLength(|id|))
    ensures r.Success? <==> |id| == 18 && DigitsBefore(id, 17)
    ensures r.Failure? && r.error.NotADigit? ==>
      && |id| == 18 && r.error.index < 17 && !IsDigit(id[r.error.index])
      && DigitsBefore(id, r.error.index)
    ensures r.Success? ==> (r.value <==> Valid(id))
  {
    if |id| != 18 {
      return Failure(WrongLength(|id|));
    }
    var sum := 0;
    for i := 0 to 17
      invariant DigitsBefore(id, i)
      invariant sum == TermSum(id, i)
    {
      if !IsDigit(id[i]) {
        return Failure(NotADigit(i));
      }
      sum := sum + (DigitValue(id[i]) * Pow2(17 - i)) % 11;
    }
    var checksum := (12 - sum % 11) % 11;
    var checkChar := if checksum < 10 then NatToString(checksum) else "X";
    TermSumMod(id, 17);
    CheckCharIsIso7064(id, sum, checksum);
    r := Success(checkChar == [id[17]]);
  }

  /** The check character the loop computes matches the last character exactly
      when the number is ISO 7064 valid. */
  lemma CheckCharIsIso7064(id: string, sum: nat, checksum: nat)
    requires |id| == 18 && DigitsBefore(id, 17)
    requires sum % 11 == WeightedSum(id, 17) % 11
    requires checksum == (12 - sum % 11) % 11
    ensures (if checksum < 10 then NatToString(checksum) else "X") == [id[17]] <==> Valid(id)
  {
    var w := WeightedSum(id, 17);
    assert w == (w / 11) * 11 + w % 11;
    assert (w + checksum) % 11 == 1;
    var cv := CheckValue(id[17]);
    if cv.Some? && (w + cv.value) % 11 == 1 {
      assert cv.value == checksum;
      if checksum < 10 {
        assert NatToString(checksum) == [DigitChar(checksum)];
      }
    }
  }
}
