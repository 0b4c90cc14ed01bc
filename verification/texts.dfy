/** Text as a `std::string` holds it: each `char` stands for one byte. */
module Texts {
  predicate IsDigit(c: char) {
    '0' <= c <= '9'
  }

  predicate DigitAt(s: string, i: nat)
    requires i < |s|
  {
    IsDigit(s[i])
  }

  predicate AllDigits(s: string) {
    forall i :: 0 <= i < |s| ==> DigitAt(s, i)
  }

  lemma {:induction false} DigitsSlice(s: string, i: nat, j: nat)
    requires AllDigits(s) && i <= j <= |s|
    ensures AllDigits(s[i..j])
  {
    forall k | 0 <= k < j - i
      ensures DigitAt(s[i..j], k)
    {
      assert DigitAt(s, i + k);
    }
  }

  lemma {:induction false} DigitsConcat(s: string, t: string)
    requires AllDigits(s) && AllDigits(t)
    ensures AllDigits(s + t)
  {
    forall k | 0 <= k < |s + t|
      ensures DigitAt(s + t, k)
    {
      assert if k < |s| then DigitAt(s, k) else DigitAt(t, k - |s|);
    }
  }

  lemma {:induction false} Regrouped(a: string, b: string, c: string)
    ensures a + b + c == a + (b + c)
  {
  }
}
