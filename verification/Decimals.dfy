/**
 Numbers written in decimal, by division.
 */
module Decimals {
  import opened Bytes

  /** The shortest writing of a number. */
  function Digits(n: nat): (t: Text)
    ensures t != [] && forall i | 0 <= i < |t| :: Digit(t[i])
    decreases n
  {
    if n < 10 then [n + 48] else Digits(n / 10) + [n % 10 + 48]
  }

  function Zeros(z: nat): Text {
    if z == 0 then [] else [48] + Zeros(z - 1)
  }

  lemma {:induction false} OnlyZeros(z: nat)
    ensures |Zeros(z)| == z && forall i | 0 <= i < z :: Zeros(z)[i] == 48
  {
    if z > 0 {
      OnlyZeros(z - 1);
    }
  }

  /** Only zero begins with a zero. */
  lemma {:induction false} FirstDigit(n: nat)
    ensures Digits(n)[0] == 48 <==> n == 0
    ensures n == 0 ==> Digits(n) == [48]
  {
    if n >= 10 {
      FirstDigit(n / 10);
    }
  }
}
