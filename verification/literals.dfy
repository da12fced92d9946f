/** Integer literals `int()` reads although `str()` never prints them:
    zeros in front of the digits, after an optional sign. A menu choice
    typed that way still selects the option it names. */
module NonCanonical {
  import opened Wrappers
  import opened PyText
  import opened Interpreter

  predicate AllZeros(z: string) {
    forall i :: 0 <= i < |z| ==> z[i] == '0'
  }

  lemma {:induction false} ZerosValue(z: string)
    requires AllZeros(z)
    ensures AllDigits(z) && DigitsValue(z) == 0
    decreases |z|
  {
    if z != [] {
      ZerosValue(z[..|z| - 1]);
    }
  }

  /** Zeros in front of a run of digits do not change its value. */
  lemma {:induction false} LeadingZerosValue(z: string, ds: string)
    requires AllZeros(z) && AllDigits(ds)
    ensures AllDigits(z + ds) && DigitsValue(z + ds) == DigitsValue(ds)
    decreases |ds|
  {
    if ds == [] {
      assert z + ds == z;
      ZerosValue(z);
    } else {
      var p := ds[..|ds| - 1];
      LeadingZerosValue(z, p);
      assert (z + ds)[..|z + ds| - 1] == z + p;
      assert (z + ds)[|z + ds| - 1] == ds[|ds| - 1];
    }
  }

  lemma RegroupZeros(a: string, sign: string, z: string, t: string, b: string)
    ensures a + sign + z + t + b == a + sign + (z + t) + b
  {
  }

  /** Zeros typed in front of a number, after any sign, are ignored:
      `int("007")` is 7, `int("-0")` is 0 and `int(" +01 ")` is 1. */
  lemma ParseIntLeadingZeros(a: string, sign: string, z: string, n: nat, b: string)
    requires AllBlank(a, IntBlanks) && AllBlank(b, IntBlanks)
    requires sign == "" || sign == "+" || sign == "-"
    requires AllZeros(z)
    ensures ParseInt(a + sign + z + NatToString(n) + b) == Some(if sign == "-" then -(n as int) else n)
  {
    NatToStringValue(n);
    ZerosBeforeDigits(a, sign, z, NatToString(n), n, b);
  }

  lemma ZerosBeforeDigits(a: string, sign: string, z: string, t: string, n: nat, b: string)
    requires AllBlank(a, IntBlanks) && AllBlank(b, IntBlanks)
    requires sign == "" || sign == "+" || sign == "-"
    requires AllZeros(z) && |t| > 0 && AllDigits(t) && DigitsValue(t) == n
    ensures ParseInt(a + sign + z + t + b) == Some(if sign == "-" then -(n as int) else n)
  {
    LiteralWithZeros(sign, z, t, n);
    LeadingZerosValue(z, t);
    LiteralTrimmed(sign, z + t);
    RegroupZeros(a, sign, z, t, b);
    Regroup(a, sign, z + t, b);
    ParseIntPadded(a + sign + z + t + b, a, sign + (z + t), b);
  }

  lemma LiteralWithZeros(sign: string, z: string, t: string, n: nat)
    requires sign == "" || sign == "+" || sign == "-"
    requires AllZeros(z) && |t| > 0 && AllDigits(t) && DigitsValue(t) == n
    ensures ParseLiteral(sign + (z + t)) == Some(if sign == "-" then -(n as int) else n)
  {
    LeadingZerosValue(z, t);
    LiteralOfValue(sign, z + t, n);
  }

  /** The shown number typed with leading zeros, "02" say, still selects
      that option. */
  lemma LeadingZerosSelect(count: nat, k: nat, a: string, z: string, b: string)
    requires 1 <= k <= count && AllBlank(a, IntBlanks) && AllBlank(b, IntBlanks) && AllZeros(z)
    ensures Select(count, a + z + NatToString(k) + b) == Some(k - 1)
  {
    ParseIntLeadingZeros(a, "", z, k, b);
    DropEmptySign(a, z, NatToString(k), b);
    SelectOfParsed(count, a + z + NatToString(k) + b, k);
  }

  lemma DropEmptySign(a: string, z: string, t: string, b: string)
    ensures a + "" + z + t + b == a + z + t + b
  {
  }
}
