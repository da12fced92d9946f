/** The pieces of Python's string behaviour the interpreter relies on:
    `str.strip()` with no argument, `str(n)` for a natural number, and a
    simplified `int(s)` for base-10 strings. */
module PyText {
  import opened Wrappers

  /** Python's `str.isspace()` for one character: the ASCII controls
      TAB..CR, the separators FS..US, SPACE, NEL, NBSP and the Unicode
      space and line/paragraph separators. `str.strip()` removes these. */
  predicate IsSpace(c: char) {
    var k := c as int;
    || 0x09 <= k <= 0x0D
    || 0x1C <= k <= 0x20
    || k == 0x85 || k == 0xA0 || k == 0x1680
    || 0x2000 <= k <= 0x200A
    || k == 0x2028 || k == 0x2029 || k == 0x202F || k == 0x205F || k == 0x3000
  }

  /** The whitespace `int()` skips around a number. CPython keeps ASCII
      characters as they are and then skips only TAB..CR and SPACE, while it
      turns every non-ASCII `isspace()` character into a space first; so the
      separators FS..US, which `str.strip()` removes, make `int()` fail. */
  predicate IntSpace(c: char) {
    IsSpace(c) && !(0x1C <= c as int <= 0x1F)
  }

  /** Which whitespace set a trimming step uses. */
  datatype Blanks = StrBlanks | IntBlanks

  predicate IsBlank(c: char, w: Blanks) {
    match w
    case StrBlanks => IsSpace(c)
    case IntBlanks => IntSpace(c)
  }

  predicate AllBlank(s: string, w: Blanks) {
    forall i :: 0 <= i < |s| ==> IsBlank(s[i], w)
  }

  /** Neither end of `t` is whitespace (vacuously so for the empty string). */
  predicate Trimmed(t: string, w: Blanks) {
    t == [] || (!IsBlank(t[0], w) && !IsBlank(t[|t| - 1], w))
  }

  /** `s` is `t` with the whitespace runs `a` in front and `b` behind. */
  predicate PaddedWith(s: string, a: string, t: string, b: string, w: Blanks) {
    AllBlank(a, w) && AllBlank(b, w) && s == a + t + b
  }

  /** The first index at or after `i` that does not hold whitespace. */
  function SkipBlank(s: string, i: nat, w: Blanks): (j: nat)
    requires i <= |s|
    ensures i <= j <= |s|
    ensures forall k :: i <= k < j ==> IsBlank(s[k], w)
    ensures j == |s| || !IsBlank(s[j], w)
    decreases |s| - i
  {
    if i < |s| && IsBlank(s[i], w) then SkipBlank(s, i + 1, w) else i
  }

  /** The end of `s[lo..hi]` once its trailing whitespace is dropped. */
  function SkipBlankBack(s: string, lo: nat, hi: nat, w: Blanks): (j: nat)
    requires lo <= hi <= |s|
    ensures lo <= j <= hi
    ensures forall k :: j <= k < hi ==> IsBlank(s[k], w)
    ensures j == lo || !IsBlank(s[j - 1], w)
    decreases hi
  {
    if lo < hi && IsBlank(s[hi - 1], w) then SkipBlankBack(s, lo, hi - 1, w) else hi
  }

  /** `s` less its leading and trailing whitespace of kind `w`: the result
      is `s` without a whitespace prefix and a whitespace suffix, and it
      neither starts nor ends with whitespace. */
  function StripWith(s: string, w: Blanks): (r: string)
    ensures Trimmed(r, w)
    ensures exists a, b :: PaddedWith(s, a, r, b, w)
  {
    var i := SkipBlank(s, 0, w);
    var j := SkipBlankBack(s, i, |s|, w);
    StripWitness(s, i, j, w);
    s[i..j]
  }

  /** Python's `s.strip()`. */
  function Strip(s: string): (r: string)
    ensures Trimmed(r, StrBlanks)
    ensures exists a, b :: PaddedWith(s, a, r, b, StrBlanks)
  {
    StripWith(s, StrBlanks)
  }

  lemma StripWitness(s: string, i: nat, j: nat, w: Blanks)
    requires i <= j <= |s|
    requires forall k :: 0 <= k < i ==> IsBlank(s[k], w)
    requires forall k :: j <= k < |s| ==> IsBlank(s[k], w)
    requires i == j || (!IsBlank(s[i], w) && !IsBlank(s[j - 1], w))
    ensures Trimmed(s[i..j], w) && PaddedWith(s, s[..i], s[i..j], s[j..], w)
  {
    assert s == s[..i] + s[i..j] + s[j..];
  }

  lemma AllBlankConcat(a: string, b: string, w: Blanks)
    requires AllBlank(a, w) && AllBlank(b, w)
    ensures AllBlank(a + b, w)
  {
    forall i | 0 <= i < |a + b|
      ensures IsBlank((a + b)[i], w)
    {
      if i < |a| { assert (a + b)[i] == a[i]; } else { assert (a + b)[i] == b[i - |a|]; }
    }
  }

  lemma {:induction false} SkipBlankPadded(s: string, a: string, t: string, b: string, w: Blanks, i: nat)
    requires PaddedWith(s, a, t, b, w) && Trimmed(t, w) && t != []
    requires i <= |a|
    ensures SkipBlank(s, i, w) == |a|
    decreases |a| - i
  {
    if i < |a| {
      assert s[i] == a[i];
      SkipBlankPadded(s, a, t, b, w, i + 1);
    } else {
      assert s[i] == t[0];
    }
  }

  lemma {:induction false} SkipBlankBackPadded(s: string, a: string, t: string, b: string, w: Blanks, hi: nat)
    requires PaddedWith(s, a, t, b, w) && Trimmed(t, w) && t != []
    requires |a| + |t| <= hi <= |s|
    ensures SkipBlankBack(s, |a|, hi, w) == |a| + |t|
    decreases hi
  {
    if hi > |a| + |t| {
      assert s[hi - 1] == b[hi - 1 - |a| - |t|];
      SkipBlankBackPadded(s, a, t, b, w, hi - 1);
    } else {
      assert s[hi - 1] == t[|t| - 1];
    }
  }

  /** The converse of the stripping contract: whatever trimmed core is
      padded with whitespace, stripping gives back exactly that core. */
  lemma StripPadded(a: string, t: string, b: string, w: Blanks)
    requires AllBlank(a, w) && AllBlank(b, w) && Trimmed(t, w)
    ensures StripWith(a + t + b, w) == t
  {
    var s := a + t + b;
    if t == [] {
      assert s == a + b;
      AllBlankConcat(a, b, w);
    } else {
      SkipBlankPadded(s, a, t, b, w, 0);
      SkipBlankBackPadded(s, a, t, b, w, |s|);
      assert s[|a|..|a| + |t|] == t;
    }
  }

  /** Strip is idempotent. */
  lemma StripIdempotent(s: string)
    ensures Strip(Strip(s)) == Strip(s)
  {
    var t := Strip(s);
    assert t == [] + t + [];
    StripPadded([], t, [], StrBlanks);
  }

  predicate IsDigit(c: char) {
    '0' <= c <= '9'
  }

  predicate AllDigits(s: string) {
    forall i :: 0 <= i < |s| ==> IsDigit(s[i])
  }

  function DigitValue(c: char): (d: nat)
    requires IsDigit(c)
    ensures d < 10
  {
    c as int - '0' as int
  }

  function DigitChar(d: nat): (c: char)
    requires d < 10
    ensures IsDigit(c) && DigitValue(c) == d
  {
    ('0' as int + d) as char
  }

  /** The value of a string of decimal digits, most significant first. */
  function DigitsValue(ds: string): (r: nat)
    requires AllDigits(ds)
    decreases |ds|
  {
    if ds == [] then 0 else DigitsValue(ds[..|ds| - 1]) * 10 + DigitValue(ds[|ds| - 1])
  }

  /** Python's `str(n)` for a natural number: canonical decimal digits. */
  function NatToString(n: nat): (r: string)
    ensures |r| > 0 && AllDigits(r)
    ensures r[0] == '0' ==> r == "0"
  {
    if n < 10 then [DigitChar(n)] else NatToString(n / 10) + [DigitChar(n % 10)]
  }

  /** Python's `str(c)` for any integer. */
  function IntToString(c: int): (r: string) {
    if c < 0 then "-" + NatToString(-c) else NatToString(c)
  }

  /** The printed digits read back as the number that was printed. */
  lemma {:induction false} NatToStringValue(n: nat)
    ensures DigitsValue(NatToString(n)) == n
  {
    if n >= 10 {
      var s := NatToString(n);
      NatToStringValue(n / 10);
      assert s[..|s| - 1] == NatToString(n / 10);
    }
  }

  /** No two numbers print the same. */
  lemma NatToStringInjective(m: nat, n: nat)
    requires NatToString(m) == NatToString(n)
    ensures m == n
  {
    NatToStringValue(m);
    NatToStringValue(n);
  }

  /** A character outside the simplified grammar of `ParseInt`: not
      whitespace `int()` skips, not an ASCII digit and not a sign. */
  predicate Foreign(c: char) {
    !IntSpace(c) && !IsDigit(c) && c != '+' && c != '-'
  }

  /** The integer literals the model accepts: an optional sign, then one or
      more ASCII digits. */
  predicate IsLiteral(t: string) {
    if |t| > 0 && (t[0] == '+' || t[0] == '-') then |t| > 1 && AllDigits(t[1..])
    else |t| > 0 && AllDigits(t)
  }

  /** A simplified Python `int(s)`. `None` stands for the `ValueError` that
      `int()` raises: it succeeds exactly when `s` is a literal padded with
      the whitespace `int()` skips. */
  function ParseInt(s: string): (r: Option<int>)
    ensures r.Some? <==> exists a, t, b :: PaddedWith(s, a, t, b, IntBlanks) && IsLiteral(t)
  {
    ParseIntShape(s);
    ParseLiteral(StripWith(s, IntBlanks))
  }

  lemma ParseIntShape(s: string)
    ensures IsLiteral(StripWith(s, IntBlanks)) <==>
      exists a, t, b :: PaddedWith(s, a, t, b, IntBlanks) && IsLiteral(t)
  {
    if exists a', t', b' :: PaddedWith(s, a', t', b', IntBlanks) && IsLiteral(t') {
      var a', t', b' :| PaddedWith(s, a', t', b', IntBlanks) && IsLiteral(t');
      assert !IsBlank(t'[0], IntBlanks) by {
        assert t'[0] == '+' || t'[0] == '-' || IsDigit(t'[0]);
      }
      assert !IsBlank(t'[|t'| - 1], IntBlanks) by {
        if |t'| > 1 || !(t'[0] == '+' || t'[0] == '-') {
          assert IsDigit(t'[|t'| - 1]);
        }
      }
      StripPadded(a', t', b', IntBlanks);
    }
  }

  /** The value of the literal `t`, which has no surrounding whitespace. */
  function ParseLiteral(t: string): (r: Option<int>)
    ensures r.Some? <==> IsLiteral(t)
  {
    if |t| > 0 && (t[0] == '+' || t[0] == '-') then
      var ds := t[1..];
      if |ds| > 0 && AllDigits(ds) then
        Some(if t[0] == '-' then -(DigitsValue(ds) as int) else DigitsValue(ds))
      else None
    else if |t| > 0 && AllDigits(t) then Some(DigitsValue(t))
    else None
  }

  lemma LiteralOfString(c: int)
    ensures ParseLiteral(IntToString(c)) == Some(c)
  {
    var t := IntToString(c);
    if c < 0 {
      assert t[1..] == NatToString(-c);
      NatToStringValue(-c);
    } else {
      NatToStringValue(c);
    }
  }

  /** Any signed or unsigned run of digits, leading zeros included, has the
      value its digits spell, negated after a minus sign. */
  lemma LiteralValue(sign: string, ds: string)
    requires sign == "" || sign == "+" || sign == "-"
    requires |ds| > 0 && AllDigits(ds)
    ensures ParseLiteral(sign + ds) == Some(if sign == "-" then -(DigitsValue(ds) as int) else DigitsValue(ds))
  {
    if sign == "" {
      assert sign + ds == ds;
      LiteralUnsigned(ds);
    } else {
      assert sign == [sign[0]];
      LiteralSigned(sign[0], ds);
    }
  }

  lemma LiteralOfValue(sign: string, ds: string, n: nat)
    requires sign == "" || sign == "+" || sign == "-"
    requires |ds| > 0 && AllDigits(ds) && DigitsValue(ds) == n
    ensures ParseLiteral(sign + ds) == Some(if sign == "-" then -(n as int) else n)
  {
    LiteralValue(sign, ds);
  }

  lemma LiteralUnsigned(ds: string)
    requires |ds| > 0 && AllDigits(ds)
    ensures ParseLiteral(ds) == Some(DigitsValue(ds))
  {
    assert IsDigit(ds[0]);
  }

  lemma LiteralSigned(c: char, ds: string)
    requires c == '+' || c == '-'
    requires |ds| > 0 && AllDigits(ds)
    ensures ParseLiteral([c] + ds) == Some(if c == '-' then -(DigitsValue(ds) as int) else DigitsValue(ds))
  {
    assert ([c] + ds)[0] == c;
    assert ([c] + ds)[1..] == ds;
  }

  lemma Regroup(a: string, sign: string, ds: string, b: string)
    ensures a + sign + ds + b == a + (sign + ds) + b
  {
  }

  /** A literal starts with a sign or a digit and ends with a digit, so
      `int()`'s whitespace never reaches into it. */
  lemma LiteralTrimmed(sign: string, ds: string)
    requires sign == "" || sign == "+" || sign == "-"
    requires |ds| > 0 && AllDigits(ds)
    ensures Trimmed(sign + ds, IntBlanks)
  {
    var t := sign + ds;
    assert t[|t| - 1] == ds[|ds| - 1];
    if sign == "" {
      assert t[0] == ds[0];
    } else {
      assert t[0] == sign[0];
    }
  }

  /** `int()` of a trimmed core padded with whitespace it skips reads the
      core alone. */
  lemma ParseIntPadded(s: string, a: string, t: string, b: string)
    requires PaddedWith(s, a, t, b, IntBlanks) && Trimmed(t, IntBlanks)
    ensures ParseInt(s) == ParseLiteral(t)
  {
    StripPadded(a, t, b, IntBlanks);
  }

  /** What `int()` returns for every string it accepts: whitespace, an
      optional sign, then digits (canonical or not, so "007" is 7 and "-0"
      is 0), then whitespace. */
  lemma ParseIntValue(a: string, sign: string, ds: string, b: string)
    requires AllBlank(a, IntBlanks) && AllBlank(b, IntBlanks)
    requires sign == "" || sign == "+" || sign == "-"
    requires |ds| > 0 && AllDigits(ds)
    ensures ParseInt(a + sign + ds + b) == Some(if sign == "-" then -(DigitsValue(ds) as int) else DigitsValue(ds))
  {
    Regroup(a, sign, ds, b);
    LiteralTrimmed(sign, ds);
    ParseIntPadded(a + sign + ds + b, a, sign + ds, b);
    LiteralValue(sign, ds);
  }

  /** Round trip: whatever `str(c)` prints, padded with whitespace that
      `int()` skips, `int()` reads back as `c`. */
  lemma ParseIntOfString(a: string, c: int, b: string)
    requires AllBlank(a, IntBlanks) && AllBlank(b, IntBlanks)
    ensures ParseInt(a + IntToString(c) + b) == Some(c)
  {
    StripPadded(a, IntToString(c), b, IntBlanks);
    LiteralOfString(c);
  }

  /** An explicit `+` sign is accepted. */
  lemma ParseIntPlus(n: nat)
    ensures ParseInt("+" + NatToString(n)) == Some(n)
  {
    var t := "+" + NatToString(n);
    assert t[1..] == NatToString(n);
    NatToStringValue(n);
    assert t == [] + t + [];
    StripPadded([], t, [], IntBlanks);
  }

  /** A character outside the simplified grammar of `ParseInt`, anywhere in
      the input, makes the parse fail. */
  lemma ParseIntForeign(s: string, i: int)
    requires 0 <= i < |s| && Foreign(s[i])
    ensures ParseInt(s) == None
  {
    var t := StripWith(s, IntBlanks);
    var a, b :| PaddedWith(s, a, t, b, IntBlanks);
    assert |a| <= i < |a| + |t|;
    LiteralForeign(t, i - |a|);
  }

  lemma LiteralForeign(t: string, j: int)
    requires 0 <= j < |t| && Foreign(t[j])
    ensures ParseLiteral(t) == None
  {
    if |t| > 0 && (t[0] == '+' || t[0] == '-') {
      assert t[1..][j - 1] == t[j];
    }
  }

  /** Blank input (nothing but whitespace) is not a number. */
  lemma ParseIntBlank(s: string)
    requires AllBlank(s, IntBlanks)
    ensures ParseInt(s) == None
  {
    assert s == s + [] + [];
    StripPadded(s, [], [], IntBlanks);
  }

  /** The separators FS..US are whitespace to `str.strip()` but not to
      `int()`: in front of a number, `strip()` removes one while `int()`
      fails on it. */
  lemma SeparatorIsNotIntSpace(c: char, n: nat)
    requires 0x1C <= c as int <= 0x1F
    ensures Strip([c] + NatToString(n)) == NatToString(n)
    ensures ParseInt([c] + NatToString(n)) == None
  {
    assert [c] + NatToString(n) == [c] + NatToString(n) + [];
    StripPadded([c], NatToString(n), [], StrBlanks);
    ParseIntForeign([c] + NatToString(n), 0);
  }
}
