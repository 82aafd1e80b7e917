/** Decimal text of an integer, as Python's f-string formatting writes it,
    and the parser that reads it back. */
module Format {
  import opened Wrappers

  function DigitChar(d: nat): (c: char)
    requires d < 10
    ensures '0' <= c <= '9' && (c as int) - ('0' as int) == d
  {
    ('0' as int + d) as char
  }

  predicate IsDigit(c: char) { '0' <= c <= '9' }

  /** A non-empty run of digits with no leading zero, unless it is "0". */
  predicate CanonicalDigits(t: Text) {
    |t| >= 1 && (forall i :: 0 <= i < |t| ==> IsDigit(t[i])) && (t[0] == '0' ==> |t| == 1)
  }

  /** Canonical digits, or '-' followed by canonical digits other than "0". */
  predicate CanonicalIntText(t: Text) {
    CanonicalDigits(t) || (|t| >= 2 && t[0] == '-' && CanonicalDigits(t[1..]) && t[1..] != "0")
  }

  /** The decimal digits of `n`, without leading zeros. */
  function NatText(n: nat): (t: Text)
    ensures CanonicalDigits(t)
    ensures t[0] == '0' <==> n == 0
    decreases n
  {
    if n < 10 then [DigitChar(n)] else NatText(n / 10) + [DigitChar(n % 10)]
  }

  /** Python's `f"{i}"` for an int. */
  function IntText(i: int): (t: Text)
    ensures CanonicalIntText(t)
    ensures t[0] == '-' <==> i < 0
  {
    if i < 0 then
      var digits := NatText(-i);
      assert ("-" + digits)[1..] == digits;
      "-" + digits
    else NatText(i)
  }

  /** The value of a non-empty run of decimal digits. */
  function DigitsValue(t: Text): nat
    requires |t| >= 1 && forall i :: 0 <= i < |t| ==> IsDigit(t[i])
    decreases |t|
  {
    assert IsDigit(t[|t| - 1]);
    var last: nat := (t[|t| - 1] as int) - ('0' as int);
    if |t| == 1 then last else 10 * DigitsValue(t[..|t| - 1]) + last
  }

  /** Reads a decimal integer with an optional leading '-'. */
  function ParseInt(t: Text): Option<int> {
    if |t| >= 2 && t[0] == '-' && forall i :: 1 <= i < |t| ==> IsDigit(t[i]) then
      var magnitude: int := DigitsValue(t[1..]);
      Some(-magnitude)
    else if |t| >= 1 && forall i :: 0 <= i < |t| ==> IsDigit(t[i]) then
      var magnitude: int := DigitsValue(t);
      Some(magnitude)
    else None
  }

  lemma {:induction false} NatTextValue(n: nat)
    ensures DigitsValue(NatText(n)) == n
    decreases n
  {
    if n >= 10 {
      NatTextValue(n / 10);
      var t := NatText(n);
      assert t[..|t| - 1] == NatText(n / 10);
    }
  }

  /** Reading back the text of an integer gives the integer. */
  lemma IntTextRoundTrip(i: int)
    ensures ParseInt(IntText(i)) == Some(i)
  {
    var t := IntText(i);
    if i < 0 {
      var digits := NatText(-i);
      NatTextValue(-i);
      assert t[1..] == digits;
      assert forall k :: 1 <= k < |t| ==> IsDigit(t[k]) by {
        forall k | 1 <= k < |t| ensures IsDigit(t[k]) {
          assert t[k] == digits[k - 1];
        }
      }
    } else {
      NatTextValue(i);
      assert IsDigit(t[0]);
    }
  }

  /** Canonical digits are the text of their own value. */
  lemma {:induction false} DigitsText(t: Text)
    requires CanonicalDigits(t)
    ensures NatText(DigitsValue(t)) == t
    decreases |t|
  {
    if |t| > 1 {
      var p := t[..|t| - 1];
      assert CanonicalDigits(p);
      DigitsText(p);
      var a := DigitsValue(p);
      assert a != 0;
      var d := (t[|t| - 1] as int) - ('0' as int);
      var v := DigitsValue(t);
      assert v == 10 * a + d;
      assert v / 10 == a && v % 10 == d;
      assert t == p + [t[|t| - 1]];
    }
  }

  /** Each integer has exactly one canonical text: a canonical text that
      reads as `i` is the text of `i`. */
  lemma IntTextUnique(t: Text, i: int)
    requires CanonicalIntText(t) && ParseInt(t) == Some(i)
    ensures t == IntText(i)
  {
    if CanonicalDigits(t) {
      assert IsDigit(t[0]);
      DigitsText(t);
    } else {
      var digits := t[1..];
      DigitsText(digits);
      assert DigitsValue(digits) != 0;
      assert t == "-" + digits;
    }
  }
}
