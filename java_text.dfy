/**
 * The parts of `java.lang.String`, `Long` and `Integer` the rollback consumer
 * relies on: `split(",")`, `parseLong` and `parseInt` (on ASCII digits), and
 * decimal rendering, which is how a producer writes numbers into a message.
 */
module JavaText {
  import opened Wrappers
  import opened JavaLang

  // ---- split(",") ----

  /** The text cut at every comma, keeping every field, empty ones included. */
  function Fields(s: string): (r: seq<string>)
    ensures |r| >= 1
    ensures forall i :: 0 <= i < |r| ==> ',' !in r[i]
  {
    if s == [] then [""]
    else
      var rest := Fields(s[1..]);
      if s[0] == ',' then [""] + rest
      else [[s[0]] + rest[0]] + rest[1..]
  }

  /** The fields put back together with commas between them. */
  function Join(fields: seq<string>): string
    requires |fields| >= 1
  {
    if |fields| == 1 then fields[0] else fields[0] + "," + Join(fields[1..])
  }

  /** Cutting at commas loses nothing: joining the fields gives the text back. */
  lemma {:induction false} JoinFields(s: string)
    ensures Join(Fields(s)) == s
  {
    if s != [] {
      var rest := Fields(s[1..]);
      JoinFields(s[1..]);
      if s[0] == ',' {
        assert ([""] + rest)[1..] == rest;
      } else {
        if |rest| == 1 {
        } else {
          assert Join(rest) == rest[0] + "," + Join(rest[1..]);
        }
      }
    }
  }

  /** Java's split with limit 0 removes the empty fields at the end. */
  function DropTrailingEmpty(fields: seq<string>): (r: seq<string>)
    ensures |r| <= |fields| && r == fields[..|r|]
    ensures |r| > 0 ==> r[|r| - 1] != ""
    ensures forall i :: |r| <= i < |fields| ==> fields[i] == ""
  {
    if |fields| == 0 then []
    else if fields[|fields| - 1] == "" then DropTrailingEmpty(fields[..|fields| - 1])
    else fields
  }

  /**
   * `s.split(",")`: a text without a comma is the single field it is (even
   * when empty); otherwise the fields, less the empty ones at the end.
   */
  function Split(s: string): (r: seq<string>)
    ensures ',' !in s ==> r == [s]
  {
    if ',' !in s then [s] else DropTrailingEmpty(Fields(s))
  }

  lemma {:induction false} FieldsAfterPlainPrefix(a: string, x: string)
    requires ',' !in a
    ensures Fields(a + x) == [a + Fields(x)[0]] + Fields(x)[1..]
  {
    if a != [] {
      assert (a + x)[1..] == a[1..] + x;
      FieldsAfterPlainPrefix(a[1..], x);
      assert [a[0]] + (a[1..] + Fields(x)[0]) == a + Fields(x)[0];
    } else {
      var fs := Fields(x);
      assert a + x == x;
      assert a + fs[0] == fs[0];
      assert fs == [fs[0]] + fs[1..];
    }
  }

  lemma FieldsAfterComma(x: string)
    ensures Fields("," + x) == [""] + Fields(x)
  {
    assert ("," + x)[1..] == x;
  }

  lemma FieldsOfEnd(tail: string)
    requires tail == [] || tail[0] == ','
    ensures Fields(tail)[0] == ""
  {
  }

  /** The fields of `a,b` followed by nothing or by further fields start with `a` and `b`. */
  lemma FieldsOfPair(a: string, b: string, tail: string)
    requires ',' !in a && ',' !in b
    requires tail == [] || tail[0] == ','
    ensures |Fields(a + "," + b + tail)| >= 2
    ensures Fields(a + "," + b + tail)[..2] == [a, b]
  {
    var x := "," + (b + tail);
    assert a + "," + b + tail == a + x;
    FieldsAfterPlainPrefix(a, x);
    FieldsAfterComma(b + tail);
    FieldsAfterPlainPrefix(b, tail);
    FieldsOfEnd(tail);
    var fx := Fields(x);
    assert fx[0] == "" && fx[1] == b;
    assert a + fx[0] == a;
  }

  /** Java's split returns the first two fields of a message `a,b...` when `b` is not empty. */
  lemma SplitOfPair(a: string, b: string, tail: string)
    requires ',' !in a && ',' !in b && b != ""
    requires tail == [] || tail[0] == ','
    ensures |Split(a + "," + b + tail)| >= 2
    ensures Split(a + "," + b + tail)[..2] == [a, b]
  {
    var s := a + "," + b + tail;
    assert s[|a|] == ',';
    FieldsOfPair(a, b, tail);
    var fs := Fields(s);
    assert fs[1] == b;
    var r := DropTrailingEmpty(fs);
    assert |r| >= 2;
  }

  // ---- parseLong and parseInt ----

  predicate IsDigit(c: char)
  {
    '0' <= c <= '9'
  }

  predicate AllDigits(s: string)
  {
    forall i :: 0 <= i < |s| ==> IsDigit(s[i])
  }

  /** The value of a string of decimal digits, most significant first. */
  function DigitsValue(s: string): nat
    requires AllDigits(s)
  {
    if s == [] then 0 else DigitsValue(s[..|s| - 1]) * 10 + (s[|s| - 1] as int - '0' as int)
  }

  /**
   * The number a Java decimal literal denotes: an optional sign followed by
   * at least one digit; anything else is not a number.
   */
  function ParseDecimal(s: string): Option<int>
  {
    if s == [] then None
    else
      var negative := s[0] == '-';
      var digits := if s[0] == '-' || s[0] == '+' then s[1..] else s;
      if digits == [] || !AllDigits(digits) then None
      else
        var magnitude: int := DigitsValue(digits);
        Some(if negative then -magnitude else magnitude)
  }

  /** `Long.parseLong`: a decimal number that fits in 64 bits, else NumberFormatException (None). */
  function ParseLong(s: string): (r: Option<Int64>)
    ensures r.Some? <==> ParseDecimal(s).Some? && MinInt64 <= ParseDecimal(s).value <= MaxInt64
    ensures r.Some? ==> r.value == ParseDecimal(s).value
  {
    match ParseDecimal(s)
    case Some(v) => if MinInt64 <= v <= MaxInt64 then Some(v) else None
    case None => None
  }

  /** `Integer.parseInt`: a decimal number that fits in 32 bits, else NumberFormatException (None). */
  function ParseInt(s: string): (r: Option<Int32>)
    ensures r.Some? <==> ParseDecimal(s).Some? && MinInt32 <= ParseDecimal(s).value <= MaxInt32
    ensures r.Some? ==> r.value == ParseDecimal(s).value
  {
    match ParseDecimal(s)
    case Some(v) => if MinInt32 <= v <= MaxInt32 then Some(v) else None
    case None => None
  }

  // ---- decimal rendering ----

  function DigitChar(d: nat): (c: char)
    requires d < 10
    ensures IsDigit(c) && c as int - '0' as int == d
  {
    ('0' as int + d) as char
  }

  /** The decimal digits of `n`, without leading zeros. */
  function ShowNat(n: nat): (s: string)
    ensures s != [] && AllDigits(s)
  {
    if n < 10 then [DigitChar(n)] else ShowNat(n / 10) + [DigitChar(n % 10)]
  }

  /** `Long.toString` and `Integer.toString`: a minus sign before the digits of a negative number. */
  function ShowInt(i: int): (s: string)
    ensures s != [] && ',' !in s
  {
    if i < 0 then "-" + ShowNat(-i) else ShowNat(i)
  }

  lemma {:induction false} ShowNatValue(n: nat)
    ensures DigitsValue(ShowNat(n)) == n
  {
    if n >= 10 {
      var s := ShowNat(n);
      ShowNatValue(n / 10);
      assert s[..|s| - 1] == ShowNat(n / 10);
    }
  }

  /** Parsing what was rendered gives the number back. */
  lemma ParseShowInt(i: int)
    ensures ParseDecimal(ShowInt(i)) == Some(i)
  {
    if i < 0 {
      ShowNatValue(-i);
      assert ShowInt(i)[1..] == ShowNat(-i);
    } else {
      ShowNatValue(i);
    }
  }
}
