/**
 The text keys of market contributions: `source_name || ':' || id || ':' || version`.

 A UUID is modelled by its canonical text, which is how PostgreSQL renders it when
 it is concatenated, so equality of texts is equality of UUIDs.
 */
module EventKeys {

  datatype SourceType = MarketSaleRecord | PurchaseProfile

  predicate IsHexDigit(c: char) {
    '0' <= c <= '9' || 'a' <= c <= 'f'
  }

  predicate IsDashPosition(i: int) {
    i == 8 || i == 13 || i == 18 || i == 23
  }

  predicate IsUuid(s: string) {
    && |s| == 36
    && forall i | 0 <= i < 36 :: if IsDashPosition(i) then s[i] == '-' else IsHexDigit(s[i])
  }

  type Uuid = s: string | IsUuid(s) witness seq(36, i => if IsDashPosition(i) then '-' else '0')

  const INT_MIN := -2147483648
  const INT_MAX := 2147483647
  const EVENT_KEY_WIDTH := 200

  /** The values of a PostgreSQL `integer` column. */
  predicate FitsInteger(n: int) {
    INT_MIN <= n <= INT_MAX
  }

  function SourceName(source: SourceType): string {
    match source
    case MarketSaleRecord => "MarketSaleRecord"
    case PurchaseProfile => "PurchaseProfile"
  }

  function Digits(n: nat): (s: string)
    ensures |s| > 0
    ensures forall c | c in s :: '0' <= c <= '9'
  {
    if n < 10 then ["0123456789"[n]] else Digits(n / 10) + ["0123456789"[n % 10]]
  }

  function Decimal(n: int): string {
    if n < 0 then "-" + Digits(-n) else Digits(n)
  }

  function EventKey(source: SourceType, id: Uuid, version: int): string {
    SourceName(source) + ":" + id + ":" + Decimal(version)
  }

  /** Reads a digit string back; the left inverse of `Digits`. */
  function Value(s: string): int {
    if s == "" then 0 else 10 * Value(s[..|s| - 1]) + (s[|s| - 1] as int - '0' as int)
  }

  lemma {:induction false} ValueOfDigits(n: nat)
    ensures Value(Digits(n)) == n
  {
    if n >= 10 {
      ValueOfDigits(n / 10);
      var s := Digits(n);
      assert s[..|s| - 1] == Digits(n / 10);
    } else {
      assert Digits(n)[..0] == "";
    }
  }

  lemma DecimalIsInjective(a: int, b: int)
    requires Decimal(a) == Decimal(b)
    ensures a == b
  {
    var x, y := if a < 0 then -a else a, if b < 0 then -b else b;
    assert (a < 0) == (Decimal(a)[0] == '-') by { assert a >= 0 ==> Digits(a)[0] in Digits(a); }
    assert (b < 0) == (Decimal(b)[0] == '-') by { assert b >= 0 ==> Digits(b)[0] in Digits(b); }
    if a < 0 {
      assert Decimal(a)[1..] == Digits(x) && Decimal(b)[1..] == Digits(y);
    }
    ValueOfDigits(x);
    ValueOfDigits(y);
  }

  function Pow10(k: nat): nat {
    if k == 0 then 1 else 10 * Pow10(k - 1)
  }

  lemma {:induction false} DigitsFitWidth(n: nat, k: nat)
    requires k > 0 && n < Pow10(k)
    ensures |Digits(n)| <= k
  {
    if n >= 10 {
      assert k > 1 by { assert Pow10(1) == 10; }
      DigitsFitWidth(n / 10, k - 1);
    }
  }

  /** Distinct (source, id, version) triples have distinct keys, over all ids and versions. */
  lemma EventKeyIsInjective(s1: SourceType, id1: Uuid, v1: int, s2: SourceType, id2: Uuid, v2: int)
    requires EventKey(s1, id1, v1) == EventKey(s2, id2, v2)
    ensures s1 == s2 && id1 == id2 && v1 == v2
  {
    var k1, k2 := EventKey(s1, id1, v1), EventKey(s2, id2, v2);
    assert k1[0] == SourceName(s1)[0] && k2[0] == SourceName(s2)[0];
    assert s1 == s2;
    var n := |SourceName(s1)|;
    assert k1[n + 1..n + 37] == id1 && k2[n + 1..n + 37] == id2;
    assert k1[n + 38..] == Decimal(v1) && k2[n + 38..] == Decimal(v2);
    DecimalIsInjective(v1, v2);
  }

  /** The longest key of an `integer` version is 65 characters, well inside varchar(200). */
  lemma EventKeyFitsColumn(source: SourceType, id: Uuid, version: int)
    requires FitsInteger(version)
    ensures |EventKey(source, id, version)| <= 65 <= EVENT_KEY_WIDTH
  {
    var magnitude := if version < 0 then -version else version;
    assert Pow10(10) == 10000000000;
    DigitsFitWidth(magnitude, 10);
  }
}
