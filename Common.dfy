/** Shared vocabulary of the marketplace model: optional values, the outcome
    kinds a request handler answers with, identifiers, timestamps, money and
    the decimal rendering Python's `str(int)` performs. */
module Common {

  datatype Option<+T> = None | Some(value: T) {
    function GetOr(default: T): T {
      if Some? then value else default
    }
  }

  /** The HTTP status kinds the handlers produce. `Ok` stands for every 2xx
      answer (200, 201 and 204). */
  datatype Outcome = Ok | BadRequest | NotFound | Forbidden | InternalError

  /** What a read-only handler answers: data, or an error outcome. */
  datatype Reply<+T> = Success(value: T) | Failure(status: Outcome)

  /** Primary keys: Django AutoFields, and the `<int:...>` URL converters
      that only match non-negative numbers. */
  type Id = nat

  /** A DateTimeField value; the clock itself is an input of the model. */
  type Instant = int

  /** Longest `CharField(max_length=100)` value. */
  const MaxNameLength := 100

  /** Bounds of the credential columns every user profile inherits. */
  const MaxUsernameLength := 20
  const MaxPhoneLength := 15

  /** A `DecimalField(max_digits=10, decimal_places=2)` holds integer cents
      whose absolute value stays below 10^10. */
  const MoneyLimit := 10_000_000_000

  predicate FitsMoney(cents: int) {
    -MoneyLimit < cents < MoneyLimit
  }

  /** The rows of a table that satisfy a condition (a queryset `filter`). */
  function Filter<V>(m: map<Id, V>, keep: V -> bool): (r: map<Id, V>)
    ensures forall k :: k in r <==> k in m && keep(m[k])
    ensures forall k :: k in r ==> r[k] == m[k]
  {
    map k | k in m && keep(m[k]) :: m[k]
  }

  /** Walks the rows of a table in no particular order and appends a
      rendering of every row that satisfies `keep`: each kept row appears
      exactly once, `ids` saying which row produced which entry. */
  method Collect<V, R>(m: map<Id, V>, keep: V -> bool, render: (Id, V) -> R)
    returns (rows: seq<R>, ghost ids: seq<Id>)
    ensures |ids| == |rows|
    ensures forall i :: 0 <= i < |ids| ==> ids[i] in m && keep(m[ids[i]]) && rows[i] == render(ids[i], m[ids[i]])
    ensures forall k :: k in m && keep(m[k]) ==> k in ids
    ensures forall i, j :: 0 <= i < j < |ids| ==> ids[i] != ids[j]
  {
    var remaining := m.Keys;
    rows, ids := [], [];
    while remaining != {}
      invariant remaining <= m.Keys
      invariant |ids| == |rows|
      invariant forall i :: 0 <= i < |ids| ==>
                  ids[i] in m && ids[i] !in remaining && keep(m[ids[i]]) && rows[i] == render(ids[i], m[ids[i]])
      invariant forall k :: k in m && keep(m[k]) ==> k in ids || k in remaining
      invariant forall i, j :: 0 <= i < j < |ids| ==> ids[i] != ids[j]
      decreases |remaining|
    {
      var k :| k in remaining;
      if keep(m[k]) {
        rows := rows + [render(k, m[k])];
        ids := ids + [k];
      }
      remaining := remaining - {k};
    }
  }

  predicate IsDigit(c: char) {
    '0' <= c <= '9'
  }

  predicate AllDigits(s: string) {
    forall i :: 0 <= i < |s| ==> IsDigit(s[i])
  }

  function DigitChar(d: nat): (c: char)
    requires d < 10
    ensures IsDigit(c) && c as int - '0' as int == d
  {
    ('0' as int + d) as char
  }

  /** Python's `str(n)` for a non-negative integer: the shortest decimal
      numeral, no sign and no leading zero. */
  function DecimalString(n: nat): (r: string)
    ensures |r| > 0 && AllDigits(r)
    ensures r[0] == '0' <==> n == 0
    decreases n
  {
    if n < 10 then [DigitChar(n)] else DecimalString(n / 10) + [DigitChar(n % 10)]
  }

  /** The value of a numeral read from its most significant digit. */
  function DigitsValue(s: string): nat
    requires AllDigits(s)
  {
    if s == [] then 0 else DigitsValue(s[..|s| - 1]) * 10 + (s[|s| - 1] as int - '0' as int)
  }

  /** Reading back what `DecimalString` writes gives the number again. */
  lemma {:induction false} DecimalStringValue(n: nat)
    ensures DigitsValue(DecimalString(n)) == n
    decreases n
  {
    var r := DecimalString(n);
    if n >= 10 {
      DecimalStringValue(n / 10);
      assert r[..|r| - 1] == DecimalString(n / 10);
    }
  }

  /** Distinct numbers render to distinct numerals. */
  lemma DecimalStringInjective(m: nat, n: nat)
    requires DecimalString(m) == DecimalString(n)
    ensures m == n
  {
    DecimalStringValue(m);
    DecimalStringValue(n);
  }
}
