/** A decoded JSON document as `json_decode` without the associative flag leaves it:
    objects become objects, arrays become lists, and an empty or unparsable body becomes
    `Null`. The functions read it the way PHP does. */
module Json {

  datatype Json =
    | Null
    | Bool(b: bool)
    | Num(n: int)
    | Str(s: string)
    | Arr(items: seq<Json>)
    | Obj(members: seq<Member>)

  datatype Member = Member(key: string, value: Json)

  function Lookup(ms: seq<Member>, key: string): (v: Json)
    ensures v != Null ==> exists i :: 0 <= i < |ms| && ms[i].key == key && ms[i].value == v
  {
    if ms == [] then Null
    else if ms[0].key == key then ms[0].value
    else
      var v := Lookup(ms[1..], key);
      assert v != Null ==> exists i :: 0 <= i < |ms| - 1 && ms[1..][i].key == key && ms[1..][i].value == v;
      v
  }

  /** `$v->key`: Null when `v` is not an object or has no such property. Reading through
      a chain with this function and testing the end against Null is PHP's `isset`. */
  function Prop(v: Json, key: string): Json
  {
    if v.Obj? then Lookup(v.members, key) else Null
  }

  /** PHP's conversion to boolean (`if ($v)`, `! $v`). */
  predicate Truthy(v: Json)
  {
    match v
    case Null => false
    case Bool(b) => b
    case Num(n) => n != 0
    case Str(s) => s != "" && s != "0"
    case Arr(items) => items != []
    case Obj(_) => true
  }

  function Values(ms: seq<Member>): (vs: seq<Json>)
    ensures |vs| == |ms| && forall i :: 0 <= i < |ms| ==> vs[i] == ms[i].value
  {
    seq(|ms|, i requires 0 <= i < |ms| => ms[i].value)
  }

  /** `(array) $v`. */
  function CastToArray(v: Json): seq<Json>
  {
    match v
    case Null => []
    case Arr(items) => items
    case Obj(ms) => Values(ms)
    case _ => [v]
  }

  /** What `foreach ($v as $x)` visits: nothing when `v` is neither array nor object. */
  function ForeachItems(v: Json): seq<Json>
  {
    match v
    case Arr(items) => items
    case Obj(ms) => Values(ms)
    case _ => []
  }

  /** `array_pop($xs)`'s result: the last element, or Null for an empty array. */
  function ArrayPop(xs: seq<Json>): Json
  {
    if xs == [] then Null else xs[|xs| - 1]
  }

  /** The decimal digits of a natural number, most significant first. */
  function Digits(n: nat): (s: string)
    ensures |s| > 0 && forall i :: 0 <= i < |s| ==> '0' <= s[i] <= '9'
    decreases n
  {
    (if n < 10 then "" else Digits(n / 10)) + [('0' as int + n % 10) as char]
  }

  /** The number a string of decimal digits denotes. */
  function DigitsValue(s: string): nat
  {
    if s == [] then 0 else 10 * DigitsValue(s[..|s| - 1]) + (if '0' <= s[|s| - 1] <= '9' then s[|s| - 1] as int - '0' as int else 0)
  }

  /** Reading the digits back gives the number. */
  lemma {:induction false} DigitsRoundTrip(n: nat)
    ensures DigitsValue(Digits(n)) == n
    decreases n
  {
    var s := Digits(n);
    var front := if n < 10 then "" else Digits(n / 10);
    var last := ('0' as int + n % 10) as char;
    assert s == front + [last];
    assert s[..|s| - 1] == front && s[|s| - 1] == last;
    assert DigitsValue(s) == 10 * DigitsValue(front) + n % 10;
    if n >= 10 {
      DigitsRoundTrip(n / 10);
    }
  }

  /** PHP's conversion of an integer to a string: a `-` for a negative number, then the
      decimal digits. */
  function IntText(n: int): (s: string)
    ensures |s| > (if n < 0 then 1 else 0) && (s[0] == '-' <==> n < 0)
    ensures forall i :: (if n < 0 then 1 else 0) <= i < |s| ==> '0' <= s[i] <= '9'
  {
    if n < 0 then "-" + Digits(-n) else Digits(n)
  }

  /** The digits after the sign give back the number's magnitude. */
  lemma IntTextValue(n: int)
    ensures DigitsValue(IntText(n)[(if n < 0 then 1 else 0)..]) == if n < 0 then -n else n
  {
    var d := Digits(if n < 0 then -n else n);
    if n < 0 {
      assert IntText(n) == "-" + d;
      assert ("-" + d)[1..] == d;
    } else {
      assert IntText(n)[0..] == d;
    }
    DigitsRoundTrip(if n < 0 then -n else n);
  }

  /** Different integers are written differently. */
  lemma IntTextInjective(m: int, n: int)
    requires IntText(m) == IntText(n)
    ensures m == n
  {
    assert m < 0 <==> n < 0;
    IntTextValue(m);
    IntTextValue(n);
  }

  /** A decoded value used as a string, as PHP converts a scalar: a string is itself, an
      integer its decimal text, `true` is `1`, `false` and Null are empty. An array or an
      object is taken as the empty string. */
  function ToText(v: Json): string
  {
    match v
    case Str(s) => s
    case Num(n) => IntText(n)
    case Bool(b) => if b then "1" else ""
    case _ => ""
  }
}
