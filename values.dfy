/**
 * The values that flow through the plugin: Jekyll's configuration and page data
 * are Ruby hashes loaded from YAML, and YAML::load yields the same kind of value.
 */
module Values {

  datatype Value =
    | Nil
    | Bool(b: bool)
    | Int(i: int)
    | Str(s: string)
    | List(items: seq<Value>)
    | Dict(entries: map<string, Value>)

  /** Ruby truthiness: only nil and false are false; 0 and the empty string are true. */
  predicate Truthy(v: Value): (r: bool)
    ensures !r ==> v == Nil || v == Bool(false)
    ensures v.Int? || v.Str? || v.List? || v.Dict? ==> r
  {
    !(v.Nil? || v == Bool(false))
  }

  /** `hash[key] || default`: the stored value unless it is absent, nil or false. */
  function Lookup(h: map<string, Value>, key: string, default: Value): (r: Value)
    ensures key in h && Truthy(h[key]) ==> r == h[key]
    ensures !(key in h && Truthy(h[key])) ==> r == default
    ensures Truthy(default) ==> Truthy(r)
  {
    if key in h && Truthy(h[key]) then h[key] else default
  }

  /** The digits of a natural number in base ten, without leading zeros. */
  function NatToS(n: nat): (r: string)
    ensures |r| > 0
    ensures forall i :: 0 <= i < |r| ==> '0' <= r[i] <= '9'
    ensures n > 0 ==> r[0] != '0'
    decreases n
  {
    var d := (('0' as int) + n % 10) as char;
    if n < 10 then [d] else NatToS(n / 10) + [d]
  }

  /** The number a string of decimal digits denotes, read left to right. */
  function DigitsValue(s: string): nat
    decreases |s|
  {
    if s == [] then 0
    else
      var c := s[|s| - 1];
      var digit := if '0' <= c <= '9' then (c as int) - ('0' as int) else 0;
      DigitsValue(s[..|s| - 1]) * 10 + digit
  }

  /** Reading back the digits NatToS writes gives the number. */
  lemma {:induction false} NatToSValue(n: nat)
    ensures DigitsValue(NatToS(n)) == n
    decreases n
  {
    if n >= 10 {
      var r := NatToS(n);
      assert r[..|r| - 1] == NatToS(n / 10);
      NatToSValue(n / 10);
    }
  }

  /** Ruby's `to_s` for the scalar values, as used by string interpolation. */
  function ToS(v: Value): (r: string)
    ensures v.Str? ==> r == v.s
    ensures v.Nil? ==> r == ""
    ensures v.Bool? ==> r == (if v.b then "true" else "false")
    ensures v.Int? ==> r != [] && (r[0] == '-' <==> v.i < 0)
  {
    match v
    case Nil => ""
    case Bool(b) => if b then "true" else "false"
    case Int(i) => if i < 0 then "-" + NatToS(-i) else NatToS(i)
    case Str(s) => s
    case List(_) => ""
    case Dict(_) => ""
  }

  /** An integer's `to_s` is its decimal digits without leading zeros, after a '-' when it is negative. */
  lemma ToSIntValue(i: int)
    ensures var r := ToS(Int(i));
      if i < 0 then |r| >= 2 && r[0] == '-' && r[1] != '0' && DigitsValue(r[1..]) == -i
      else DigitsValue(r) == i && (i > 0 ==> r[0] != '0')
  {
    if i < 0 {
      var digits := NatToS(-i);
      NatToSValue(-i);
      assert ToS(Int(i)) == "-" + digits;
      assert ("-" + digits)[1..] == digits;
    } else {
      NatToSValue(i);
    }
  }
}
