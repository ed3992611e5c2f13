/** The in-memory JavaScript values the normalizer reshapes: items, entities,
    references and entity tables are all built from these. Functions never occur
    inside data here; key functions, mergers and cloners are modelled in `Keys`. */
module Values {
  import opened Outcome

  datatype Value =
    | Undefined
    | Null
    | Bool(b: bool)
    | Num(n: int)
    | Str(s: string)
    | Arr(elems: seq<Value>)
    | Obj(fields: map<string, Value>)

  /** JavaScript truthiness: undefined, null, false, 0 and '' are falsy. A
      truthy value is never nullish, and arrays and objects, even empty ones,
      are always truthy. */
  predicate Truthy(v: Value): (b: bool)
    ensures b ==> !v.Undefined? && !v.Null?
    ensures v.Arr? || v.Obj? ==> b
    ensures v.Str? ==> (b <==> v.s != "")
  {
    match v
    case Undefined => false
    case Null => false
    case Bool(b) => b
    case Num(n) => n != 0
    case Str(s) => s != ""
    case Arr(_) => true
    case Obj(_) => true
  }

  /** `v instanceof Object`; arrays are objects too. */
  predicate IsObject(v: Value) {
    v.Arr? || v.Obj?
  }

  /** The values that `??` and `?.` treat as missing. */
  predicate Nullish(v: Value) {
    v.Undefined? || v.Null?
  }

  // ---------------------------------------------------------------- numbers as text

  function Digit(d: nat): char
    requires d < 10
  {
    ('0' as int + d) as char
  }

  predicate IsDigit(c: char) {
    '0' <= c <= '9'
  }

  /** `String(n)` for a natural number. */
  function NatString(n: nat): (r: string)
    ensures |r| > 0
    ensures forall i | 0 <= i < |r| :: IsDigit(r[i])
    ensures (r[0] == '0') == (n == 0)
  {
    if n < 10 then [Digit(n)] else NatString(n / 10) + [Digit(n % 10)]
  }

  /** `String(i)` for an integer. */
  function IntString(i: int): string {
    if i < 0 then "-" + NatString(-i) else NatString(i)
  }

  function DigitsValue(s: string): nat
    requires forall i | 0 <= i < |s| :: IsDigit(s[i])
  {
    if s == [] then 0
    else
      var last := s[|s| - 1];
      assert IsDigit(last);
      DigitsValue(s[..|s| - 1]) * 10 + (last as int - '0' as int)
  }

  /** The array index a property name denotes: a canonical decimal numeral. */
  function ParseIndex(k: string): Option<nat> {
    if k != [] && (forall i | 0 <= i < |k| :: IsDigit(k[i])) && (|k| == 1 || k[0] != '0')
    then Some(DigitsValue(k))
    else None
  }

  lemma {:induction false} NatStringValue(n: nat)
    ensures DigitsValue(NatString(n)) == n
  {
    if n >= 10 {
      var s := NatString(n);
      assert s[..|s| - 1] == NatString(n / 10);
      NatStringValue(n / 10);
    }
  }

  /** Writing an index out and reading it back as a property name gives the index. */
  lemma ParseNatString(n: nat)
    ensures ParseIndex(NatString(n)) == Some(n)
  {
    NatStringValue(n);
  }

  lemma NatStringInjective()
    ensures forall i: nat, j: nat :: NatString(i) == NatString(j) ==> i == j
  {
    forall i: nat, j: nat | NatString(i) == NatString(j)
      ensures i == j
    {
      ParseNatString(i);
      ParseNatString(j);
    }
  }

  // ---------------------------------------------------------------- string coercion

  /** `${v}`, and the property key `obj[v]` uses: references become table keys this way. */
  function KeyString(v: Value): (r: string)
    ensures v.Str? ==> r == v.s
    ensures v.Num? && v.n >= 0 ==> r == NatString(v.n)
    ensures v.Num? && v.n < 0 ==> r == "-" + NatString(-v.n)
    ensures v.Obj? ==> r == "[object Object]"
    decreases v
  {
    match v
    case Undefined => "undefined"
    case Null => "null"
    case Bool(b) => if b then "true" else "false"
    case Num(n) => IntString(n)
    case Str(s) => s
    case Arr(xs) => Join(xs)
    case Obj(_) => "[object Object]"
  }

  /** `Array.prototype.join(',')`: null and undefined elements print as ''. */
  function Join(xs: seq<Value>): string
    decreases xs
  {
    if xs == [] then ""
    else
      var first := if Nullish(xs[0]) then "" else KeyString(xs[0]);
      if |xs| == 1 then first else first + "," + Join(xs[1..])
  }

  // ---------------------------------------------------------------- property access

  /** `v[k]`. Throws on null and undefined; arrays and strings answer `length` and
      their indices; other primitives have no own properties. */
  function GetProp(v: Value, k: string): (r: Result<Value>)
    ensures r.TypeError? <==> Nullish(v)
    ensures v.Obj? ==> r == Ok(if k in v.fields then v.fields[k] else Undefined)
    ensures v.Arr? && k == "length" ==> r == Ok(Num(|v.elems|))
    ensures v.Bool? || v.Num? ==> r == Ok(Undefined)
  {
    match v
    case Undefined => TypeError
    case Null => TypeError
    case Obj(m) => Ok(if k in m then m[k] else Undefined)
    case Arr(xs) =>
      Ok(if k == "length" then Num(|xs|)
         else match ParseIndex(k)
              case Some(i) => if i < |xs| then xs[i] else Undefined
              case None => Undefined)
    case Str(s) =>
      Ok(if k == "length" then Num(|s|)
         else match ParseIndex(k)
              case Some(i) => if i < |s| then Str([s[i]]) else Undefined
              case None => Undefined)
    case _ => Ok(Undefined)
  }

  /** `v[i]` for a numeric index. */
  function Index(v: Value, i: nat): Result<Value> {
    GetProp(v, NatString(i))
  }

  lemma IndexArr(xs: seq<Value>, i: nat)
    requires i < |xs|
    ensures Index(Arr(xs), i) == Ok(xs[i])
  {
    ParseNatString(i);
  }

  /** `target[k] = x` in strict-mode code, on the objects the normalizer writes to. */
  function SetProp(target: Value, k: string, x: Value): (r: Result<Value>)
    ensures r.Ok? <==> target.Obj?
    ensures r.Ok? ==> r.value.Obj? && r.value.fields.Keys == target.fields.Keys + {k}
    ensures r.Ok? ==> r.value.fields[k] == x
    ensures r.Ok? ==> forall j | j in target.fields && j != k :: r.value.fields[j] == target.fields[j]
  {
    if target.Obj? then Ok(Obj(target.fields[k := x])) else TypeError
  }

  // ---------------------------------------------------------------- spreading

  /** The own properties of an array or string: index names to elements. */
  function Indexed(xs: seq<Value>): (m: map<string, Value>)
    ensures forall i | 0 <= i < |xs| :: NatString(i) in m && m[NatString(i)] == xs[i]
    ensures forall k | k in m :: exists i | 0 <= i < |xs| :: k == NatString(i)
  {
    NatStringInjective();
    map i | 0 <= i < |xs| :: NatString(i) := xs[i]
  }

  function Chars(s: string): (r: seq<Value>)
    ensures |r| == |s|
    ensures forall i | 0 <= i < |s| :: r[i] == Str([s[i]])
  {
    seq(|s|, i requires 0 <= i < |s| => Str([s[i]]))
  }

  /** The own enumerable properties `{ ...v }` copies: an object's own fields,
      the elements of an array under their index names, and nothing for
      null, undefined, booleans and numbers. */
  function Spread(v: Value): (r: map<string, Value>)
    ensures v.Obj? ==> r == v.fields
    ensures !IsObject(v) && !v.Str? ==> r == map[]
    ensures v.Arr? ==> forall i | 0 <= i < |v.elems| :: NatString(i) in r && r[NatString(i)] == v.elems[i]
  {
    match v
    case Obj(m) => m
    case Arr(xs) => Indexed(xs)
    case Str(s) => Indexed(Chars(s))
    case _ => map[]
  }

  /** Every own property `{ ...v }` copies reads back as `v[k]`. */
  lemma SpreadReadsBack(v: Value, k: string)
    requires k in Spread(v)
    ensures GetProp(v, k) == Ok(Spread(v)[k])
  {
    if v.Arr? || v.Str? {
      var xs := if v.Arr? then v.elems else Chars(v.s);
      var i :| 0 <= i < |xs| && k == NatString(i);
      ParseNatString(i);
      assert k != "length";
    }
  }

  /** Distinct numeric references land under distinct table keys. */
  lemma KeyStringNumInjective(i: int, j: int)
    requires KeyString(Num(i)) == KeyString(Num(j))
    ensures i == j
  {
    var a, b := KeyString(Num(i)), KeyString(Num(j));
    if i >= 0 && j >= 0 {
      ParseNatString(i);
      ParseNatString(j);
    } else if i < 0 && j < 0 {
      assert a[1..] == NatString(-i) && b[1..] == NatString(-j);
      ParseNatString(-i);
      ParseNatString(-j);
    } else {
      assert false;
    }
  }

  /** A number and its decimal string are the same table key. */
  lemma KeyStringNumStr(n: nat)
    ensures KeyString(Num(n)) == KeyString(Str(NatString(n)))
  {
  }
}
