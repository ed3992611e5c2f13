/** Property accessors, src/helpers/acessorFor.ts and its legacy twin
    src/helpers/acessor.ts (the two have the same body): read one property and
    apply a function to it, or to each element of it for array keys. */
module Accessor {
  import opened Outcome
  import opened Values

  /** `xs.map(fn)`: one call per element in order; a call that throws ends the map. */
  function MapResult(xs: seq<Value>, fn: Value -> Result<Value>): (r: Result<seq<Value>>)
    ensures r.Ok? <==> forall i | 0 <= i < |xs| :: fn(xs[i]).Ok?
    ensures r.Ok? ==> |r.value| == |xs|
    ensures r.Ok? ==> forall i | 0 <= i < |xs| :: r.value[i] == fn(xs[i]).value
  {
    if xs == [] then Ok([])
    else
      var first :- fn(xs[0]);
      var rest :- MapResult(xs[1..], fn);
      Ok([first] + rest)
  }

  /** `data[prop]`. */
  function Read(data: Value, prop: string): Result<Value> {
    GetProp(data, prop)
  }

  /** The accessor for `prop`: in array mode `(data[prop] || []).map(fn)`,
      otherwise `fn(data[prop])`. Reading a property of null or undefined throws,
      and so does `.map` on a truthy value that is not an array. */
  function Access(data: Value, prop: string, isArray: bool, fn: Value -> Result<Value>): (r: Result<Value>)
    ensures Nullish(data) ==> r == TypeError
    ensures !Nullish(data) && !isArray ==> r == fn(Read(data, prop).value)
    ensures !Nullish(data) && isArray && !Truthy(Read(data, prop).value) ==> r == Ok(Arr([]))
    ensures !Nullish(data) && isArray && Truthy(Read(data, prop).value) && !Read(data, prop).value.Arr? ==>
              r == TypeError
    ensures !Nullish(data) && isArray && Read(data, prop).value.Arr? ==>
              var xs := Read(data, prop).value.elems;
              (r.Ok? <==> forall i | 0 <= i < |xs| :: fn(xs[i]).Ok?) &&
              (r.Ok? ==> r.value.Arr? && |r.value.elems| == |xs| &&
                         forall i | 0 <= i < |xs| :: r.value.elems[i] == fn(xs[i]).value)
  {
    var v :- Read(data, prop);
    if !isArray then fn(v)
    else if !Truthy(v) then Ok(Arr([]))
    else if v.Arr? then
      var ys :- MapResult(v.elems, fn);
      Ok(Arr(ys))
    else TypeError
  }

  /** The accessor looks at `data[prop]` and nothing else of `data`. */
  lemma AccessReadsOnlyProp(m1: map<string, Value>, m2: map<string, Value>, prop: string, isArray: bool,
                            fn: Value -> Result<Value>)
    requires (prop in m1) == (prop in m2)
    requires prop in m1 ==> m1[prop] == m2[prop]
    ensures Access(Obj(m1), prop, isArray, fn) == Access(Obj(m2), prop, isArray, fn)
  {
  }

  /** Mapping by `f` and then by `g` gives the elements back when `g` undoes
      `f` on each of them. */
  lemma MapBack(xs: seq<Value>, f: Value -> Result<Value>, g: Value -> Result<Value>)
    requires forall j | 0 <= j < |xs| :: f(xs[j]).Ok? && g(f(xs[j]).value) == Ok(xs[j])
    ensures MapResult(xs, f).Ok? && MapResult(MapResult(xs, f).value, g) == Ok(xs)
  {
    var ys := MapResult(xs, f).value;
    assert MapResult(ys, g).value == xs;
  }
}
