/** What the process engines of both generations do to the object they write
    to (src/process.ts, src/core/process.ts): `target[entity.prop] = value`, one
    descriptor after another. */
module Overwriting {
  import opened Outcome
  import opened Values

  /** The properties written, in order, with the values written to them. */
  function OverwriteFields(m: map<string, Value>, props: seq<string>, values: seq<Value>): (r: map<string, Value>)
    requires |props| == |values|
    ensures r.Keys == m.Keys + set k | k in props
    decreases |props|
  {
    if props == [] then m
    else OverwriteFields(m[props[0] := values[0]], props[1..], values[1..])
  }

  /** The last write to a property is at index j. */
  predicate LastWrite(props: seq<string>, j: nat) {
    j < |props| && forall l | j < l < |props| :: props[l] != props[j]
  }

  predicate Distinct(props: seq<string>) {
    forall i, j | 0 <= i < j < |props| :: props[i] != props[j]
  }

  /** A property no descriptor names keeps its value. */
  lemma {:induction false} OverwriteUntouched(m: map<string, Value>, props: seq<string>, values: seq<Value>, k: string)
    requires |props| == |values| && k !in props && k in m
    ensures OverwriteFields(m, props, values)[k] == m[k]
    decreases |props|
  {
    if props != [] {
      OverwriteUntouched(m[props[0] := values[0]], props[1..], values[1..], k);
    }
  }

  /** When two descriptors name the same property, the later write wins. */
  lemma {:induction false} OverwriteLast(m: map<string, Value>, props: seq<string>, values: seq<Value>, j: nat)
    requires |props| == |values| && LastWrite(props, j)
    ensures OverwriteFields(m, props, values)[props[j]] == values[j]
    decreases |props|
  {
    if j == 0 {
      assert props[0] !in props[1..];
      OverwriteUntouched(m[props[0] := values[0]], props[1..], values[1..], props[0]);
    } else {
      OverwriteLast(m[props[0] := values[0]], props[1..], values[1..], j - 1);
    }
  }

  /** With distinct properties every descriptor's value is the one that stays. */
  lemma OverwriteDistinct(m: map<string, Value>, props: seq<string>, values: seq<Value>, i: nat)
    requires |props| == |values| && Distinct(props) && i < |props|
    ensures OverwriteFields(m, props, values)[props[i]] == values[i]
  {
    OverwriteLast(m, props, values, i);
  }

  /** Writing the same values a second time changes nothing. */
  lemma OverwriteTwice(m: map<string, Value>, props: seq<string>, values: seq<Value>)
    requires |props| == |values|
    ensures OverwriteFields(OverwriteFields(m, props, values), props, values) == OverwriteFields(m, props, values)
  {
    var once := OverwriteFields(m, props, values);
    var twice := OverwriteFields(once, props, values);
    forall k | k in twice
      ensures twice[k] == once[k]
    {
      if k in props {
        var j := LastOf(props, k);
        OverwriteLast(m, props, values, j);
        OverwriteLast(once, props, values, j);
      } else {
        OverwriteUntouched(once, props, values, k);
      }
    }
  }

  /** With distinct properties: each written property holds its value, every
      other property keeps its own. */
  lemma OverwriteShape(m: map<string, Value>, props: seq<string>, values: seq<Value>)
    requires |props| == |values| && Distinct(props)
    ensures var r := OverwriteFields(m, props, values);
            (forall i | 0 <= i < |props| :: r[props[i]] == values[i]) &&
            (forall k | k in m && k !in props :: r[k] == m[k])
  {
    forall i | 0 <= i < |props| ensures OverwriteFields(m, props, values)[props[i]] == values[i] {
      OverwriteDistinct(m, props, values, i);
    }
    forall k | k in m && k !in props ensures OverwriteFields(m, props, values)[k] == m[k] {
      OverwriteUntouched(m, props, values, k);
    }
  }

  /** Writing each property's value from `m` over an object that agrees with
      `m` everywhere else restores `m`. */
  lemma OverwriteRestores(n: map<string, Value>, m: map<string, Value>, props: seq<string>, values: seq<Value>)
    requires |props| == |values| && Distinct(props) && n.Keys == m.Keys
    requires forall i | 0 <= i < |props| :: props[i] in m && values[i] == m[props[i]]
    requires forall k | k in m && k !in props :: n[k] == m[k]
    ensures OverwriteFields(n, props, values) == m
  {
    OverwriteShape(n, props, values);
    var r := OverwriteFields(n, props, values);
    forall k | k in m ensures r[k] == m[k] {
      if k in props {
        var i :| 0 <= i < |props| && props[i] == k;
      }
    }
  }

  /** Writing back the values the properties already hold changes nothing. */
  lemma {:induction false} OverwriteSame(m: map<string, Value>, props: seq<string>, values: seq<Value>)
    requires |props| == |values|
    requires forall i | 0 <= i < |props| :: props[i] in m && values[i] == m[props[i]]
    ensures OverwriteFields(m, props, values) == m
    decreases |props|
  {
    if props != [] {
      assert m[props[0] := values[0]] == m;
      OverwriteSame(m, props[1..], values[1..]);
    }
  }

  lemma LastOf(props: seq<string>, k: string) returns (j: nat)
    requires k in props
    ensures LastWrite(props, j) && props[j] == k
  {
    j := |props| - 1;
    while props[j] != k
      invariant 0 <= j < |props|
      invariant forall l | j < l < |props| :: props[l] != k
      decreases j
    {
      j := j - 1;
    }
  }

  /** `clone[prop] = value` for each write in turn, in strict-mode code: writing
      to a primitive throws, so only an object clone can take writes. */
  function Overwrite(clone: Value, props: seq<string>, values: seq<Value>): (r: Result<Value>)
    requires |props| == |values|
    ensures props == [] ==> r == Ok(clone)
    ensures props != [] ==> (r.Ok? <==> clone.Obj?)
    ensures props != [] && r.Ok? ==> r.value == Obj(OverwriteFields(clone.fields, props, values))
    decreases |props|
  {
    if props == [] then Ok(clone)
    else
      var next :- SetProp(clone, props[0], values[0]);
      Overwrite(next, props[1..], values[1..])
  }

  /** Values that are each computed or failed. */
  function AllOk(xs: seq<Result<Value>>): (r: Result<seq<Value>>)
    ensures r.Ok? <==> forall i | 0 <= i < |xs| :: xs[i].Ok?
    ensures r.Ok? ==> |r.value| == |xs| && forall i | 0 <= i < |xs| :: r.value[i] == xs[i].value
  {
    if xs == [] then Ok([])
    else
      var first :- xs[0];
      var rest :- AllOk(xs[1..]);
      Ok([first] + rest)
  }

  /** Writing each value as soon as it is computed. */
  function Interleaved(clone: Value, props: seq<string>, xs: seq<Result<Value>>): Result<Value>
    requires |props| == |xs|
    decreases |props|
  {
    if props == [] then Ok(clone)
    else
      var x :- xs[0];
      var next :- SetProp(clone, props[0], x);
      Interleaved(next, props[1..], xs[1..])
  }

  /** Writing as the values come gives what computing them all first and then
      writing gives: every failure is the same TypeError. */
  lemma {:induction false} InterleavedIsOverwrite(clone: Value, props: seq<string>, xs: seq<Result<Value>>)
    requires |props| == |xs|
    ensures Interleaved(clone, props, xs) == (var vs :- AllOk(xs); Overwrite(clone, props, vs))
    decreases |props|
  {
    if props != [] {
      var rest := AllOk(xs[1..]);
      if xs[0].Ok? && clone.Obj? {
        InterleavedIsOverwrite(SetProp(clone, props[0], xs[0].value).value, props[1..], xs[1..]);
        if rest.Ok? {
          assert ([xs[0].value] + rest.value)[1..] == rest.value;
        }
      }
    }
  }
}
