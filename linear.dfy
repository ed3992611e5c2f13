/** The cloner factory of src/helpers/linear.ts: a shallow copy of the item whose
    linked properties are replaced by their schemas' normalize, so that what the
    collector stores holds references instead of the objects that link back. */
module Linear {
  import opened Outcome
  import opened Values
  import opened Keys
  import Cloning
  import Facade

  /** The cloner `linear(properties)` returns, applied to an item. */
  method LinearClone(links: seq<Linked>, item: Value) returns (r: Result<Value>)
    ensures r == Facade.Clone(Linear(links), item)
  {
    var clone := Cloning.DefaultClone(item);
    ghost var goal := Facade.LinearFold(links, clone);
    assert links[0..] == links;
    var ok := true;
    var i := 0;
    while i < |links| && ok
      invariant 0 <= i <= |links| && clone.Obj?
      invariant if ok then goal == Facade.LinearFold(links[i..], clone) else goal == TypeError
    {
      var next := NormalizeLink(links, i, clone);
      ok := next.Ok?;
      if ok {
        clone := next.value;
      }
      i := i + 1;
    }
    if ok {
      assert links[i..] == [];
      r := Ok(clone);
    } else {
      r := TypeError;
    }
  }

  /** The callback `([prop, schema]) => { clone[prop] = schema.normalize(clone[prop]) }`
      on link i: a throw of the normalize ends the clone. */
  method NormalizeLink(links: seq<Linked>, i: nat, clone: Value) returns (r: Result<Value>)
    requires i < |links| && clone.Obj?
    ensures r.Ok? ==> r.value.Obj?
    ensures Facade.LinearFold(links[i..], clone) ==
            if r.Ok? then Facade.LinearFold(links[i + 1..], r.value) else TypeError
  {
    var link := links[i];
    var current := if link.prop in clone.fields then clone.fields[link.prop] else Undefined;
    var normalized := Facade.Normalize(link.schema, current);
    FoldStep(links, i, clone);
    if normalized.TypeError? {
      return TypeError;
    }
    return Ok(Obj(clone.fields[link.prop := normalized.value]));
  }

  /** One turn of the loop. */
  lemma FoldStep(links: seq<Linked>, i: nat, clone: Value)
    requires i < |links| && clone.Obj?
    ensures var current := if links[i].prop in clone.fields then clone.fields[links[i].prop] else Undefined;
            var normalized := Facade.Normalize(links[i].schema, current);
            Facade.LinearFold(links[i..], clone) ==
            if normalized.TypeError? then TypeError
            else Facade.LinearFold(links[i + 1..], Obj(clone.fields[links[i].prop := normalized.value]))
  {
    assert links[i..][0] == links[i];
    assert links[i..][1..] == links[i + 1..];
  }

  predicate DistinctLinks(links: seq<Linked>) {
    forall i, j | 0 <= i < j < |links| :: links[i].prop != links[j].prop
  }

  predicate Linked(links: seq<Linked>, k: string) {
    exists i | 0 <= i < |links| :: links[i].prop == k
  }

  /** A property no link names keeps the clone's value: undeclared properties
      of the item are copied, not normalized. */
  lemma {:induction false} LinearKeeps(links: seq<Linked>, clone: Value, k: string)
    requires clone.Obj? && !Linked(links, k) && Facade.LinearFold(links, clone).Ok?
    ensures var r := Facade.LinearFold(links, clone).value;
            (k in r.fields <==> k in clone.fields) && (k in clone.fields ==> r.fields[k] == clone.fields[k])
  {
    if links != [] {
      var current := GetProp(clone, links[0].prop).value;
      var normalized := Facade.Normalize(links[0].schema, current).value;
      assert !Linked(links[1..], k) by {
        forall i | 0 <= i < |links[1..]| ensures links[1..][i].prop != k {
          assert links[1..][i] == links[i + 1];
        }
      }
      LinearKeeps(links[1..], Obj(clone.fields[links[0].prop := normalized]), k);
    }
  }

  /** Each linked property holds its schema's normalize of the clone's value. */
  lemma {:induction false} LinearNormalizes(links: seq<Linked>, clone: Value, i: nat)
    requires clone.Obj? && DistinctLinks(links) && i < |links| && Facade.LinearFold(links, clone).Ok?
    ensures var before := if links[i].prop in clone.fields then clone.fields[links[i].prop] else Undefined;
            Facade.Normalize(links[i].schema, before) ==
            Ok(Facade.LinearFold(links, clone).value.fields[links[i].prop])
  {
    var current := GetProp(clone, links[0].prop).value;
    var normalized := Facade.Normalize(links[0].schema, current).value;
    var next := Obj(clone.fields[links[0].prop := normalized]);
    if i == 0 {
      assert !Linked(links[1..], links[0].prop) by {
        forall j | 0 <= j < |links[1..]| ensures links[1..][j].prop != links[0].prop {
          assert links[1..][j] == links[j + 1];
        }
      }
      LinearKeeps(links[1..], next, links[0].prop);
    } else {
      assert links[1..][i - 1] == links[i];
      LinearNormalizes(links[1..], next, i - 1);
    }
  }
}
