/** How a schema is declared: the raw key declarations a user writes for each
    property (src/keys.ts, src/key.types.ts), the keys the resolvers extract from
    them, and the entity descriptors the builders produce. */
module Keys {
  import opened Outcome
  import opened Values
  import Merging

  /** A user-supplied function: its declared parameter count, its source text
      (`String(fn)`, the property key it becomes when used as one) and what calling
      it gives. A call with one argument passes `undefined` as the second. The code
      inside is opaque to the normalizer. */
  datatype Fn = Fn(arity: nat, text: string, call: (Value, Value) -> Value)

  /** `fn.length`. */
  function Length(f: Fn): nat {
    f.arity
  }

  /** `countArgs(fn)` of src/helpers/count-args.ts: it splits the printed parameter
      list on commas, so a function without parameters still counts as one. */
  function CountArgs(f: Fn): (r: nat)
    ensures r >= 1
    ensures f.arity >= 1 ==> r == f.arity
  {
    if f.arity == 0 then 1 else f.arity
  }

  /** One element of a raw key declaration, as JavaScript sees it: a string, a
      function, a nested schema object, an array of further parts, or `undefined`
      (what destructuring yields past the end of an array). */
  datatype Part =
    | Name(name: string)
    | Func(fn: Fn)
    | Nested(schema: Schema)
    | Tuple(parts: seq<Part>)
    | Absent

  /** One `prop: declaration` entry of the object passed to `schema(...)`. */
  datatype Decl = Decl(prop: string, part: Part)

  /** A schema object built by `schema(keys, cloneWith)` of src/schema.ts; its
      behaviour is a function of these two arguments. */
  datatype Schema = Schema(decls: seq<Decl>, cloner: Cloner)

  /** The cloners a schema can be built with: `defaultClone`, one made by
      `linear(...)`, or any other user function. */
  datatype Cloner =
    | DefaultCloner
    | Linear(links: seq<Linked>)
    | CustomCloner(clone: Value -> Value)

  /** One `prop: schema` entry of the object passed to `linear(...)`. */
  datatype Linked = Linked(prop: string, schema: Schema)

  /** The element at index i of an array, as array destructuring reads it. */
  function At(parts: seq<Part>, i: nat): (r: Part)
    ensures i < |parts| ==> r == parts[i]
    ensures i >= |parts| ==> r == Absent
  {
    if i < |parts| then parts[i] else Absent
  }

  /** k is p, an element of p, or an element of an element of p: where a resolver
      finds the key inside a declaration. */
  ghost predicate Within(k: Part, p: Part) {
    k == Absent || k == p ||
    (p.Tuple? && exists j | 0 <= j < |p.parts| ::
      k == p.parts[j] ||
      (p.parts[j].Tuple? && exists l | 0 <= l < |p.parts[j].parts| :: k == p.parts[j].parts[l]))
  }

  // ---------------------------------------------------------------- resolved keys

  /** The keys the declarations' types admit (`Key<T>` = `keyof T | KeyFn<T>`):
      a property name, a key function or a nested schema. */
  datatype Key = KeyName(name: string) | KeyFn(fn: Fn) | KeySchema(schema: Schema)

  function KeyPart(k: Key): Part {
    match k
    case KeyName(s) => Name(s)
    case KeyFn(f) => Func(f)
    case KeySchema(s) => Nested(s)
  }

  function AsKey(p: Part): (r: Option<Key>)
    ensures r.Some? <==> p.Name? || p.Func? || p.Nested?
    ensures r.Some? ==> KeyPart(r.value) == p
  {
    match p
    case Name(s) => Some(KeyName(s))
    case Func(f) => Some(KeyFn(f))
    case Nested(s) => Some(KeySchema(s))
    case _ => None
  }

  lemma AsKeyPart(k: Key)
    ensures AsKey(KeyPart(k)) == Some(k)
  {
  }

  // ---------------------------------------------------------------- declared shapes

  /** What a declaration means: a key, whether the property holds an array,
      an optional alias for the entity table and an optional merger. */
  datatype Shape = Shape(key: Key, isArray: bool, alias: Option<string>, merger: Option<Fn>)

  /** The declaration written for a shape, following the tuple forms of the key
      types: `key`, `[key, merger]`, `[alias, key, merger?]`, `[key]`,
      `[[key], merger]` and `[alias, [key], merger?]`. */
  function Encode(sh: Shape): (r: Part)
    ensures sh.isArray || sh.alias.Some? || sh.merger.Some? <==> r.Tuple?
  {
    var k := if sh.isArray then Tuple([KeyPart(sh.key)]) else KeyPart(sh.key);
    match (sh.alias, sh.merger)
    case (None, None) => k
    case (None, Some(m)) => Tuple([k, Func(m)])
    case (Some(a), None) => Tuple([Name(a), k])
    case (Some(a), Some(m)) => Tuple([Name(a), k, Func(m)])
  }

  /** A missing alias or merger is `undefined`. */
  function AliasPart(a: Option<string>): Part {
    if a.Some? then Name(a.value) else Absent
  }

  function MergerPart(m: Option<Fn>): Part {
    if m.Some? then Func(m.value) else Absent
  }

  // ---------------------------------------------------------------- descriptors

  /** How an entity table entry is merged: `defaultMerge`, or whatever value was
      declared as the merger. */
  datatype Merge = DefaultMerge | Merger(merger: Part)

  /** `merge(a, b)`: calling a declared merger that is not a function throws. */
  function ApplyMerge(m: Merge, a: Value, b: Value): (r: Result<Value>)
    ensures r.TypeError? <==> m.Merger? && !m.merger.Func?
    ensures m.DefaultMerge? ==> r == Ok(Merging.DefaultMerge(a, b))
  {
    match m
    case DefaultMerge => Ok(Merging.DefaultMerge(a, b))
    case Merger(Func(f)) => Ok(f.call(a, b))
    case Merger(_) => TypeError
  }

  /** One entity descriptor: the table name, the property, the merge strategy and
      the resolved key and array flag its extract and retrieve closures are built
      from. The key is whatever part the resolver picked out of the declaration. */
  datatype Entity = Entity(name: string, prop: string, merge: Merge, key: Part, isArray: bool)

  function Props(es: seq<Entity>): (r: seq<string>)
    ensures |r| == |es| && forall i | 0 <= i < |es| :: r[i] == es[i].prop
  {
    if es == [] then [] else [es[0].prop] + Props(es[1..])
  }

  /** No two descriptors name the same property, as for the entries of an object. */
  predicate DistinctProps(es: seq<Entity>) {
    forall i, j | 0 <= i < j < |es| :: es[i].prop != es[j].prop
  }

  predicate DistinctDecls(decls: seq<Decl>) {
    forall i, j | 0 <= i < j < |decls| :: decls[i].prop != decls[j].prop
  }

  // ---------------------------------------------------------------- parts as values

  /** The truthiness of a declaration part: only '' and `undefined` are falsy. */
  predicate PartTruthy(p: Part) {
    match p
    case Name(s) => s != ""
    case Absent => false
    case _ => true
  }

  /** `${p}`, the property key a part becomes when a table is indexed with it. */
  function PartKeyString(p: Part): string
    decreases p
  {
    match p
    case Name(s) => s
    case Func(f) => f.text
    case Nested(_) => "[object Object]"
    case Tuple(ps) => PartsJoin(ps)
    case Absent => "undefined"
  }

  function PartsJoin(ps: seq<Part>): string
    decreases ps
  {
    if ps == [] then ""
    else
      var first := if ps[0].Absent? then "" else PartKeyString(ps[0]);
      if |ps| == 1 then first else first + "," + PartsJoin(ps[1..])
  }

  // ---------------------------------------------------------------- sizes

  /** How deeply a declaration nests schemas: a nested schema is strictly
      smaller than every declaration, cloner and part that holds it. */
  function PartSize(p: Part): nat
    decreases p
  {
    match p
    case Nested(s) => 1 + SchemaSize(s)
    case Tuple(ps) => 1 + PartsSize(ps)
    case _ => 1
  }

  function PartsSize(ps: seq<Part>): nat
    decreases ps
  {
    if ps == [] then 0 else PartSize(ps[0]) + PartsSize(ps[1..])
  }

  function SchemaSize(s: Schema): nat
    decreases s
  {
    1 + DeclsSize(s.decls) + ClonerSize(s.cloner)
  }

  function DeclsSize(ds: seq<Decl>): nat
    decreases ds
  {
    if ds == [] then 0 else PartSize(ds[0].part) + DeclsSize(ds[1..])
  }

  function ClonerSize(c: Cloner): nat
    decreases c
  {
    match c
    case Linear(links) => 1 + LinksSize(links)
    case _ => 1
  }

  function LinksSize(ls: seq<Linked>): nat
    decreases ls
  {
    if ls == [] then 0 else 1 + SchemaSize(ls[0].schema) + LinksSize(ls[1..])
  }

  lemma {:induction false} PartsSizeBound(ps: seq<Part>, i: nat)
    requires i < |ps|
    ensures PartSize(ps[i]) <= PartsSize(ps)
  {
    if i > 0 {
      PartsSizeBound(ps[1..], i - 1);
    }
  }

  lemma {:induction false} DeclsSizeBound(ds: seq<Decl>, i: nat)
    requires i < |ds|
    ensures PartSize(ds[i].part) <= DeclsSize(ds)
  {
    if i > 0 {
      DeclsSizeBound(ds[1..], i - 1);
    }
  }

  lemma {:induction false} LinksSizeBound(ls: seq<Linked>, i: nat)
    requires i < |ls|
    ensures SchemaSize(ls[i].schema) < LinksSize(ls)
    ensures LinksSize(ls[i + 1..]) < LinksSize(ls)
  {
    if i > 0 {
      LinksSizeBound(ls[1..], i - 1);
      assert ls[1..][i..] == ls[i + 1..];
    }
  }

  /** Whatever a resolver picks out of a declaration is no larger than it. */
  lemma WithinSize(k: Part, p: Part)
    requires Within(k, p)
    ensures PartSize(k) <= PartSize(p)
  {
    if k != Absent && k != p {
      var j :| 0 <= j < |p.parts| &&
        (k == p.parts[j] ||
         (p.parts[j].Tuple? && exists l | 0 <= l < |p.parts[j].parts| :: k == p.parts[j].parts[l]));
      PartsSizeBound(p.parts, j);
      if k != p.parts[j] {
        var l :| 0 <= l < |p.parts[j].parts| && k == p.parts[j].parts[l];
        PartsSizeBound(p.parts[j].parts, l);
      }
    }
  }

  /** The part of every declaration of a schema is smaller than the schema. */
  lemma DeclBelowSchema(s: Schema, i: nat)
    requires i < |s.decls|
    ensures PartSize(s.decls[i].part) < SchemaSize(s)
  {
    DeclsSizeBound(s.decls, i);
  }
}
