// Action results and what storing them as JSON does to them (idempotency.py:238-243).

module Results {
  import opened Common

  // A handler's result.  Atoms are None, strings, booleans and numbers; JSON has
  // lists but no tuples.
  datatype Value =
    | Atom(text: string)
    | List(items: seq<Value>)
    | Tuple(items: seq<Value>)
    | Dict(fields: seq<Field>)

  datatype Field = Field(key: string, value: Value)

  // _json_value
  function Normalize(v: Value): Value
    decreases v
  {
    match v
    case Atom(_) => v
    case List(items) => List(NormalizeAll(items))
    case Tuple(items) => List(NormalizeAll(items))
    case Dict(fields) => Dict(NormalizeFields(fields))
  }

  function NormalizeAll(vs: seq<Value>): (out: seq<Value>)
    ensures |out| == |vs|
    decreases vs
  {
    if vs == [] then [] else [Normalize(vs[0])] + NormalizeAll(vs[1..])
  }

  function NormalizeFields(fs: seq<Field>): (out: seq<Field>)
    ensures |out| == |fs|
    decreases fs
  {
    if fs == [] then [] else [Field(fs[0].key, Normalize(fs[0].value))] + NormalizeFields(fs[1..])
  }

  // A value JSON text can denote: no tuple at any depth.
  predicate IsJson(v: Value)
    decreases v
  {
    match v
    case Atom(_) => true
    case List(items) => forall x :: x in items ==> IsJson(x)
    case Tuple(_) => false
    case Dict(fields) => forall f :: f in fields ==> IsJson(f.value)
  }

  // Equal up to the kind of sequence.
  predicate SameData(a: Value, b: Value)
    decreases a
  {
    match a
    case Atom(_) => b == a
    case List(xs) =>
      (b.List? || b.Tuple?) && |b.items| == |xs| && forall i :: 0 <= i < |xs| ==> SameData(xs[i], b.items[i])
    case Tuple(xs) =>
      (b.List? || b.Tuple?) && |b.items| == |xs| && forall i :: 0 <= i < |xs| ==> SameData(xs[i], b.items[i])
    case Dict(fs) =>
      && b.Dict? && |b.fields| == |fs|
      && forall i :: 0 <= i < |fs| ==> fs[i].key == b.fields[i].key && SameData(fs[i].value, b.fields[i].value)
  }

  lemma {:induction false} NormalizeAllAt(vs: seq<Value>, i: nat)
    requires i < |vs|
    ensures NormalizeAll(vs)[i] == Normalize(vs[i])
  {
    if i > 0 { NormalizeAllAt(vs[1..], i - 1); }
  }

  lemma {:induction false} NormalizeFieldsAt(fs: seq<Field>, i: nat)
    requires i < |fs|
    ensures NormalizeFields(fs)[i] == Field(fs[i].key, Normalize(fs[i].value))
  {
    if i > 0 { NormalizeFieldsAt(fs[1..], i - 1); }
  }

  lemma {:induction false} NormalizeSound(v: Value)
    ensures IsJson(Normalize(v)) && SameData(v, Normalize(v))
    decreases v
  {
    match v
    case Atom(_) =>
    case Dict(fields) =>
      forall i | 0 <= i < |fields|
        ensures var f := NormalizeFields(fields)[i];
                f.key == fields[i].key && IsJson(f.value) && SameData(fields[i].value, f.value)
      {
        NormalizeFieldsAt(fields, i);
        NormalizeSound(fields[i].value);
      }
    case _ =>
      forall i | 0 <= i < |v.items|
        ensures IsJson(NormalizeAll(v.items)[i]) && SameData(v.items[i], NormalizeAll(v.items)[i])
      {
        NormalizeAllAt(v.items, i);
        NormalizeSound(v.items[i]);
      }
  }

  lemma {:induction false} NormalizeUnique(v: Value, w: Value)
    requires IsJson(w) && SameData(v, w)
    ensures w == Normalize(v)
    decreases v
  {
    match v
    case Atom(_) =>
    case Dict(fields) =>
      forall i | 0 <= i < |fields| ensures w.fields[i] == NormalizeFields(fields)[i] {
        NormalizeFieldsAt(fields, i);
        assert w.fields[i] in w.fields;
        NormalizeUnique(fields[i].value, w.fields[i].value);
      }
      assert w.fields == NormalizeFields(fields);
    case _ =>
      forall i | 0 <= i < |v.items| ensures w.items[i] == NormalizeAll(v.items)[i] {
        NormalizeAllAt(v.items, i);
        assert w.items[i] in w.items;
        NormalizeUnique(v.items[i], w.items[i]);
      }
      assert w.items == NormalizeAll(v.items);
  }

  // Normalizing yields the one JSON value with the same data.
  lemma NormalizeIsExact(v: Value, w: Value)
    ensures w == Normalize(v) <==> IsJson(w) && SameData(v, w)
  {
    NormalizeSound(v);
    if IsJson(w) && SameData(v, w) {
      NormalizeUnique(v, w);
    }
  }
}
