/**
 * The object helpers the dashboard uses to merge configuration objects. Values
 * are JSON-like: the model has no functions, prototypes or `undefined`.
 */
module ObjectUtils {
  /** A JSON-like JavaScript value. */
  datatype Json =
    | Null
    | Bool(b: bool)
    | Num(n: real)
    | Str(s: string)
    | Arr(items: seq<Json>)
    | Obj(fields: map<string, Json>)

  /**
   * `isObject`: JavaScript truthiness of the expression, which holds for
   * every object that is not `null` and not an array, empty objects included.
   */
  predicate IsObject(item: Json)
  {
    item.Obj?
  }

  /**
   * `deepUnion`: the fields of `obj1`, with every field of `overwrite` laid
   * over them; where both sides hold an object the two are merged the same
   * way, otherwise the value of `overwrite` wins.
   */
  function DeepUnion(obj1: map<string, Json>, overwrite: map<string, Json>): (result: map<string, Json>)
    ensures result.Keys == obj1.Keys + overwrite.Keys
    ensures forall key :: key in obj1 && key !in overwrite ==> result[key] == obj1[key]
    ensures forall key :: key in overwrite && !(key in obj1 && IsObject(obj1[key]) && IsObject(overwrite[key])) ==>
      result[key] == overwrite[key]
    ensures forall key :: key in obj1 && key in overwrite && IsObject(obj1[key]) && IsObject(overwrite[key]) ==>
      IsObject(result[key]) && result[key].fields.Keys == obj1[key].fields.Keys + overwrite[key].fields.Keys
    decreases Obj(overwrite)
  {
    map key | key in obj1.Keys + overwrite.Keys ::
      if key in overwrite then
        if key in obj1 && obj1[key].Obj? && overwrite[key].Obj? then
          Obj(DeepUnion(obj1[key].fields, overwrite[key].fields))
        else overwrite[key]
      else obj1[key]
  }

  /**
   * The loop of `deepUnion`: start from a copy of `obj1` and assign each key
   * of `overwrite` in turn, recursing where both sides are objects. The
   * order of the keys does not matter, since each is assigned once.
   */
  method ComputeDeepUnion(obj1: map<string, Json>, overwrite: map<string, Json>) returns (result: map<string, Json>)
    ensures result == DeepUnion(obj1, overwrite)
    decreases Obj(overwrite)
  {
    ghost var target := DeepUnion(obj1, overwrite);
    result := obj1;
    var keys := overwrite.Keys;
    ghost var done: set<string> := {};
    while keys != {}
      invariant keys + done == overwrite.Keys && keys !! done
      invariant result.Keys == obj1.Keys + done
      invariant forall k :: k in done ==> result[k] == target[k]
      invariant forall k :: k in obj1 && k !in done ==> result[k] == obj1[k]
      decreases keys
    {
      var key :| key in keys;
      if key in obj1 && IsObject(obj1[key]) && IsObject(overwrite[key]) {
        var merged := ComputeDeepUnion(obj1[key].fields, overwrite[key].fields);
        assert target[key] == Obj(merged);
        result := result[key := Obj(merged)];
      } else {
        result := result[key := overwrite[key]];
      }
      keys := keys - {key};
      done := done + {key};
    }
    assert result.Keys == target.Keys;
  }

  /** Merging an object with itself gives it back. */
  lemma {:induction false} DeepUnionSelf(x: map<string, Json>)
    ensures DeepUnion(x, x) == x
    decreases Obj(x)
  {
    forall key | key in x && IsObject(x[key])
      ensures DeepUnion(x, x)[key] == x[key]
    {
      DeepUnionSelf(x[key].fields);
    }
  }

  /** Laying the same object over a second time changes nothing more. */
  lemma {:induction false} DeepUnionAbsorbs(a: map<string, Json>, b: map<string, Json>)
    ensures DeepUnion(DeepUnion(a, b), b) == DeepUnion(a, b)
    decreases Obj(b)
  {
    var u := DeepUnion(a, b);
    forall key | key in b && IsObject(b[key])
      ensures DeepUnion(u, b)[key] == u[key]
    {
      if key in a && IsObject(a[key]) {
        DeepUnionAbsorbs(a[key].fields, b[key].fields);
      } else {
        DeepUnionSelf(b[key].fields);
      }
    }
  }

  /** Objects are merged key by key, while an array or `null` replaces what was there. */
  lemma DeepUnionExample()
    ensures DeepUnion(
        map["axis" := Obj(map["min" := Num(0.0), "max" := Num(1.0)]), "ticks" := Arr([Num(1.0), Num(2.0)]), "label" := Str("t")],
        map["axis" := Obj(map["max" := Num(5.0)]), "ticks" := Arr([Num(3.0)]), "label" := Null])
      == map["axis" := Obj(map["min" := Num(0.0), "max" := Num(5.0)]), "ticks" := Arr([Num(3.0)]), "label" := Null]
  {
    var inner := DeepUnion(map["min" := Num(0.0), "max" := Num(1.0)], map["max" := Num(5.0)]);
    assert inner == map["min" := Num(0.0), "max" := Num(5.0)];
  }
}
