/** Plain JavaScript objects with string keys: the own keys in insertion order and the value of
    each key. The pivot's three levels, the parsed CSV records, the exported rows and the
    dashboard's accumulator are all objects of this kind. */
module Objects {
  import opened Common

  datatype Obj<V> = Obj(keys: seq<string>, vals: map<string, V>) {

    /** Every key is listed once, and the listed keys are exactly the keys with a value. */
    ghost predicate Valid() {
      Distinct(keys) && forall k :: k in vals <==> k in keys
    }

    /** `obj[k] = v`: an existing key keeps its place, a new key is appended. */
    function Put(k: string, v: V): (o: Obj<V>)
      ensures k in o.vals && o.vals[k] == v
    {
      Obj(if k in vals then keys else keys + [k], vals[k := v])
    }

    /** `obj[k]`, with `None` for a key the object does not have. */
    function Get(k: string): Option<V> {
      if k in vals then Some(vals[k]) else None
    }
  }

  /** Writing a key keeps every key listed once. */
  lemma PutValid<V>(o: Obj<V>, k: string, v: V)
    requires o.Valid()
    ensures o.Put(k, v).Valid()
  {
  }

  /** Two writes to the same key: the second one wins and the key keeps its first place. */
  lemma PutPut<V>(o: Obj<V>, k: string, a: V, b: V)
    ensures o.Put(k, a).Put(k, b) == o.Put(k, b)
  {
    assert o.vals[k := a][k := b] == o.vals[k := b];
  }

  /** `if (!(k in obj)) obj[k] = d; obj[k] = v` writes `v` just as `obj[k] = v` does. */
  lemma PutOverDefault<V>(o: Obj<V>, k: string, d: V, v: V)
    ensures (if k in o.vals then o else o.Put(k, d)).Put(k, v) == o.Put(k, v)
  {
    if k !in o.vals {
      PutPut(o, k, d, v);
    }
  }

  /** `{}` */
  function Empty<V>(): (o: Obj<V>)
    ensures o.Valid() && o.keys == []
  {
    Obj([], map[])
  }

  /** `obj[k] || {}`: the object under key `k`, or an empty one. */
  function Child<V>(o: Obj<Obj<V>>, k: string): Obj<V> {
    if k in o.vals then o.vals[k] else Empty()
  }

  /** The sum of `f` over the values of the listed keys, in key order. */
  function SumOver<V>(ks: seq<string>, m: map<string, V>, f: V -> real): real {
    if ks == [] then 0.0
    else SumOver(ks[..|ks| - 1], m, f) + (if ks[|ks| - 1] in m then f(m[ks[|ks| - 1]]) else 0.0)
  }

  /** The sum of `f` over all values of an object. */
  function Total<V>(o: Obj<V>, f: V -> real): real {
    SumOver(o.keys, o.vals, f)
  }

  /** Changing a key that is not listed does not change the sum. */
  lemma {:induction false} SumOverFrame<V>(ks: seq<string>, m: map<string, V>, k: string, v: V, f: V -> real)
    requires k !in ks
    ensures SumOver(ks, m[k := v], f) == SumOver(ks, m, f)
  {
    if ks != [] {
      SumOverFrame(ks[..|ks| - 1], m, k, v, f);
    }
  }

  /** Replacing the value of a key listed once moves the sum by the difference. */
  lemma {:induction false} SumOverUpdate<V>(ks: seq<string>, m: map<string, V>, k: string, v: V, f: V -> real)
    requires Distinct(ks) && k in ks && k in m
    ensures SumOver(ks, m[k := v], f) == SumOver(ks, m, f) - f(m[k]) + f(v)
  {
    var n := |ks| - 1;
    if ks[n] == k {
      assert k !in ks[..n];
      SumOverFrame(ks[..n], m, k, v, f);
    } else {
      assert k in ks[..n];
      SumOverUpdate(ks[..n], m, k, v, f);
    }
  }

  /** What `obj[k] = v` does to the sum of `f` over an object's values. */
  lemma PutTotal<V>(o: Obj<V>, k: string, v: V, f: V -> real)
    requires o.Valid()
    ensures Total(o.Put(k, v), f) == Total(o, f) - (if k in o.vals then f(o.vals[k]) else 0.0) + f(v)
  {
    if k in o.vals {
      SumOverUpdate(o.keys, o.vals, k, v, f);
    } else {
      var ks := o.keys + [k];
      assert ks[..|ks| - 1] == o.keys;
      SumOverFrame(o.keys, o.vals, k, v, f);
    }
  }
}
