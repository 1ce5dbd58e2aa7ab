/**
 * Values shared by both directions of the codec: JSON documents, Python
 * exceptions as the envelopes report them, and the insertion-ordered
 * dictionary that both `ast_to_dict` and `dict_to_ast` fill step by step.
 */
module Values {

  datatype Option<+T> = None | Some(value: T)

  /** A raised exception, reduced to what the envelopes keep of it:
      `type(e).__name__` and `str(e)`. */
  datatype PyError = PyError(typeName: string, msg: string)

  /** A computation that either returns a value or raises. */
  datatype Result<+T> = Ok(value: T) | Err(error: PyError)

  /** A JSON document. An object keeps its members in insertion order,
      as a Python dict does. Floating-point numbers are not modelled. */
  datatype Json =
    | Null
    | Bool(b: bool)
    | Int(i: int)
    | Str(s: string)
    | Arr(items: seq<Json>)
    | Obj(entries: seq<(string, Json)>)

  // ---------------------------------------------------------------------
  // A Python dict with string keys, as an ordered sequence of pairs.
  // ---------------------------------------------------------------------

  function Keys<V>(es: seq<(string, V)>): set<string>
    decreases |es|
  {
    if es == [] then {} else {es[0].0} + Keys(es[1..])
  }

  /** No key occurs twice: the shape of every real Python dict. */
  predicate DistinctKeys<V>(es: seq<(string, V)>)
    decreases |es|
  {
    es == [] || (es[0].0 !in Keys(es[1..]) && DistinctKeys(es[1..]))
  }

  lemma {:induction false} KeysAppend<V>(a: seq<(string, V)>, b: seq<(string, V)>)
    ensures Keys(a + b) == Keys(a) + Keys(b)
    decreases |a|
  {
    if a != [] {
      assert (a + b)[1..] == a[1..] + b;
      KeysAppend(a[1..], b);
    } else {
      assert a + b == b;
    }
  }

  lemma {:induction false} KeyAt<V>(es: seq<(string, V)>, i: nat)
    requires i < |es|
    ensures es[i].0 in Keys(es)
    decreases i
  {
    if i > 0 { KeyAt(es[1..], i - 1); }
  }

  /** Two pair sequences that name the same keys in the same order have the
      same key set, whatever their values. */
  lemma {:induction false} KeysSameNames<V, W>(a: seq<(string, V)>, b: seq<(string, W)>)
    requires |a| == |b|
    requires forall i :: 0 <= i < |a| ==> a[i].0 == b[i].0
    ensures Keys(a) == Keys(b)
    ensures DistinctKeys(a) <==> DistinctKeys(b)
    decreases |a|
  {
    if a != [] {
      KeysSameNames(a[1..], b[1..]);
    }
  }

  /** `d[k]` / `k in d`: the value stored under `k`, if any. */
  function Get<V>(es: seq<(string, V)>, k: string): (r: Option<V>)
    ensures r.Some? <==> k in Keys(es)
    ensures r.Some? ==> (k, r.value) in es
    decreases |es|
  {
    if es == [] then None
    else if es[0].0 == k then Some(es[0].1)
    else Get(es[1..], k)
  }

  /** A lookup inspects the first pair, then the rest. */
  lemma GetCons<V>(e: (string, V), es: seq<(string, V)>, k: string)
    ensures Get([e] + es, k) == if e.0 == k then Some(e.1) else Get(es, k)
    ensures Keys([e] + es) == {e.0} + Keys(es)
  {
    assert ([e] + es)[1..] == es;
  }

  /** In a dict without repeated keys, the pair at position `i` is what a
      lookup of its key finds. */
  lemma {:induction false} GetAt<V>(es: seq<(string, V)>, i: nat)
    requires DistinctKeys(es)
    requires i < |es|
    ensures Get(es, es[i].0) == Some(es[i].1)
    decreases i
  {
    if i > 0 {
      KeyAt(es[1..], i - 1);
      GetAt(es[1..], i - 1);
    }
  }

  /** `d[k] = v`: overwrite the value in place when `k` is already a key,
      otherwise add the pair at the end. */
  function Put<V>(es: seq<(string, V)>, k: string, v: V): (r: seq<(string, V)>)
    ensures Keys(r) == Keys(es) + {k}
    ensures k !in Keys(es) ==> r == es + [(k, v)]
    ensures k in Keys(es) ==> |r| == |es| && forall i :: 0 <= i < |es| ==> r[i].0 == es[i].0
    ensures DistinctKeys(es) ==> DistinctKeys(r)
    decreases |es|
  {
    if es == [] then [(k, v)]
    else if es[0].0 == k then [(k, v)] + es[1..]
    else
      var rest := Put(es[1..], k, v);
      assert ([es[0]] + rest)[1..] == rest;
      [es[0]] + rest
  }

  /** After `d[k] = v`, a lookup of `k` finds `v`. */
  lemma {:induction false} PutGet<V>(es: seq<(string, V)>, k: string, v: V)
    ensures Get(Put(es, k, v), k) == Some(v)
    decreases |es|
  {
    if es != [] && es[0].0 != k {
      PutGet(es[1..], k, v);
      GetCons(es[0], Put(es[1..], k, v), k);
    }
  }

  /** Assigning one key leaves the value under every other key as it was. */
  lemma {:induction false} PutOther<V>(es: seq<(string, V)>, k: string, v: V, k': string)
    requires k' != k
    ensures Get(Put(es, k, v), k') == Get(es, k')
    decreases |es|
  {
    if es != [] && es[0].0 != k {
      PutOther(es[1..], k, v, k');
      GetCons(es[0], Put(es[1..], k, v), k');
    }
  }

  /** The pairs `ps` assigned into `es` one after another, as a `for` loop
      of `d[k] = v` statements does. */
  function PutAll<V>(es: seq<(string, V)>, ps: seq<(string, V)>): seq<(string, V)>
    decreases |ps|
  {
    if ps == [] then es else PutAll(Put(es, ps[0].0, ps[0].1), ps[1..])
  }

  /** Assigning a list of pairs adds exactly their keys. */
  lemma {:induction false} PutAllKeys<V>(es: seq<(string, V)>, ps: seq<(string, V)>)
    ensures Keys(PutAll(es, ps)) == Keys(es) + Keys(ps)
    decreases |ps|
  {
    if ps != [] {
      PutAllKeys(Put(es, ps[0].0, ps[0].1), ps[1..]);
    }
  }

  /** A key that no assigned pair names keeps its old value. */
  lemma {:induction false} PutAllUntouched<V>(es: seq<(string, V)>, ps: seq<(string, V)>, k: string)
    requires k !in Keys(ps)
    ensures Get(PutAll(es, ps), k) == Get(es, k)
    decreases |ps|
  {
    if ps != [] {
      PutOther(es, ps[0].0, ps[0].1, k);
      PutAllUntouched(Put(es, ps[0].0, ps[0].1), ps[1..], k);
    }
  }

  /** When the assigned keys are distinct, every one of them ends up holding
      the value assigned to it. */
  lemma {:induction false} PutAllGet<V>(es: seq<(string, V)>, ps: seq<(string, V)>, i: nat)
    requires DistinctKeys(ps)
    requires i < |ps|
    ensures Get(PutAll(es, ps), ps[i].0) == Some(ps[i].1)
    decreases |ps|
  {
    var es' := Put(es, ps[0].0, ps[0].1);
    if i == 0 {
      PutGet(es, ps[0].0, ps[0].1);
      PutAllUntouched(es', ps[1..], ps[0].0);
    } else {
      assert ps[i] == ps[1..][i - 1];
      PutAllGet(es', ps[1..], i - 1);
    }
  }

  lemma AppendStep<V>(es: seq<(string, V)>, ps: seq<(string, V)>)
    requires ps != [] && DistinctKeys(ps)
    requires Keys(es) !! Keys(ps)
    ensures Put(es, ps[0].0, ps[0].1) == es + [ps[0]]
    ensures Keys(es + [ps[0]]) !! Keys(ps[1..])
  {
    KeysAppend(es, [ps[0]]);
  }

  /** Assigning fresh, distinct keys into a dict appends them in order. */
  lemma {:induction false} PutAllAppends<V>(es: seq<(string, V)>, ps: seq<(string, V)>)
    requires DistinctKeys(ps)
    requires Keys(es) !! Keys(ps)
    ensures PutAll(es, ps) == es + ps
    decreases |ps|
  {
    if ps != [] {
      AppendStep(es, ps);
      calc {
        PutAll(es, ps);
        PutAll(Put(es, ps[0].0, ps[0].1), ps[1..]);
        PutAll(es + [ps[0]], ps[1..]);
        { PutAllAppends(es + [ps[0]], ps[1..]); }
        es + [ps[0]] + ps[1..];
        { assert ps == [ps[0]] + ps[1..]; }
        es + ps;
      }
    }
  }

  /** `j[k]` for a JSON object `j`; nothing for any other document. */
  function Member(j: Json, k: string): Option<Json>
  {
    if j.Obj? then Get(j.entries, k) else None
  }

  // ---------------------------------------------------------------------
  // The `ok`/`error` envelopes both entry points print.
  // ---------------------------------------------------------------------

  /** `{"ok": true, key: payload}`. */
  function OkEnvelope(key: string, payload: Json): (r: Json)
    requires key != "ok" && key != "error"
    ensures Member(r, "ok") == Some(Bool(true))
    ensures Member(r, key) == Some(payload)
    ensures Member(r, "error") == None
  {
    var es := [("ok", Bool(true))] + [(key, payload)];
    GetCons(es[0], [es[1]], "ok");
    GetCons(es[0], [es[1]], key);
    GetCons(es[0], [es[1]], "error");
    GetCons(es[1], [], key);
    GetCons(es[1], [], "error");
    Obj(es)
  }

  /** `{"ok": false, "error": error}`. */
  function ErrorEnvelope(error: Json): (r: Json)
    ensures Member(r, "ok") == Some(Bool(false))
    ensures Member(r, "error") == Some(error)
    ensures forall k :: k != "ok" && k != "error" ==> Member(r, k) == None
  {
    var es := [("ok", Bool(false))] + [("error", error)];
    GetCons(es[0], [es[1]], "ok");
    GetCons(es[0], [es[1]], "error");
    GetCons(es[1], [], "error");
    forall k | k != "ok" && k != "error" ensures Get(es, k) == None {
      GetCons(es[0], [es[1]], k);
      GetCons(es[1], [], k);
    }
    Obj(es)
  }

  /** The error object of an exception other than a SyntaxError:
      `{"type": type(e).__name__, "msg": str(e)}` and nothing else. */
  function ErrorObject(e: PyError): (r: Json)
    ensures r.Obj? && Keys(r.entries) == {"type", "msg"}
    ensures Member(r, "type") == Some(Str(e.typeName))
    ensures Member(r, "msg") == Some(Str(e.msg))
  {
    var es := [("type", Str(e.typeName))] + [("msg", Str(e.msg))];
    GetCons(es[0], [es[1]], "type");
    GetCons(es[0], [es[1]], "msg");
    GetCons(es[1], [], "msg");
    Obj(es)
  }
}
