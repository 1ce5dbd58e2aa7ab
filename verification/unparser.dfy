/**
 * The decoder of priv/parsers/python/unparser.py: `dict_to_ast`, which
 * rebuilds a native tree from JSON, `unparse_ast`, which hands that tree to
 * the unparse oracle and re-raises every failure as a ValueError, and the
 * format check and envelopes of `main`.
 */
module Unparser {
  import opened Values
  import opened PyAst

  // ---------------------------------------------------------------------
  // The decoding, as a specification
  // ---------------------------------------------------------------------

  /** `type(v).__name__` of a loaded JSON value. */
  function PyTypeName(j: Json): string
  {
    match j
    case Null => "NoneType"
    case Bool(_) => "bool"
    case Int(_) => "int"
    case Str(_) => "str"
    case Arr(_) => "list"
    case Obj(_) => "dict"
  }

  /** What `getattr(ast, t, None)` raises when `t` is not a string. */
  function NonStringKind(t: Json): PyError
  {
    PyError("TypeError", "attribute name must be string, not '" + PyTypeName(t) + "'")
  }

  /** The error for a `_type` the registry does not know. */
  function UnknownKind(kind: string): PyError
  {
    PyError("ValueError", "Unknown AST node type: " + kind)
  }

  /** A list comprehension over per-item results: the first exception
      raised, or all values in order after those already in `acc`. */
  function Collect(rs: seq<Result<Native>>, acc: seq<Native>): Result<seq<Native>>
    decreases |rs|
  {
    if rs == [] then Ok(acc)
    else match rs[0]
      case Err(e) => Err(e)
      case Ok(v) => Collect(rs[1..], acc + [v])
  }

  /** The `for key, value in data.items()` loop of `dict_to_ast`, given the
      result of decoding each value: reserved keys are skipped, the first
      failing value raises, every other key is assigned its decoded value. */
  function BuildFields(es: seq<(string, Json)>, vals: seq<Result<Native>>, acc: seq<(string, Native)>)
    : Result<seq<(string, Native)>>
    requires |es| == |vals|
    decreases |es|
  {
    if es == [] then Ok(acc)
    else if Reserved(es[0].0) then BuildFields(es[1..], vals[1..], acc)
    else match vals[0]
      case Err(e) => Err(e)
      case Ok(v) => BuildFields(es[1..], vals[1..], Put(acc, es[0].0, v))
  }

  /** `dict_to_ast`: a dict with `_type` becomes a node of that kind built
      from its other non-reserved keys, a list is decoded element by element,
      anything else is returned unchanged. */
  function Decode(registry: set<string>, j: Json): Result<Native>
  {
    match j
    case Arr(xs) =>
      (match Collect(seq(|xs|, i requires 0 <= i < |xs| => Decode(registry, xs[i])), [])
       case Ok(ys) => Ok(NList(ys))
       case Err(e) => Err(e))
    case Obj(es) =>
      (match Get(es, "_type")
       case None => Ok(Prim(j))
       case Some(t) =>
         if !t.Str? then Err(NonStringKind(t))
         else if t.s !in registry then Err(UnknownKind(t.s))
         else
           (match BuildFields(es, seq(|es|, i requires 0 <= i < |es| => Decode(registry, es[i].1)), [])
            case Ok(fs) => Ok(Node(t.s, NoPositions, fs))
            case Err(e) => Err(e)))
    case _ => Ok(Prim(j))
  }

  /** The results of decoding each value of an object, in order. */
  function DecodedValues(registry: set<string>, es: seq<(string, Json)>): (r: seq<Result<Native>>)
    ensures |r| == |es|
    ensures forall i :: 0 <= i < |es| ==> r[i] == Decode(registry, es[i].1)
  {
    seq(|es|, i requires 0 <= i < |es| => Decode(registry, es[i].1))
  }

  /** The results of decoding each element of a list, in order. */
  function DecodedItems(registry: set<string>, xs: seq<Json>): (r: seq<Result<Native>>)
    ensures |r| == |xs|
    ensures forall i :: 0 <= i < |xs| ==> r[i] == Decode(registry, xs[i])
  {
    seq(|xs|, i requires 0 <= i < |xs| => Decode(registry, xs[i]))
  }

  /** The keys of an object that reach the node constructor. */
  function PassedKeys(es: seq<(string, Json)>): set<string>
  {
    set k | k in Keys(es) && !Reserved(k)
  }

  // ---------------------------------------------------------------------
  // Lists
  // ---------------------------------------------------------------------

  /** A comprehension succeeds exactly when every item does, and then yields
      the items' values in order. */
  lemma {:induction false} CollectOk(rs: seq<Result<Native>>, acc: seq<Native>)
    ensures Collect(rs, acc).Ok? <==> forall i :: 0 <= i < |rs| ==> rs[i].Ok?
    ensures Collect(rs, acc).Ok? ==>
      && |Collect(rs, acc).value| == |acc| + |rs|
      && Collect(rs, acc).value[..|acc|] == acc
      && forall i :: 0 <= i < |rs| ==> Collect(rs, acc).value[|acc| + i] == rs[i].value
    decreases |rs|
  {
    if rs != [] && rs[0].Ok? {
      CollectOk(rs[1..], acc + [rs[0].value]);
      var r := Collect(rs[1..], acc + [rs[0].value]);
      if r.Ok? {
        forall i | 0 <= i < |rs| ensures r.value[|acc| + i] == rs[i].value {
          if i > 0 {
            assert rs[i] == rs[1..][i - 1];
          }
        }
        assert r.value[..|acc|] == (acc + [rs[0].value])[..|acc|];
      }
    }
  }

  /** A failing comprehension raises the exception of its first failing item. */
  lemma {:induction false} CollectErr(rs: seq<Result<Native>>, acc: seq<Native>, k: nat)
    requires k < |rs| && rs[k].Err?
    requires forall i :: 0 <= i < k ==> rs[i].Ok?
    ensures Collect(rs, acc) == Err(rs[k].error)
    decreases |rs|
  {
    if k > 0 {
      assert rs[k] == rs[1..][k - 1];
      CollectErr(rs[1..], acc + [rs[0].value], k - 1);
    }
  }

  /** Decoding a list preserves its length and order, element by element;
      it fails exactly when an element fails, with the first such error. */
  lemma DecodedList(registry: set<string>, xs: seq<Json>)
    ensures Decode(registry, Arr(xs)).Ok? <==> forall i :: 0 <= i < |xs| ==> Decode(registry, xs[i]).Ok?
    ensures Decode(registry, Arr(xs)).Ok? ==>
      var r := Decode(registry, Arr(xs)).value;
      && r.NList? && |r.elems| == |xs|
      && forall i :: 0 <= i < |xs| ==> r.elems[i] == Decode(registry, xs[i]).value
    ensures forall k ::
      (0 <= k < |xs| && Decode(registry, xs[k]).Err? && forall i :: 0 <= i < k ==> Decode(registry, xs[i]).Ok?)
      ==> Decode(registry, Arr(xs)) == Err(Decode(registry, xs[k]).error)
  {
    var rs := DecodedItems(registry, xs);
    assert rs == seq(|xs|, i requires 0 <= i < |xs| => Decode(registry, xs[i]));
    CollectOk(rs, []);
    forall k | 0 <= k < |xs| && Decode(registry, xs[k]).Err?
      && (forall i :: 0 <= i < k ==> Decode(registry, xs[i]).Ok?)
      ensures Decode(registry, Arr(xs)) == Err(Decode(registry, xs[k]).error)
    {
      CollectErr(rs, [], k);
    }
  }

  // ---------------------------------------------------------------------
  // The field loop
  // ---------------------------------------------------------------------

  /** The loop succeeds exactly when no passed key's value fails. */
  lemma {:induction false} BuildFieldsOk(es: seq<(string, Json)>, vals: seq<Result<Native>>, acc: seq<(string, Native)>)
    requires |es| == |vals|
    ensures BuildFields(es, vals, acc).Ok? <==>
      forall i :: 0 <= i < |es| && !Reserved(es[i].0) ==> vals[i].Ok?
    decreases |es|
  {
    if es != [] {
      var acc' := if Reserved(es[0].0) || vals[0].Err? then acc else Put(acc, es[0].0, vals[0].value);
      BuildFieldsOk(es[1..], vals[1..], acc');
      forall i | 1 <= i < |es| ensures es[i] == es[1..][i - 1] && vals[i] == vals[1..][i - 1] { }
    }
  }

  /** The loop adds exactly the passed keys. */
  lemma {:induction false} BuildFieldsKeys(es: seq<(string, Json)>, vals: seq<Result<Native>>, acc: seq<(string, Native)>)
    requires |es| == |vals|
    requires BuildFields(es, vals, acc).Ok?
    ensures Keys(BuildFields(es, vals, acc).value) == Keys(acc) + PassedKeys(es)
    ensures DistinctKeys(acc) ==> DistinctKeys(BuildFields(es, vals, acc).value)
    decreases |es|
  {
    if es != [] {
      var acc' := if Reserved(es[0].0) then acc else Put(acc, es[0].0, vals[0].value);
      BuildFieldsKeys(es[1..], vals[1..], acc');
      assert Keys(es) == {es[0].0} + Keys(es[1..]);
    }
  }

  /** A key that the remaining entries do not name keeps its value. */
  lemma {:induction false} BuildFieldsUntouched(es: seq<(string, Json)>, vals: seq<Result<Native>>,
                                                acc: seq<(string, Native)>, k: string)
    requires |es| == |vals|
    requires k !in Keys(es)
    requires BuildFields(es, vals, acc).Ok?
    ensures Get(BuildFields(es, vals, acc).value, k) == Get(acc, k)
    decreases |es|
  {
    if es != [] {
      if Reserved(es[0].0) {
        BuildFieldsUntouched(es[1..], vals[1..], acc, k);
      } else {
        PutOther(acc, es[0].0, vals[0].value, k);
        BuildFieldsUntouched(es[1..], vals[1..], Put(acc, es[0].0, vals[0].value), k);
      }
    }
  }

  /** Every passed key ends up holding its own decoded value. */
  lemma {:induction false} BuildFieldsGet(es: seq<(string, Json)>, vals: seq<Result<Native>>,
                                          acc: seq<(string, Native)>, i: nat)
    requires |es| == |vals|
    requires DistinctKeys(es)
    requires i < |es| && !Reserved(es[i].0)
    requires BuildFields(es, vals, acc).Ok?
    ensures vals[i].Ok?
    ensures Get(BuildFields(es, vals, acc).value, es[i].0) == Some(vals[i].value)
    decreases |es|
  {
    BuildFieldsOk(es, vals, acc);
    if i == 0 {
      PutGet(acc, es[0].0, vals[0].value);
      BuildFieldsUntouched(es[1..], vals[1..], Put(acc, es[0].0, vals[0].value), es[0].0);
    } else {
      var acc' := if Reserved(es[0].0) then acc else Put(acc, es[0].0, vals[0].value);
      assert es[i] == es[1..][i - 1] && vals[i] == vals[1..][i - 1];
      BuildFieldsGet(es[1..], vals[1..], acc', i - 1);
    }
  }

  /** Every value the loop stores comes from `acc` or from a passed entry. */
  lemma {:induction false} BuildFieldsFrom(es: seq<(string, Json)>, vals: seq<Result<Native>>,
                                           acc: seq<(string, Native)>, p: (string, Native))
    requires |es| == |vals|
    requires BuildFields(es, vals, acc).Ok?
    requires p in BuildFields(es, vals, acc).value
    ensures p in acc || exists i :: 0 <= i < |es| && !Reserved(es[i].0) && p.0 == es[i].0 && vals[i] == Ok(p.1)
    decreases |es|
  {
    if es != [] {
      if Reserved(es[0].0) {
        BuildFieldsFrom(es[1..], vals[1..], acc, p);
        if p !in acc {
          var i :| 0 <= i < |es[1..]| && !Reserved(es[1..][i].0) && p.0 == es[1..][i].0 && vals[1..][i] == Ok(p.1);
          assert es[i + 1] == es[1..][i];
        }
      } else {
        var acc' := Put(acc, es[0].0, vals[0].value);
        BuildFieldsFrom(es[1..], vals[1..], acc', p);
        if p in acc' {
          PutFrom(acc, es[0].0, vals[0].value, p);
        } else {
          var i :| 0 <= i < |es[1..]| && !Reserved(es[1..][i].0) && p.0 == es[1..][i].0 && vals[1..][i] == Ok(p.1);
          assert es[i + 1] == es[1..][i];
        }
      }
    }
  }

  /** A pair of an updated dict is the assigned one or an old one. */
  lemma {:induction false} PutFrom<V>(es: seq<(string, V)>, k: string, v: V, p: (string, V))
    requires p in Put(es, k, v)
    ensures p == (k, v) || p in es
    decreases |es|
  {
    if es != [] && es[0].0 != k {
      var rest := Put(es[1..], k, v);
      assert Put(es, k, v) == [es[0]] + rest;
      if p != es[0] {
        assert p in rest;
        PutFrom(es[1..], k, v, p);
      }
    }
  }

  /** Entries whose keys are all reserved are skipped entirely. */
  lemma {:induction false} BuildFieldsSkips(h: seq<(string, Json)>, es: seq<(string, Json)>,
                                            vals: seq<Result<Native>>, acc: seq<(string, Native)>)
    requires |h| + |es| == |vals|
    requires forall i :: 0 <= i < |h| ==> Reserved(h[i].0)
    ensures BuildFields(h + es, vals, acc) == BuildFields(es, vals[|h|..], acc)
    decreases |h|
  {
    if h != [] {
      assert (h + es)[1..] == h[1..] + es;
      assert vals[1..][|h| - 1..] == vals[|h|..];
      BuildFieldsSkips(h[1..], es, vals[1..], acc);
    } else {
      assert h + es == es;
    }
  }

  /** Each key paired with its decoded value, in order. */
  function Assigned(es: seq<(string, Json)>, vals: seq<Result<Native>>): (r: seq<(string, Native)>)
    requires |es| == |vals|
    requires forall i :: 0 <= i < |vals| ==> vals[i].Ok?
    ensures |r| == |es|
    decreases |es|
  {
    if es == [] then []
    else [(es[0].0, vals[0].value)] + Assigned(es[1..], vals[1..])
  }

  /** The pair at each position of `Assigned` is that entry's key and decoded value. */
  lemma {:induction false} AssignedAt(es: seq<(string, Json)>, vals: seq<Result<Native>>, i: nat)
    requires |es| == |vals|
    requires forall j :: 0 <= j < |vals| ==> vals[j].Ok?
    requires i < |es|
    ensures Assigned(es, vals)[i] == (es[i].0, vals[i].value)
    decreases i
  {
    if i > 0 {
      AssignedAt(es[1..], vals[1..], i - 1);
    }
  }

  /** `Assigned` keeps the keys of the entries, in order. */
  lemma AssignedKeys(es: seq<(string, Json)>, vals: seq<Result<Native>>)
    requires |es| == |vals|
    requires forall j :: 0 <= j < |vals| ==> vals[j].Ok?
    ensures Keys(Assigned(es, vals)) == Keys(es)
    ensures DistinctKeys(Assigned(es, vals)) <==> DistinctKeys(es)
  {
    forall i | 0 <= i < |es| ensures Assigned(es, vals)[i].0 == es[i].0 {
      AssignedAt(es, vals, i);
    }
    KeysSameNames(Assigned(es, vals), es);
  }

  /** When no entry is reserved and every value decodes, the loop performs
      exactly the assignments `Assigned` lists. */
  lemma {:induction false} BuildFieldsAssigns(es: seq<(string, Json)>, vals: seq<Result<Native>>,
                                              acc: seq<(string, Native)>)
    requires |es| == |vals|
    requires forall i :: 0 <= i < |es| ==> !Reserved(es[i].0) && vals[i].Ok?
    ensures BuildFields(es, vals, acc) == Ok(PutAll(acc, Assigned(es, vals)))
    decreases |es|
  {
    if es != [] {
      var q := Assigned(es, vals);
      assert !Reserved(es[0].0) && vals[0].Ok?;
      assert q[0] == (es[0].0, vals[0].value) && q[1..] == Assigned(es[1..], vals[1..]);
      forall i | 0 <= i < |es[1..]| ensures !Reserved(es[1..][i].0) && vals[1..][i].Ok? {
        assert es[1..][i] == es[i + 1];
      }
      BuildFieldsAssigns(es[1..], vals[1..], Put(acc, es[0].0, vals[0].value));
    }
  }

  /** A dict whose `_type` names a known kind and whose field loop succeeds
      decodes to a node of that kind holding the loop's fields. */
  lemma DecodeObjNode(registry: set<string>, es: seq<(string, Json)>, kind: string, fs: seq<(string, Native)>)
    requires Get(es, "_type") == Some(Str(kind)) && kind in registry
    requires BuildFields(es, DecodedValues(registry, es), []) == Ok(fs)
    ensures Decode(registry, Obj(es)) == Ok(Node(kind, NoPositions, fs))
  {
    assert DecodedValues(registry, es) == seq(|es|, i requires 0 <= i < |es| => Decode(registry, es[i].1));
  }

  /** Fresh, distinct, passed keys whose values all decode are appended in order. */
  lemma BuildFieldsAppends(es: seq<(string, Json)>, vals: seq<Result<Native>>, acc: seq<(string, Native)>)
    requires |es| == |vals|
    requires DistinctKeys(es)
    requires Keys(acc) !! Keys(es)
    requires forall i :: 0 <= i < |es| ==> !Reserved(es[i].0) && vals[i].Ok?
    ensures BuildFields(es, vals, acc) == Ok(acc + Assigned(es, vals))
  {
    BuildFieldsAssigns(es, vals, acc);
    AssignedKeys(es, vals);
    PutAllAppends(acc, Assigned(es, vals));
  }

  // ---------------------------------------------------------------------
  // What a decoded node holds
  // ---------------------------------------------------------------------

  /** A `_type` that is not a string makes `getattr` raise a TypeError; one
      the registry does not know raises `ValueError("Unknown AST node type: …")`. */
  lemma DecodedKindErrors(registry: set<string>, es: seq<(string, Json)>)
    requires "_type" in Keys(es)
    ensures !Get(es, "_type").value.Str? ==>
      Decode(registry, Obj(es)) == Err(NonStringKind(Get(es, "_type").value))
    ensures Get(es, "_type").value.Str? && Get(es, "_type").value.s !in registry ==>
      Decode(registry, Obj(es)) == Err(PyError("ValueError", "Unknown AST node type: " + Get(es, "_type").value.s))
  {
  }

  /** A record of a known kind decodes to a node of that kind without
      location attributes; it succeeds exactly when every passed value
      decodes; its fields are exactly the passed keys, each holding its
      own decoded value. */
  lemma DecodedNode(registry: set<string>, es: seq<(string, Json)>, kind: string)
    requires Get(es, "_type") == Some(Str(kind)) && kind in registry
    ensures Decode(registry, Obj(es)).Ok? <==>
      forall i :: 0 <= i < |es| && !Reserved(es[i].0) ==> Decode(registry, es[i].1).Ok?
    ensures Decode(registry, Obj(es)).Ok? ==>
      var n := Decode(registry, Obj(es)).value;
      && n.Node? && n.kind == kind && n.pos == NoPositions
      && Keys(n.fields) == PassedKeys(es)
      && DistinctKeys(n.fields)
    ensures Decode(registry, Obj(es)).Ok? && DistinctKeys(es) ==>
      forall i :: 0 <= i < |es| && !Reserved(es[i].0) ==>
        Get(Decode(registry, Obj(es)).value.fields, es[i].0) == Some(Decode(registry, es[i].1).value)
  {
    var vals := DecodedValues(registry, es);
    assert vals == seq(|es|, i requires 0 <= i < |es| => Decode(registry, es[i].1));
    BuildFieldsOk(es, vals, []);
    if BuildFields(es, vals, []).Ok? {
      BuildFieldsKeys(es, vals, []);
      if DistinctKeys(es) {
        forall i | 0 <= i < |es| && !Reserved(es[i].0)
          ensures Get(BuildFields(es, vals, []).value, es[i].0) == Some(vals[i].value)
        {
          BuildFieldsGet(es, vals, [], i);
        }
      }
    }
  }

  /** Whatever decodes is a tree the codec carries there and back, and no
      location data survives decoding. */
  lemma {:induction false} DecodedEncodable(registry: set<string>, j: Json)
    requires Decode(registry, j).Ok?
    ensures Encodable(registry, Decode(registry, j).value)
    ensures PositionFree(Decode(registry, j).value)
  {
    var n := Decode(registry, j).value;
    match j
    case Arr(xs) =>
      DecodedList(registry, xs);
      forall i | 0 <= i < |xs| ensures Encodable(registry, n.elems[i]) && PositionFree(n.elems[i]) {
        DecodedEncodable(registry, xs[i]);
      }
    case Obj(es) =>
      if "_type" in Keys(es) {
        var kind := Get(es, "_type").value.s;
        var vals := DecodedValues(registry, es);
        assert vals == seq(|es|, i requires 0 <= i < |es| => Decode(registry, es[i].1));
        DecodedNode(registry, es, kind);
        forall i | 0 <= i < |n.fields|
          ensures !Reserved(n.fields[i].0) && Encodable(registry, n.fields[i].1) && PositionFree(n.fields[i].1)
        {
          BuildFieldsFrom(es, vals, [], n.fields[i]);
          var k :| 0 <= k < |es| && !Reserved(es[k].0) && n.fields[i].0 == es[k].0 && vals[k] == Ok(n.fields[i].1);
          assert es[k].1 < j;
          DecodedEncodable(registry, es[k].1);
        }
      }
    case _ =>
  }

  // ---------------------------------------------------------------------
  // The decoder as the source writes it
  // ---------------------------------------------------------------------

  /** `dict_to_ast`, with its `for` loop over the record's items and its
      list comprehensions. */
  method DictToAst(registry: set<string>, data: Json) returns (r: Result<Native>)
    ensures r == Decode(registry, data)
    ensures !data.Arr? && !(data.Obj? && "_type" in Keys(data.entries)) ==> r == Ok(Prim(data))
    decreases data
  {
    match data {
      case Arr(xs) =>
        ghost var rs := DecodedItems(registry, xs);
        assert rs == seq(|xs|, i requires 0 <= i < |xs| => Decode(registry, xs[i]));
        var items: seq<Native> := [];
        for i := 0 to |xs|
          invariant Collect(rs, []) == Collect(rs[i..], items)
        {
          var d := DictToAst(registry, xs[i]);
          if d.Err? {
            return Err(d.error);
          }
          items := items + [d.value];
        }
        r := Ok(NList(items));
      case Obj(es) =>
        var t := Get(es, "_type");
        if t.None? {
          return Ok(Prim(data));
        }
        var nodeType := t.value;
        if !nodeType.Str? {
          return Err(NonStringKind(nodeType));
        }
        if nodeType.s !in registry {
          return Err(UnknownKind(nodeType.s));
        }
        ghost var vals := DecodedValues(registry, es);
        assert vals == seq(|es|, i requires 0 <= i < |es| => Decode(registry, es[i].1));
        var fields: seq<(string, Native)> := [];
        for i := 0 to |es|
          invariant BuildFields(es, vals, []) == BuildFields(es[i..], vals[i..], fields)
        {
          var key := es[i].0;
          if !Reserved(key) {
            var d := DictToAst(registry, es[i].1);
            if d.Err? {
              return Err(d.error);
            }
            fields := Put(fields, key, d.value);
          }
        }
        r := Ok(Node(nodeType.s, NoPositions, fields));
      case _ =>
        r := Ok(Prim(data));
    }
  }

  // ---------------------------------------------------------------------
  // unparse_ast and main
  // ---------------------------------------------------------------------

  const UnparsePrefix: string := "Failed to unparse AST: "

  /** `raise ValueError(f"Failed to unparse AST: {e}")`. */
  function Rewrap(e: PyError): (r: PyError)
    ensures r.typeName == "ValueError"
    ensures UnparsePrefix <= r.msg && r.msg[|UnparsePrefix|..] == e.msg
  {
    PyError("ValueError", UnparsePrefix + e.msg)
  }

  /** `unparse_ast`: decode, then ask the unparse oracle (`ast.unparse`,
      which also stands for the node constructors rejecting their fields);
      any failure along the way is re-raised as a ValueError. */
  function UnparseAst(registry: set<string>, unparse: Native -> Result<string>, data: Json): (r: Result<string>)
    ensures r.Err? ==> r.error.typeName == "ValueError" && UnparsePrefix <= r.error.msg
    ensures r.Ok? <==> Decode(registry, data).Ok? && unparse(Decode(registry, data).value).Ok?
    ensures r.Ok? ==> r.value == unparse(Decode(registry, data).value).value
    ensures Decode(registry, data).Err? ==> r == Err(Rewrap(Decode(registry, data).error))
    ensures Decode(registry, data).Ok? && unparse(Decode(registry, data).value).Err? ==>
      r == Err(Rewrap(unparse(Decode(registry, data).value).error))
  {
    match Decode(registry, data)
    case Err(e) => Err(Rewrap(e))
    case Ok(tree) =>
      (match unparse(tree)
       case Ok(source) => Ok(source)
       case Err(e) => Err(Rewrap(e)))
  }

  /** The envelope printed for a document that is not a `_type` record. */
  const InvalidFormat: Json := ErrorEnvelope(ErrorObject(PyError("ValueError", "Invalid AST format")))

  /** `main` after `json.loads`: check the format, then unparse, and print
      the outcome as an envelope. */
  function UnparseDocument(registry: set<string>, unparse: Native -> Result<string>, data: Json): (r: Json)
    ensures !(data.Obj? && "_type" in Keys(data.entries)) ==> r == InvalidFormat
    ensures Member(r, "ok") == Some(Bool(true)) || Member(r, "ok") == Some(Bool(false))
    ensures Member(r, "ok") == Some(Bool(true)) <==>
      data.Obj? && "_type" in Keys(data.entries) && UnparseAst(registry, unparse, data).Ok?
    ensures Member(r, "ok") == Some(Bool(true)) ==>
      Member(r, "source") == Some(Str(UnparseAst(registry, unparse, data).value))
    ensures Member(r, "ok") == Some(Bool(false)) ==>
      && Member(r, "error").Some?
      && Member(r, "error").value.Obj?
      && Keys(Member(r, "error").value.entries) == {"type", "msg"}
      && Member(Member(r, "error").value, "type") == Some(Str("ValueError"))
    ensures data.Obj? && "_type" in Keys(data.entries) && UnparseAst(registry, unparse, data).Err? ==>
      Member(r, "error") == Some(ErrorObject(UnparseAst(registry, unparse, data).error))
  {
    if !(data.Obj? && "_type" in Keys(data.entries)) then
      InvalidFormat
    else
      match UnparseAst(registry, unparse, data)
      case Ok(source) => OkEnvelope("source", Str(source))
      case Err(e) => ErrorEnvelope(ErrorObject(e))
  }

  /** A document whose top-level `_type` names no known construct is
      answered with a ValueError that names that construct. */
  lemma UnknownKindReported(registry: set<string>, unparse: Native -> Result<string>,
                            es: seq<(string, Json)>, kind: string)
    requires Get(es, "_type") == Some(Str(kind)) && kind !in registry
    ensures Member(UnparseDocument(registry, unparse, Obj(es)), "ok") == Some(Bool(false))
    ensures Member(UnparseDocument(registry, unparse, Obj(es)), "error") ==
      Some(ErrorObject(PyError("ValueError", UnparsePrefix + "Unknown AST node type: " + kind)))
  {
    assert "_type" in Keys(es);
    DecodedKindErrors(registry, es);
    var e := UnknownKind(kind);
    assert UnparseAst(registry, unparse, Obj(es)) == Err(Rewrap(e));
    assert Rewrap(e).msg == UnparsePrefix + "Unknown AST node type: " + kind by {
      assert UnparsePrefix + ("Unknown AST node type: " + kind)
        == (UnparsePrefix + "Unknown AST node type: ") + kind;
    }
  }
}
