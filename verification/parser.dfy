/**
 * The encoder of priv/parsers/python/parser.py: `ast_to_dict`, which turns a
 * native tree into JSON, and `parse_source`, which wraps the parse oracle's
 * outcome into the `ok`/`error` envelope.
 */
module Parser {
  import opened Values
  import opened PyAst

  // ---------------------------------------------------------------------
  // The encoding, as a specification
  // ---------------------------------------------------------------------

  /** The member for one location attribute, present only when the node has it. */
  function Attr(k: string, o: Option<Json>): seq<(string, Json)>
  {
    if o.Some? then [(k, o.value)] else []
  }

  /** What an encoded node holds before its grammar fields: `_type`, then the
      location attributes the node has, in the source's order. */
  function Header(kind: string, pos: Positions): seq<(string, Json)>
  {
    [("_type", Str(kind))]
      + Attr("lineno", pos.lineno)
      + Attr("col_offset", pos.colOffset)
      + Attr("end_lineno", pos.endLineno)
      + Attr("end_col_offset", pos.endColOffset)
  }

  /** The position keys a node's location attributes give rise to. */
  function PresentPositionKeys(pos: Positions): set<string>
  {
    (if pos.lineno.Some? then {"lineno"} else {})
      + (if pos.colOffset.Some? then {"col_offset"} else {})
      + (if pos.endLineno.Some? then {"end_lineno"} else {})
      + (if pos.endColOffset.Some? then {"end_col_offset"} else {})
  }

  /** `ast_to_dict`: a node becomes an object whose header is followed by its
      fields assigned one by one; a list is encoded element by element; an
      atom is returned unchanged. */
  function Encode(n: Native): Json
  {
    match n
    case Prim(p) => p
    case NList(xs) => Arr(seq(|xs|, i requires 0 <= i < |xs| => Encode(xs[i])))
    case Node(kind, pos, fs) =>
      Obj(PutAll(Header(kind, pos), seq(|fs|, i requires 0 <= i < |fs| => (fs[i].0, Encode(fs[i].1)))))
  }

  /** The grammar fields of a node, each under its own name with its value encoded. */
  function EncodedFields(n: Native): (r: seq<(string, Json)>)
    requires n.Node?
    ensures |r| == |n.fields|
    ensures forall i :: 0 <= i < |r| ==> r[i].0 == n.fields[i].0
  {
    seq(|n.fields|, i requires 0 <= i < |n.fields| => (n.fields[i].0, Encode(n.fields[i].1)))
  }

  // ---------------------------------------------------------------------
  // What the encoding of a node holds
  // ---------------------------------------------------------------------

  lemma HeaderKeys(kind: string, pos: Positions)
    ensures Keys(Header(kind, pos)) == {"_type"} + PresentPositionKeys(pos)
    ensures DistinctKeys(Header(kind, pos))
  {
    var a0 := [("_type", Str(kind))];
    var a1 := Attr("lineno", pos.lineno);
    var a2 := Attr("col_offset", pos.colOffset);
    var a3 := Attr("end_lineno", pos.endLineno);
    var a4 := Attr("end_col_offset", pos.endColOffset);
    KeysAppend(a0, a1);
    KeysAppend(a0 + a1, a2);
    KeysAppend(a0 + a1 + a2, a3);
    KeysAppend(a0 + a1 + a2 + a3, a4);
    assert DistinctKeys(Header(kind, pos)) by {
      var h := Header(kind, pos);
      forall i, j | 0 <= i < j < |h| ensures h[i].0 != h[j].0 {
      }
      DistinctFromIndices(h);
    }
  }

  /** Every key of a header is `_type` or a location key. */
  lemma HeaderNames(kind: string, pos: Positions)
    ensures forall k :: k in Keys(Header(kind, pos)) ==> k == "_type" || IsPositionKey(k)
  {
    HeaderKeys(kind, pos);
  }

  /** The index form of `DistinctKeys`. */
  lemma {:induction false} DistinctFromIndices<V>(es: seq<(string, V)>)
    requires forall i, j :: 0 <= i < j < |es| ==> es[i].0 != es[j].0
    ensures DistinctKeys(es)
    decreases |es|
  {
    if es != [] {
      DistinctFromIndices(es[1..]);
      forall k | k in Keys(es[1..]) ensures k != es[0].0 {
        var j := KeyIndex(es[1..], k);
        assert es[j + 1].0 == k;
      }
    }
  }

  /** A position at which a key of the sequence occurs. */
  lemma {:induction false} KeyIndex<V>(es: seq<(string, V)>, k: string) returns (i: nat)
    requires k in Keys(es)
    ensures i < |es| && es[i].0 == k
    decreases |es|
  {
    if es[0].0 == k {
      i := 0;
    } else {
      var j := KeyIndex(es[1..], k);
      i := j + 1;
    }
  }

  /** An encoded node holds exactly the keys `_type`, the location attributes
      the node has, and its field names. */
  lemma EncodedNodeKeys(n: Native)
    requires n.Node?
    ensures Encode(n).Obj?
    ensures Keys(Encode(n).entries) == {"_type"} + PresentPositionKeys(n.pos) + Keys(n.fields)
  {
    HeaderKeys(n.kind, n.pos);
    PutAllKeys(Header(n.kind, n.pos), EncodedFields(n));
    KeysSameNames(EncodedFields(n), n.fields);
  }

  /** The `_type` of an encoded node is the node's kind. */
  lemma EncodedKind(n: Native)
    requires n.Node?
    requires "_type" !in Keys(n.fields)
    ensures Member(Encode(n), "_type") == Some(Str(n.kind))
  {
    KeysSameNames(EncodedFields(n), n.fields);
    PutAllUntouched(Header(n.kind, n.pos), EncodedFields(n), "_type");
  }

  /** A location key is present in the encoding exactly when the node has
      that attribute, and then holds its value unchanged. */
  lemma EncodedPosition(n: Native, k: string)
    requires n.Node?
    requires IsPositionKey(k)
    requires k !in Keys(n.fields)
    ensures Member(Encode(n), k) == PositionOf(n.pos, k)
  {
    KeysSameNames(EncodedFields(n), n.fields);
    PutAllUntouched(Header(n.kind, n.pos), EncodedFields(n), k);
    var a0 := [("_type", Str(n.kind))];
    var a1 := Attr("lineno", n.pos.lineno);
    var a2 := Attr("col_offset", n.pos.colOffset);
    var a3 := Attr("end_lineno", n.pos.endLineno);
    var a4 := Attr("end_col_offset", n.pos.endColOffset);
    GetAppend(a0 + a1 + a2 + a3, a4, k);
    GetAppend(a0 + a1 + a2, a3, k);
    GetAppend(a0 + a1, a2, k);
    GetAppend(a0, a1, k);
  }

  /** A lookup in a concatenation tries the left part first. */
  lemma {:induction false} GetAppend<V>(a: seq<(string, V)>, b: seq<(string, V)>, k: string)
    ensures Get(a + b, k) == if k in Keys(a) then Get(a, k) else Get(b, k)
    decreases |a|
  {
    if a == [] {
      assert a + b == b;
    } else {
      assert (a + b)[1..] == a[1..] + b;
      GetAppend(a[1..], b, k);
    }
  }

  /** Every grammar field appears under its own name, holding the encoding of
      its value. */
  lemma EncodedField(n: Native, i: nat)
    requires n.Node?
    requires DistinctKeys(n.fields)
    requires i < |n.fields|
    ensures Member(Encode(n), n.fields[i].0) == Some(Encode(n.fields[i].1))
  {
    KeysSameNames(EncodedFields(n), n.fields);
    PutAllGet(Header(n.kind, n.pos), EncodedFields(n), i);
  }

  /** When no field name is `_type` or a location key, the encoding lists
      `_type`, the present location keys, then the fields in their order. */
  lemma EncodedLayout(n: Native)
    requires n.Node?
    requires DistinctKeys(n.fields)
    requires forall i :: 0 <= i < |n.fields| ==> n.fields[i].0 != "_type" && !IsPositionKey(n.fields[i].0)
    ensures Encode(n) == Obj(Header(n.kind, n.pos) + EncodedFields(n))
  {
    var h := Header(n.kind, n.pos);
    HeaderNames(n.kind, n.pos);
    KeysSameNames(EncodedFields(n), n.fields);
    forall k | k in Keys(n.fields) ensures k !in Keys(h) {
      var j := KeyIndex(n.fields, k);
    }
    PutAllAppends(h, EncodedFields(n));
  }

  // ---------------------------------------------------------------------
  // The encoder as the source writes it
  // ---------------------------------------------------------------------

  /** The first lines of `ast_to_dict`'s node branch: `_type`, then each
      location attribute that the node has, and no other. */
  method StartNode(kind: string, pos: Positions) returns (result: seq<(string, Json)>)
    ensures result == Header(kind, pos)
  {
    HeaderPrefixesFresh(kind, pos);
    result := [("_type", Str(kind))];
    if pos.lineno.Some? {
      result := Put(result, "lineno", pos.lineno.value);
    }
    AttrStep([("_type", Str(kind))], "lineno", pos.lineno);
    ghost var prev := result;
    if pos.colOffset.Some? {
      result := Put(result, "col_offset", pos.colOffset.value);
    }
    AttrStep(prev, "col_offset", pos.colOffset);
    prev := result;
    if pos.endLineno.Some? {
      result := Put(result, "end_lineno", pos.endLineno.value);
    }
    AttrStep(prev, "end_lineno", pos.endLineno);
    prev := result;
    if pos.endColOffset.Some? {
      result := Put(result, "end_col_offset", pos.endColOffset.value);
    }
    AttrStep(prev, "end_col_offset", pos.endColOffset);
  }

  /** Each location key is new to the dict it is inserted into. */
  lemma HeaderPrefixesFresh(kind: string, pos: Positions)
    ensures "lineno" !in Keys([("_type", Str(kind))])
    ensures "col_offset" !in Keys([("_type", Str(kind))] + Attr("lineno", pos.lineno))
    ensures "end_lineno" !in Keys([("_type", Str(kind))] + Attr("lineno", pos.lineno)
      + Attr("col_offset", pos.colOffset))
    ensures "end_col_offset" !in Keys([("_type", Str(kind))] + Attr("lineno", pos.lineno)
      + Attr("col_offset", pos.colOffset) + Attr("end_lineno", pos.endLineno))
  {
    var a0 := [("_type", Str(kind))];
    var a1 := Attr("lineno", pos.lineno);
    var a2 := Attr("col_offset", pos.colOffset);
    var a3 := Attr("end_lineno", pos.endLineno);
    KeysAppend(a0, a1);
    KeysAppend(a0 + a1, a2);
    KeysAppend(a0 + a1 + a2, a3);
  }

  /** One conditional insert of a location attribute into a dict that lacks
      the key appends the member `Attr` describes. */
  lemma AttrStep(prefix: seq<(string, Json)>, k: string, o: Option<Json>)
    requires k !in Keys(prefix)
    ensures (if o.Some? then Put(prefix, k, o.value) else prefix) == prefix + Attr(k, o)
  {
  }

  /** `ast_to_dict`: builds the node's dict step by step: `_type`, each
      location attribute the node has, then one assignment per field. */
  method AstToDict(n: Native) returns (r: Json)
    ensures r == Encode(n)
    ensures n.Prim? ==> r == n.value
    ensures n.NList? ==> r.Arr? && |r.items| == |n.elems|
    ensures n.NList? ==> forall i :: 0 <= i < |n.elems| ==> r.items[i] == Encode(n.elems[i])
    decreases n
  {
    match n {
      case Prim(p) =>
        r := p;
      case NList(xs) =>
        var items: seq<Json> := [];
        for i := 0 to |xs|
          invariant items == seq(i, k requires 0 <= k < i => Encode(xs[k]))
        {
          var e := AstToDict(xs[i]);
          items := items + [e];
        }
        r := Arr(items);
      case Node(kind, pos, fs) =>
        var result := StartNode(kind, pos);
        ghost var pairs := EncodedFields(n);
        // A list-valued field is encoded by the list branch of the same call.
        for i := 0 to |fs|
          invariant PutAll(result, pairs[i..]) == Encode(n).entries
        {
          assert pairs[i..] == [pairs[i]] + pairs[i + 1..];
          var e := AstToDict(fs[i].1);
          result := Put(result, fs[i].0, e);
        }
        r := Obj(result);
    }
  }

  // ---------------------------------------------------------------------
  // parse_source
  // ---------------------------------------------------------------------

  /** What the parse oracle (`ast.parse`) does with a source text: it returns
      a tree, raises a SyntaxError (or a subclass of it), or raises any other
      exception. A SyntaxError carries its `msg` attribute when it has one,
      its `str(e)`, and its `lineno`, `offset` and `text` attributes. */
  datatype ParseOutcome =
    | Parsed(tree: Native)
    | SyntaxFailure(msg: Option<string>, display: string, lineno: Json, offset: Json, text: Json)
    | Raised(error: PyError)

  /** The error object of a SyntaxError: its `msg` (or `str(e)` when it has
      none), `lineno`, `offset` and `text`, under fixed type "SyntaxError". */
  function SyntaxErrorObject(msg: string, lineno: Json, offset: Json, text: Json): (r: Json)
    ensures Member(r, "type") == Some(Str("SyntaxError"))
    ensures Member(r, "msg") == Some(Str(msg))
    ensures Member(r, "lineno") == Some(lineno)
    ensures Member(r, "offset") == Some(offset)
    ensures Member(r, "text") == Some(text)
  {
    var e4 := [("text", text)];
    var e3 := [("offset", offset)] + e4;
    var e2 := [("lineno", lineno)] + e3;
    var e1 := [("msg", Str(msg))] + e2;
    var es := [("type", Str("SyntaxError"))] + e1;
    GetCons(es[0], e1, "type");
    GetCons(es[0], e1, "msg");
    GetCons(e1[0], e2, "msg");
    forall k | k == "lineno" || k == "offset" || k == "text" ensures Get(es, k) == Get(e2, k) {
      GetCons(es[0], e1, k);
      GetCons(e1[0], e2, k);
    }
    GetCons(e2[0], e3, "lineno");
    GetCons(e2[0], e3, "offset");
    GetCons(e2[0], e3, "text");
    GetCons(e3[0], e4, "offset");
    GetCons(e3[0], e4, "text");
    GetCons(e4[0], [], "text");
    Obj(es)
  }

  /** `parse_source`: never raises; maps each outcome of the oracle to its
      envelope. */
  function ParseSource(parse: string -> ParseOutcome, source: string): (r: Json)
    ensures Member(r, "ok") == Some(Bool(parse(source).Parsed?))
    ensures Member(r, "ast").Some? <==> parse(source).Parsed?
    ensures Member(r, "error").Some? <==> !parse(source).Parsed?
    ensures parse(source).Parsed? ==> Member(r, "ast") == Some(Encode(parse(source).tree))
  {
    match parse(source)
    case Parsed(tree) =>
      OkEnvelope("ast", Encode(tree))
    case SyntaxFailure(msg, display, lineno, offset, text) =>
      ErrorEnvelope(SyntaxErrorObject(if msg.Some? then msg.value else display, lineno, offset, text))
    case Raised(e) =>
      ErrorEnvelope(ErrorObject(e))
  }

  /** A SyntaxError is reported with its message (its `msg` attribute, or
      `str(e)` when it has none) and its `lineno`, `offset` and `text`. */
  lemma ParseSourceSyntaxError(parse: string -> ParseOutcome, source: string)
    requires parse(source).SyntaxFailure?
    ensures Member(ParseSource(parse, source), "error").Some?
    ensures
      var o := parse(source);
      var e := Member(ParseSource(parse, source), "error").value;
      && Member(e, "type") == Some(Str("SyntaxError"))
      && Member(e, "msg") == Some(Str(if o.msg.Some? then o.msg.value else o.display))
      && Member(e, "lineno") == Some(o.lineno)
      && Member(e, "offset") == Some(o.offset)
      && Member(e, "text") == Some(o.text)
  {
  }

  /** Any other exception is reported as exactly its type name and message. */
  lemma ParseSourceRaised(parse: string -> ParseOutcome, source: string)
    requires parse(source).Raised?
    ensures Member(ParseSource(parse, source), "error").Some?
    ensures
      var e := Member(ParseSource(parse, source), "error").value;
      && e.Obj? && Keys(e.entries) == {"type", "msg"}
      && Member(e, "type") == Some(Str(parse(source).error.typeName))
      && Member(e, "msg") == Some(Str(parse(source).error.msg))
  {
  }
}
