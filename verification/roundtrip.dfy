/**
 * How the two codecs fit together: decoding what the encoder produced gives
 * back the native tree without its location data, and a parsed program
 * travels through both entry points to the unparse oracle unchanged.
 */
module RoundTrip {
  import opened Values
  import opened PyAst
  import opened Parser
  import opened Unparser

  /** No field name of an encodable node is a key the header uses. */
  lemma FieldNamesPlain(fs: seq<(string, Native)>)
    requires forall i :: 0 <= i < |fs| ==> !Reserved(fs[i].0)
    ensures forall k :: k in Keys(fs) ==> !Reserved(k)
  {
    forall k | k in Keys(fs) ensures !Reserved(k) {
      var i := KeyIndex(fs, k);
    }
  }

  /** Every key of an encoded node's header is one the decoder drops. */
  lemma HeaderReserved(kind: string, pos: Positions)
    ensures forall i :: 0 <= i < |Header(kind, pos)| ==> Reserved(Header(kind, pos)[i].0)
  {
    var h := Header(kind, pos);
    HeaderKeys(kind, pos);
    assert Reserved("_type");
    forall i | 0 <= i < |h| ensures Reserved(h[i].0) {
      KeyAt(h, i);
    }
  }

  /** Decoding the encoding of a tree gives back the same kinds and fields
      with every location attribute removed. */
  lemma {:induction false} DecodeEncode(registry: set<string>, n: Native)
    requires Encodable(registry, n)
    ensures Decode(registry, Encode(n)) == Ok(StripPositions(n))
    decreases n
  {
    match n
    case Prim(p) =>
    case NList(xs) =>
      forall i | 0 <= i < |xs| ensures Decode(registry, Encode(xs[i])) == Ok(StripPositions(xs[i])) {
        DecodeEncode(registry, xs[i]);
      }
      DecodeEncodedList(registry, n);
    case Node(kind, pos, fs) =>
      forall i | 0 <= i < |fs| ensures Decode(registry, Encode(fs[i].1)) == Ok(StripPositions(fs[i].1)) {
        DecodeEncode(registry, fs[i].1);
      }
      DecodeEncodedNode(registry, n);
  }

  /** The list step of `DecodeEncode`. */
  lemma DecodeEncodedList(registry: set<string>, n: Native)
    requires n.NList?
    requires forall i :: 0 <= i < |n.elems| ==> Decode(registry, Encode(n.elems[i])) == Ok(StripPositions(n.elems[i]))
    ensures Decode(registry, Encode(n)) == Ok(StripPositions(n))
  {
    var ys := Encode(n).items;
    DecodedList(registry, ys);
    assert Decode(registry, Encode(n)).value.elems == StripPositions(n).elems;
  }

  /** The node step of `DecodeEncode`. */
  lemma DecodeEncodedNode(registry: set<string>, n: Native)
    requires n.Node? && Encodable(registry, n)
    requires forall i :: 0 <= i < |n.fields| ==>
      Decode(registry, Encode(n.fields[i].1)) == Ok(StripPositions(n.fields[i].1))
    ensures Decode(registry, Encode(n)) == Ok(StripPositions(n))
  {
    FieldNamesPlain(n.fields);
    EncodedKind(n);
    EncodedLayout(n);
    var es := Header(n.kind, n.pos) + EncodedFields(n);
    EncodedFieldsDecode(registry, n);
    DecodeObjNode(registry, es, n.kind, StripPositions(n).fields);
  }

  /** The decoder's field loop over an encoded node drops the header and
      rebuilds every field, in order, without its locations. */
  lemma EncodedFieldsDecode(registry: set<string>, n: Native)
    requires n.Node? && Encodable(registry, n)
    requires forall i :: 0 <= i < |n.fields| ==>
      Decode(registry, Encode(n.fields[i].1)) == Ok(StripPositions(n.fields[i].1))
    ensures
      var es := Header(n.kind, n.pos) + EncodedFields(n);
      BuildFields(es, DecodedValues(registry, es), []) == Ok(StripPositions(n).fields)
  {
    var fs := n.fields;
    var h := Header(n.kind, n.pos);
    var ps := EncodedFields(n);
    var es := h + ps;
    var vals := DecodedValues(registry, es);
    var want := StripPositions(n).fields;
    HeaderReserved(n.kind, n.pos);
    KeysSameNames(ps, fs);
    forall i | 0 <= i < |ps|
      ensures !Reserved(ps[i].0) && ps[i].0 == want[i].0 && vals[|h| + i] == Ok(want[i].1)
    {
      assert es[|h| + i] == ps[i];
    }
    SkipThenAppend(h, ps, vals, want);
  }

  /** A field loop over reserved keys followed by fresh, distinct keys whose
      values all decode yields exactly those fields, in order. */
  lemma SkipThenAppend(h: seq<(string, Json)>, ps: seq<(string, Json)>, vals: seq<Result<Native>>,
                       want: seq<(string, Native)>)
    requires |h| + |ps| == |vals| && |want| == |ps|
    requires forall i :: 0 <= i < |h| ==> Reserved(h[i].0)
    requires DistinctKeys(ps)
    requires forall i :: 0 <= i < |ps| ==>
      !Reserved(ps[i].0) && ps[i].0 == want[i].0 && vals[|h| + i] == Ok(want[i].1)
    ensures BuildFields(h + ps, vals, []) == Ok(want)
  {
    BuildFieldsSkips(h, ps, vals, []);
    var tail := vals[|h|..];
    forall i | 0 <= i < |ps| ensures tail[i] == Ok(want[i].1) {
      assert tail[i] == vals[|h| + i];
    }
    AppendExactly(ps, tail, want);
  }

  /** The same loop without the skipped prefix. */
  lemma AppendExactly(ps: seq<(string, Json)>, vals: seq<Result<Native>>, want: seq<(string, Native)>)
    requires |ps| == |vals| == |want|
    requires DistinctKeys(ps)
    requires forall i :: 0 <= i < |ps| ==> !Reserved(ps[i].0) && ps[i].0 == want[i].0 && vals[i] == Ok(want[i].1)
    ensures BuildFields(ps, vals, []) == Ok(want)
  {
    BuildFieldsAppends(ps, vals, []);
    forall i | 0 <= i < |ps| ensures Assigned(ps, vals)[i] == want[i] {
      AssignedAt(ps, vals, i);
    }
    assert [] + Assigned(ps, vals) == want;
  }

  /** Decoding is undone by encoding: whatever decodes comes back unchanged
      from another encode and decode. */
  lemma DecodeIsStable(registry: set<string>, j: Json)
    requires Decode(registry, j).Ok?
    ensures Decode(registry, Encode(Decode(registry, j).value)) == Decode(registry, j)
  {
    var n := Decode(registry, j).value;
    DecodedEncodable(registry, j);
    DecodeEncode(registry, n);
    StripPositionFree(n);
  }

  /** Location data never changes what the decoder rebuilds. */
  lemma PositionsIgnored(registry: set<string>, n: Native)
    requires Encodable(registry, n)
    ensures Decode(registry, Encode(n)) == Decode(registry, Encode(StripPositions(n)))
  {
    DecodeEncode(registry, n);
    StripEncodable(registry, n);
    DecodeEncode(registry, StripPositions(n));
    StripPositionFree(StripPositions(n));
  }

  /** Stripping locations keeps a tree encodable. */
  lemma {:induction false} StripEncodable(registry: set<string>, n: Native)
    requires Encodable(registry, n)
    ensures Encodable(registry, StripPositions(n))
    decreases n
  {
    match n
    case Prim(_) =>
    case NList(xs) =>
      forall i | 0 <= i < |xs| ensures Encodable(registry, StripPositions(n).elems[i]) {
        StripEncodable(registry, xs[i]);
      }
    case Node(kind, pos, fs) =>
      var r := StripPositions(n);
      KeysSameNames(r.fields, fs);
      forall i | 0 <= i < |fs| ensures !Reserved(r.fields[i].0) && Encodable(registry, r.fields[i].1) {
        StripEncodable(registry, fs[i].1);
      }
  }

  /** A program the parse oracle accepts reaches the unparse oracle, through
      the encoder's envelope and the decoder's entry point, as the parsed
      tree without its locations; the decoder's envelope then carries the
      oracle's source text, or its failure as a ValueError. */
  lemma EndToEnd(registry: set<string>, parse: string -> ParseOutcome, unparse: Native -> Result<string>, source: string)
    requires parse(source).Parsed?
    requires parse(source).tree.Node?
    requires Encodable(registry, parse(source).tree)
    ensures Member(ParseSource(parse, source), "ast").Some?
    ensures
      var tree := StripPositions(parse(source).tree);
      var doc := Member(ParseSource(parse, source), "ast").value;
      UnparseDocument(registry, unparse, doc) ==
        match unparse(tree)
        case Ok(text) => OkEnvelope("source", Str(text))
        case Err(e) => ErrorEnvelope(ErrorObject(Rewrap(e)))
  {
    var n := parse(source).tree;
    var doc := Encode(n);
    assert "_type" in Keys(doc.entries) by {
      EncodedNodeKeys(n);
    }
    DecodeEncode(registry, n);
  }
}
