/**
 * The native side of the codec: a Python `ast` tree as the parser hands it
 * over and as the node constructors rebuild it.
 */
module PyAst {
  import opened Values

  /** A value that is neither a node nor a list: a string, number, bool or
      None, or (after decoding) a dict that carried no `_type`. A Python
      list is always an `NList`, never an atom. */
  type Atom = j: Json | !j.Arr? witness Null

  /** The four location attributes of a node. `None` means the node has no
      such attribute (`hasattr` is false); `Some(v)` holds its value, which
      may itself be `Null` when the attribute exists but is None. */
  datatype Positions = Positions(
    lineno: Option<Json>,
    colOffset: Option<Json>,
    endLineno: Option<Json>,
    endColOffset: Option<Json>)

  const NoPositions: Positions := Positions(None, None, None, None)

  /** A native value: an atom, a list, or an AST node with its kind (the
      class name), its location attributes and its grammar fields in the
      order `ast.iter_fields` yields them. */
  datatype Native =
    | Prim(value: Atom)
    | NList(elems: seq<Native>)
    | Node(kind: string, pos: Positions, fields: seq<(string, Native)>)

  /** The names of the four location attributes, which are also JSON keys. */
  predicate IsPositionKey(k: string)
  {
    k == "lineno" || k == "col_offset" || k == "end_lineno" || k == "end_col_offset"
  }

  /** A JSON key the decoder never hands to a node constructor. */
  predicate Reserved(k: string)
  {
    (|k| > 0 && k[0] == '_') || IsPositionKey(k)
  }

  /** The location attribute named by a position key. */
  function PositionOf(pos: Positions, k: string): Option<Json>
    requires IsPositionKey(k)
  {
    if k == "lineno" then pos.lineno
    else if k == "col_offset" then pos.colOffset
    else if k == "end_lineno" then pos.endLineno
    else pos.endColOffset
  }

  /** The same tree with every node's location attributes removed. */
  function StripPositions(n: Native): (r: Native)
    ensures PositionFree(r)
    ensures n.Prim? ==> r == n
    ensures n.NList? ==> r.NList? && |r.elems| == |n.elems|
    ensures n.Node? ==> r.Node? && r.kind == n.kind && |r.fields| == |n.fields|
    ensures n.Node? ==> forall i :: 0 <= i < |n.fields| ==> r.fields[i].0 == n.fields[i].0
  {
    match n
    case Prim(_) => n
    case NList(xs) => NList(seq(|xs|, i requires 0 <= i < |xs| => StripPositions(xs[i])))
    case Node(kind, _, fs) =>
      Node(kind, NoPositions, seq(|fs|, i requires 0 <= i < |fs| => (fs[i].0, StripPositions(fs[i].1))))
  }

  /** No node anywhere in the tree carries a location attribute. */
  predicate PositionFree(n: Native)
  {
    match n
    case Prim(_) => true
    case NList(xs) => forall i :: 0 <= i < |xs| ==> PositionFree(xs[i])
    case Node(_, pos, fs) =>
      pos == NoPositions && forall i :: 0 <= i < |fs| ==> PositionFree(fs[i].1)
  }

  /** Stripping a tree that has no positions changes nothing. */
  lemma {:induction false} StripPositionFree(n: Native)
    requires PositionFree(n)
    ensures StripPositions(n) == n
  {
    match n
    case Prim(_) =>
    case NList(xs) =>
      forall i | 0 <= i < |xs| ensures StripPositions(xs[i]) == xs[i] {
        StripPositionFree(xs[i]);
      }
    case Node(kind, pos, fs) =>
      forall i | 0 <= i < |fs| ensures StripPositions(fs[i].1) == fs[i].1 {
        StripPositionFree(fs[i].1);
      }
  }

  /** The trees the codec can carry there and back: every kind is known to
      the registry, no field name collides with a key the decoder drops, no
      node repeats a field name, and no atom is a dict with a `_type`. */
  predicate Encodable(registry: set<string>, n: Native)
  {
    match n
    case Prim(p) => !(p.Obj? && "_type" in Keys(p.entries))
    case NList(xs) => forall i :: 0 <= i < |xs| ==> Encodable(registry, xs[i])
    case Node(kind, _, fs) =>
      && kind in registry
      && DistinctKeys(fs)
      && (forall i :: 0 <= i < |fs| ==> !Reserved(fs[i].0) && Encodable(registry, fs[i].1))
  }
}
