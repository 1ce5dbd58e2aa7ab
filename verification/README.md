# Python AST ⇄ JSON codec, modelled in Dafny

Two small Python scripts bridge a host program and Python's own `ast`
module, and this project models them:

* `priv/parsers/python/parser.py` parses a source text and prints its
  syntax tree as JSON.
  * `ast_to_dict` encodes a node as a dict. The dict holds the node's class
    name under `_type`, then each location attribute the node has (`lineno`,
    `col_offset`, `end_lineno`, `end_col_offset`), then one entry per grammar
    field.
  * Lists are encoded element by element. Every other value is passed
    through unchanged.
  * `parse_source` wraps the result in an `{"ok": …}` envelope. A
    SyntaxError yields an error object with the message, `lineno`, `offset`
    and `text`. Any other exception yields an error object with its type
    name and message.
* `priv/parsers/python/unparser.py` reads such a JSON tree back and prints
  source text.
  * `dict_to_ast` rebuilds a node from a dict that has `_type`. It drops
    every key that starts with `_` and every location key, and decodes the
    other values recursively. It decodes lists element by element and passes
    everything else through, including a dict without `_type`.
  * `unparse_ast` re-raises any failure as
    `ValueError("Failed to unparse AST: …")`.
  * `main` rejects a document that is not a dict with `_type` with
    `Invalid AST format`. It wraps the outcome in the same kind of envelope.

The model has five modules.

* `Values` (values.dfy) holds JSON documents and exceptions. It models a
  Python dict as an insertion-ordered sequence of pairs:
  * `Get` is `d[k]`;
  * `Put` is `d[k] = v`, which overwrites in place or appends;
  * `PutAll` is a loop of assignments.
* `PyAst` (pyast.dfy) holds the native tree: atoms, lists and nodes with a
  kind, location attributes and ordered fields. It also defines the keys the
  decoder drops and the trees the codec can carry there and back.
* `Parser` (parser.dfy) has two forms:
  * the encoding as a specification function, `Encode`;
  * the encoder as the source writes it, as methods `StartNode` and
    `AstToDict` proved equal to `Encode`.
  * It also has the `parse_source` envelope, with the parser as a parameter.
* `Unparser` (unparser.dfy) has two forms:
  * the decoding as a specification function, `Decode`;
  * `DictToAst`, a method with the source's loops, proved equal to
    `Decode`.
  * It also has `unparse_ast` and `main`'s format check and envelopes.
* `RoundTrip` (roundtrip.dfy) relates the two directions. Decoding an
  encoding gives back the tree without its locations. A parsed program then
  reaches the unparse step unchanged.

`ast.parse` and `ast.unparse` are parameters of the model (`parse`,
`unparse`):
* `parse` returns a tree, a SyntaxError with its attributes, or another
  exception.
* `unparse` returns source text or an exception.
  * This exception also stands for a node constructor rejecting its fields,
    which `unparse_ast` catches in the same `try`.

The set of names `getattr(ast, name, None)` finds is the parameter
`registry`.

## Model

| member | source | states |
|---|---|---|
| Parser.AstToDict | priv/parsers/python/parser.py:15-50 | The dict built step by step is exactly `Encode(n)`. An atom is returned unchanged. A list keeps its length and each element is the encoding of the element at the same index. |
| Parser.StartNode | priv/parsers/python/parser.py:25-36 | The dict before the field loop holds `_type` followed by the present location attributes, in the source's order. |
| Parser.HeaderKeys | priv/parsers/python/parser.py:26-36 | That dict's keys are `_type` plus exactly the location attributes the node has, and no key repeats. |
| Parser.EncodedNodeKeys | priv/parsers/python/parser.py:25-45 | An encoded node is a dict whose keys are exactly `_type`, the node's present location keys and its field names. |
| Parser.EncodedKind | priv/parsers/python/parser.py:26 | When no field is named `_type`, the encoded `_type` is the node's class name. |
| Parser.EncodedPosition | priv/parsers/python/parser.py:29-36 | A location key is present exactly when the node has that attribute, and then holds its value. |
| Parser.EncodedField | priv/parsers/python/parser.py:39-43 | Each grammar field is stored under its own name and holds the encoding of its value. |
| Parser.EncodedLayout | priv/parsers/python/parser.py:25-45 | When field names avoid `_type` and the location keys, the encoding lists the header, then the fields in `iter_fields` order. |
| Parser.SyntaxErrorObject | priv/parsers/python/parser.py:72-78 | The SyntaxError object has type `SyntaxError` and carries the given message, `lineno`, `offset` and `text`. |
| Parser.ParseSource | priv/parsers/python/parser.py:53-87 | `ok` is true exactly when the parse succeeds. Then `ast` is present and holds the encoded tree. Otherwise `error` is present and `ast` is absent. |
| Parser.ParseSourceSyntaxError | priv/parsers/python/parser.py:69-79 | A SyntaxError is reported with type `SyntaxError`. Its message is the `msg` attribute, or `str(e)` when that is missing, and its `lineno`, `offset` and `text` are copied. |
| Parser.ParseSourceRaised | priv/parsers/python/parser.py:80-87 | Any other exception is reported as an object with exactly the keys `type` and `msg`, holding its type name and message. |
| Unparser.DictToAst | priv/parsers/python/unparser.py:15-50 | The method with its loops and early raises returns exactly `Decode(data)`. A value that is neither a list nor a dict with `_type` is returned unchanged. |
| Unparser.DecodedList | priv/parsers/python/unparser.py:46-47 | A list decodes exactly when every element does. The result keeps the length and order. A failure raises the first failing element's error. |
| Unparser.DecodedKindErrors | priv/parsers/python/unparser.py:25-31 | A non-string `_type` raises TypeError. An unknown kind raises `ValueError("Unknown AST node type: <kind>")`. |
| Unparser.DecodedNode | priv/parsers/python/unparser.py:33-45 | A dict of a known kind decodes exactly when every passed value decodes. The result is a node of that kind without locations, and its field names are exactly the passed keys, without repeats. With distinct keys, each field holds its own decoded value. |
| Unparser.BuildFieldsOk | priv/parsers/python/unparser.py:35-42 | The field loop succeeds exactly when no passed key's value fails. |
| Unparser.BuildFieldsKeys | priv/parsers/python/unparser.py:35-42 | The field loop adds exactly the keys that are neither `_`-prefixed nor location keys, and introduces no repeated key. |
| Unparser.BuildFieldsGet | priv/parsers/python/unparser.py:39-42 | Every passed key ends up holding its own decoded value. |
| Unparser.BuildFieldsSkips | priv/parsers/python/unparser.py:36-37 | Entries with reserved keys are skipped without effect. |
| Unparser.BuildFieldsAppends | priv/parsers/python/unparser.py:35-42 | Fresh, distinct, passed keys with decodable values are appended in their original order. |
| Unparser.CollectOk | priv/parsers/python/unparser.py:47 | A list comprehension over decoded items succeeds exactly when every item does, and then yields their values in order. |
| Unparser.CollectErr | priv/parsers/python/unparser.py:47 | A failing comprehension raises the error of its first failing item. |
| Unparser.DecodedEncodable | priv/parsers/python/unparser.py:15-50 | Whatever decodes has no location data. It is a tree the encoder and decoder carry there and back unchanged: known kinds, no reserved or repeated field names, and no atom that is a dict with `_type`. |
| Unparser.Rewrap | priv/parsers/python/unparser.py:80-81 | A re-raised failure is a ValueError whose message is `Failed to unparse AST: ` followed by the original message. |
| Unparser.UnparseAst | priv/parsers/python/unparser.py:53-81 | Unparsing succeeds exactly when decoding and the unparse step both succeed, and then returns the unparse step's text. Every failure is a ValueError whose message is the fixed prefix followed by the message of the caught error: the decoding error when decoding fails, otherwise the unparse step's error. |
| Unparser.UnparseDocument | priv/parsers/python/unparser.py:84-111 | A document that is not a dict with `_type` gets the `Invalid AST format` envelope. `ok` is always a boolean. It is true exactly for a valid document that unparses, and then `source` holds the text. On failure the error object has exactly `type` and `msg`, and its type is `ValueError`. For a valid document that fails, the error object is built from the re-raised error, so `msg` is `Failed to unparse AST: ` followed by the original message. |
| Unparser.UnknownKindReported | priv/parsers/python/unparser.py:29-31 | A document whose `_type` names no known construct gets `ok` false, and an error object of type `ValueError` with message `Failed to unparse AST: Unknown AST node type: <kind>`. |
| RoundTrip.DecodeEncode | priv/parsers/python/unparser.py:15-50 | For every carryable tree, decoding its encoding gives back the same tree with all location attributes removed. |
| RoundTrip.DecodeIsStable | priv/parsers/python/unparser.py:15-50 | Decoding is undone by encoding: a decoded tree survives another encode and decode unchanged. |
| RoundTrip.PositionsIgnored | priv/parsers/python/unparser.py:36-37 | Location attributes never change what the decoder rebuilds. |
| RoundTrip.EndToEnd | priv/parsers/python/unparser.py:84-111 | For a program that parses, the `ast` member of the parse envelope, handed to the unparser's entry point, reaches the unparse step as the parsed tree without locations. The envelope then carries the produced text, or the failure as a prefixed ValueError. |
| PyAst.StripPositions | priv/parsers/python/unparser.py:36-37 | Removing locations leaves no location anywhere. It keeps atoms, list lengths, kinds and field names. |
| PyAst.StripPositionFree | priv/parsers/python/unparser.py:36-37 | A tree without locations is unchanged by removing them. |
| Values.Get | priv/parsers/python/unparser.py:25-26 | A lookup succeeds exactly for a key of the dict, and returns a value stored under that key. |
| Values.Put | priv/parsers/python/unparser.py:39-42 | An assignment adds its key and no other. A new key is appended at the end. An existing key is overwritten in place, so every position keeps its key. Keys stay distinct. |
| Values.PutGet | priv/parsers/python/unparser.py:39-42 | After `d[k] = v`, `d[k]` is `v`. |
| Values.PutOther | priv/parsers/python/unparser.py:39-42 | An assignment leaves every other key's value alone. |
| Values.PutAllAppends | priv/parsers/python/parser.py:39-43 | Assigning fresh, distinct keys one after another appends them in order. |
| Values.ErrorObject | priv/parsers/python/parser.py:83-86 | A non-SyntaxError error object has exactly the keys `type` and `msg`, holding the exception's type name and message. |

## Left out

- Reading standard input, `json.loads`, `json.dumps` and `print` are not modelled. The model works on JSON values after loading and before printing.
- A JSON text that `json.loads` rejects raises outside any `try` in `main`. That path is not modelled.
- `ast.parse` and `ast.unparse` are parameters. Their behaviour is whatever outcome the parameter returns.
- The `astor` and `compile(...).__repr__()` fallbacks for Python versions before 3.9 are not modelled. The unparse parameter stands for whichever routine runs.
- Calling a node class with the decoded fields, `node_class(**fields)`, is not modelled on its own. A rejection there and a failure of `ast.unparse` are both failures of the unparse parameter, because one `try` catches both and both are re-raised as the same prefixed ValueError.
  - The order of errors differs. The source calls each constructor inside the recursion, so a rejection in an earlier subtree is raised before an unknown kind in a later sibling. The model reports every decoding error first and a rejection only at the unparse step.
- Every rebuilt node is given no location attributes. In recent CPython versions some node classes give `end_lineno` and `end_col_offset` a class-level default of None, so a constructed node may have them set to None. No path in the program re-encodes a decoded tree, so the printed output does not depend on this.
- `getattr(ast, name, None)` is modelled by a finite `registry` of names.
  - A name the registry lacks raises `Unknown AST node type`.
  - A name that exists in `ast` but is not a node class counts as in the registry. Its failure is left to the unparse parameter.
- Floating-point, complex, bytes and `Ellipsis` constants are not modelled. JSON numbers are integers here.
- Recursion depth limits (`RecursionError`) are not modelled.
- Unparser.DecodedKindErrors: the TypeError message for a non-string `_type` follows CPython's `getattr` wording, which differs between Python versions.
- A JSON object with a repeated key is not modelled as `json.loads` builds it (last value, first position). Lookups here find the first occurrence. Dicts that come from Python have distinct keys.
- Both sources give list-valued fields a separate branch. In the model this branch is the list case of the same recursive call, because the two produce the same value.
- `str(e.msg)` on a non-string `msg` attribute is taken to be the given string.
- A subclass of SyntaxError, such as IndentationError, is reported with type `SyntaxError`, as the source does. The model does not distinguish the subclasses.
- RoundTrip.DecodeEncode: holds only for trees the codec can carry, meaning known kinds, field names that are neither `_`-prefixed nor location keys, distinct field names, and no atom that is a dict with `_type`. Other trees are not round-tripped by the source either.
