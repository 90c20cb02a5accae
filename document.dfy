/**
  The decoded TOML document that the path engine walks: Go's `map[string]any`
  tree, whose nodes are tables (`map[string]any`), arrays (`[]any`) and the
  scalar values the decoder and `InferValue` produce, and `nil`.
*/
module Document {

  datatype Value =
    | VMap(entries: map<string, Value>)
    | VArr(elems: seq<Value>)
    | VStr(s: string)
    | VInt(i: int)
    /** A float node; `raw` is the text it was read from (floating point is not modelled). */
    | VFloat(raw: string)
    | VBool(b: bool)
    | VNil

  /** One step of a path: a table key or an array index (Go's `pathToken`). */
  datatype Token = Key(key: string) | Idx(index: int)
}
