/** The nested data a YAML configuration file loads into, and the two Python
    behaviours of such data that hook setup depends on: truthiness and `str.join`. */
module Values {

  /** A loaded YAML value: a mapping with string keys, a sequence, or a scalar. */
  datatype Value =
    | VMap(entries: map<string, Value>)
    | VList(items: seq<Value>)
    | VStr(s: string)
    | VInt(i: int)
    | VBool(b: bool)
    | VNull

  /** The default requirement `[]` used for a hook kind the site block does not name. */
  const EmptyRequirement: Value := VList([])

  /** Python truthiness (`if req:`): empty containers, empty strings, zero, `False`
      and `None` are false; everything else is true. */
  predicate Truthy(v: Value) {
    match v
    case VMap(m) => |m| > 0
    case VList(xs) => |xs| > 0
    case VStr(s) => |s| > 0
    case VInt(i) => i != 0
    case VBool(b) => b
    case VNull => false
  }

  /** `", ".join(v)` succeeds exactly when iterating `v` yields strings only: a string
      (its characters), a mapping (its string keys) or a sequence of strings. */
  predicate Joinable(v: Value) {
    match v
    case VMap(_) => true
    case VStr(_) => true
    case VList(xs) => forall i :: 0 <= i < |xs| ==> xs[i].VStr?
    case _ => false
  }
}
