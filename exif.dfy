/**
 * The dynamically typed values that Pillow's `_getexif()` hands to the
 * sanitiser, as one closed datatype, and the questions the rest of the model
 * asks about them: can `json.dumps` serialise the tree, which containers
 * does it use, and what sits at a given dict-key / list-index path.
 */
module Exif {
  import opened Wrappers
  import opened Base64

  /**
   * A dict key. `get_exif_data` renames top-level tag ids to names; ids the
   * lookup table lacks stay integers, as do the keys of nested IFDs such as
   * GPSInfo.
   */
  datatype Key = Name(name: string) | Id(id: int)

  /**
   * A Python value found in decoded EXIF data.
   *  - Rational: Pillow's IFDRational (numerator, denominator).
   *  - Float: a Python float, held as the quotient it is computed from;
   *    floating-point rounding and the zero-denominator case are Pillow's
   *    business and are not modelled.
   *  - Tuple: Pillow returns multi-valued tags as tuples.
   */
  datatype Value =
    | Dict(entries: map<Key, Value>)
    | List(items: seq<Value>)
    | Tuple(elems: seq<Value>)
    | Rational(num: int, den: int)
    | Bytes(data: seq<byte>)
    | Float(num: int, den: int)
    | Str(s: string)
    | Int(i: int)
    | Bool(b: bool)
    | Null

  /**
   * `json.dumps` succeeds on the tree: no `bytes` and no IFDRational at any
   * depth. The encoder writes tuples as arrays, so it looks inside them too.
   */
  predicate Serializable(v: Value)
  {
    match v
    case Dict(m) => forall k | k in m :: Serializable(m[k])
    case List(xs) => forall i | 0 <= i < |xs| :: Serializable(xs[i])
    case Tuple(xs) => forall i | 0 <= i < |xs| :: Serializable(xs[i])
    case Rational(_, _) => false
    case Bytes(_) => false
    case _ => true
  }

  /** Every container in the tree is a dict or a list (no tuple at any depth). */
  predicate DictListOnly(v: Value)
  {
    match v
    case Dict(m) => forall k | k in m :: DictListOnly(m[k])
    case List(xs) => forall i | 0 <= i < |xs| :: DictListOnly(xs[i])
    case Tuple(_) => false
    case _ => true
  }

  /** One step of a JSON path: a dict key or a list index. */
  datatype Step = Member(key: Key) | Element(index: int)

  /** The value a JSON path reaches. Only dicts and lists are entered. */
  function Lookup(v: Value, path: seq<Step>): Option<Value>
    decreases |path|
  {
    if |path| == 0 then Some(v)
    else match (v, path[0])
      case (Dict(m), Member(k)) =>
        if k in m then Lookup(m[k], path[1..]) else None
      case (List(xs), Element(i)) =>
        if 0 <= i < |xs| then Lookup(xs[i], path[1..]) else None
      case _ => None
  }
}
