/** The JSON-like trees the flattener walks. */
module Json {

  /** A JSON value. `Obj` keeps its items in insertion order, as a Python dict does.
      A dict holding a `$ref` key is a `Ref`; its other items are kept as `siblings`. */
  datatype Node =
    | Null
    | Bool(b: bool)
    | Num(n: int)
    | Str(s: string)
    | Arr(items: seq<Node>)
    | Obj(fields: seq<(string, Node)>)
    | Ref(target: string, siblings: seq<(string, Node)>)

  /** A termination measure: the number of nodes in a value, not following references. */
  function Size(n: Node): nat {
    match n
    case Arr(items) => 1 + ItemsSize(items)
    case Obj(fields) => 1 + FieldsSize(fields)
    case Ref(_, siblings) => 1 + FieldsSize(siblings)
    case _ => 1
  }

  function ItemsSize(items: seq<Node>): nat {
    if items == [] then 0 else 1 + Size(items[0]) + ItemsSize(items[1..])
  }

  function FieldsSize(fields: seq<(string, Node)>): nat {
    if fields == [] then 0 else 1 + EntrySize(fields[0]) + FieldsSize(fields[1..])
  }

  function EntrySize(entry: (string, Node)): nat {
    Size(entry.1)
  }

  lemma {:induction false} ItemSmaller(items: seq<Node>, i: nat)
    requires i < |items|
    ensures Size(items[i]) < ItemsSize(items)
  {
    if i > 0 {
      ItemSmaller(items[1..], i - 1);
    }
  }

  lemma {:induction false} FieldSmaller(fields: seq<(string, Node)>, i: nat)
    requires i < |fields|
    ensures Size(fields[i].1) < FieldsSize(fields)
  {
    if i > 0 {
      FieldSmaller(fields[1..], i - 1);
    }
  }
}
