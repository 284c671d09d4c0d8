/** The recursive walk of the flattener, as functions that pass the memo table along.
    Every reference met is resolved; a path item is inlined, anything else is filed in its
    bucket's table under its parsed location (a placeholder first, the walked value after)
    and replaced by the pointer `#/<bucket>/<marshaled location>`. */
module Descent {
  import opened Base
  import opened Json
  import opened OrderedDict
  import opened Uris
  import opened Classify

  /** A table entry: the placeholder stored before a location is walked, then its value. */
  datatype Entry = Placeholder | Resolved(value: Node)

  /** Location to entry, in insertion order. */
  type Table = Dict<Uri, Entry>

  /** The three tables, one per bucket. */
  datatype Mappings = Mappings(parameters: Table, responses: Table, definitions: Table) {
    function Get(b: Bucket): Table {
      match b
      case Parameters => parameters
      case Responses => responses
      case Definitions => definitions
    }

    function With(b: Bucket, t: Table): (r: Mappings)
      ensures r.Get(b) == t
      ensures forall b' :: b' != b ==> r.Get(b') == Get(b')
    {
      match b
      case Parameters => this.(parameters := t)
      case Responses => this.(responses := t)
      case Definitions => this.(definitions := t)
    }
  }

  const Empty := Mappings([], [], [])

  /** `resolve(ref, scope)`: the resolver's `(url, document)` for `ref` in `scope`. */
  type Resolver = (string, Option<string>) -> Option<(string, Node)>

  /** What the walk takes from its surroundings:
      `resolve(ref, scope)` is the resolver's `(url, document)` for `ref` when the current
      scope is `scope` (`None`: the resolver's base), `None` when it cannot be resolved;
      `parse` is `urlparse`; `marshal` is the marshaling function with the origin bound. */
  datatype Env = Env(
    resolve: Resolver,
    parse: string -> Uri,
    marshal: Uri -> Result<string>)

  /** The result of a step and the tables after it. */
  datatype Outcome<T> = Outcome(result: Result<T>, known: Mappings)

  /** The pointer that replaces a filed reference. */
  function Pointer(b: Bucket, key: string): string {
    "#/" + b.Name() + "/" + key
  }

  /** `{'$ref': '#/<bucket>/<marshal(loc)>'}`. */
  function Pointed(env: Env, b: Bucket, loc: Uri): (r: Result<Node>)
    ensures r.Ok? <==> env.marshal(loc).Ok?
    ensures r.Ok? ==> r.value == Ref(Pointer(b, env.marshal(loc).value), [])
  {
    match env.marshal(loc)
    case Ok(key) => Ok(Ref(Pointer(b, key), []))
    case Err(e) => Err(e)
  }

  // ---- The invariants the walk keeps --------------------------------------------------------

  /** Tables only grow at the end: no entry present before a step is changed by it. */
  ghost predicate Grows(before: Mappings, after: Mappings) {
    && before.parameters <= after.parameters
    && before.responses <= after.responses
    && before.definitions <= after.definitions
  }

  /** An entry with a value, whose location has a marshaled key. */
  ghost predicate Filed(env: Env, entry: (Uri, Entry)) {
    entry.1.Resolved? && env.marshal(entry.0).Ok?
  }

  /** Every entry of `after` past the length of `before` is filed. */
  ghost predicate FiledFrom(env: Env, before: Table, after: Table) {
    forall i :: |before| <= i < |after| ==> Filed(env, after[i])
  }

  /** Every entry a successful step added holds a value, not a placeholder, and its
      location has a marshaled key. */
  ghost predicate Settled(env: Env, before: Mappings, after: Mappings) {
    && FiledFrom(env, before.parameters, after.parameters)
    && FiledFrom(env, before.responses, after.responses)
    && FiledFrom(env, before.definitions, after.definitions)
  }

  /** No location is filed twice in a table. */
  ghost predicate Valid(known: Mappings) {
    DistinctKeys(known.parameters) && DistinctKeys(known.responses) && DistinctKeys(known.definitions)
  }

  /** A pointer into one of the buckets. */
  ghost predicate IsPointer(target: string) {
    exists b: Bucket, key :: target == Pointer(b, key)
  }

  /** The walk keeps the shape of a value at every depth: a dict becomes a dict with the same
      keys in the same order, each value walked in turn; a list a list of the same length,
      each item walked in turn; a reference an inlined path item or a bare pointer; and
      anything else is unchanged. */
  ghost predicate Shaped(v: Node, r: Node)
    decreases Size(v)
  {
    match v
    case Obj(fields) => r.Obj? && FieldsShaped(fields, r.fields)
    case Arr(items) => r.Arr? && ItemsShaped(items, r.items)
    case Ref(_, _) => r.Obj? || (r.Ref? && r.siblings == [] && IsPointer(r.target))
    case _ => r == v
  }

  ghost predicate FieldsShaped(fields: seq<(string, Node)>, walked: seq<(string, Node)>)
    decreases FieldsSize(fields)
  {
    if fields == [] then walked == []
    else
      FieldSmaller(fields, 0);
      && |walked| == |fields|
      && walked[0].0 == fields[0].0 && Shaped(fields[0].1, walked[0].1)
      && FieldsShaped(fields[1..], walked[1..])
  }

  ghost predicate ItemsShaped(items: seq<Node>, walked: seq<Node>)
    decreases ItemsSize(items)
  {
    if items == [] then walked == []
    else |walked| == |items| && Shaped(items[0], walked[0]) && ItemsShaped(items[1..], walked[1..])
  }

  /** Walked fields are the fields, key by key, with each value walked. */
  lemma {:induction false} FieldsShapedAt(fields: seq<(string, Node)>, walked: seq<(string, Node)>)
    ensures FieldsShaped(fields, walked)
      <==> |walked| == |fields|
           && forall i :: 0 <= i < |fields| ==> walked[i].0 == fields[i].0 && Shaped(fields[i].1, walked[i].1)
    decreases |fields|
  {
    if fields != [] && |walked| == |fields| {
      FieldsShapedAt(fields[1..], walked[1..]);
      assert forall i :: 1 <= i < |fields| ==> fields[1..][i - 1] == fields[i] && walked[1..][i - 1] == walked[i];
    }
  }

  /** Walked items are the items, one by one, each walked. */
  lemma {:induction false} ItemsShapedAt(items: seq<Node>, walked: seq<Node>)
    ensures ItemsShaped(items, walked)
      <==> |walked| == |items| && forall i :: 0 <= i < |items| ==> Shaped(items[i], walked[i])
    decreases |items|
  {
    if items != [] && |walked| == |items| {
      ItemsShapedAt(items[1..], walked[1..]);
      assert forall i :: 1 <= i < |items| ==> items[1..][i - 1] == items[i] && walked[1..][i - 1] == walked[i];
    }
  }

  /** Every `$ref` in `v`, at any depth, has its target in `targets`. */
  ghost predicate RefsIn(v: Node, targets: iset<string>)
    decreases Size(v)
  {
    match v
    case Ref(target, siblings) => target in targets && FieldRefsIn(siblings, targets)
    case Obj(fields) => FieldRefsIn(fields, targets)
    case Arr(items) => ItemRefsIn(items, targets)
    case _ => true
  }

  ghost predicate FieldRefsIn(fields: seq<(string, Node)>, targets: iset<string>)
    decreases FieldsSize(fields)
  {
    if fields == [] then true
    else
      FieldSmaller(fields, 0);
      RefsIn(fields[0].1, targets) && FieldRefsIn(fields[1..], targets)
  }

  ghost predicate ItemRefsIn(items: seq<Node>, targets: iset<string>)
    decreases ItemsSize(items)
  {
    items == [] || (RefsIn(items[0], targets) && ItemRefsIn(items[1..], targets))
  }

  /** A value without references. */
  ghost predicate RefFree(v: Node) {
    RefsIn(v, iset{})
  }

  /** More targets allowed: still closed. */
  lemma {:induction false} RefsWeaken(v: Node, a: iset<string>, b: iset<string>)
    requires a <= b && RefsIn(v, a)
    ensures RefsIn(v, b)
    decreases Size(v), 1
  {
    match v
    case Ref(_, siblings) => FieldRefsWeaken(siblings, a, b);
    case Obj(fields) => FieldRefsWeaken(fields, a, b);
    case Arr(items) => ItemRefsWeaken(items, a, b);
    case _ =>
  }

  lemma {:induction false} FieldRefsWeaken(fields: seq<(string, Node)>, a: iset<string>, b: iset<string>)
    requires a <= b && FieldRefsIn(fields, a)
    ensures FieldRefsIn(fields, b)
    decreases FieldsSize(fields), 0
  {
    if fields != [] {
      FieldSmaller(fields, 0);
      RefsWeaken(fields[0].1, a, b);
      FieldRefsWeaken(fields[1..], a, b);
    }
  }

  lemma {:induction false} ItemRefsWeaken(items: seq<Node>, a: iset<string>, b: iset<string>)
    requires a <= b && ItemRefsIn(items, a)
    ensures ItemRefsIn(items, b)
    decreases ItemsSize(items), 0
  {
    if items != [] {
      RefsWeaken(items[0], a, b);
      ItemRefsWeaken(items[1..], a, b);
    }
  }

  /** Assigning a closed value in closed items keeps them closed. */
  lemma {:induction false} FieldRefsPut(fields: seq<(string, Node)>, k: string, v: Node, targets: iset<string>)
    requires FieldRefsIn(fields, targets) && RefsIn(v, targets)
    ensures FieldRefsIn(Put(fields, k, v), targets)
  {
    FieldRefsAt(fields, targets);
    FieldRefsAt(Put(fields, k, v), targets);
  }

  /** The index-by-index form of `FieldRefsIn`. */
  lemma {:induction false} FieldRefsAt(fields: seq<(string, Node)>, targets: iset<string>)
    ensures FieldRefsIn(fields, targets) <==> forall i :: 0 <= i < |fields| ==> RefsIn(fields[i].1, targets)
    decreases |fields|
  {
    if fields != [] {
      FieldRefsAt(fields[1..], targets);
      assert forall i :: 1 <= i < |fields| ==> fields[1..][i - 1] == fields[i];
    }
  }

  /** Keeping the shape of a value without references leaves it as it is: nothing of it is lost. */
  lemma {:induction false} RefFreeKept(v: Node, r: Node)
    requires RefFree(v) && Shaped(v, r)
    ensures r == v
    decreases Size(v), 1
  {
    match v
    case Obj(fields) => FieldsRefFreeKept(fields, r.fields);
    case Arr(items) => ItemsRefFreeKept(items, r.items);
    case _ =>
  }

  lemma {:induction false} FieldsRefFreeKept(fields: seq<(string, Node)>, walked: seq<(string, Node)>)
    requires FieldRefsIn(fields, iset{}) && FieldsShaped(fields, walked)
    ensures walked == fields
    decreases FieldsSize(fields), 0
  {
    if fields != [] {
      FieldSmaller(fields, 0);
      RefFreeKept(fields[0].1, walked[0].1);
      FieldsRefFreeKept(fields[1..], walked[1..]);
      assert walked == [walked[0]] + walked[1..];
      assert fields == [fields[0]] + fields[1..];
    }
  }

  lemma {:induction false} ItemsRefFreeKept(items: seq<Node>, walked: seq<Node>)
    requires ItemRefsIn(items, iset{}) && ItemsShaped(items, walked)
    ensures walked == items
    decreases ItemsSize(items), 0
  {
    if items != [] {
      RefFreeKept(items[0], walked[0]);
      ItemsRefFreeKept(items[1..], walked[1..]);
      assert walked == [walked[0]] + walked[1..];
      assert items == [items[0]] + items[1..];
    }
  }

  lemma TableChain(env: Env, t0: Table, t1: Table, t2: Table)
    requires t0 <= t1 && t1 <= t2
    ensures t0 <= t2
    ensures FiledFrom(env, t0, t1) && FiledFrom(env, t1, t2) ==> FiledFrom(env, t0, t2)
  {
    if FiledFrom(env, t0, t1) && FiledFrom(env, t1, t2) {
      forall i | |t0| <= i < |t2| ensures Filed(env, t2[i]) {
        if i < |t1| {
          assert t2[i] == t1[i];
        }
      }
    }
  }

  lemma Chain(env: Env, k0: Mappings, k1: Mappings, k2: Mappings)
    requires Grows(k0, k1) && Grows(k1, k2)
    ensures Grows(k0, k2)
    ensures Settled(env, k0, k1) && Settled(env, k1, k2) ==> Settled(env, k0, k2)
  {
    TableChain(env, k0.parameters, k1.parameters, k2.parameters);
    TableChain(env, k0.responses, k1.responses, k2.responses);
    TableChain(env, k0.definitions, k1.definitions, k2.definitions);
  }

  /** What holds of every table holds of the tables. */
  lemma ByTable(env: Env, k0: Mappings, k1: Mappings)
    ensures Grows(k0, k1) <==> forall b: Bucket :: k0.Get(b) <= k1.Get(b)
    ensures Settled(env, k0, k1) <==> forall b: Bucket :: FiledFrom(env, k0.Get(b), k1.Get(b))
    ensures Valid(k1) <==> forall b: Bucket :: DistinctKeys(k1.Get(b))
  {
    assert k0.Get(Parameters) == k0.parameters && k1.Get(Parameters) == k1.parameters;
    assert k0.Get(Responses) == k0.responses && k1.Get(Responses) == k1.responses;
    assert k0.Get(Definitions) == k0.definitions && k1.Get(Definitions) == k1.definitions;
  }

  /** Storing a placeholder for an absent location appends it. */
  lemma Place(env: Env, known: Mappings, b: Bucket, loc: Uri)
    requires loc !in Keys(known.Get(b))
    ensures var placed := known.With(b, known.Get(b) + [(loc, Placeholder)]);
      Grows(known, placed) && (Valid(known) ==> Valid(placed))
  {
    var placed := known.With(b, known.Get(b) + [(loc, Placeholder)]);
    ByTable(env, known, placed);
    ByTable(env, placed, placed);
    ByTable(env, known, known);
    if Valid(known) {
      PutDistinct(known.Get(b), loc, Placeholder);
    }
    assert placed.Get(b) == Put(known.Get(b), loc, Placeholder);
  }

  /** In one table: the placeholder appended after `t0` is still the first entry for `loc`,
      so assigning `loc` overwrites exactly that entry, and if the walk filed everything
      after the placeholder and `loc` marshals, everything from `t0` on is filed. */
  lemma FillTable(env: Env, t0: Table, t: Table, loc: Uri, value: Node)
    requires loc !in Keys(t0) && t0 + [(loc, Placeholder)] <= t
    requires FiledFrom(env, t0 + [(loc, Placeholder)], t)
    ensures var u := Put(t, loc, Resolved(value));
      && u == t[|t0| := (loc, Resolved(value))]
      && t0 <= u && loc in Keys(u)
      && (DistinctKeys(t) ==> DistinctKeys(u))
      && (env.marshal(loc).Ok? ==> FiledFrom(env, t0, u))
  {
    var n := |t0|;
    assert t[n] == (loc, Placeholder);
    assert loc in Keys(t);
    if DistinctKeys(t) {
      PutDistinct(t, loc, Resolved(value));
    }
    var u := t[n := (loc, Resolved(value))];
    assert Keys(u)[n] == loc;
    if env.marshal(loc).Ok? {
      forall i | n <= i < |u| ensures Filed(env, u[i]) {
        if i > n {
          assert u[i] == t[i];
        }
      }
    }
  }

  /** Overwriting the placeholder after the walk changes only that entry, which now holds a value. */
  lemma Fill(env: Env, known: Mappings, b: Bucket, loc: Uri, walked: Mappings, value: Node)
    requires loc !in Keys(known.Get(b))
    requires var placed := known.With(b, known.Get(b) + [(loc, Placeholder)]);
      Grows(placed, walked) && Settled(env, placed, walked)
    ensures var filled := walked.With(b, Put(walked.Get(b), loc, Resolved(value)));
      Grows(known, filled) && (env.marshal(loc).Ok? ==> Settled(env, known, filled))
      && (Valid(walked) ==> Valid(filled)) && loc in Keys(filled.Get(b)) && loc in Keys(walked.Get(b))
  {
    var placed := known.With(b, known.Get(b) + [(loc, Placeholder)]);
    var filled := walked.With(b, Put(walked.Get(b), loc, Resolved(value)));
    ByTable(env, placed, walked);
    ByTable(env, known, filled);
    ByTable(env, walked, walked);
    FillTable(env, known.Get(b), walked.Get(b), loc, value);
    forall b': Bucket | b' != b ensures known.Get(b') == placed.Get(b') && filled.Get(b') == walked.Get(b') {
    }
  }

  // ---- Where the pointers lead ----------------------------------------------------------------

  /** The pointers to the filed locations of `known` that have a marshaled key. */
  ghost function Targets(env: Env, known: Mappings): iset<string> {
    iset b: Bucket, loc | loc in Keys(known.Get(b)) && env.marshal(loc).Ok? :: Pointer(b, env.marshal(loc).value)
  }

  /** Every value filed in `t` has its references in `targets`. */
  ghost predicate ValuesIn(t: Table, targets: iset<string>) {
    forall i :: 0 <= i < |t| && t[i].1.Resolved? ==> RefsIn(t[i].1.value, targets)
  }

  /** Every filed value refers only to filed locations. */
  ghost predicate Closed(env: Env, known: Mappings) {
    var targets := Targets(env, known);
    ValuesIn(known.parameters, targets) && ValuesIn(known.responses, targets) && ValuesIn(known.definitions, targets)
  }

  lemma ValuesWeaken(t: Table, a: iset<string>, b: iset<string>)
    requires a <= b && ValuesIn(t, a)
    ensures ValuesIn(t, b)
  {
    forall i | 0 <= i < |t| && t[i].1.Resolved? ensures RefsIn(t[i].1.value, b) {
      RefsWeaken(t[i].1.value, a, b);
    }
  }

  /** The pointer to a filed location is one of the tables' pointers. */
  lemma PointedIn(env: Env, known: Mappings, b: Bucket, loc: Uri)
    requires loc in Keys(known.Get(b))
    ensures Pointed(env, b, loc).Ok? ==> RefsIn(Pointed(env, b, loc).value, Targets(env, known))
  {
    if env.marshal(loc).Ok? {
      assert Pointer(b, env.marshal(loc).value) in Targets(env, known);
    }
  }

  /** Tables that only grow keep every pointer they had. */
  lemma TargetsGrow(env: Env, k0: Mappings, k1: Mappings)
    requires Grows(k0, k1)
    ensures Targets(env, k0) <= Targets(env, k1)
  {
    ByTable(env, k0, k1);
    forall t | t in Targets(env, k0) ensures t in Targets(env, k1) {
      var b: Bucket, loc :| loc in Keys(k0.Get(b)) && env.marshal(loc).Ok? && t == Pointer(b, env.marshal(loc).value);
      assert k0.Get(b) <= k1.Get(b);
      var i :| 0 <= i < |Keys(k0.Get(b))| && Keys(k0.Get(b))[i] == loc;
      assert Keys(k1.Get(b))[i] == loc;
    }
  }

  /** Storing a placeholder keeps the tables closed. */
  lemma PlaceClosed(env: Env, known: Mappings, b: Bucket, loc: Uri)
    requires loc !in Keys(known.Get(b))
    ensures var placed := known.With(b, known.Get(b) + [(loc, Placeholder)]);
      Closed(env, known) ==> Closed(env, placed)
  {
    var placed := known.With(b, known.Get(b) + [(loc, Placeholder)]);
    Place(env, known, b, loc);
    TargetsGrow(env, known, placed);
    if Closed(env, known) {
      var a, c := Targets(env, known), Targets(env, placed);
      assert ValuesIn(placed.Get(b), a) by {
        assert ValuesIn(known.Get(b), a) by {
          assert known.Get(b) in [known.parameters, known.responses, known.definitions];
        }
      }
      ValuesWeaken(known.parameters, a, c);
      ValuesWeaken(known.responses, a, c);
      ValuesWeaken(known.definitions, a, c);
      ValuesWeaken(placed.Get(b), a, c);
    }
  }

  /** Overwriting a present entry with a value that refers only to filed locations keeps the
      tables closed and their pointers as they were. */
  lemma FillClosed(env: Env, walked: Mappings, b: Bucket, loc: Uri, value: Node)
    requires loc in Keys(walked.Get(b))
    ensures var filled := walked.With(b, Put(walked.Get(b), loc, Resolved(value)));
      && Targets(env, filled) == Targets(env, walked)
      && (Closed(env, walked) && RefsIn(value, Targets(env, walked)) ==> Closed(env, filled))
  {
    var t := walked.Get(b);
    var filled := walked.With(b, Put(t, loc, Resolved(value)));
    PutSemantics(t, loc, Resolved(value));
    assert forall b': Bucket :: Keys(filled.Get(b')) == Keys(walked.Get(b'));
    assert Targets(env, filled) == Targets(env, walked);
    if Closed(env, walked) && RefsIn(value, Targets(env, walked)) {
      var targets := Targets(env, walked);
      assert ValuesIn(t, targets) by {
        assert t in [walked.parameters, walked.responses, walked.definitions];
      }
      var u := Put(t, loc, Resolved(value));
      assert u == t[IndexOf(t, loc) := (loc, Resolved(value))];
      assert ValuesIn(u, targets);
    }
  }

  // ---- The walk -------------------------------------------------------------------------------

  /** Walking a value with at most `fuel` nested reference resolutions. */
  function Descend(env: Env, v: Node, scope: Option<string>, known: Mappings, fuel: nat): (o: Outcome<Node>)
    ensures Grows(known, o.known) && (Valid(known) ==> Valid(o.known))
    ensures o.result.Ok? ==> Settled(env, known, o.known) && Shaped(v, o.result.value)
    ensures o.result.Ok? ==> RefsIn(o.result.value, Targets(env, o.known)) && (Closed(env, known) ==> Closed(env, o.known))
    decreases fuel, Size(v), 1
  {
    match v
    case Ref(target, _) => DescendRef(env, target, scope, known, fuel)
    case Obj(fields) =>
      var o := DescendFields(env, fields, scope, known, fuel);
      (match o.result
       case Ok(walked) => Outcome(Ok(Obj(walked)), o.known)
       case Err(e) => Outcome(Err(e), o.known))
    case Arr(items) =>
      var o := DescendItems(env, items, scope, known, fuel);
      (match o.result
       case Ok(walked) => Outcome(Ok(Arr(walked)), o.known)
       case Err(e) => Outcome(Err(e), o.known))
    case _ => Outcome(Ok(v), known)
  }

  /** `{key: descend(value) for key, value in fields}`, left to right. */
  function DescendFields(env: Env, fields: seq<(string, Node)>, scope: Option<string>, known: Mappings, fuel: nat)
    : (o: Outcome<seq<(string, Node)>>)
    ensures Grows(known, o.known) && (Valid(known) ==> Valid(o.known))
    ensures o.result.Ok? ==> Settled(env, known, o.known) && FieldsShaped(fields, o.result.value)
    ensures o.result.Ok? ==> FieldRefsIn(o.result.value, Targets(env, o.known)) && (Closed(env, known) ==> Closed(env, o.known))
    decreases fuel, FieldsSize(fields), 0
  {
    if fields == [] then Outcome(Ok([]), known)
    else
      FieldSmaller(fields, 0);
      var first := Descend(env, fields[0].1, scope, known, fuel);
      match first.result
      case Err(e) => Outcome(Err(e), first.known)
      case Ok(value) =>
        var rest := DescendFields(env, fields[1..], scope, first.known, fuel);
        Chain(env, known, first.known, rest.known);
        match rest.result
        case Err(e) => Outcome(Err(e), rest.known)
        case Ok(walked) =>
          assert ([(fields[0].0, value)] + walked)[1..] == walked;
          TargetsGrow(env, first.known, rest.known);
          RefsWeaken(value, Targets(env, first.known), Targets(env, rest.known));
          Outcome(Ok([(fields[0].0, value)] + walked), rest.known)
  }

  /** `[descend(item) for item in items]`, left to right. */
  function DescendItems(env: Env, items: seq<Node>, scope: Option<string>, known: Mappings, fuel: nat)
    : (o: Outcome<seq<Node>>)
    ensures Grows(known, o.known) && (Valid(known) ==> Valid(o.known))
    ensures o.result.Ok? ==> Settled(env, known, o.known) && ItemsShaped(items, o.result.value)
    ensures o.result.Ok? ==> ItemRefsIn(o.result.value, Targets(env, o.known)) && (Closed(env, known) ==> Closed(env, o.known))
    decreases fuel, ItemsSize(items), 0
  {
    if items == [] then Outcome(Ok([]), known)
    else
      ItemSmaller(items, 0);
      var first := Descend(env, items[0], scope, known, fuel);
      match first.result
      case Err(e) => Outcome(Err(e), first.known)
      case Ok(value) =>
        var rest := DescendItems(env, items[1..], scope, first.known, fuel);
        Chain(env, known, first.known, rest.known);
        match rest.result
        case Err(e) => Outcome(Err(e), rest.known)
        case Ok(walked) =>
          assert ([value] + walked)[1..] == walked;
          TargetsGrow(env, first.known, rest.known);
          RefsWeaken(value, Targets(env, first.known), Targets(env, rest.known));
          Outcome(Ok([value] + walked), rest.known)
  }

  /** Following the reference `target`: resolve it, classify what it points at in the scope of
      its location, and inline a path item or file anything else. */
  function DescendRef(env: Env, target: string, scope: Option<string>, known: Mappings, fuel: nat)
    : (o: Outcome<Node>)
    ensures Grows(known, o.known) && (Valid(known) ==> Valid(o.known))
    ensures o.result.Ok? ==> Settled(env, known, o.known)
    ensures o.result.Ok? ==> o.result.value.Obj? || (o.result.value.Ref? && o.result.value.siblings == [] && IsPointer(o.result.value.target))
    ensures o.result.Ok? ==> RefsIn(o.result.value, Targets(env, o.known)) && (Closed(env, known) ==> Closed(env, o.known))
    decreases fuel, 0, 0
  {
    if fuel == 0 then Outcome(Err(OutOfFuel), known)
    else
      match env.resolve(target, scope)
      case None => Outcome(Err(Unresolvable(target)), known)
      case Some((uri, deref)) =>
        match ClassifyValue(deref)
        case Err(e) => Outcome(Err(e), known)
        case Ok(t) =>
          if t == Some(PathItem) then Descend(env, deref, Some(uri), known, fuel - 1)
          else
            var b := BucketFor(t);
            var loc := env.parse(uri);
            if loc in Keys(known.Get(b)) then
              PointedIn(env, known, b, loc);
              Outcome(Pointed(env, b, loc), known)
            else
              var placed := known.With(b, known.Get(b) + [(loc, Placeholder)]);
              Place(env, known, b, loc);
              PlaceClosed(env, known, b, loc);
              var inner := Descend(env, deref, Some(uri), placed, fuel - 1);
              Chain(env, known, placed, inner.known);
              match inner.result
              case Err(e) => Outcome(Err(e), inner.known)
              case Ok(value) =>
                var filled := inner.known.With(b, Put(inner.known.Get(b), loc, Resolved(value)));
                Fill(env, known, b, loc, inner.known, value);
                FillClosed(env, inner.known, b, loc, value);
                PointedIn(env, filled, b, loc);
                Outcome(Pointed(env, b, loc), filled)
  }

  // ---- What the walk promises ------------------------------------------------------------------

  /** A reference to a location already present in its bucket gives the pointer at once and
      leaves the tables as they are: this is what stops a cycle through filed objects. */
  lemma KnownLocationShortCuts(env: Env, target: string, scope: Option<string>, known: Mappings, fuel: nat)
    requires fuel > 0 && env.resolve(target, scope).Some?
    requires var (uri, deref) := env.resolve(target, scope).value;
      ClassifyValue(deref).Ok? && ClassifyValue(deref).value != Some(PathItem)
      && env.parse(uri) in Keys(known.Get(BucketFor(ClassifyValue(deref).value)))
    ensures var (uri, deref) := env.resolve(target, scope).value;
      DescendRef(env, target, scope, known, fuel)
        == Outcome(Pointed(env, BucketFor(ClassifyValue(deref).value), env.parse(uri)), known)
  {
  }

  /** Following a filed reference a second time, in the same scope and with any fuel left,
      gives the very pointer the first time gave, and changes nothing. */
  lemma RepeatIsMemoized(env: Env, target: string, scope: Option<string>, known: Mappings, fuel: nat, again: nat)
    requires fuel > 0 && again > 0 && env.resolve(target, scope).Some?
    requires var deref := env.resolve(target, scope).value.1;
      ClassifyValue(deref).Ok? && ClassifyValue(deref).value != Some(PathItem)
    requires DescendRef(env, target, scope, known, fuel).result.Ok?
    ensures var first := DescendRef(env, target, scope, known, fuel);
      DescendRef(env, target, scope, first.known, again) == first
  {
    var (uri, deref) := env.resolve(target, scope).value;
    var b := BucketFor(ClassifyValue(deref).value);
    var loc := env.parse(uri);
    var first := DescendRef(env, target, scope, known, fuel);
    if loc !in Keys(known.Get(b)) {
      var placed := known.With(b, known.Get(b) + [(loc, Placeholder)]);
      var inner := Descend(env, deref, Some(uri), placed, fuel - 1);
      Fill(env, known, b, loc, inner.known, inner.result.value);
      assert first.result == Pointed(env, b, loc);
    }
    KnownLocationShortCuts(env, target, scope, first.known, again);
  }

  /** A reference to a path item is replaced by the walked path item itself, walked in the
      scope of its location; nothing is filed for the path item's own location. */
  lemma PathItemInlined(env: Env, target: string, scope: Option<string>, known: Mappings, fuel: nat)
    requires fuel > 0 && env.resolve(target, scope).Some?
    requires ClassifyValue(env.resolve(target, scope).value.1) == Ok(Some(PathItem))
    ensures var (uri, deref) := env.resolve(target, scope).value;
      deref.Obj? && DescendRef(env, target, scope, known, fuel) == Descend(env, deref, Some(uri), known, fuel - 1)
  {
  }

  /** A reference to a location not yet in its bucket stores a placeholder for it, walks
      the dereferenced value with the placeholder in place, overwrites the placeholder with
      the walked value and gives the pointer. */
  lemma NewLocationFiled(env: Env, target: string, scope: Option<string>, known: Mappings, fuel: nat,
                         uri: string, deref: Node, t: Option<ObjectType>, value: Node, after: Mappings)
    requires fuel > 0 && env.resolve(target, scope) == Some((uri, deref))
    requires ClassifyValue(deref) == Ok(t) && t != Some(PathItem)
    requires env.parse(uri) !in Keys(known.Get(BucketFor(t)))
    requires var b := BucketFor(t);
      Descend(env, deref, Some(uri), known.With(b, known.Get(b) + [(env.parse(uri), Placeholder)]), fuel - 1)
        == Outcome(Ok(value), after)
    ensures var b := BucketFor(t);
      DescendRef(env, target, scope, known, fuel)
        == Outcome(Pointed(env, b, env.parse(uri)), after.With(b, Put(after.Get(b), env.parse(uri), Resolved(value))))
  {
  }

  /** A schema `{"items": {"$ref": <itself>}}` is filed once under `definitions`, and its
      inner reference becomes the pointer to that entry. */
  lemma SchemaCycleStops(env: Env, target: string, uri: string, key: string, fuel: nat)
    requires fuel >= 2
    requires forall scope :: env.resolve(target, scope) == Some((uri, Obj([("items", Ref(target, []))])))
    requires env.marshal(env.parse(uri)) == Ok(key)
    ensures var pointer := Ref(Pointer(Definitions, key), []);
      Descend(env, Ref(target, []), None, Empty, fuel)
        == Outcome(Ok(pointer), Mappings([], [], [(env.parse(uri), Resolved(Obj([("items", pointer)])))]))
  {
    var loc := env.parse(uri);
    var value := Obj([("items", Ref(Pointer(Definitions, key), []))]);
    var placed := Mappings([], [], [(loc, Placeholder)]);
    SchemaFiled(env, target, uri, key, fuel);
    assert Keys(placed.definitions) == [loc];
  }

  lemma SchemaFiled(env: Env, target: string, uri: string, key: string, fuel: nat)
    requires fuel >= 2
    requires forall scope :: env.resolve(target, scope) == Some((uri, Obj([("items", Ref(target, []))])))
    requires env.marshal(env.parse(uri)) == Ok(key)
    ensures var loc := env.parse(uri);
      var placed := Mappings([], [], [(loc, Placeholder)]);
      var value := Obj([("items", Ref(Pointer(Definitions, key), []))]);
      DescendRef(env, target, None, Empty, fuel)
        == Outcome(Pointed(env, Definitions, loc), placed.With(Definitions, Put(placed.Get(Definitions), loc, Resolved(value))))
  {
    var rest := fuel - 1;
    var deref := Obj([("items", Ref(target, []))]);
    var value := Obj([("items", Ref(Pointer(Definitions, key), []))]);
    var placed := Mappings([], [], [(env.parse(uri), Placeholder)]);
    ItemsSchemaIsSchema(target);
    CycleInside(env, target, uri, key, rest);
    NewLocationWalked(env, target, None, Empty, fuel, rest, uri, deref, Some(Schema), placed, Outcome(Ok(value), placed));
  }

  lemma ItemsSchemaIsSchema(target: string)
    ensures ClassifyValue(Obj([("items", Ref(target, []))])) == Ok(Some(Schema))
  {
    var schema := Obj([("items", Ref(target, []))]);
    assert DictKeys(schema) == {"items"} by {
      assert Keys(schema.fields) == ["items"];
    }
    assert !IsExtension("items") && "items" !in HttpOperations;
    assert !HasOperation({"items"});
  }

  /** Inside the schema, with its placeholder stored, the inner reference is short-cut. */
  lemma CycleInside(env: Env, target: string, uri: string, key: string, fuel: nat)
    requires fuel >= 1
    requires forall scope :: env.resolve(target, scope) == Some((uri, Obj([("items", Ref(target, []))])))
    requires env.marshal(env.parse(uri)) == Ok(key)
    ensures var placed := Mappings([], [], [(env.parse(uri), Placeholder)]);
      && placed == Empty.With(Definitions, Empty.Get(Definitions) + [(env.parse(uri), Placeholder)])
      && Descend(env, Obj([("items", Ref(target, []))]), Some(uri), placed, fuel)
        == Outcome(Ok(Obj([("items", Ref(Pointer(Definitions, key), []))])), placed)
  {
    var loc := env.parse(uri);
    var pointer := Ref(Pointer(Definitions, key), []);
    var placed := Mappings([], [], [(loc, Placeholder)]);
    ItemsSchemaIsSchema(target);
    assert Keys(placed.Get(Definitions)) == [loc];
    KnownLocationShortCuts(env, target, Some(uri), placed, fuel);
    assert Descend(env, Ref(target, []), Some(uri), placed, fuel) == Outcome(Ok(pointer), placed);
    var inner := [("items", Ref(target, []))];
    assert inner[1..] == [] && inner[0] == ("items", Ref(target, []));
    assert DescendFields(env, inner[1..], Some(uri), placed, fuel) == Outcome(Ok([]), placed);
    assert [("items", pointer)] + [] == [("items", pointer)];
    assert DescendFields(env, inner, Some(uri), placed, fuel) == Outcome(Ok([("items", pointer)]), placed);
  }

  /** Once the walk has not run out of fuel, more fuel gives the very same result and tables:
      a result other than `OutOfFuel` is the result of the unbounded walk. */
  lemma {:induction false} FuelMonotone(env: Env, v: Node, scope: Option<string>, known: Mappings, f: nat, g: nat)
    requires f <= g && Descend(env, v, scope, known, f).result != Err(OutOfFuel)
    ensures Descend(env, v, scope, known, g) == Descend(env, v, scope, known, f)
    decreases f, Size(v), 1
  {
    match v
    case Ref(target, _) => RefFuelMonotone(env, target, scope, known, f, g);
    case Obj(fields) => FieldsFuelMonotone(env, fields, scope, known, f, g);
    case Arr(items) => ItemsFuelMonotone(env, items, scope, known, f, g);
    case _ =>
  }

  lemma {:induction false} FieldsFuelMonotone(env: Env, fields: seq<(string, Node)>, scope: Option<string>, known: Mappings, f: nat, g: nat)
    requires f <= g && DescendFields(env, fields, scope, known, f).result != Err(OutOfFuel)
    ensures DescendFields(env, fields, scope, known, g) == DescendFields(env, fields, scope, known, f)
    decreases f, FieldsSize(fields), 0
  {
    if fields != [] {
      FieldSmaller(fields, 0);
      var first := Descend(env, fields[0].1, scope, known, f);
      FuelMonotone(env, fields[0].1, scope, known, f, g);
      if first.result.Ok? {
        FieldsFuelMonotone(env, fields[1..], scope, first.known, f, g);
      }
    }
  }

  lemma {:induction false} ItemsFuelMonotone(env: Env, items: seq<Node>, scope: Option<string>, known: Mappings, f: nat, g: nat)
    requires f <= g && DescendItems(env, items, scope, known, f).result != Err(OutOfFuel)
    ensures DescendItems(env, items, scope, known, g) == DescendItems(env, items, scope, known, f)
    decreases f, ItemsSize(items), 0
  {
    if items != [] {
      ItemSmaller(items, 0);
      var first := Descend(env, items[0], scope, known, f);
      FuelMonotone(env, items[0], scope, known, f, g);
      if first.result.Ok? {
        ItemsFuelMonotone(env, items[1..], scope, first.known, f, g);
      }
    }
  }

  lemma {:induction false} RefFuelMonotone(env: Env, target: string, scope: Option<string>, known: Mappings, f: nat, g: nat)
    requires f <= g && DescendRef(env, target, scope, known, f).result != Err(OutOfFuel)
    ensures DescendRef(env, target, scope, known, g) == DescendRef(env, target, scope, known, f)
    decreases f, 0, 2
  {
    if f > 0 && env.resolve(target, scope).Some? {
      var (uri, deref) := env.resolve(target, scope).value;
      if ClassifyValue(deref).Ok? {
        ClassifiedFuelMonotone(env, target, scope, known, f, g, uri, deref, ClassifyValue(deref).value);
      } else {
        assert DescendRef(env, target, scope, known, f) == Outcome(Err(ClassifyValue(deref).error), known);
        assert DescendRef(env, target, scope, known, g) == Outcome(Err(ClassifyValue(deref).error), known);
      }
    } else if f > 0 {
      assert DescendRef(env, target, scope, known, f) == Outcome(Err(Unresolvable(target)), known);
      assert DescendRef(env, target, scope, known, g) == Outcome(Err(Unresolvable(target)), known);
    }
  }

  lemma {:induction false} ClassifiedFuelMonotone(env: Env, target: string, scope: Option<string>, known: Mappings, f: nat, g: nat,
                                                  uri: string, deref: Node, t: Option<ObjectType>)
    requires 0 < f <= g && env.resolve(target, scope) == Some((uri, deref)) && ClassifyValue(deref) == Ok(t)
    requires DescendRef(env, target, scope, known, f).result != Err(OutOfFuel)
    ensures DescendRef(env, target, scope, known, g) == DescendRef(env, target, scope, known, f)
    decreases f, 0, 1
  {
    var b := BucketFor(t);
    if t == Some(PathItem) {
      PathItemFuelMonotone(env, target, scope, known, f, g, uri, deref);
    } else if env.parse(uri) in Keys(known.Get(b)) {
      KnownLocationShortCuts(env, target, scope, known, f);
      KnownLocationShortCuts(env, target, scope, known, g);
    } else {
      NewLocationFuelMonotone(env, target, scope, known, f, g, uri, deref, t);
    }
  }

  lemma {:induction false} PathItemFuelMonotone(env: Env, target: string, scope: Option<string>, known: Mappings, f: nat, g: nat,
                                                uri: string, deref: Node)
    requires 0 < f <= g && env.resolve(target, scope) == Some((uri, deref)) && ClassifyValue(deref) == Ok(Some(PathItem))
    requires DescendRef(env, target, scope, known, f).result != Err(OutOfFuel)
    ensures DescendRef(env, target, scope, known, g) == DescendRef(env, target, scope, known, f)
    decreases f, 0, 0
  {
    var f', g' := f - 1, g - 1;
    assert DescendRef(env, target, scope, known, f) == Descend(env, deref, Some(uri), known, f') by {
      PathItemInlined(env, target, scope, known, f);
    }
    assert DescendRef(env, target, scope, known, g) == Descend(env, deref, Some(uri), known, g') by {
      PathItemInlined(env, target, scope, known, g);
    }
    FuelMonotone(env, deref, Some(uri), known, f', g');
  }

  lemma {:induction false} NewLocationFuelMonotone(env: Env, target: string, scope: Option<string>, known: Mappings, f: nat, g: nat,
                                                   uri: string, deref: Node, t: Option<ObjectType>)
    requires 0 < f <= g && env.resolve(target, scope) == Some((uri, deref)) && ClassifyValue(deref) == Ok(t)
    requires t != Some(PathItem) && env.parse(uri) !in Keys(known.Get(BucketFor(t)))
    requires DescendRef(env, target, scope, known, f).result != Err(OutOfFuel)
    ensures DescendRef(env, target, scope, known, g) == DescendRef(env, target, scope, known, f)
    decreases f, 0, 0
  {
    var b := BucketFor(t);
    var loc := env.parse(uri);
    var f', g' := f - 1, g - 1;
    var placed := known.With(b, known.Get(b) + [(loc, Placeholder)]);
    var inner := Descend(env, deref, Some(uri), placed, f');
    NewLocationWalked(env, target, scope, known, f, f', uri, deref, t, placed, inner);
    FuelMonotone(env, deref, Some(uri), placed, f', g');
    NewLocationWalked(env, target, scope, known, g, g', uri, deref, t, placed, inner);
  }

  /** What a reference to a new location gives once its value has been walked to `inner`. */
  function Filing(env: Env, b: Bucket, loc: Uri, inner: Outcome<Node>): Outcome<Node> {
    match inner.result
    case Err(e) => Outcome(Err(e), inner.known)
    case Ok(value) => Outcome(Pointed(env, b, loc), inner.known.With(b, Put(inner.known.Get(b), loc, Resolved(value))))
  }

  /** The outcome of a reference to a new location, given the walk of its value. */
  lemma NewLocationWalked(env: Env, target: string, scope: Option<string>, known: Mappings, fuel: nat, rest: nat,
                          uri: string, deref: Node, t: Option<ObjectType>, placed: Mappings, inner: Outcome<Node>)
    requires fuel == rest + 1 && env.resolve(target, scope) == Some((uri, deref))
    requires ClassifyValue(deref) == Ok(t) && t != Some(PathItem)
    requires env.parse(uri) !in Keys(known.Get(BucketFor(t)))
    requires placed == known.With(BucketFor(t), known.Get(BucketFor(t)) + [(env.parse(uri), Placeholder)])
    requires Descend(env, deref, Some(uri), placed, rest) == inner
    ensures DescendRef(env, target, scope, known, fuel) == Filing(env, BucketFor(t), env.parse(uri), inner)
  {
  }

  /** A path item whose operation refers back to the path item itself is never filed, so
      the walk re-enters it until the fuel is spent, however much fuel it is given. */
  lemma {:induction false} PathItemCycleDiverges(env: Env, target: string, uri: string, scope: Option<string>, known: Mappings, fuel: nat)
    requires forall s :: env.resolve(target, s) == Some((uri, Obj([("get", Ref(target, []))])))
    ensures DescendRef(env, target, scope, known, fuel).result == Err(OutOfFuel)
    decreases fuel
  {
    if fuel > 0 {
      var item := Obj([("get", Ref(target, []))]);
      assert DictKeys(item) == {"get"} by {
        assert Keys(item.fields) == ["get"];
      }
      assert "get" in HttpOperations && !IsExtension("get");
      assert OnlyPathItemFields({"get"});
      assert ClassifyValue(item) == Ok(Some(PathItem));
      PathItemCycleDiverges(env, target, uri, Some(uri), known, fuel - 1);
      var fields := [("get", Ref(target, []))];
      assert DescendFields(env, fields, Some(uri), known, fuel - 1).result == Err(OutOfFuel);
    }
  }
}
