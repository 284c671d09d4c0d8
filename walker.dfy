/** The walk as the source runs it: one object holds the memo tables, which the nested
    `descend` calls update in place, and the dict and list comprehensions are loops. Each
    method is proved to leave the tables and return the result the walk functions give. */
module Walking {
  import opened Base
  import opened Json
  import opened OrderedDict
  import opened Classify
  import D = Descent

  /** `(done + rest, tables)` for a walk of the remaining elements that gave `rest`. */
  function Prefixed<T>(done: seq<T>, o: D.Outcome<seq<T>>): D.Outcome<seq<T>> {
    match o.result
    case Ok(rest) => D.Outcome(Ok(done + rest), o.known)
    case Err(e) => D.Outcome(Err(e), o.known)
  }

  lemma PrefixedNothing<T>(o: D.Outcome<seq<T>>)
    ensures Prefixed([], o) == o
  {
    if o.result.Ok? {
      assert [] + o.result.value == o.result.value;
    }
  }

  lemma PrefixedTwice<T>(done: seq<T>, more: seq<T>, o: D.Outcome<seq<T>>)
    ensures Prefixed(done, Prefixed(more, o)) == Prefixed(done + more, o)
  {
    if o.result.Ok? {
      assert done + (more + o.result.value) == (done + more) + o.result.value;
    }
  }

  class Flattener {
    const env: D.Env
    /** `known_mappings`: bucket to location to walked value (or the placeholder). */
    var known: D.Mappings

    constructor(env: D.Env)
      ensures this.env == env && known == D.Empty
    {
      this.env := env;
      known := D.Empty;
    }

    /** `descend(value)`. */
    method Descend(v: Node, scope: Option<string>, fuel: nat) returns (r: Result<Node>)
      modifies this
      ensures D.Outcome(r, known) == D.Descend(env, v, scope, old(known), fuel)
      decreases fuel, Size(v), 1
    {
      match v
      case Ref(target, _) =>
        r := DescendRef(target, scope, fuel);
      case Obj(fields) =>
        var walked := DescendFields(fields, scope, fuel);
        r := match walked case Ok(w) => Ok(Obj(w)) case Err(e) => Err(e);
      case Arr(items) =>
        var walked := DescendItems(items, scope, fuel);
        r := match walked case Ok(w) => Ok(Arr(w)) case Err(e) => Err(e);
      case _ =>
        r := Ok(v);
    }

    /** `{key: descend(subval) for key, subval in iteritems(value)}`. */
    method DescendFields(fields: seq<(string, Node)>, scope: Option<string>, fuel: nat)
      returns (r: Result<seq<(string, Node)>>)
      modifies this
      ensures D.Outcome(r, known) == D.DescendFields(env, fields, scope, old(known), fuel)
      decreases fuel, FieldsSize(fields), 0
    {
      var walked: seq<(string, Node)> := [];
      var i := 0;
      assert fields[i..] == fields;
      PrefixedNothing(D.DescendFields(env, fields, scope, known, fuel));
      while i < |fields|
        invariant 0 <= i <= |fields|
        invariant D.DescendFields(env, fields, scope, old(known), fuel)
          == Prefixed(walked, D.DescendFields(env, fields[i..], scope, known, fuel))
      {
        FieldSmaller(fields, i);
        assert fields[i..][0] == fields[i] && fields[i..][1..] == fields[i + 1..];
        var value := Descend(fields[i].1, scope, fuel);
        if value.Err? {
          return Err(value.error);
        }
        PrefixedTwice(walked, [(fields[i].0, value.value)], D.DescendFields(env, fields[i + 1..], scope, known, fuel));
        walked := walked + [(fields[i].0, value.value)];
        i := i + 1;
      }
      assert walked + [] == walked;
      return Ok(walked);
    }

    /** `[descend(subval) for index, subval in enumerate(value)]`. */
    method DescendItems(items: seq<Node>, scope: Option<string>, fuel: nat) returns (r: Result<seq<Node>>)
      modifies this
      ensures D.Outcome(r, known) == D.DescendItems(env, items, scope, old(known), fuel)
      decreases fuel, ItemsSize(items), 0
    {
      var walked: seq<Node> := [];
      var i := 0;
      assert items[i..] == items;
      PrefixedNothing(D.DescendItems(env, items, scope, known, fuel));
      while i < |items|
        invariant 0 <= i <= |items|
        invariant D.DescendItems(env, items, scope, old(known), fuel)
          == Prefixed(walked, D.DescendItems(env, items[i..], scope, known, fuel))
      {
        ItemSmaller(items, i);
        assert items[i..][0] == items[i] && items[i..][1..] == items[i + 1..];
        var value := Descend(items[i], scope, fuel);
        if value.Err? {
          return Err(value.error);
        }
        PrefixedTwice(walked, [value.value], D.DescendItems(env, items[i + 1..], scope, known, fuel));
        walked := walked + [value.value];
        i := i + 1;
      }
      assert walked + [] == walked;
      return Ok(walked);
    }

    /** The `is_ref` branch of `descend`: resolve, classify in the location's scope, then
        inline a path item or file the value under its bucket, placeholder first. */
    method DescendRef(target: string, scope: Option<string>, fuel: nat) returns (r: Result<Node>)
      modifies this
      ensures D.Outcome(r, known) == D.DescendRef(env, target, scope, old(known), fuel)
      decreases fuel, 0, 0
    {
      if fuel == 0 {
        return Err(OutOfFuel);
      }
      var resolved := env.resolve(target, scope);
      if resolved.None? {
        return Err(Unresolvable(target));
      }
      var (uri, deref) := resolved.value;
      var objectType := ClassifyValue(deref);
      if objectType.Err? {
        return Err(objectType.error);
      }
      if objectType.value == Some(PathItem) {
        r := Descend(deref, Some(uri), fuel - 1);
        return;
      }
      var b := BucketFor(objectType.value);
      var loc := env.parse(uri);
      if loc !in Keys(known.Get(b)) {
        // The placeholder stops the recursion when the value refers back to its own location.
        known := known.With(b, Put(known.Get(b), loc, D.Placeholder));
        var value := Descend(deref, Some(uri), fuel - 1);
        if value.Err? {
          return Err(value.error);
        }
        known := known.With(b, Put(known.Get(b), loc, D.Resolved(value.value)));
      }
      r := D.Pointed(env, b, loc);
    }
  }
}
