/** `flattened_spec`: the warnings about the run's configuration, the walk of the whole
    document, and the merge that checks each bucket for marshaling clashes and attaches
    every non-empty bucket to the walked document under its name. */
module Flattening {
  import opened Base
  import opened Json
  import opened OrderedDict
  import opened Uris
  import opened Classify
  import opened Clash
  import opened Marshaling
  import opened Descent
  import W = Walking

  // ---- One bucket as a JSON object ---------------------------------------------------------

  /** The value a table entry has in the flattened document; a placeholder is `None`. */
  function EntryValue(e: Entry): Node {
    match e
    case Placeholder => Null
    case Resolved(v) => v
  }

  /** `{marshal_uri(uri): value for uri, value in iteritems(mappings)}`: an entry whose key
      was already produced overwrites the earlier value where it stands. */
  function BucketObject(marshal: Uri -> Result<string>, table: Table): (r: Result<seq<(string, Node)>>)
    ensures r.Ok? ==> DistinctKeys(r.value)
    decreases |table|
  {
    if table == [] then Ok([])
    else
      var n := |table| - 1;
      match BucketObject(marshal, table[..n])
      case Err(e) => Err(e)
      case Ok(obj) =>
        match marshal(table[n].0)
        case Err(e) => Err(e)
        case Ok(k) =>
          PutDistinct(obj, k, EntryValue(table[n].1));
          Ok(Put(obj, k, EntryValue(table[n].1)))
  }

  /** Once marshaling one location fails, so does the whole bucket. */
  lemma {:induction false} BucketFailureSticks(marshal: Uri -> Result<string>, table: Table, n: nat)
    requires n <= |table| && BucketObject(marshal, table[..n]).Err?
    ensures BucketObject(marshal, table) == BucketObject(marshal, table[..n])
    decreases |table| - n
  {
    if n < |table| {
      assert table[..n + 1][..n] == table[..n];
      BucketFailureSticks(marshal, table, n + 1);
    } else {
      assert table[..n] == table;
    }
  }

  /** The bucket object exists iff every location marshals. */
  lemma {:induction false} BucketOk(marshal: Uri -> Result<string>, table: Table)
    ensures BucketObject(marshal, table).Ok? <==> AllMarshal(Keys(table), marshal)
    decreases |table|
  {
    if table != [] {
      var n := |table| - 1;
      var init := table[..n];
      BucketOk(marshal, init);
      assert forall i :: 0 <= i < n ==> Keys(init)[i] == Keys(table)[i];
      assert Keys(table)[n] == table[n].0;
    }
  }

  /** The keys of the bucket object are exactly the keys the locations marshal to. */
  lemma {:induction false} BucketKeys(marshal: Uri -> Result<string>, table: Table)
    ensures BucketObject(marshal, table).Ok? ==>
      forall k :: k in Keys(BucketObject(marshal, table).value) <==> Marshals(Keys(table), marshal, k)
    decreases |table|
  {
    if table != [] && BucketObject(marshal, table).Ok? {
      var n := |table| - 1;
      var init := table[..n];
      BucketKeys(marshal, init);
      var obj := BucketObject(marshal, init).value;
      var k := marshal(table[n].0).value;
      PutSemantics(obj, k, EntryValue(table[n].1));
      forall k' ensures k' in Keys(BucketObject(marshal, table).value) <==> Marshals(Keys(table), marshal, k') {
        MarshalsLast(marshal, table, k');
      }
    }
  }

  /** A key is marshaled by the locations of `table` iff by those before the last one, or by
      the last one. */
  lemma MarshalsLast(marshal: Uri -> Result<string>, table: Table, k: string)
    requires table != []
    ensures Marshals(Keys(table), marshal, k)
      <==> Marshals(Keys(table[..|table| - 1]), marshal, k) || marshal(table[|table| - 1].0) == Ok(k)
  {
    var n := |table| - 1;
    var init := table[..n];
    assert forall i :: 0 <= i < n ==> Keys(init)[i] == Keys(table)[i];
    assert Keys(table)[n] == table[n].0;
    if Marshals(Keys(table), marshal, k) && marshal(table[n].0) != Ok(k) {
      var i :| 0 <= i < |table| && marshal(Keys(table)[i]) == Ok(k);
      assert i < n && marshal(Keys(init)[i]) == Ok(k);
    }
  }

  /** When no two locations share a key, the bucket has one item per location, in order,
      each holding that location's value. */
  lemma {:induction false} BucketObjectInjective(marshal: Uri -> Result<string>, table: Table)
    requires AllMarshal(Keys(table), marshal) && Injective(Keys(table), marshal)
    ensures BucketObject(marshal, table).Ok?
    ensures var obj := BucketObject(marshal, table).value;
      |obj| == |table|
      && forall i :: 0 <= i < |table| ==> obj[i] == (marshal(table[i].0).value, EntryValue(table[i].1))
    decreases |table|
  {
    if table != [] {
      var n := |table| - 1;
      var init := table[..n];
      assert forall i :: 0 <= i < n ==> Keys(init)[i] == Keys(table)[i];
      BucketObjectInjective(marshal, init);
      var obj := BucketObject(marshal, init).value;
      var k := marshal(table[n].0).value;
      assert marshal(Keys(table)[n]) == Ok(k);
      forall i | 0 <= i < n ensures Keys(obj)[i] != k {
        assert marshal(Keys(table)[i]) != marshal(Keys(table)[n]);
      }
      assert k !in Keys(obj);
    }
  }

  /** With the source's own marshaling function, no key of a bucket holds `/` or `#`. */
  lemma DefaultKeysSafe(origin: Option<Uri>, relpath: (string, string) -> string, table: Table)
    ensures var marshal := (u: Uri) => Marshal(u, origin, relpath);
      BucketObject(marshal, table).Ok? ==>
        forall k :: k in Keys(BucketObject(marshal, table).value) ==> '/' !in k && '#' !in k
  {
    var marshal := (u: Uri) => Marshal(u, origin, relpath);
    BucketOk(marshal, table);
    BucketKeys(marshal, table);
    if BucketObject(marshal, table).Ok? {
      forall k | k in Keys(BucketObject(marshal, table).value) ensures '/' !in k && '#' !in k {
        var i :| 0 <= i < |Keys(table)| && marshal(Keys(table)[i]) == Ok(k);
        MarshalSafe(Keys(table)[i], origin, relpath);
      }
    }
  }

  /** The bucket object, as the comprehension's loop. */
  method MarshaledBucket(marshal: Uri -> Result<string>, table: Table) returns (r: Result<seq<(string, Node)>>)
    ensures r == BucketObject(marshal, table)
  {
    var obj: seq<(string, Node)> := [];
    var i := 0;
    while i < |table|
      invariant 0 <= i <= |table|
      invariant BucketObject(marshal, table[..i]) == Ok(obj)
    {
      assert table[..i + 1][..i] == table[..i];
      var k := marshal(table[i].0);
      if k.Err? {
        BucketFailureSticks(marshal, table, i + 1);
        return Err(k.error);
      }
      obj := Put(obj, k.value, EntryValue(table[i].1));
      i := i + 1;
    }
    assert table[..i] == table;
    return Ok(obj);
  }

  // ---- Attaching the buckets ---------------------------------------------------------------

  /** The items of a dict; a reference dict's items besides `$ref`. */
  function Items(v: Node): seq<(string, Node)>
    requires v.Obj? || v.Ref?
  {
    if v.Obj? then v.fields else v.siblings
  }

  /** `doc.update({name: obj})`: only a dict has `update`. */
  function Attach(doc: Node, name: string, obj: Node): (r: Result<Node>)
    ensures r.Ok? <==> doc.Obj? || doc.Ref?
    ensures r.Ok? ==> r.value.Obj? == doc.Obj? && r.value.Ref? == doc.Ref?
    ensures r.Ok? && doc.Ref? ==> r.value.target == doc.target
    ensures r.Ok? ==>
      && Lookup(Items(r.value), name) == Some(obj)
      && (forall k :: k != name ==> Lookup(Items(r.value), k) == Lookup(Items(doc), k))
      && Keys(Items(r.value)) == if name in Keys(Items(doc)) then Keys(Items(doc)) else Keys(Items(doc)) + [name]
  {
    match doc
    case Obj(fields) =>
      PutSemantics(fields, name, obj);
      Ok(Obj(Put(fields, name, obj)))
    case Ref(target, siblings) =>
      PutSemantics(siblings, name, obj);
      Ok(Ref(target, Put(siblings, name, obj)))
    case _ => Err(NotAMapping)
  }

  /** The warnings a run emits and how it ends. */
  datatype Report = Report(warnings: seq<Warning>, result: Result<Node>)

  /** One round of the merge loop: the clash check on the bucket, then, when the bucket is
      not empty, its object attached to the document. */
  function MergeBucket(env: Env, b: Bucket, table: Table, doc: Node): Report {
    match ClashWarnings(Keys(table), env.marshal, Unparse)
    case Err(e) => Report([], Err(e))
    case Ok(ws) =>
      if |table| == 0 then Report(ws, Ok(doc))
      else
        match BucketObject(env.marshal, table)
        case Err(e) => Report(ws, Err(e))
        case Ok(obj) => Report(ws, Attach(doc, b.Name(), Obj(obj)))
  }

  /** A round of the merge after the rounds that gave `prev`; a failure ends the loop. */
  function Next(env: Env, known: Mappings, b: Bucket, prev: Report): Report {
    match prev.result
    case Err(_) => prev
    case Ok(current) =>
      var step := MergeBucket(env, b, known.Get(b), current);
      Report(prev.warnings + step.warnings, step.result)
  }

  /** The merge loop over `buckets`. */
  function Merge(env: Env, known: Mappings, doc: Node, buckets: seq<Bucket>): Report
    decreases |buckets|
  {
    if buckets == [] then Report([], Ok(doc))
    else Next(env, known, buckets[|buckets| - 1], Merge(env, known, doc, buckets[..|buckets| - 1]))
  }

  lemma MergeStep(env: Env, known: Mappings, doc: Node, buckets: seq<Bucket>, i: nat)
    requires i < |buckets|
    ensures Merge(env, known, doc, buckets[..i + 1]) == Next(env, known, buckets[i], Merge(env, known, doc, buckets[..i]))
  {
    assert buckets[..i + 1][..i] == buckets[..i];
  }

  lemma {:induction false} MergeFailureSticks(env: Env, known: Mappings, doc: Node, buckets: seq<Bucket>, n: nat)
    requires n <= |buckets| && Merge(env, known, doc, buckets[..n]).result.Err?
    ensures Merge(env, known, doc, buckets) == Merge(env, known, doc, buckets[..n])
    decreases |buckets| - n
  {
    if n < |buckets| {
      assert buckets[..n + 1][..n] == buckets[..n];
      MergeFailureSticks(env, known, doc, buckets, n + 1);
    } else {
      assert buckets[..n] == buckets;
    }
  }

  /** The merge emits clash warnings only. */
  lemma {:induction false} MergeOnlyClashes(env: Env, known: Mappings, doc: Node, buckets: seq<Bucket>)
    ensures forall w :: w in Merge(env, known, doc, buckets).warnings ==> w.Clash?
    decreases |buckets|
  {
    if buckets != [] {
      MergeOnlyClashes(env, known, doc, buckets[..|buckets| - 1]);
    }
  }

  /** Every location of a settled table marshals, and no location occurs twice. */
  lemma SettledTable(env: Env, table: Table)
    requires FiledFrom(env, [], table) && DistinctKeys(table)
    ensures AllMarshal(Keys(table), env.marshal) && Distinct(Keys(table))
  {
    forall i | 0 <= i < |table| ensures env.marshal(Keys(table)[i]).Ok? {
      assert Filed(env, table[i]);
    }
  }

  /** On a settled table, a round of the merge never fails on a dict, warns as the clash
      check does, and attaches the bucket object exactly when the table is not empty. */
  lemma MergeBucketSettled(env: Env, b: Bucket, table: Table, doc: Node)
    requires FiledFrom(env, [], table) && DistinctKeys(table)
    requires doc.Obj? || doc.Ref?
    ensures ClashWarnings(Keys(table), env.marshal, Unparse).Ok? && BucketObject(env.marshal, table).Ok?
    ensures var r := MergeBucket(env, b, table, doc);
      && r.warnings == ClashWarnings(Keys(table), env.marshal, Unparse).value
      && r.result.Ok? && r.result.value.Obj? == doc.Obj? && r.result.value.Ref? == doc.Ref?
      && (doc.Ref? ==> r.result.value.target == doc.target)
      && Lookup(Items(r.result.value), b.Name())
        == (if table == [] then Lookup(Items(doc), b.Name()) else Some(Obj(BucketObject(env.marshal, table).value)))
      && Keeps(doc, r.result.value, {b.Name()})
  {
    SettledTable(env, table);
    ClashReport(Keys(table), env.marshal, Unparse);
    BucketOk(env.marshal, table);
    BucketKeys(env.marshal, table);
  }

  /** On a settled table, a round of the merge on a value that is not a dict passes it
      through when the table is empty and fails otherwise: a list or a scalar has no `update`. */
  lemma MergeBucketOnValue(env: Env, b: Bucket, table: Table, doc: Node)
    requires FiledFrom(env, [], table) && DistinctKeys(table)
    requires !doc.Obj? && !doc.Ref?
    ensures MergeBucket(env, b, table, doc).result == if table == [] then Ok(doc) else Err(NotAMapping)
  {
    SettledTable(env, table);
    ClashReport(Keys(table), env.marshal, Unparse);
    BucketOk(env.marshal, table);
    BucketKeys(env.marshal, table);
  }

  /** The merge over the three buckets is the three rounds one after the other. */
  lemma MergeUnrolled(env: Env, known: Mappings, doc: Node)
    ensures Merge(env, known, doc, Buckets)
      == var r0 := Report([], Ok(doc));
         var r1 := Next(env, known, Parameters, r0);
         var r2 := Next(env, known, Responses, r1);
         Next(env, known, Definitions, r2)
  {
    var r0 := Report([], Ok(doc));
    assert [Parameters][..0] == [];
    assert Merge(env, known, doc, [Parameters]) == Next(env, known, Parameters, r0);
    assert [Parameters, Responses][..1] == [Parameters];
    assert Buckets[..2] == [Parameters, Responses];
  }

  // ---- flattened_spec ----------------------------------------------------------------------

  /** Whether a resolver is available: given, or built from a non-empty spec URL. */
  predicate Configured(resolver: Option<Resolver>, specUrl: Option<string>) {
    resolver.Some? || (specUrl.Some? && specUrl.value != "")
  }

  /** `urlparse(spec_url) if spec_url else None`. */
  function Origin(parse: string -> Uri, specUrl: Option<string>): Option<Uri> {
    if specUrl.Some? && specUrl.value != "" then Some(parse(specUrl.value)) else None
  }

  /** The walk's surroundings: the resolver, `urlparse`, and the marshaling function with
      the origin bound (`functools.partial`). */
  function FlattenEnv(resolve: Resolver, parse: string -> Uri, marshalUri: (Uri, Option<Uri>) -> Result<string>,
                      specUrl: Option<string>): Env
  {
    Env(resolve, parse, u => marshalUri(u, Origin(parse, specUrl)))
  }

  /** `flattened_spec(spec, resolver, spec_url, marshal_uri_function=marshalUri)`.
      `defaultResolver(url, spec)` is the resolver built when none is given; `hasDefinitions`
      says whether known definitions were passed. */
  function Flattened(spec: Node, resolver: Option<Resolver>, specUrl: Option<string>, hasDefinitions: bool,
                     defaultResolver: (string, Node) -> Resolver, parse: string -> Uri,
                     marshalUri: (Uri, Option<Uri>) -> Result<string>, fuel: nat): Report
  {
    var notes := if specUrl.None? then [MissingOrigin] else [];
    if !Configured(resolver, specUrl) then Report(notes, Err(Configuration))
    else
      var resolve := if resolver.Some? then resolver.value else defaultResolver(specUrl.value, spec);
      var notes := notes + (if hasDefinitions then [] else [MissingDefinitions]);
      Run(FlattenEnv(resolve, parse, marshalUri, specUrl), spec, notes, fuel)
  }

  /** The origin warning comes iff there is no spec URL, and then first; the definitions
      warning iff there are none and a resolver is available; without a resolver the run
      fails with the configuration error. */
  lemma FlattenedWarnings(spec: Node, resolver: Option<Resolver>, specUrl: Option<string>, hasDefinitions: bool,
                          defaultResolver: (string, Node) -> Resolver, parse: string -> Uri,
                          marshalUri: (Uri, Option<Uri>) -> Result<string>, fuel: nat)
    ensures var r := Flattened(spec, resolver, specUrl, hasDefinitions, defaultResolver, parse, marshalUri, fuel);
      && (MissingOrigin in r.warnings <==> specUrl.None?)
      && (specUrl.None? ==> r.warnings[0] == MissingOrigin)
      && (MissingDefinitions in r.warnings <==> !hasDefinitions && Configured(resolver, specUrl))
      && (!Configured(resolver, specUrl) ==> r.result == Err(Configuration) && |r.warnings| <= 1)
  {
    if Configured(resolver, specUrl) {
      var resolve := if resolver.Some? then resolver.value else defaultResolver(specUrl.value, spec);
      var notes := (if specUrl.None? then [MissingOrigin] else []) + (if hasDefinitions then [] else [MissingDefinitions]);
      var env := FlattenEnv(resolve, parse, marshalUri, specUrl);
      var r := Run(env, spec, notes, fuel);
      assert r == Flattened(spec, resolver, specUrl, hasDefinitions, defaultResolver, parse, marshalUri, fuel);
      RunWarnings(env, spec, notes, fuel);
      NoteIn(MissingOrigin, notes, r.warnings);
      NoteIn(MissingDefinitions, notes, r.warnings);
      if specUrl.None? {
        assert r.warnings[0] == r.warnings[..|notes|][0];
      }
    }
  }

  /** In warnings that start with `notes` and go on with clash warnings only, another
      warning occurs iff it is among the notes. */
  lemma NoteIn(w: Warning, notes: seq<Warning>, ws: seq<Warning>)
    requires !w.Clash? && |ws| >= |notes| && ws[..|notes|] == notes
    requires forall i :: |notes| <= i < |ws| ==> ws[i].Clash?
    ensures w in ws <==> w in notes
  {
    if w in ws {
      var i :| 0 <= i < |ws| && ws[i] == w;
      assert i < |notes| && notes[i] == ws[..|notes|][i];
    }
    if w in notes {
      var i :| 0 <= i < |notes| && notes[i] == w;
      assert ws[i] == ws[..|notes|][i];
    }
  }

  /** The walk from the document's root with empty tables, then the merge; the warnings
      already emitted, `notes`, come first and the merge adds only clash warnings. */
  function Run(env: Env, spec: Node, notes: seq<Warning>, fuel: nat): Report {
    var walk := Descend(env, spec, None, Empty, fuel);
    match walk.result
    case Err(e) => Report(notes, Err(e))
    case Ok(doc) =>
      var merged := Merge(env, walk.known, doc, Buckets);
      Report(notes + merged.warnings, merged.result)
  }

  /** The run keeps the warnings already emitted in front and adds only clash warnings. */
  lemma RunWarnings(env: Env, spec: Node, notes: seq<Warning>, fuel: nat)
    ensures var r := Run(env, spec, notes, fuel);
      && |r.warnings| >= |notes| && r.warnings[..|notes|] == notes
      && forall i :: |notes| <= i < |r.warnings| ==> r.warnings[i].Clash?
  {
    var walk := Descend(env, spec, None, Empty, fuel);
    if walk.result.Ok? {
      var merged := Merge(env, walk.known, walk.result.value, Buckets);
      MergeOnlyClashes(env, walk.known, walk.result.value, Buckets);
      assert forall i :: |notes| <= i < |notes + merged.warnings| ==> (notes + merged.warnings)[i] in merged.warnings;
    }
  }

  /** `flattened_spec` as the source runs it: the walk on the object holding the tables,
      then the merge loop over the buckets. */
  method FlattenedSpec(spec: Node, resolver: Option<Resolver>, specUrl: Option<string>, hasDefinitions: bool,
                       defaultResolver: (string, Node) -> Resolver, parse: string -> Uri,
                       marshalUri: (Uri, Option<Uri>) -> Result<string>, fuel: nat) returns (report: Report)
    ensures report == Flattened(spec, resolver, specUrl, hasDefinitions, defaultResolver, parse, marshalUri, fuel)
  {
    var warnings: seq<Warning> := [];
    if specUrl.None? {
      warnings := warnings + [MissingOrigin];
    }
    var resolve: Resolver;
    if resolver.Some? {
      resolve := resolver.value;
    } else if specUrl.None? || specUrl.value == "" {
      return Report(warnings, Err(Configuration));
    } else {
      resolve := defaultResolver(specUrl.value, spec);
    }
    if !hasDefinitions {
      warnings := warnings + [MissingDefinitions];
    }
    assert warnings == (if specUrl.None? then [MissingOrigin] else []) + (if hasDefinitions then [] else [MissingDefinitions]);
    report := WalkAndMerge(FlattenEnv(resolve, parse, marshalUri, specUrl), spec, warnings, fuel);
  }

  /** `resolved_spec = descend(value=spec_dict)` on the object holding the tables, then the merge. */
  method WalkAndMerge(env: Env, spec: Node, notes: seq<Warning>, fuel: nat) returns (report: Report)
    ensures report == Run(env, spec, notes, fuel)
  {
    var flattener := new W.Flattener(env);
    var resolved := flattener.Descend(spec, None, fuel);
    if resolved.Err? {
      return Report(notes, Err(resolved.error));
    }
    var merged := MergeBuckets(env, flattener.known, resolved.value);
    return Report(notes + merged.warnings, merged.result);
  }

  /** The merge loop `for mapping_key, mappings in iteritems(known_mappings)`. */
  method MergeBuckets(env: Env, known: Mappings, walked: Node) returns (report: Report)
    ensures report == Merge(env, known, walked, Buckets)
  {
    var doc := walked;
    var merged: seq<Warning> := [];
    var i := 0;
    while i < |Buckets|
      invariant 0 <= i <= |Buckets|
      invariant Merge(env, known, walked, Buckets[..i]) == Report(merged, Ok(doc))
    {
      MergeStep(env, known, walked, Buckets, i);
      var b := Buckets[i];
      var table := known.Get(b);
      var clashes := WarnIfUriClash(Keys(table), env.marshal, Unparse);
      if clashes.Err? {
        MergeFailureSticks(env, known, walked, Buckets, i + 1);
        assert merged + [] == merged;
        return Report(merged, Err(clashes.error));
      }
      merged := merged + clashes.value;
      if |table| > 0 {
        var obj := MarshaledBucket(env.marshal, table);
        if obj.Err? {
          MergeFailureSticks(env, known, walked, Buckets, i + 1);
          return Report(merged, Err(obj.error));
        }
        var attached := Attach(doc, b.Name(), Obj(obj.value));
        if attached.Err? {
          MergeFailureSticks(env, known, walked, Buckets, i + 1);
          return Report(merged, Err(attached.error));
        }
        doc := attached.value;
      }
      i := i + 1;
    }
    assert Buckets[..i] == Buckets;
    return Report(merged, Ok(doc));
  }

  // ---- What a successful walk leads to -----------------------------------------------------

  /** Bucket `table` is attached to `flat` under `name` when it is not empty; otherwise
      `flat` has under `name` what the walked document `doc` had. */
  ghost predicate Attached(env: Env, table: Table, name: string, doc: Node, flat: Node)
    requires (doc.Obj? || doc.Ref?) && (flat.Obj? || flat.Ref?)
  {
    && BucketObject(env.marshal, table).Ok?
    && Lookup(Items(flat), name)
      == if table == [] then Lookup(Items(doc), name) else Some(Obj(BucketObject(env.marshal, table).value))
  }

  /** `flat` has every key outside `names` with the value `doc` has. */
  ghost predicate Keeps(doc: Node, flat: Node, names: set<string>)
    requires (doc.Obj? || doc.Ref?) && (flat.Obj? || flat.Ref?)
  {
    forall k :: k !in names ==> Lookup(Items(flat), k) == Lookup(Items(doc), k)
  }

  lemma KeepsChain(a: Node, b: Node, c: Node, n1: set<string>, n2: set<string>)
    requires (a.Obj? || a.Ref?) && (b.Obj? || b.Ref?) && (c.Obj? || c.Ref?)
    requires Keeps(a, b, n1) && Keeps(b, c, n2)
    ensures Keeps(a, c, n1 + n2)
  {
  }

  /** A later round under another name leaves an attached bucket where it is. */
  lemma AttachedKept(env: Env, table: Table, name: string, doc: Node, mid: Node, flat: Node, names: set<string>)
    requires (doc.Obj? || doc.Ref?) && (mid.Obj? || mid.Ref?) && (flat.Obj? || flat.Ref?)
    requires Attached(env, table, name, doc, mid) && Keeps(mid, flat, names) && name !in names
    ensures Attached(env, table, name, doc, flat)
  {
  }

  /** An earlier round under another name does not change what an empty bucket leaves. */
  lemma AttachedRebased(env: Env, table: Table, name: string, doc: Node, mid: Node, flat: Node, names: set<string>)
    requires (doc.Obj? || doc.Ref?) && (mid.Obj? || mid.Ref?) && (flat.Obj? || flat.Ref?)
    requires Attached(env, table, name, mid, flat) && Keeps(doc, mid, names) && name !in names
    ensures Attached(env, table, name, doc, flat)
  {
  }

  /** A round of the merge after rounds that succeeded on a dict, on settled tables. */
  lemma Round(env: Env, known: Mappings, b: Bucket, prev: Report)
    requires Settled(env, Empty, known) && Valid(known)
    requires prev.result.Ok? && (prev.result.value.Obj? || prev.result.value.Ref?)
    ensures var r := Next(env, known, b, prev);
      var d := prev.result.value;
      && ClashWarnings(Keys(known.Get(b)), env.marshal, Unparse).Ok?
      && r.warnings == prev.warnings + ClashWarnings(Keys(known.Get(b)), env.marshal, Unparse).value
      && r.result.Ok? && r.result.value.Obj? == d.Obj? && r.result.value.Ref? == d.Ref?
      && Attached(env, known.Get(b), b.Name(), d, r.result.value)
      && Keeps(d, r.result.value, {b.Name()})
  {
    ByTable(env, Empty, known);
    assert Empty.Get(b) == [];
    MergeBucketSettled(env, b, known.Get(b), prev.result.value);
  }

  /** The names of the buckets `bs`. */
  function NamesOf(bs: seq<Bucket>): set<string> {
    set i | 0 <= i < |bs| :: bs[i].Name()
  }

  /** The warnings of the clash check on one table (none when the check fails). */
  function ClashesIn(env: Env, table: Table): seq<Warning> {
    match ClashWarnings(Keys(table), env.marshal, Unparse)
    case Ok(ws) => ws
    case Err(_) => []
  }

  /** The clash warnings of one bucket of the tables `known`. */
  function ClashesOf(env: Env, known: Mappings): Bucket -> seq<Warning> {
    b => ClashesIn(env, known.Get(b))
  }

  /** The warnings `each` gives for the buckets `bs`, in order. */
  function Concat(bs: seq<Bucket>, each: Bucket -> seq<Warning>): seq<Warning>
    decreases |bs|
  {
    if bs == [] then [] else Concat(bs[..|bs| - 1], each) + each(bs[|bs| - 1])
  }

  lemma NamesOfLast(bs: seq<Bucket>)
    requires bs != []
    ensures NamesOf(bs) == NamesOf(bs[..|bs| - 1]) + {bs[|bs| - 1].Name()}
  {
    var init := bs[..|bs| - 1];
    forall i | 0 <= i < |init| ensures bs[i].Name() in NamesOf(init) {
      assert init[i] == bs[i];
    }
  }

  /** Distinct buckets have distinct names. */
  lemma NamesOfDistinct(bs: seq<Bucket>)
    requires bs != [] && forall i, j :: 0 <= i < j < |bs| ==> bs[i] != bs[j]
    ensures bs[|bs| - 1].Name() !in NamesOf(bs[..|bs| - 1])
  {
    var n := |bs| - 1;
    forall i | 0 <= i < n ensures bs[..n][i].Name() != bs[n].Name() {
      assert bs[..n][i] == bs[i] != bs[n];
    }
  }

  lemma NamesOfBuckets()
    ensures NamesOf(Buckets) == {"parameters", "responses", "definitions"}
  {
    assert Buckets[0].Name() == "parameters";
    assert Buckets[1].Name() == "responses";
    assert Buckets[2].Name() == "definitions";
  }

  lemma ClashesOfBuckets(env: Env, known: Mappings)
    ensures Concat(Buckets, ClashesOf(env, known))
      == ClashesIn(env, known.parameters) + ClashesIn(env, known.responses) + ClashesIn(env, known.definitions)
  {
    var each := ClashesOf(env, known);
    ConcatOfThree(Parameters, Responses, Definitions, each);
    assert each(Parameters) == ClashesIn(env, known.parameters);
    assert each(Responses) == ClashesIn(env, known.responses);
    assert each(Definitions) == ClashesIn(env, known.definitions);
  }

  lemma ConcatOfThree(a: Bucket, b: Bucket, c: Bucket, each: Bucket -> seq<Warning>)
    ensures Concat([a, b, c], each) == each(a) + each(b) + each(c)
  {
    ConcatStep([], a, each);
    assert [] + [a] == [a] && [] + each(a) == each(a);
    ConcatStep([a], b, each);
    assert [a] + [b] == [a, b];
    ConcatStep([a, b], c, each);
    assert [a, b] + [c] == [a, b, c];
  }

  lemma ConcatStep(init: seq<Bucket>, b: Bucket, each: Bucket -> seq<Warning>)
    ensures Concat(init + [b], each) == Concat(init, each) + each(b)
  {
    assert (init + [b])[..|init|] == init;
  }

  /** The merge over any buckets, on settled tables, into a dict succeeds with the clash
      warnings of each bucket in turn. */
  lemma {:induction false} MergeSucceeds(env: Env, known: Mappings, doc: Node, bs: seq<Bucket>)
    requires Settled(env, Empty, known) && Valid(known)
    requires doc.Obj? || doc.Ref?
    ensures var r := Merge(env, known, doc, bs);
      && r.warnings == Concat(bs, ClashesOf(env, known))
      && r.result.Ok? && r.result.value.Obj? == doc.Obj? && r.result.value.Ref? == doc.Ref?
    decreases |bs|
  {
    if bs != [] {
      MergeSucceeds(env, known, doc, bs[..|bs| - 1]);
      Round(env, known, bs[|bs| - 1], Merge(env, known, doc, bs[..|bs| - 1]));
    }
  }

  /** The merge over any buckets, on settled tables, into a dict leaves every key outside
      the buckets' names as it was. */
  lemma {:induction false} MergeKeeps(env: Env, known: Mappings, doc: Node, bs: seq<Bucket>)
    requires Settled(env, Empty, known) && Valid(known)
    requires doc.Obj? || doc.Ref?
    ensures Merge(env, known, doc, bs).result.Ok?
    ensures var flat := Merge(env, known, doc, bs).result.value;
      (flat.Obj? || flat.Ref?) && Keeps(doc, flat, NamesOf(bs))
    decreases |bs|
  {
    MergeSucceeds(env, known, doc, bs);
    if bs == [] {
      assert NamesOf(bs) == {};
    } else {
      var n := |bs| - 1;
      var init, b := bs[..n], bs[n];
      MergeKeeps(env, known, doc, init);
      MergeSucceeds(env, known, doc, init);
      var prev := Merge(env, known, doc, init);
      Round(env, known, b, prev);
      KeepsChain(doc, prev.result.value, Merge(env, known, doc, bs).result.value, NamesOf(init), {b.Name()});
      NamesOfLast(bs);
    }
  }

  /** The merge over distinct buckets, on settled tables, into a dict attaches each bucket
      under its name. */
  lemma {:induction false} MergeAttaches(env: Env, known: Mappings, doc: Node, bs: seq<Bucket>)
    requires Settled(env, Empty, known) && Valid(known)
    requires doc.Obj? || doc.Ref?
    requires forall i, j :: 0 <= i < j < |bs| ==> bs[i] != bs[j]
    ensures Merge(env, known, doc, bs).result.Ok?
    ensures var flat := Merge(env, known, doc, bs).result.value;
      && (flat.Obj? || flat.Ref?)
      && forall b :: b in bs ==> Attached(env, known.Get(b), b.Name(), doc, flat)
    decreases |bs|
  {
    MergeSucceeds(env, known, doc, bs);
    if bs != [] {
      var n := |bs| - 1;
      var init, b := bs[..n], bs[n];
      MergeAttaches(env, known, doc, init);
      MergeKeeps(env, known, doc, init);
      var prev := Merge(env, known, doc, init);
      Round(env, known, b, prev);
      NamesOfDistinct(bs);
      AttachStep(env, known, doc, prev.result.value, Merge(env, known, doc, bs).result.value, bs);
    }
  }

  /** The attachments after the rounds for `bs` from those after all rounds but the last. */
  lemma AttachStep(env: Env, known: Mappings, doc: Node, mid: Node, flat: Node, bs: seq<Bucket>)
    requires (doc.Obj? || doc.Ref?) && (mid.Obj? || mid.Ref?) && (flat.Obj? || flat.Ref?)
    requires bs != [] && bs[|bs| - 1].Name() !in NamesOf(bs[..|bs| - 1])
    requires forall b :: b in bs[..|bs| - 1] ==> Attached(env, known.Get(b), b.Name(), doc, mid)
    requires Keeps(doc, mid, NamesOf(bs[..|bs| - 1]))
    requires Attached(env, known.Get(bs[|bs| - 1]), bs[|bs| - 1].Name(), mid, flat)
    requires Keeps(mid, flat, {bs[|bs| - 1].Name()})
    ensures forall b :: b in bs ==> Attached(env, known.Get(b), b.Name(), doc, flat)
  {
    var n := |bs| - 1;
    var init, last := bs[..n], bs[n];
    forall b | b in bs ensures Attached(env, known.Get(b), b.Name(), doc, flat) {
      if b == last {
        AttachedRebased(env, known.Get(b), b.Name(), doc, mid, flat, NamesOf(init));
      } else {
        assert b in init;
        AttachedKept(env, known.Get(b), b.Name(), doc, mid, flat, {last.Name()});
      }
    }
  }

  /** On settled tables, the merge of parameters, responses and definitions into a dict (or
      a reference) cannot fail, and warns with those buckets' clash warnings in that order. */
  lemma MergeSettled(env: Env, known: Mappings, doc: Node)
    requires Settled(env, Empty, known) && Valid(known)
    requires doc.Obj? || doc.Ref?
    ensures var r := Merge(env, known, doc, Buckets);
      && r.warnings
        == ClashesIn(env, known.parameters) + ClashesIn(env, known.responses) + ClashesIn(env, known.definitions)
      && r.result.Ok? && r.result.value.Obj? == doc.Obj? && r.result.value.Ref? == doc.Ref?
  {
    MergeSucceeds(env, known, doc, Buckets);
    ClashesOfBuckets(env, known);
  }

  /** On settled tables, the merge into a dict attaches each non-empty bucket under its name. */
  lemma MergeSettledAttaches(env: Env, known: Mappings, doc: Node)
    requires Settled(env, Empty, known) && Valid(known)
    requires doc.Obj? || doc.Ref?
    ensures Merge(env, known, doc, Buckets).result.Ok?
    ensures var flat := Merge(env, known, doc, Buckets).result.value;
      && (flat.Obj? || flat.Ref?)
      && forall b: Bucket :: Attached(env, known.Get(b), b.Name(), doc, flat)
  {
    BucketsDistinct();
    MergeAttaches(env, known, doc, Buckets);
  }

  /** On settled tables, the merge into a dict leaves every key but the buckets' names as it was. */
  lemma MergeSettledKeeps(env: Env, known: Mappings, doc: Node)
    requires Settled(env, Empty, known) && Valid(known)
    requires doc.Obj? || doc.Ref?
    ensures Merge(env, known, doc, Buckets).result.Ok?
    ensures var flat := Merge(env, known, doc, Buckets).result.value;
      (flat.Obj? || flat.Ref?) && Keeps(doc, flat, {"parameters", "responses", "definitions"})
  {
    MergeKeeps(env, known, doc, Buckets);
    NamesOfBuckets();
  }

  /** No pointer dangles: on settled tables, the pointer to any filed location names a key of
      the object the merge puts under that bucket's name. */
  lemma PointersResolve(env: Env, known: Mappings, doc: Node, b: Bucket, loc: Uri)
    requires Settled(env, Empty, known) && Valid(known)
    requires doc.Obj? || doc.Ref?
    requires loc in Keys(known.Get(b))
    ensures Merge(env, known, doc, Buckets).result.Ok? && Pointed(env, b, loc).Ok?
    ensures var flat := Merge(env, known, doc, Buckets).result.value;
      var key := env.marshal(loc).value;
      var obj := BucketObject(env.marshal, known.Get(b));
      && Pointed(env, b, loc).value == Ref(Pointer(b, key), [])
      && (flat.Obj? || flat.Ref?)
      && obj.Ok? && Lookup(Items(flat), b.Name()) == Some(Obj(obj.value))
      && key in Keys(obj.value)
  {
    var table := known.Get(b);
    MergeSettledAttaches(env, known, doc);
    ByTable(env, Empty, known);
    assert Empty.Get(b) == [];
    SettledTable(env, table);
    var i :| 0 <= i < |Keys(table)| && Keys(table)[i] == loc;
    assert env.marshal(Keys(table)[i]).Ok?;
    BucketKeys(env.marshal, table);
    assert Marshals(Keys(table), env.marshal, env.marshal(loc).value);
  }

  /** `flat` holds, under the name of bucket `b`, a dict with the key `k`. */
  ghost predicate HoldsKey(flat: Node, b: Bucket, k: string) {
    && (flat.Obj? || flat.Ref?)
    && var held := Lookup(Items(flat), b.Name());
       held.Some? && held.value.Obj? && k in Keys(held.value.fields)
  }

  /** The pointers that lead to an entry of the flattened document `flat`. */
  ghost function Landing(flat: Node): iset<string> {
    iset b: Bucket, k | HoldsKey(flat, b, k) :: Pointer(b, k)
  }

  /** On settled tables, every pointer to a filed location leads to an entry of the merge. */
  lemma TargetsLand(env: Env, known: Mappings, doc: Node)
    requires Settled(env, Empty, known) && Valid(known)
    requires doc.Obj? || doc.Ref?
    ensures Merge(env, known, doc, Buckets).result.Ok?
    ensures Targets(env, known) <= Landing(Merge(env, known, doc, Buckets).result.value)
  {
    MergeSettledAttaches(env, known, doc);
    var flat := Merge(env, known, doc, Buckets).result.value;
    forall t | t in Targets(env, known) ensures t in Landing(flat) {
      var b: Bucket, loc :| loc in Keys(known.Get(b)) && env.marshal(loc).Ok? && t == Pointer(b, env.marshal(loc).value);
      PointersResolve(env, known, doc, b, loc);
      assert HoldsKey(flat, b, env.marshal(loc).value);
    }
  }

  /** A bucket built from entries whose values refer only to `targets` refers only to them. */
  lemma {:induction false} BucketRefsIn(marshal: Uri -> Result<string>, table: Table, targets: iset<string>)
    requires ValuesIn(table, targets)
    ensures BucketObject(marshal, table).Ok? ==> FieldRefsIn(BucketObject(marshal, table).value, targets)
    decreases |table|
  {
    if table != [] && BucketObject(marshal, table).Ok? {
      var n := |table| - 1;
      assert ValuesIn(table[..n], targets) by {
        assert forall i :: 0 <= i < n ==> table[..n][i] == table[i];
      }
      BucketRefsIn(marshal, table[..n], targets);
      assert RefsIn(EntryValue(table[n].1), targets);
      FieldRefsPut(BucketObject(marshal, table[..n]).value, marshal(table[n].0).value, EntryValue(table[n].1), targets);
    }
  }

  /** `update` with a value that refers only to `targets` keeps a dict's references there. */
  lemma AttachRefsIn(doc: Node, name: string, obj: Node, targets: iset<string>)
    requires (doc.Obj? || doc.Ref?) && RefsIn(doc, targets) && RefsIn(obj, targets)
    ensures RefsIn(Attach(doc, name, obj).value, targets)
  {
    FieldRefsPut(Items(doc), name, obj, targets);
  }

  /** The merge of dicts and buckets that refer only to `targets` refers only to them. */
  lemma {:induction false} MergeRefsIn(env: Env, known: Mappings, doc: Node, bs: seq<Bucket>, targets: iset<string>)
    requires Settled(env, Empty, known) && Valid(known)
    requires doc.Obj? || doc.Ref?
    requires RefsIn(doc, targets)
    requires ValuesIn(known.parameters, targets) && ValuesIn(known.responses, targets) && ValuesIn(known.definitions, targets)
    ensures Merge(env, known, doc, bs).result.Ok?
    ensures RefsIn(Merge(env, known, doc, bs).result.value, targets)
    decreases |bs|
  {
    MergeSucceeds(env, known, doc, bs);
    if bs != [] {
      var n := |bs| - 1;
      var init, b := bs[..n], bs[n];
      MergeRefsIn(env, known, doc, init, targets);
      MergeSucceeds(env, known, doc, init);
      var prev := Merge(env, known, doc, init);
      var table := known.Get(b);
      Round(env, known, b, prev);
      assert ValuesIn(table, targets) by {
        assert table in [known.parameters, known.responses, known.definitions];
      }
      if table != [] {
        var obj := BucketObject(env.marshal, table).value;
        BucketRefsIn(env.marshal, table, targets);
        AttachRefsIn(prev.result.value, b.Name(), Obj(obj), targets);
        assert Merge(env, known, doc, bs).result == Attach(prev.result.value, b.Name(), Obj(obj));
      }
    }
  }

  /** No pointer dangles: after a successful run on a dict, every `$ref` anywhere in the
      flattened document, in the walked spec and in the attached buckets alike, is the
      pointer to a key of a bucket attached to it. */
  lemma NoPointerDangles(env: Env, spec: Node, notes: seq<Warning>, fuel: nat)
    requires spec.Obj? || spec.Ref?
    requires Descend(env, spec, None, Empty, fuel).result.Ok?
    ensures Run(env, spec, notes, fuel).result.Ok?
    ensures var flat := Run(env, spec, notes, fuel).result.value;
      RefsIn(flat, Landing(flat))
  {
    var walk := Descend(env, spec, None, Empty, fuel);
    var known, doc := walk.known, walk.result.value;
    WalkMerged(env, spec, notes, fuel);
    assert Closed(env, Empty);
    TargetsLand(env, known, doc);
    var flat := Merge(env, known, doc, Buckets).result.value;
    var here, there := Targets(env, known), Landing(flat);
    RefsWeaken(doc, here, there);
    ValuesWeaken(known.parameters, here, there);
    ValuesWeaken(known.responses, here, there);
    ValuesWeaken(known.definitions, here, there);
    MergeRefsIn(env, known, doc, Buckets, there);
  }

  /** After a successful walk of a dict (or a reference) the merge cannot fail, and the run's
      warnings are those already emitted followed by the merge's. */
  lemma WalkMerged(env: Env, spec: Node, notes: seq<Warning>, fuel: nat)
    requires spec.Obj? || spec.Ref?
    requires Descend(env, spec, None, Empty, fuel).result.Ok?
    ensures var walk := Descend(env, spec, None, Empty, fuel);
      var merged := Merge(env, walk.known, walk.result.value, Buckets);
      && (walk.result.value.Obj? || walk.result.value.Ref?)
      && Settled(env, Empty, walk.known) && Valid(walk.known)
      && Run(env, spec, notes, fuel) == Report(notes + merged.warnings, merged.result)
  {
    assert Valid(Empty);
  }

  /** After a successful walk of a list or a scalar, the run succeeds, with the walked value,
      exactly when nothing was filed; otherwise attaching the first non-empty bucket fails. */
  lemma WalkOfValue(env: Env, spec: Node, notes: seq<Warning>, fuel: nat)
    requires !spec.Obj? && !spec.Ref?
    requires Descend(env, spec, None, Empty, fuel).result.Ok?
    ensures var walk := Descend(env, spec, None, Empty, fuel);
      var r := Run(env, spec, notes, fuel);
      && (r.result.Ok? <==> walk.known == Empty)
      && (r.result.Ok? ==> r.result.value == walk.result.value)
      && (r.result.Err? ==> r.result.error == NotAMapping)
  {
    var walk := Descend(env, spec, None, Empty, fuel);
    var known := walk.known;
    var doc := walk.result.value;
    assert Valid(Empty);
    MergeUnrolled(env, known, doc);
    var r0 := Report([], Ok(doc));
    MergeBucketOnValue(env, Parameters, known.parameters, doc);
    var r1 := Next(env, known, Parameters, r0);
    if r1.result.Ok? {
      MergeBucketOnValue(env, Responses, known.responses, doc);
      var r2 := Next(env, known, Responses, r1);
      if r2.result.Ok? {
        MergeBucketOnValue(env, Definitions, known.definitions, doc);
      }
    }
  }
}
