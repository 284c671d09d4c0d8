# Flattening of Swagger specs (bravado-core `spec_flattening`)

This project models bravado-core's spec flattener in Dafny and proves properties of the model.
The flattener takes a Swagger 2.0 document whose `$ref`s may point into other files and
returns one self-contained document:

- every referenced path item is inlined where it is referenced;
- every other referenced object is filed once under `#/parameters`, `#/responses` or
  `#/definitions`, and each of its references becomes a pointer to that entry;
- an entry's key is its location *marshaled* into a string without `/` or `#`.

The model has these parts:

- `Marshaling`: `_marshal_uri` and its replacement table. A location is serialized; a
  missing scheme is taken as `file`; a `file` location seen from the spec's own URL
  becomes `lfile:` plus the path relative to the spec's directory; then `/` becomes `..`
  and `#` becomes `|`.
- `Clash`: `_warn_if_uri_clash_on_same_marshaled_representation`. Locations are
  grouped by key, and each shared key gives one warning listing its locations sorted.
- `Classify`: `_determine_object_type` and `_TYPE_PROPERTY_HOLDER_MAPPING`, the
  guess from an object's keys and the bucket each kind is filed under.
- `Descent`: the inner `descend`. It is written as functions that pass the three memo
  tables (`known_mappings`) along, with the invariants the walk keeps.
- `Walking`: the same walk as the source runs it. A `Flattener` object holds the tables,
  and the dict and list comprehensions are loops. Each method is proved equal to its
  `Descent` function.
- `Flattening`: `flattened_spec` itself: the configuration warnings, the walk, and the
  merge loop that checks each bucket for clashes and attaches the non-empty buckets.
- `Base`, `Json`, `OrderedDict`, `Text`, `Uris`: errors and warnings, JSON trees, Python
  dicts in insertion order, `str.replace`, `sorted`, `urlunparse` and `os.path.dirname`.

Exceptions the source raises become `Err` values: `ValueError` for a bad target, for an empty
local path handed to `os.path.relpath`, or for a missing resolver; a failed dereference; and the `TypeError`/`AttributeError` when a value that is not a
dict is used as one. Warnings are returned, in emission order, next to the result.

A local definition `#/definitions/Pet` of the spec at `file:///specs/a.json` gets the key
`lfile:a.json|..definitions..Pet`: the `lfile` scheme is kept, takes no `//`, and the
fragment's `/` are escaped as well.
`Marshaling.MarshalMasksLocalFiles` and `Marshaling.PatternsKeepPrefix` state the parts of
this. Also, when the root already has a `definitions` key, `update` replaces it with the
bucket (`Flattening.Attach`, `Flattening.MergeSettledAttaches`).

## Model

| member | source | states |
|---|---|---|
| Marshaling.MarshalUri | bravado_core/spec_flattening.py:75-98 | the marshaler's steps (scheme default, validity check, `lfile` masking with the `ValueError` of `os.path.relpath` on an empty path, the replacement loop over the table) compute `Marshal` |
| Marshaling.PatternsInOrder | bravado_core/spec_flattening.py:96-97 | applying the table is `/`→`..` followed by `#`→`\|` |
| Marshaling.PatternsSafe | bravado_core/spec_flattening.py:24-27 | after the replacements no `/` and no `#` is left |
| Marshaling.MarshalSafe | bravado_core/spec_flattening.py:30-98 | a successful marshal never contains `/` or `#`, with or without an origin |
| Marshaling.MarshalFails | bravado_core/spec_flattening.py:77-93 | marshaling fails exactly for the all-empty location, for an effective scheme outside `file`, `http`, `https`, and for a `file` location with an empty path when the origin is known (the `relpath` error, and only then) |
| Marshaling.MarshalMasksLocalFiles | bravado_core/spec_flattening.py:86-94 | with an origin, a `file` target with a path is serialized with scheme `lfile` and its path relative to the origin's directory, and the key starts with `lfile:` |
| Marshaling.PatternsKeepPrefix | bravado_core/spec_flattening.py:96-97 | a prefix without `/` and `#` (such as `lfile:`) passes through the replacements unchanged |
| Marshaling.MarshalKeepsWebTargets | bravado_core/spec_flattening.py:81-97 | `http` and `https` targets are only escaped, whatever the origin |
| Marshaling.MarshalWithoutOrigin | bravado_core/spec_flattening.py:77-97 | without an origin a valid target is escaped after the `file` default, never masked |
| Marshaling.SlashCollidesWithDots | bravado_core/spec_flattening.py:25 | a `/` and a `..` at the same place give the same key |
| Marshaling.NotInjective | bravado_core/spec_flattening.py:195-197 | two different `http` locations get the same key, so the clash warning is reachable |
| Uris.UnparseEmpty | bravado_core/spec_flattening.py:75-81 | the serialization is empty exactly for the all-empty tuple |
| Uris.DirnameOfFile | bravado_core/spec_flattening.py:91 | the directory of `d/f` is `d`, for a file name `f` and a directory `d` without trailing `/` |
| Uris.DirnameExample | bravado_core/spec_flattening.py:91 | the directory of `/specs/a.json` is `/specs` |
| Text.Sort | bravado_core/spec_flattening.py:121 | the warning's locations are sorted and are a permutation of the input |
| Base.ClashMessageNames | bravado_core/spec_flattening.py:119-123 | a clash warning's text contains every one of its locations and the key they share |
| Clash.WarnIfUriClash | bravado_core/spec_flattening.py:111-125 | the grouping loop and the warning loop compute `ClashWarnings` |
| Clash.GroupComputes | bravado_core/spec_flattening.py:111-113 | for distinct locations that all marshal, the groups have distinct keys, a key is present iff some location marshals to it, and each group holds exactly those locations, in order |
| Clash.ClashReport | bravado_core/spec_flattening.py:101-125 | no warning iff no two locations share a key; each warning lists exactly the locations of its key, sorted; a key gets a warning iff two locations share it; no key gets two warnings |
| Clash.ClashFails | bravado_core/spec_flattening.py:112-113 | the check fails iff marshaling one of the locations fails |
| Clash.MembersOfCount | bravado_core/spec_flattening.py:118 | a key's group has at least one location iff some location marshals to it, and more than one iff two share it |
| Classify.DetermineObjectType | bravado_core/spec_flattening.py:136-181 | Parameter iff `in` and `name`; else PathItem iff an operation and only `parameters` besides operations and `x-` keys; `None` iff an operation next to another key; else Response iff `description` and only response fields; else Schema |
| Classify.OperationTest | bravado_core/spec_flattening.py:158-159 | the intersection test is "some non-`x-` key is an HTTP operation" |
| Classify.PathItemTest | bravado_core/spec_flattening.py:160-161 | the remaining-keys test is "nothing but `parameters` besides operations and `x-` keys" |
| Classify.ClassifyValue | bravado_core/spec_flattening.py:151-158 | Python `in` lets a string or a list holding `in` and `name` pass as a parameter; any other non-dict fails; a dict (or a `$ref` dict, which has `$ref`) is classified by its keys; a path item is always a dict |
| Classify.BucketsDistinct | bravado_core/spec_flattening.py:129-133 | three buckets, with distinct names |
| Classify.BucketFor | bravado_core/spec_flattening.py:274 | Parameters iff a parameter, Responses iff a response, Definitions otherwise (schemas and the `None` type) |
| Classify.ParameterWins | bravado_core/spec_flattening.py:151-153 | `in` and `name` give Parameter even next to operations |
| Classify.ExtensionsIgnored | bravado_core/spec_flattening.py:158 | adding `x-` keys never changes the type |
| Classify.OperationWithSummary | bravado_core/spec_flattening.py:159-162 | `{get, summary}` gets no type and is filed under `definitions` |
| Descent.Place | bravado_core/spec_flattening.py:280 | the placeholder for an absent location is appended, and no table loses distinct keys |
| Descent.Fill | bravado_core/spec_flattening.py:282 | overwriting the placeholder changes only that entry, which now holds a value at the placeholder's position |
| Descent.Descend | bravado_core/spec_flattening.py:264-299 | tables only grow at the end and keep distinct keys; on success every added entry holds a value and marshals, and the result keeps the value's shape at every depth (a dict the same keys in order with each value walked, a list each item walked, a scalar unchanged, a reference an inlined object or a bare pointer); every reference in the result is the pointer to a location filed in the final tables, and when the filed values refer only to filed locations they still do afterwards |
| Descent.DescendFields | bravado_core/spec_flattening.py:286-290 | the walked dict has the same keys in the same order, with each value the walk of the original one |
| Descent.DescendItems | bravado_core/spec_flattening.py:292-296 | the walked list has the same length, with each item the walk of the original one |
| Descent.FieldsShapedAt | bravado_core/spec_flattening.py:286-290 | a walked dict is, index by index, the same key with the walked value |
| Descent.ItemsShapedAt | bravado_core/spec_flattening.py:292-296 | a walked list is, index by index, the walked item |
| Descent.RefsWeaken | bravado_core/spec_flattening.py:283 | a value whose references all lie in a set of pointers has them in any larger set |
| Descent.TargetsGrow | bravado_core/spec_flattening.py:279-281 | the pointers to filed locations only grow as the tables grow |
| Descent.PlaceClosed | bravado_core/spec_flattening.py:279 | storing a placeholder keeps every filed value referring only to filed locations |
| Descent.FillClosed | bravado_core/spec_flattening.py:281 | overwriting a placeholder keeps the set of pointers, and keeps the filed values closed when the new value refers only to filed locations |
| Descent.RefFreeKept | bravado_core/spec_flattening.py:286-299 | a value without references comes out of the walk unchanged: nothing is lost |
| Descent.DescendRef | bravado_core/spec_flattening.py:265-284 | a followed reference becomes a dict (an inlined path item) or a bare pointer, with the table invariants kept |
| Descent.KnownLocationShortCuts | bravado_core/spec_flattening.py:276-284 | a location already in its bucket gives the pointer at once, tables unchanged |
| Descent.RepeatIsMemoized | bravado_core/spec_flattening.py:276-284 | following a filed reference again gives the identical pointer and changes nothing |
| Descent.PathItemInlined | bravado_core/spec_flattening.py:271-272 | a path item is replaced by its own walk in the scope of its location, nothing filed |
| Descent.NewLocationFiled | bravado_core/spec_flattening.py:277-284 | a new location is stored as a placeholder before its value is walked, then overwritten with the walked value, and the pointer is returned |
| Descent.SchemaCycleStops | bravado_core/spec_flattening.py:278-282 | a schema referring to itself is filed once and its inner reference is the pointer to that entry |
| Descent.FuelMonotone | bravado_core/spec_flattening.py:264-299 | a walk that does not run out of fuel gives the identical result and tables with any larger fuel, so its outcome is that of the unbounded recursion |
| Descent.RefFuelMonotone | bravado_core/spec_flattening.py:265-283 | the same for following one reference |
| Descent.NewLocationWalked | bravado_core/spec_flattening.py:276-283 | following a reference to a new location walks its value with the placeholder stored and files the walked value, or passes on the walk's error |
| Descent.PathItemCycleDiverges | bravado_core/spec_flattening.py:271-272 | a path item referring to itself is never filed, so the walk runs out of any amount of fuel |
| Walking.Flattener.constructor | bravado_core/spec_flattening.py:250-253 | the tables start empty |
| Walking.Flattener.Descend | bravado_core/spec_flattening.py:264-299 | the method leaves the tables and returns the result `Descent.Descend` gives |
| Walking.Flattener.DescendFields | bravado_core/spec_flattening.py:286-290 | the comprehension's loop gives `Descent.DescendFields` |
| Walking.Flattener.DescendItems | bravado_core/spec_flattening.py:292-296 | the comprehension's loop gives `Descent.DescendItems` |
| Walking.Flattener.DescendRef | bravado_core/spec_flattening.py:265-284 | the reference branch, updating the tables in place, gives `Descent.DescendRef` |
| Flattening.BucketObject | bravado_core/spec_flattening.py:337-340 | the bucket object has distinct keys |
| Flattening.BucketOk | bravado_core/spec_flattening.py:337-340 | the bucket object exists iff every location marshals |
| Flattening.BucketKeys | bravado_core/spec_flattening.py:337-340 | the bucket object's keys are exactly the keys the locations marshal to |
| Flattening.BucketObjectInjective | bravado_core/spec_flattening.py:337-340 | without clashes the bucket has one item per location, in order, holding that location's value |
| Flattening.DefaultKeysSafe | bravado_core/spec_flattening.py:186 | with the default marshaler no bucket key contains `/` or `#` |
| Flattening.MarshaledBucket | bravado_core/spec_flattening.py:337-340 | the dict comprehension's loop computes `BucketObject` |
| Flattening.Attach | bravado_core/spec_flattening.py:337 | `update` succeeds iff the document is a dict; afterwards the name holds the bucket, every other key is unchanged, and the name is appended only when absent |
| Flattening.MergeOnlyClashes | bravado_core/spec_flattening.py:331-340 | the merge adds only clash warnings |
| Flattening.MergeBucketSettled | bravado_core/spec_flattening.py:331-340 | on a settled table a round into a dict never fails, warns as the clash check does, and attaches the bucket iff it is not empty |
| Flattening.MergeBucketOnValue | bravado_core/spec_flattening.py:336-337 | into a list or a scalar a round passes through iff the bucket is empty, else fails with the missing `update` |
| Flattening.MergeUnrolled | bravado_core/spec_flattening.py:331 | the merge visits parameters, responses, definitions in that order |
| Flattening.Round | bravado_core/spec_flattening.py:331-340 | one round after successful rounds, on settled tables: warnings appended, bucket attached, other keys kept |
| Flattening.MergeSucceeds | bravado_core/spec_flattening.py:331-340 | on settled tables the merge of any buckets into a dict cannot fail, keeps it a dict, and warns with each bucket's clash warnings in turn |
| Flattening.MergeKeeps | bravado_core/spec_flattening.py:331-340 | on settled tables the merge of any buckets into a dict leaves every key outside the buckets' names with its value |
| Flattening.MergeAttaches | bravado_core/spec_flattening.py:331-340 | on settled tables the merge of distinct buckets into a dict attaches each non-empty bucket under its name; an empty one leaves that key as it was |
| Flattening.MergeSettled | bravado_core/spec_flattening.py:331-342 | after a settled walk of a dict the merge cannot fail, and its warnings are the clash warnings of parameters, responses and definitions, in that order |
| Flattening.MergeSettledAttaches | bravado_core/spec_flattening.py:331-340 | after a settled walk of a dict, each of the three buckets, when not empty, is attached under its name (replacing a key already there) |
| Flattening.PointersResolve | bravado_core/spec_flattening.py:331-340 | on settled tables the pointer to a filed location (built at line 284) names a key of the bucket object the merge attaches under the bucket's name |
| Flattening.TargetsLand | bravado_core/spec_flattening.py:283 | on settled tables every pointer to a filed location leads to a key of a bucket attached by the merge |
| Flattening.MergeRefsIn | bravado_core/spec_flattening.py:331-340 | merging buckets whose values refer only to given pointers into a dict that does too gives a dict that does too |
| Flattening.NoPointerDangles | bravado_core/spec_flattening.py:263-342 | after a successful walk of a dict the run succeeds, and every reference anywhere in the flattened document, nested ones included, is a pointer to an entry of one of its attached buckets: no pointer dangles |
| Flattening.MergeSettledKeeps | bravado_core/spec_flattening.py:331-340 | after a settled walk of a dict, every key other than `parameters`, `responses`, `definitions` keeps its value |
| Flattening.MergeBuckets | bravado_core/spec_flattening.py:331-342 | the merge loop computes `Merge` |
| Flattening.RunWarnings | bravado_core/spec_flattening.py:301-342 | the warnings emitted before the walk come first, and the rest are clash warnings |
| Flattening.WalkMerged | bravado_core/spec_flattening.py:301-342 | a successful walk of a dict is settled, keeps distinct keys, and yields a dict (or a pointer) the merge works on |
| Flattening.WalkOfValue | bravado_core/spec_flattening.py:301-342 | after a walk of a list or a scalar the run succeeds iff nothing was filed, with the walked value; otherwise it fails on the missing `update` |
| Flattening.FlattenedWarnings | bravado_core/spec_flattening.py:224-248 | the origin warning iff no spec URL, and emitted first; the definitions warning iff none were given and a resolver is available; without a resolver or a non-empty URL the run fails with the configuration error after at most one warning |
| Flattening.FlattenedSpec | bravado_core/spec_flattening.py:184-342 | the method computes `Flattened` |
| Flattening.WalkAndMerge | bravado_core/spec_flattening.py:301-342 | the walk on the `Flattener` object followed by the merge loop computes `Run` |

## Left out

- The resolver. `RefResolver`, the handlers that fetch remote documents, and their I/O are
  a parameter `resolve(ref, scope)` that returns the location and the document, or nothing.
  The resolver built from the spec URL when none is given is a parameter too,
  `defaultResolver(url, spec)`.
- `in_scope`: it replaces the resolver's scope with the referenced location. It is modelled
  as a scope argument: none at the root, the location's URL inside a followed reference.
- `urlparse` and `os.path.relpath` are parameters, because they depend on library parsing
  rules and on the working directory. The one case of `os.path.relpath` that depends on
  neither, the `ValueError` for an empty path, is modelled in `Marshaling.Marshal`. `urlunparse` and `os.path.dirname` are modelled
  concretely (`Uris.Unparse`, `Uris.Dirname`).
- Descent.Descend: the recursion is bounded by a fuel count of followed references. Where
  the source recurses forever (a path item that refers to itself), the model returns
  `OutOfFuel` instead of `RecursionError`. `OutOfFuel` is also returned when the fuel given is too
  small for a walk that does end. `Descent.FuelMonotone` shows that any other outcome does not
  depend on the fuel. Termination is not claimed.
- The model-definitions backfill (lines 303-329). Passing `spec_definitions` only
  suppresses the warning. `Spec.from_dict` tagging `x-model` on the filed definitions and
  the re-walk of unreferenced models are not modelled.
- `warnings.warn` is modelled as the returned list of warnings. Python's warning filters
  (such as once-per-location) are not modelled.
- JSON numbers are integers. Floats are not modelled.
- A `$ref` whose value is not a string is not modelled. bravado_core/schema.py (`is_ref`,
  `is_dict_like`, `is_list_like`) is not part of this model. A dict with a `$ref` key is a
  reference, a tuple is not distinguished from a list, and a dict from a mapping.
- A `Json.Obj` with a `$ref` key or with two equal keys stands for no Python value (such a
  dict is a `Ref`, and a dict has each key once). Such values are outside the model: the
  lemmas do not exclude them, so what they state of them says nothing about the source.
- `copy.deepcopy` has no effect on values and is left out.
- The dict order of `known_mappings` is taken to be parameters, responses, definitions, the
  order of `_TYPE_PROPERTY_HOLDER_MAPPING`. This is what Python 3.7+ gives.
- `marshal_uri_function` is an arbitrary parameter. Properties that need the default one
  (`DefaultKeysSafe`, the `Marshaling` lemmas) say so.
- The full marshal of `file:///specs/a.json#/definitions/Pet` to
  `lfile:a.json|..definitions..Pet` is not proved as one literal equation. Its parts are
  proved by `MarshalMasksLocalFiles`, `PatternsKeepPrefix`, `PatternsInOrder` and
  `DirnameExample`.
