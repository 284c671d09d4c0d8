/** The best-guess classification of a dereferenced object by its keys, and the bucket
    of the flattened document (`#/parameters`, `#/responses`, `#/definitions`) each kind
    is filed under. */
module Classify {
  import opened Base
  import opened Json
  import opened OrderedDict
  import opened Text

  /** The four kinds of object a reference can point at. */
  datatype ObjectType = Schema | PathItem | Parameter | Response

  const HttpOperations: set<string> := {"get", "put", "post", "delete", "options", "head", "patch"}
  const ResponseAllowedKeys: set<string> := {"description", "schema", "headers", "examples"}

  /** A patterned `x-` key, which a path item may carry besides its operations. */
  predicate IsExtension(key: string) {
    |key| >= 2 && key[0] == 'x' && key[1] == '-'
  }

  function NonExtensionKeys(keys: set<string>): set<string> {
    set k | k in keys && !IsExtension(k)
  }

  // The four tests below restate the classification rules one by one, independently of
  // the order in which the classifier applies them.

  predicate LooksLikeParameter(keys: set<string>) {
    "in" in keys && "name" in keys
  }

  predicate HasOperation(keys: set<string>) {
    exists k :: k in keys && k in HttpOperations
  }

  /** Apart from `x-` keys and operations, at most a `parameters` key. */
  predicate OnlyPathItemFields(keys: set<string>) {
    forall k :: k in keys && !IsExtension(k) && k !in HttpOperations ==> k == "parameters"
  }

  /** Apart from `x-` keys, only the fields a response object may have. */
  predicate OnlyResponseFields(keys: set<string>) {
    forall k :: k in keys && !IsExtension(k) ==> k in ResponseAllowedKeys
  }

  /** The type of an object with key set `keys`. `None` is the source's implicit result for
      an object that has operations next to keys a path item cannot have. */
  function DetermineObjectType(keys: set<string>): (r: Option<ObjectType>)
    ensures r == Some(Parameter) <==> LooksLikeParameter(keys)
    ensures r == Some(PathItem) <==>
      !LooksLikeParameter(keys) && HasOperation(keys) && OnlyPathItemFields(keys)
    ensures r == None <==>
      !LooksLikeParameter(keys) && HasOperation(keys) && !OnlyPathItemFields(keys)
    ensures r == Some(Response) <==>
      !LooksLikeParameter(keys) && !HasOperation(keys) && "description" in keys && OnlyResponseFields(keys)
    ensures r == Some(Schema) <==>
      !LooksLikeParameter(keys) && !HasOperation(keys) && !("description" in keys && OnlyResponseFields(keys))
  {
    if "in" in keys && "name" in keys then Some(Parameter)
    else
      var objectKeys := NonExtensionKeys(keys);
      OperationsAreNotExtensions();
      OperationTest(keys);
      PathItemTest(keys);
      if objectKeys * HttpOperations != {} then
        var remaining := objectKeys - HttpOperations;
        if remaining == {} || remaining == {"parameters"} then Some(PathItem)
        else
          OtherElement(remaining, "parameters");
          None
      else if "description" in objectKeys && objectKeys - ResponseAllowedKeys == {} then Some(Response)
      else Some(Schema)
  }

  lemma OperationsAreNotExtensions()
    ensures forall k :: k in HttpOperations ==> !IsExtension(k)
    ensures !IsExtension("description")
  {
  }

  /** The source's intersection test is the operation test. */
  lemma OperationTest(keys: set<string>)
    ensures HasOperation(keys) <==> NonExtensionKeys(keys) * HttpOperations != {}
  {
    OperationsAreNotExtensions();
    if HasOperation(keys) {
      var k :| k in keys && k in HttpOperations;
      assert k in NonExtensionKeys(keys) * HttpOperations;
    }
  }

  /** The source's test on the keys left over besides the operations is the path item test. */
  lemma PathItemTest(keys: set<string>)
    ensures var remaining := NonExtensionKeys(keys) - HttpOperations;
      OnlyPathItemFields(keys) <==> remaining == {} || remaining == {"parameters"}
  {
    var remaining := NonExtensionKeys(keys) - HttpOperations;
    if OnlyPathItemFields(keys) {
      assert remaining <= {"parameters"};
      if remaining != {} {
        var y :| y in remaining;
        assert remaining == {"parameters"};
      }
    } else {
      var k :| k in keys && !IsExtension(k) && k !in HttpOperations && k != "parameters";
      assert k in remaining;
    }
  }

  /** A set that is neither empty nor `{x}` holds something other than `x`. */
  lemma OtherElement(s: set<string>, x: string)
    requires s != {} && s != {x}
    ensures exists k :: k in s && k != x
  {
    var y :| y in s;
    if y == x {
      assert {x} <= s;
      assert s - {x} != {};
    }
  }

  /** The set of keys of a dict. */
  function KeySet(fields: seq<(string, Node)>): (ks: set<string>)
    ensures forall k :: k in ks <==> k in Keys(fields)
  {
    set k | k in Keys(fields)
  }

  /** The keys the classifier sees on a dict: a reference dict has `$ref` and its siblings. */
  function DictKeys(v: Node): set<string>
    requires v.Obj? || v.Ref?
  {
    if v.Obj? then KeySet(v.fields) else {"$ref"} + KeySet(v.siblings)
  }

  /** Classifying any dereferenced value. The parameter test is Python's `in`, which also
      works on a string (substring) and on a list (element); every other test reads the
      value's keys, so beyond that test only a dict can be classified. */
  function ClassifyValue(v: Node): (r: Result<Option<ObjectType>>)
    ensures r.Ok? <==>
      v.Obj? || v.Ref?
      || (v.Str? && Contains(v.s, "in") && Contains(v.s, "name"))
      || (v.Arr? && Str("in") in v.items && Str("name") in v.items)
    ensures r.Err? ==> r.error == NotAMapping
    ensures (v.Obj? || v.Ref?) ==> r == Ok(DetermineObjectType(DictKeys(v)))
    ensures (v.Str? || v.Arr?) && r.Ok? ==> r == Ok(Some(Parameter))
    ensures r == Ok(Some(PathItem)) ==> v.Obj?
  {
    match v
    case Obj(_) => Ok(DetermineObjectType(DictKeys(v)))
    case Ref(_, _) =>
      var keys := DictKeys(v);
      assert "$ref" in keys && !IsExtension("$ref") && "$ref" !in HttpOperations;
      Ok(DetermineObjectType(keys))
    case Str(s) => if Contains(s, "in") && Contains(s, "name") then Ok(Some(Parameter)) else Err(NotAMapping)
    case Arr(items) =>
      if Str("in") in items && Str("name") in items then Ok(Some(Parameter)) else Err(NotAMapping)
    case _ => Err(NotAMapping)
  }

  /** Where the non-path-item kinds are collected in the flattened document. */
  datatype Bucket = Parameters | Responses | Definitions {
    function Name(): string {
      match this
      case Parameters => "parameters"
      case Responses => "responses"
      case Definitions => "definitions"
    }
  }

  /** The buckets in the order the flattener creates, fills and attaches them. */
  const Buckets: seq<Bucket> := [Parameters, Responses, Definitions]

  /** Each bucket is listed once, under its own name. */
  lemma BucketsDistinct()
    ensures |Buckets| == 3
    ensures forall b: Bucket :: b in Buckets
    ensures forall i, j :: 0 <= i < j < |Buckets| ==> Buckets[i].Name() != Buckets[j].Name()
  {
    forall b: Bucket ensures b in Buckets {
      assert b == Buckets[0] || b == Buckets[1] || b == Buckets[2];
    }
  }

  /** The holder of a type, defaulting to `definitions` for an unmapped type. */
  function BucketFor(t: Option<ObjectType>): (b: Bucket)
    ensures b == Parameters <==> t == Some(Parameter)
    ensures b == Responses <==> t == Some(Response)
    ensures b == Definitions <==> t !in {Some(Parameter), Some(Response)}
  {
    match t
    case Some(Parameter) => Parameters
    case Some(Response) => Responses
    case _ => Definitions
  }

  /** The parameter test wins over everything else, operations included. */
  lemma ParameterWins(keys: set<string>)
    requires "in" in keys && "name" in keys
    ensures DetermineObjectType(keys) == Some(Parameter)
    ensures DetermineObjectType(keys + HttpOperations) == Some(Parameter)
  {
  }

  /** Adding `x-` keys never changes the type a non-parameter object gets. */
  lemma {:induction false} ExtensionsIgnored(keys: set<string>, extra: set<string>)
    requires forall k :: k in extra ==> IsExtension(k)
    ensures DetermineObjectType(keys + extra) == DetermineObjectType(keys)
  {
    assert !IsExtension("in") && !IsExtension("name");
    assert NonExtensionKeys(keys + extra) == NonExtensionKeys(keys);
  }

  /** One operation plus a key a path item cannot have gives no type, and
      such an object is then filed under `definitions`. */
  lemma OperationWithSummary()
    ensures DetermineObjectType({"get", "summary"}) == None
    ensures BucketFor(DetermineObjectType({"get", "summary"})) == Definitions
  {
    assert !IsExtension("summary") && "summary" !in HttpOperations;
  }
}
