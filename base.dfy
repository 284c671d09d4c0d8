/** Values shared by every part of the flattening model: the failures that abort a
    run, the warnings it emits, and the Option/Result wrappers that carry them. */
module Base {

  datatype Option<+T> = None | Some(value: T)

  /** The ways a flattening run can fail. Each one aborts the whole run. */
  datatype Error =
    | InvalidTarget(uri: string)   // the marshaler refuses a location (ValueError)
    | NoPath                       // `os.path.relpath` was given an empty path (ValueError)
    | Configuration                // neither a resolver nor a spec URL was given (ValueError)
    | Unresolvable(ref: string)    // the resolver could not dereference a `$ref`
    | NotAMapping                  // a value that is not a dict was used as one (TypeError, AttributeError)
    | OutOfFuel                    // the model's recursion bound was reached (the source recurses forever)

  datatype Result<+T> = Ok(value: T) | Err(error: Error)

  /** The non-fatal warnings a run emits, in emission order. */
  datatype Warning =
    | MissingOrigin        // no spec URL: internal paths are not hidden
    | MissingDefinitions   // no known definitions: unreferenced models are lost
    | Clash(uris: seq<string>, marshaled: string)
  {
    function Message(): string {
      match this
      case MissingOrigin =>
        "It is recommended to set origin_url to your spec before flattering it. "
        + "Doing so internal paths will be hidden, reducing the amount of exposed information."
      case MissingDefinitions =>
        "Un-referenced models cannot be un-flattened if spec_definitions is not present"
      case Clash(uris, marshaled) => Join(uris, ", ") + " clashed to " + marshaled
    }
  }

  /** `sep.join(parts)`. */
  function Join(parts: seq<string>, sep: string): string {
    if parts == [] then ""
    else if |parts| == 1 then parts[0]
    else parts[0] + sep + Join(parts[1..], sep)
  }

  /** `part in s`, for strings. */
  ghost predicate Occurs(part: string, s: string) {
    exists p :: 0 <= p <= |s| && part <= s[p..]
  }

  lemma OccursAt(part: string, s: string, p: nat)
    requires p + |part| <= |s| && s[p..p + |part|] == part
    ensures Occurs(part, s)
  {
    assert part <= s[p..];
  }

  /** Text found in `s` is found in `pre + s + post`. */
  lemma OccursInside(part: string, pre: string, s: string, post: string)
    requires Occurs(part, s)
    ensures Occurs(part, pre + s + post)
  {
    var p :| 0 <= p <= |s| && part <= s[p..];
    var whole := pre + s + post;
    assert whole[|pre| + p..|pre| + p + |part|] == s[p..p + |part|];
    OccursAt(part, whole, |pre| + p);
  }

  /** Every part is found in the joined string. */
  lemma {:induction false} JoinShows(parts: seq<string>, sep: string, i: nat)
    requires i < |parts|
    ensures Occurs(parts[i], Join(parts, sep))
    decreases |parts|
  {
    if |parts| == 1 {
      assert Join(parts, sep)[0..|parts[0]|] == parts[0];
      OccursAt(parts[0], Join(parts, sep), 0);
    } else if i == 0 {
      var whole := Join(parts, sep);
      assert whole == parts[0] + (sep + Join(parts[1..], sep));
      assert whole[0..|parts[0]|] == parts[0];
      OccursAt(parts[0], whole, 0);
    } else {
      JoinShows(parts[1..], sep, i - 1);
      OccursInside(parts[i], parts[0] + sep, Join(parts[1..], sep), "");
      assert parts[0] + sep + Join(parts[1..], sep) + "" == Join(parts, sep);
    }
  }

  /** A clash warning's text names every clashing location and the key they share. */
  lemma ClashMessageNames(w: Warning)
    requires w.Clash?
    ensures forall i :: 0 <= i < |w.uris| ==> Occurs(w.uris[i], w.Message())
    ensures Occurs(w.marshaled, w.Message())
  {
    forall i | 0 <= i < |w.uris| ensures Occurs(w.uris[i], w.Message()) {
      ClashMessageNamesUri(w, i);
    }
    ClashMessageNamesKey(w);
  }

  /** The clash text names its `i`-th location. */
  lemma ClashMessageNamesUri(w: Warning, i: int)
    requires w.Clash? && 0 <= i < |w.uris|
    ensures Occurs(w.uris[i], w.Message())
  {
    var joined := Join(w.uris, ", ");
    JoinShows(w.uris, ", ", i);
    OccursInside(w.uris[i], "", joined, " clashed to " + w.marshaled);
    assert "" + joined + (" clashed to " + w.marshaled) == w.Message();
  }

  /** The clash text names the key the locations share. */
  lemma ClashMessageNamesKey(w: Warning)
    requires w.Clash?
    ensures Occurs(w.marshaled, w.Message())
  {
    var joined := Join(w.uris, ", ");
    assert w.marshaled[0..|w.marshaled|] == w.marshaled;
    OccursAt(w.marshaled, w.marshaled, 0);
    OccursInside(w.marshaled, joined + " clashed to ", w.marshaled, "");
    assert joined + " clashed to " + w.marshaled + "" == w.Message();
  }
}
