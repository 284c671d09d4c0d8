/** The URI marshaler: turns the location a reference resolves to into a string that is
    safe as a JSON object key (no `/`, no `#`), hiding local file paths behind the
    `lfile` scheme when the spec's own URL is known. */
module Marshaling {
  import opened Base
  import opened Uris
  import opened Text

  /** MARSHAL_REPLACEMENT_PATTERNS, in the order the marshaler applies them. */
  const ReplacementPatterns: seq<(string, string)> := [("/", ".."), ("#", "|")]

  const AllowedSchemes: set<string> := {"file", "http", "https"}

  /** Apply the replacements of `patterns` one after the other. */
  function ApplyPatterns(s: string, patterns: seq<(string, string)>): string
    requires forall i :: 0 <= i < |patterns| ==> patterns[i].0 != []
  {
    if patterns == [] then s
    else
      var last := patterns[|patterns| - 1];
      Replace(ApplyPatterns(s, patterns[..|patterns| - 1]), last.0, last.1)
  }

  /** A non-empty target without a scheme is taken to be a `file` URI. */
  function Defaulted(target: Uri): Uri {
    if Unparse(target) != "" && target.scheme == "" then target.(scheme := "file") else target
  }

  /** The scheme a non-empty target is checked against. */
  function EffectiveScheme(target: Uri): string {
    if target.scheme == "" then "file" else target.scheme
  }

  /** A `file` target seen from the spec at `origin`: the `lfile` scheme and a path relative
      to the spec's directory. `relpath` is `os.path.relpath` on a non-empty path; on an
      empty one `os.path.relpath` raises before it looks at anything else, and `Marshal`
      says so itself. */
  function Masked(target: Uri, origin: Uri, relpath: (string, string) -> string): Uri {
    target.(scheme := "lfile", path := relpath(target.path, Dirname(origin.path)))
  }

  /** `_marshal_uri(target, origin)`. */
  function Marshal(target: Uri, origin: Option<Uri>, relpath: (string, string) -> string): Result<string> {
    var t := Defaulted(target);
    if Unparse(t) == "" || t.scheme !in AllowedSchemes then Err(InvalidTarget(Unparse(t)))
    else if origin.Some? && t.scheme == "file" && t.path == "" then Err(NoPath)
    else
      var serialized := if origin.Some? && t.scheme == "file" then Unparse(Masked(t, origin.value, relpath)) else Unparse(t);
      Ok(ApplyPatterns(serialized, ReplacementPatterns))
  }

  /** `_marshal_uri` as the source runs it: the serialization is rewritten once per entry of
      the replacement table. */
  method MarshalUri(target: Uri, origin: Option<Uri>, relpath: (string, string) -> string) returns (r: Result<string>)
    ensures r == Marshal(target, origin, relpath)
  {
    var t := target;
    var marshalled := Unparse(t);
    if marshalled != "" && t.scheme == "" {
      t := t.(scheme := "file");
      marshalled := Unparse(t);
    }
    if marshalled == "" || t.scheme !in AllowedSchemes {
      return Err(InvalidTarget(Unparse(t)));
    }
    if origin.Some? && t.scheme == "file" {
      if t.path == "" {
        return Err(NoPath);
      }
      var specDir := Dirname(origin.value.path);
      marshalled := Unparse(Uri("lfile", t.netloc, relpath(t.path, specDir), t.params, t.query, t.fragment));
    }
    ghost var serialized := marshalled;
    var i := 0;
    while i < |ReplacementPatterns|
      invariant 0 <= i <= |ReplacementPatterns|
      invariant marshalled == ApplyPatterns(serialized, ReplacementPatterns[..i])
    {
      var (src, dst) := ReplacementPatterns[i];
      assert ReplacementPatterns[..i + 1][..i] == ReplacementPatterns[..i];
      marshalled := Replace(marshalled, src, dst);
      i := i + 1;
    }
    assert ReplacementPatterns[..i] == ReplacementPatterns;
    return Ok(marshalled);
  }

  /** The table rewrites `/` first and `#` second. */
  lemma PatternsInOrder(s: string)
    ensures ApplyPatterns(s, ReplacementPatterns) == Replace(Replace(s, "/", ".."), "#", "|")
  {
    var firstOnly := ReplacementPatterns[..1];
    assert firstOnly == [("/", "..")];
    assert firstOnly[..0] == [];
    assert ApplyPatterns(s, firstOnly) == Replace(ApplyPatterns(s, []), "/", "..");
  }

  /** The replacement table leaves neither `/` nor `#` in any string. */
  lemma PatternsSafe(s: string)
    ensures '/' !in ApplyPatterns(s, ReplacementPatterns)
    ensures '#' !in ApplyPatterns(s, ReplacementPatterns)
  {
    var first := Replace(s, "/", "..");
    PatternsInOrder(s);
    ReplaceRemoves(s, '/', "..");
    ReplaceKeepsAbsent(first, "#", "|", '/');
    ReplaceRemoves(first, '#', "|");
  }

  /** A marshaled key never contains `/` or `#`. */
  lemma MarshalSafe(target: Uri, origin: Option<Uri>, relpath: (string, string) -> string)
    ensures Marshal(target, origin, relpath).Ok? ==>
              '/' !in Marshal(target, origin, relpath).value && '#' !in Marshal(target, origin, relpath).value
  {
    var t := Defaulted(target);
    if Unparse(t) != "" && t.scheme in AllowedSchemes && !(origin.Some? && t.scheme == "file" && t.path == "") {
      var serialized := if origin.Some? && t.scheme == "file" then Unparse(Masked(t, origin.value, relpath)) else Unparse(t);
      PatternsSafe(serialized);
    }
  }

  /** Marshaling fails exactly for the all-empty target, for a scheme, after an empty one
      is taken as `file`, outside `file`, `http` and `https`, and for a `file` target with
      an empty path seen from the spec's URL, which `os.path.relpath` refuses. */
  lemma MarshalFails(target: Uri, origin: Option<Uri>, relpath: (string, string) -> string)
    ensures Marshal(target, origin, relpath).Err?
      <==> || target == EmptyUri
           || EffectiveScheme(target) !in AllowedSchemes
           || (origin.Some? && EffectiveScheme(target) == "file" && target.path == "")
    ensures Marshal(target, origin, relpath) == Err(NoPath)
      <==> target != EmptyUri && origin.Some? && EffectiveScheme(target) == "file" && target.path == ""
  {
    UnparseEmpty(target);
    UnparseEmpty(Defaulted(target));
  }

  /** Replacing leaves a prefix without `/` and `#` in place. */
  lemma PatternsKeepPrefix(prefix: string, rest: string)
    requires '/' !in prefix && '#' !in prefix
    ensures ApplyPatterns(prefix + rest, ReplacementPatterns) == prefix + ApplyPatterns(rest, ReplacementPatterns)
  {
    PatternsInOrder(prefix + rest);
    PatternsInOrder(rest);
    ReplaceAppend(prefix, rest, '/', "..");
    ReplaceAbsent(prefix, '/', "..");
    ReplaceAppend(prefix, Replace(rest, "/", ".."), '#', "|");
    ReplaceAbsent(prefix, '#', "|");
  }

  /** With the spec's URL known, a local file target is marshaled under the `lfile` scheme,
      with its path made relative to the spec's directory. */
  lemma MarshalMasksLocalFiles(target: Uri, origin: Uri, relpath: (string, string) -> string)
    requires target != EmptyUri && EffectiveScheme(target) == "file" && target.path != ""
    ensures Marshal(target, Some(origin), relpath)
            == Ok(ApplyPatterns(Unparse(Masked(Defaulted(target), origin, relpath)), ReplacementPatterns))
    ensures |Marshal(target, Some(origin), relpath).value| >= 6 && Marshal(target, Some(origin), relpath).value[..6] == "lfile:"
  {
    UnparseEmpty(target);
    assert Defaulted(target).scheme == "file";
    LfilePrefix(Masked(Defaulted(target), origin, relpath));
  }

  lemma LfilePrefix(m: Uri)
    requires m.scheme == "lfile"
    ensures |ApplyPatterns(Unparse(m), ReplacementPatterns)| >= 6
    ensures ApplyPatterns(Unparse(m), ReplacementPatterns)[..6] == "lfile:"
  {
    UnparseStartsWithScheme(m);
    assert |m.scheme| == 5 && m.scheme + ":" == "lfile:";
    var rest := Unparse(m)[6..];
    assert Unparse(m) == "lfile:" + rest;
    PatternsKeepPrefix("lfile:", rest);
    var value := "lfile:" + ApplyPatterns(rest, ReplacementPatterns);
    assert value[..6] == "lfile:";
  }

  /** `http` and `https` targets are only escaped, whether or not the spec's URL is known. */
  lemma MarshalKeepsWebTargets(target: Uri, origin: Option<Uri>, relpath: (string, string) -> string)
    requires target.scheme in {"http", "https"}
    ensures Marshal(target, origin, relpath) == Ok(ApplyPatterns(Unparse(target), ReplacementPatterns))
  {
    UnparseEmpty(target);
  }

  /** Without the spec's URL, a valid target is only escaped (after the `file` default). */
  lemma MarshalWithoutOrigin(target: Uri, relpath: (string, string) -> string)
    requires target != EmptyUri && EffectiveScheme(target) in AllowedSchemes
    ensures Marshal(target, None, relpath) == Ok(ApplyPatterns(Unparse(Defaulted(target)), ReplacementPatterns))
  {
    UnparseEmpty(target);
    UnparseEmpty(Defaulted(target));
  }

  /** A `/` and a `..` at the same place in two serializations give the same key. */
  lemma SlashCollidesWithDots(x: string, y: string)
    ensures ApplyPatterns(x + "/" + y, ReplacementPatterns) == ApplyPatterns(x + ".." + y, ReplacementPatterns)
  {
    PatternsInOrder(x + "/" + y);
    PatternsInOrder(x + ".." + y);
    assert x + "/" + y == x + ("/" + y);
    assert x + ".." + y == x + (".." + y);
    ReplaceAppend(x, "/" + y, '/', "..");
    ReplaceAppend(x, ".." + y, '/', "..");
    ReplaceAround([], y, '/', "..");
    assert [] + ['/'] + y == "/" + y;
    ReplaceAppend("..", y, '/', "..");
    ReplaceAbsent("..", '/', "..");
  }

  /** Two distinct web targets share one key: the escaping is not injective. */
  lemma NotInjective(relpath: (string, string) -> string)
    ensures Marshal(Uri("http", "h", "/a/b", "", "", ""), None, relpath)
         == Marshal(Uri("http", "h", "/a..b", "", "", ""), None, relpath)
  {
    var u1 := Uri("http", "h", "/a/b", "", "", "");
    var u2 := Uri("http", "h", "/a..b", "", "", "");
    MarshalKeepsWebTargets(u1, None, relpath);
    MarshalKeepsWebTargets(u2, None, relpath);
    assert Take("/a/b", 1) == "/";
    assert Take("/a..b", 1) == "/";
    assert Unparse(u1) == "http://h/a" + "/" + "b";
    assert Unparse(u2) == "http://h/a" + ".." + "b";
    SlashCollidesWithDots("http://h/a", "b");
  }
}
