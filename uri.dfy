/** Parsed URIs and the two library routines the marshaler applies to them:
    `urlunparse` (after CPython's `urllib.parse`) and `os.path.dirname` (POSIX). */
module Uris {

  /** A `ParseResult` 6-tuple; equality is by component, as for the tuple. */
  datatype Uri = Uri(scheme: string, netloc: string, path: string, params: string, query: string, fragment: string)

  const EmptyUri := Uri("", "", "", "", "", "")

  /** `urllib.parse.uses_netloc`: schemes whose serialization carries `//`. */
  const UsesNetloc: set<string> := {
    "", "ftp", "http", "gopher", "nntp", "telnet", "imap", "wais", "file", "mms", "https", "shttp",
    "snews", "prospero", "rtsp", "rtspu", "rsync", "svn", "svn+ssh", "sftp", "nfs", "git", "git+ssh",
    "ws", "wss"
  }

  /** `s[:n]`. */
  function Take(s: string, n: nat): string {
    if |s| <= n then s else s[..n]
  }

  /** The `//netloc` part of `urlunsplit`, put in front of `url` when there is a netloc
      or when the scheme uses one and `url` does not already start with `//`. */
  function Authority(scheme: string, netloc: string, url: string): string {
    if netloc != "" || (scheme != "" && scheme in UsesNetloc && Take(url, 2) != "//") then
      "//" + netloc + (if url != "" && Take(url, 1) != "/" then "/" + url else url)
    else url
  }

  /** `s + sep + part` when `part` is non-empty, else `s`. */
  function Suffixed(s: string, sep: string, part: string): (r: string) {
    if part != "" then s + sep + part else s
  }

  /** `urlunsplit((scheme, netloc, url, query, fragment))`. */
  function Unsplit(scheme: string, netloc: string, url: string, query: string, fragment: string): string {
    var rest := Authority(scheme, netloc, url);
    var withScheme := if scheme != "" then scheme + ":" + rest else rest;
    Suffixed(Suffixed(withScheme, "?", query), "#", fragment)
  }

  /** `urlunparse(u)`. */
  function Unparse(u: Uri): string {
    var url := if u.params != "" then u.path + ";" + u.params else u.path;
    Unsplit(u.scheme, u.netloc, url, u.query, u.fragment)
  }

  /** The serialization is empty exactly for the all-empty tuple. */
  lemma UnparseEmpty(u: Uri)
    ensures Unparse(u) == "" <==> u == EmptyUri
  {
    var url := if u.params != "" then u.path + ";" + u.params else u.path;
    if u.params != "" { assert |url| > 0; }
    if u.scheme != "" { assert |Unparse(u)| > |u.scheme|; }
  }

  lemma SuffixedKeepsPrefix(s: string, sep: string, part: string, n: nat)
    requires n <= |s|
    ensures |Suffixed(s, sep, part)| >= |s| && Suffixed(s, sep, part)[..n] == s[..n]
  {
    if part != "" {
      assert s + sep + part == s + (sep + part);
    }
  }

  /** A URI with a scheme serializes as `scheme:` followed by the rest. */
  lemma UnparseStartsWithScheme(u: Uri)
    requires u.scheme != ""
    ensures |Unparse(u)| > |u.scheme|
    ensures Unparse(u)[..|u.scheme| + 1] == u.scheme + ":"
  {
    var url := if u.params != "" then u.path + ";" + u.params else u.path;
    var head := u.scheme + ":";
    var withScheme := head + Authority(u.scheme, u.netloc, url);
    assert withScheme[..|head|] == head;
    SuffixedKeepsPrefix(withScheme, "?", u.query, |head|);
    SuffixedKeepsPrefix(Suffixed(withScheme, "?", u.query), "#", u.fragment, |head|);
  }

  /** One past the position of the last `/` in `p`, or 0 when there is none (`p.rfind('/') + 1`). */
  function AfterLastSlash(p: string): (i: nat)
    ensures i <= |p|
  {
    if p == [] then 0 else if p[|p| - 1] == '/' then |p| else AfterLastSlash(p[..|p| - 1])
  }

  /** Text without `/` after the last slash does not move it. */
  lemma {:induction false} AfterLastSlashSkips(p: string, tail: string)
    requires '/' !in tail
    ensures AfterLastSlash(p + tail) == AfterLastSlash(p)
    decreases |tail|
  {
    if tail != [] {
      var shorter := tail[..|tail| - 1];
      assert (p + tail)[..|p + tail| - 1] == p + shorter;
      AfterLastSlashSkips(p, shorter);
    } else {
      assert p + tail == p;
    }
  }

  /** `s.rstrip('/')`. */
  function StripTrailingSlashes(s: string): string {
    if s != [] && s[|s| - 1] == '/' then StripTrailingSlashes(s[..|s| - 1]) else s
  }

  predicate AllSlashes(s: string) {
    forall i :: 0 <= i < |s| ==> s[i] == '/'
  }

  /** `posixpath.dirname(p)`. */
  function Dirname(p: string): string {
    var head := p[..AfterLastSlash(p)];
    if head != "" && !AllSlashes(head) then StripTrailingSlashes(head) else head
  }

  /** `dirname` of a file name under a directory is that directory. */
  lemma DirnameOfFile(d: string, f: string)
    requires d != [] && d[|d| - 1] != '/' && '/' !in f
    ensures Dirname(d + "/" + f) == d
  {
    var dir := d + "/";
    AfterLastSlashSkips(dir, f);
    assert AfterLastSlash(dir) == |dir|;
    assert (dir + f)[..|dir|] == dir;
    assert d + "/" + f == dir + f;
    assert !AllSlashes(dir) by { assert dir[|d| - 1] != '/'; }
    assert dir[..|dir| - 1] == d;
    assert StripTrailingSlashes(dir) == StripTrailingSlashes(d) == d;
    assert Dirname(dir + f) == StripTrailingSlashes(dir);
  }

  /** `dirname` of a file one directory down is that directory. */
  lemma DirnameExample()
    ensures Dirname("/specs/a.json") == "/specs"
  {
    DirnameOfFile("/specs", "a.json");
    assert "/specs" + "/" + "a.json" == "/specs/a.json";
  }
}
