/** The check that no two locations of one bucket are marshaled to the same key. The
    locations are grouped by the key they marshal to, groups in order of first occurrence;
    when there are fewer groups than locations, every group of more than one location gives
    a warning listing its locations' strings in sorted order. */
module Clash {
  import opened Base
  import opened OrderedDict
  import opened Text

  /** Marshaled key to the locations that marshal to it, in insertion order. */
  type Groups<U> = Dict<string, seq<U>>

  /** `grouped[k].add(u)` on a `defaultdict(set)`. */
  function AddMember<U(==)>(groups: Groups<U>, k: string, u: U): Groups<U> {
    var members := match Lookup(groups, k) case Some(ms) => ms case None => [];
    Put(groups, k, if u in members then members else members + [u])
  }

  /** The grouping loop over the locations; the first location whose marshaling fails aborts it. */
  function Group<U(==)>(uris: seq<U>, key: U -> Result<string>): Result<Groups<U>>
    decreases |uris|
  {
    if uris == [] then Ok([])
    else
      match Group(uris[..|uris| - 1], key)
      case Err(e) => Err(e)
      case Ok(groups) =>
        match key(uris[|uris| - 1])
        case Err(e) => Err(e)
        case Ok(k) => Ok(AddMember(groups, k, uris[|uris| - 1]))
  }

  function Shown<U>(members: seq<U>, show: U -> string): (r: seq<string>)
    ensures |r| == |members|
    ensures forall i :: 0 <= i < |members| ==> r[i] == show(members[i])
  {
    seq(|members|, i requires 0 <= i < |members| => show(members[i]))
  }

  /** The warning for a group: its locations' strings in sorted order, and their key. */
  function WarningFor<U>(group: (string, seq<U>), show: U -> string): Warning {
    Clash(Sort(Shown(group.1, show)), group.0)
  }

  /** One warning per group of more than one location, in group order. */
  function Warns<U>(groups: Groups<U>, show: U -> string): (ws: seq<Warning>)
    ensures forall w :: w in ws ==> w.Clash?
    decreases |groups|
  {
    if groups == [] then []
    else
      var (k, members) := groups[|groups| - 1];
      Warns(groups[..|groups| - 1], show)
      + (if |members| > 1 then [WarningFor((k, members), show)] else [])
  }

  /** The warnings the check emits for the locations `uris` of one bucket. */
  function ClashWarnings<U(==)>(uris: seq<U>, key: U -> Result<string>, show: U -> string): Result<seq<Warning>> {
    match Group(uris, key)
    case Err(e) => Err(e)
    case Ok(groups) => Ok(if |groups| == |uris| then [] else Warns(groups, show))
  }

  /** The check, as the loops the source runs. */
  method WarnIfUriClash<U(==)>(uris: seq<U>, key: U -> Result<string>, show: U -> string)
    returns (r: Result<seq<Warning>>)
    ensures r == ClashWarnings(uris, key, show)
  {
    var groups: Groups<U> := [];
    var i := 0;
    while i < |uris|
      invariant 0 <= i <= |uris|
      invariant Group(uris[..i], key) == Ok(groups)
    {
      assert uris[..i + 1][..i] == uris[..i];
      var k := key(uris[i]);
      if k.Err? {
        GroupFailureSticks(uris, i + 1, key);
        return Err(k.error);
      }
      groups := AddMember(groups, k.value, uris[i]);
      i := i + 1;
    }
    assert uris[..i] == uris;
    if |groups| == |uris| {
      return Ok([]);
    }
    var warnings: seq<Warning> := [];
    var n := 0;
    while n < |groups|
      invariant 0 <= n <= |groups|
      invariant warnings == Warns(groups[..n], show)
    {
      WarnsStep(groups, show, n);
      var (k, members) := groups[n];
      if |members| > 1 {
        warnings := warnings + [WarningFor((k, members), show)];
      }
      n := n + 1;
    }
    assert groups[..n] == groups;
    return Ok(warnings);
  }

  lemma WarnsStep<U>(groups: Groups<U>, show: U -> string, n: nat)
    requires n < |groups|
    ensures Warns(groups[..n + 1], show)
      == Warns(groups[..n], show) + if |groups[n].1| > 1 then [WarningFor(groups[n], show)] else []
  {
    assert groups[..n + 1][..n] == groups[..n];
  }

  lemma {:induction false} GroupFailureSticks<U>(uris: seq<U>, n: nat, key: U -> Result<string>)
    requires n <= |uris| && Group(uris[..n], key).Err?
    ensures Group(uris, key) == Group(uris[..n], key)
    decreases |uris| - n
  {
    if n < |uris| {
      assert uris[..n + 1][..n] == uris[..n];
      GroupFailureSticks(uris, n + 1, key);
    } else {
      assert uris[..n] == uris;
    }
  }

  // ---- What the grouping computes -------------------------------------------------------

  /** The locations `uris` marshaled to `k`, in order. */
  function MembersOf<U>(uris: seq<U>, key: U -> Result<string>, k: string): seq<U>
    decreases |uris|
  {
    if uris == [] then []
    else MembersOf(uris[..|uris| - 1], key, k) + (if key(uris[|uris| - 1]) == Ok(k) then [uris[|uris| - 1]] else [])
  }

  ghost predicate Distinct<U>(uris: seq<U>) {
    forall i, j :: 0 <= i < j < |uris| ==> uris[i] != uris[j]
  }

  ghost predicate AllMarshal<U>(uris: seq<U>, key: U -> Result<string>) {
    forall i :: 0 <= i < |uris| ==> key(uris[i]).Ok?
  }

  /** No two locations share a key. */
  ghost predicate Injective<U>(uris: seq<U>, key: U -> Result<string>) {
    forall i, j :: 0 <= i < j < |uris| ==> key(uris[i]) != key(uris[j])
  }

  /** Some location is marshaled to `k`. */
  ghost predicate Marshals<U>(uris: seq<U>, key: U -> Result<string>, k: string) {
    exists i :: 0 <= i < |uris| && key(uris[i]) == Ok(k)
  }

  /** Two locations are marshaled to `k`. */
  ghost predicate Shared<U>(uris: seq<U>, key: U -> Result<string>, k: string) {
    exists i, j :: 0 <= i < j < |uris| && key(uris[i]) == Ok(k) && key(uris[j]) == Ok(k)
  }

  lemma {:induction false} MembersOfSubset<U>(uris: seq<U>, key: U -> Result<string>, k: string)
    ensures forall u :: u in MembersOf(uris, key, k) ==> u in uris
    decreases |uris|
  {
    if uris != [] {
      var init := uris[..|uris| - 1];
      MembersOfSubset(init, key, k);
      assert forall u :: u in init ==> u in uris;
    }
  }

  /** A key has one member iff some location maps to it, and two iff two do. */
  lemma {:induction false} MembersOfCount<U>(uris: seq<U>, key: U -> Result<string>, k: string)
    ensures |MembersOf(uris, key, k)| >= 1 <==> Marshals(uris, key, k)
    ensures |MembersOf(uris, key, k)| >= 2 <==> Shared(uris, key, k)
    decreases |uris|
  {
    if uris != [] {
      var n := |uris| - 1;
      var init := uris[..n];
      MembersOfCount(init, key, k);
      assert forall i :: 0 <= i < n ==> init[i] == uris[i];
      if Marshals(uris, key, k) && !Marshals(init, key, k) {
        assert key(uris[n]) == Ok(k);
      }
      if Shared(uris, key, k) {
        var i, j :| 0 <= i < j < |uris| && key(uris[i]) == Ok(k) && key(uris[j]) == Ok(k);
        if j < n {
          assert Shared(init, key, k);
        } else {
          assert Marshals(init, key, k);
        }
      }
      if |MembersOf(uris, key, k)| >= 2 && !Shared(init, key, k) {
        var i :| 0 <= i < n && key(init[i]) == Ok(k);
        assert key(uris[i]) == Ok(k) && key(uris[n]) == Ok(k);
      }
    }
  }

  /** The groups hold, in first-occurrence order, each key some location marshals to, each
      with exactly the locations marshaled to it; there is one group per location iff the
      marshaling is injective. */
  ghost predicate GroupsOf<U>(groups: Groups<U>, uris: seq<U>, key: U -> Result<string>) {
    && DistinctKeys(groups)
    && (forall k :: k in Keys(groups) <==> Marshals(uris, key, k))
    && (forall i :: 0 <= i < |groups| ==> groups[i].1 == MembersOf(uris, key, groups[i].0))
    && |groups| <= |uris|
    && (|groups| == |uris| <==> Injective(uris, key))
  }

  lemma {:induction false} GroupComputes<U>(uris: seq<U>, key: U -> Result<string>)
    requires Distinct(uris) && AllMarshal(uris, key)
    ensures Group(uris, key).Ok? && GroupsOf(Group(uris, key).value, uris, key)
    decreases |uris|
  {
    if uris != [] {
      var n := |uris| - 1;
      var init, u := uris[..n], uris[n];
      assert uris == init + [u];
      assert Distinct(init) && AllMarshal(init, key) by {
        assert forall i :: 0 <= i < n ==> init[i] == uris[i];
      }
      GroupComputes(init, key);
      var groups := Group(init, key).value;
      var k := key(u).value;
      assert Group(uris, key) == Ok(AddMember(groups, k, u));
      assert u !in init by {
        assert forall i :: 0 <= i < n ==> init[i] == uris[i] != u;
      }
      StepKeeps(groups, init, key, u, k);
    }
  }

  /** Adding one more location keeps the groups what the grouping computes. */
  lemma StepKeeps<U>(groups: Groups<U>, init: seq<U>, key: U -> Result<string>, u: U, k: string)
    requires GroupsOf(groups, init, key) && key(u) == Ok(k) && u !in init
    requires Distinct(init + [u])
    ensures GroupsOf(AddMember(groups, k, u), init + [u], key)
  {
    var uris := init + [u];
    assert uris[..|init|] == init;
    MembersOfSubset(init, key, k);
    PutDistinct(groups, k, MembersOf(uris, key, k));
    StepCount(groups, init, key, u, k);
    StepKeySet(groups, init, key, u, k);
    StepMembers(groups, init, key, u, k);
  }

  lemma StepCount<U>(groups: Groups<U>, init: seq<U>, key: U -> Result<string>, u: U, k: string)
    requires GroupsOf(groups, init, key) && key(u) == Ok(k) && u !in init
    ensures var uris, next := init + [u], AddMember(groups, k, u);
      |next| <= |uris| && (|next| == |uris| <==> Injective(uris, key))
  {
    var uris := init + [u];
    var n := |init|;
    assert uris[..n] == init;
    var next := AddMember(groups, k, u);
    MembersOfSubset(init, key, k);
    if k in Keys(groups) {
      var at := IndexOf(groups, k);
      assert Lookup(groups, k) == Some(groups[at].1);
      assert |next| == |groups|;
      assert Marshals(init, key, k);
      var i :| 0 <= i < n && key(init[i]) == Ok(k);
      assert key(uris[i]) == key(uris[n]);
    } else {
      assert !Marshals(init, key, k);
      assert Lookup(groups, k) == None && [] + [u] == [u];
      assert next == groups + [(k, [u])];
      if Injective(init, key) {
        forall i, j | 0 <= i < j < |uris| ensures key(uris[i]) != key(uris[j]) {
          if j == n {
            assert key(init[i]) != Ok(k);
          } else {
            assert key(init[i]) != key(init[j]);
          }
        }
      } else {
        var i, j :| 0 <= i < j < n && key(init[i]) == key(init[j]);
        assert key(uris[i]) == key(uris[j]);
      }
    }
  }

  lemma StepKeySet<U>(groups: Groups<U>, init: seq<U>, key: U -> Result<string>, u: U, k: string)
    requires GroupsOf(groups, init, key) && key(u) == Ok(k)
    ensures forall k' :: k' in Keys(AddMember(groups, k, u)) <==> Marshals(init + [u], key, k')
  {
    var uris := init + [u];
    var n := |init|;
    var members := match Lookup(groups, k) case Some(ms) => ms case None => [];
    PutSemantics(groups, k, if u in members then members else members + [u]);
    forall k' ensures k' in Keys(AddMember(groups, k, u)) <==> Marshals(uris, key, k') {
      if Marshals(uris, key, k') && k' != k {
        var i :| 0 <= i < |uris| && key(uris[i]) == Ok(k');
        assert i < n && key(init[i]) == Ok(k');
      }
      if Marshals(init, key, k') {
        var i :| 0 <= i < n && key(init[i]) == Ok(k');
        assert key(uris[i]) == Ok(k');
      }
      assert key(uris[n]) == Ok(k);
    }
  }

  lemma StepMembers<U>(groups: Groups<U>, init: seq<U>, key: U -> Result<string>, u: U, k: string)
    requires GroupsOf(groups, init, key) && key(u) == Ok(k) && u !in init
    ensures var uris, next := init + [u], AddMember(groups, k, u);
      forall i :: 0 <= i < |next| ==> next[i].1 == MembersOf(uris, key, next[i].0)
  {
    var uris := init + [u];
    var n := |init|;
    assert uris[..n] == init;
    var next := AddMember(groups, k, u);
    MembersOfSubset(init, key, k);
    if k in Keys(groups) {
      var at := IndexOf(groups, k);
      assert groups[at].1 == MembersOf(init, key, k);
      assert Lookup(groups, k) == Some(groups[at].1);
      assert next == groups[at := (k, MembersOf(uris, key, k))];
    } else {
      assert !Marshals(init, key, k);
      MembersOfCount(init, key, k);
      assert MembersOf(uris, key, k) == [u];
      assert Lookup(groups, k) == None;
      assert next == groups + [(k, [u])];
    }
    forall i | 0 <= i < |next| ensures next[i].1 == MembersOf(uris, key, next[i].0) {
      if next[i].0 != k {
        assert next[i] == groups[i];
      }
    }
  }

  /** Every warning comes from a group of more than one location, and a later warning
      from a later group. */
  lemma {:induction false} WarningSource<U>(groups: Groups<U>, show: U -> string, n: nat) returns (i: nat)
    requires n < |Warns(groups, show)|
    ensures i < |groups| && |groups[i].1| > 1 && Warns(groups, show)[n] == WarningFor(groups[i], show)
    ensures n + 1 < |Warns(groups, show)| ==> i < |groups| - 1
    decreases |groups|
  {
    var last := |groups| - 1;
    var init := groups[..last];
    var earlier := Warns(init, show);
    if n < |earlier| {
      i := WarningSource(init, show, n);
    } else {
      i := last;
    }
  }

  /** Every group of more than one location gives a warning. */
  lemma {:induction false} WarningOf<U>(groups: Groups<U>, show: U -> string, i: nat) returns (n: nat)
    requires i < |groups| && |groups[i].1| > 1
    ensures n < |Warns(groups, show)| && Warns(groups, show)[n] == WarningFor(groups[i], show)
    decreases |groups|
  {
    var last := |groups| - 1;
    var init := groups[..last];
    var earlier := Warns(init, show);
    var tail := if |groups[last].1| > 1 then [WarningFor(groups[last], show)] else [];
    assert Warns(groups, show) == earlier + tail;
    if i < last {
      assert init[i] == groups[i];
      n := WarningOf(init, show, i);
    } else {
      assert i == last && tail == [WarningFor(groups[i], show)];
      n := |earlier|;
      assert (earlier + tail)[n] == tail[0];
    }
  }

  /** With distinct keys, no key is warned about twice. */
  lemma {:induction false} WarnsDistinct<U>(groups: Groups<U>, show: U -> string, n: nat, m: nat)
    requires DistinctKeys(groups) && n < m < |Warns(groups, show)|
    ensures Warns(groups, show)[n] != Warns(groups, show)[m]
    decreases |groups|
  {
    var last := |groups| - 1;
    var init := groups[..last];
    var earlier := Warns(init, show);
    assert DistinctKeys(init);
    if m < |earlier| {
      WarnsDistinct(init, show, n, m);
    } else {
      var i := WarningSource(init, show, n);
      assert init[i] == groups[i];
    }
  }

  /** The check warns iff two locations share a key, once for each shared key, listing
      exactly the locations with that key as sorted strings. */
  lemma ClashReport<U>(uris: seq<U>, key: U -> Result<string>, show: U -> string)
    requires Distinct(uris) && AllMarshal(uris, key)
    ensures ClashWarnings(uris, key, show).Ok?
    ensures var ws := ClashWarnings(uris, key, show).value;
      && (ws == [] <==> Injective(uris, key))
      && (forall n :: 0 <= n < |ws| ==>
            ws[n].Clash? && ws[n] == WarningFor((ws[n].marshaled, MembersOf(uris, key, ws[n].marshaled)), show))
      && (forall k :: Shared(uris, key, k) <==> exists n :: 0 <= n < |ws| && ws[n].Clash? && ws[n].marshaled == k)
      && (forall n, m :: 0 <= n < m < |ws| ==> ws[n].Clash? && ws[m].Clash? && ws[n].marshaled != ws[m].marshaled)
  {
    GroupComputes(uris, key);
    var groups := Group(uris, key).value;
    if !Injective(uris, key) {
      assert ClashWarnings(uris, key, show).value == Warns(groups, show);
      WarnsSources(groups, uris, key, show);
      WarnsCover(groups, uris, key, show);
      WarnsOnce(groups, uris, key, show);
      WarnsSome(groups, uris, key, show);
    }
  }

  /** Each warning lists the locations of a shared key. */
  lemma WarnsSources<U>(groups: Groups<U>, uris: seq<U>, key: U -> Result<string>, show: U -> string)
    requires GroupsOf(groups, uris, key)
    ensures var ws := Warns(groups, show);
      forall n :: 0 <= n < |ws| ==>
        && ws[n].Clash? && ws[n] == WarningFor((ws[n].marshaled, MembersOf(uris, key, ws[n].marshaled)), show)
        && Shared(uris, key, ws[n].marshaled)
  {
    var ws := Warns(groups, show);
    forall n | 0 <= n < |ws|
      ensures ws[n].Clash? && ws[n] == WarningFor((ws[n].marshaled, MembersOf(uris, key, ws[n].marshaled)), show)
      ensures Shared(uris, key, ws[n].marshaled)
    {
      var i := WarningSource(groups, show, n);
      MembersOfCount(uris, key, groups[i].0);
    }
  }

  /** Each shared key is warned about. */
  lemma WarnsCover<U>(groups: Groups<U>, uris: seq<U>, key: U -> Result<string>, show: U -> string)
    requires GroupsOf(groups, uris, key)
    ensures var ws := Warns(groups, show);
      forall k :: Shared(uris, key, k) ==> exists n :: 0 <= n < |ws| && ws[n].Clash? && ws[n].marshaled == k
  {
    var ws := Warns(groups, show);
    forall k | Shared(uris, key, k) ensures exists n :: 0 <= n < |ws| && ws[n].Clash? && ws[n].marshaled == k {
      MembersOfCount(uris, key, k);
      var at := IndexOf(groups, k);
      var n := WarningOf(groups, show, at);
      assert ws[n].marshaled == k;
    }
  }

  /** No key is warned about twice. */
  lemma WarnsOnce<U>(groups: Groups<U>, uris: seq<U>, key: U -> Result<string>, show: U -> string)
    requires GroupsOf(groups, uris, key)
    ensures var ws := Warns(groups, show);
      forall n, m :: 0 <= n < m < |ws| ==> ws[n].Clash? && ws[m].Clash? && ws[n].marshaled != ws[m].marshaled
  {
    var ws := Warns(groups, show);
    forall n, m | 0 <= n < m < |ws| ensures ws[n].Clash? && ws[m].Clash? && ws[n].marshaled != ws[m].marshaled {
      WarnsDistinct(groups, show, n, m);
      var i := WarningSource(groups, show, n);
      var j := WarningSource(groups, show, m);
      assert i != j;
    }
  }

  /** Two locations sharing a key give a warning. */
  lemma WarnsSome<U>(groups: Groups<U>, uris: seq<U>, key: U -> Result<string>, show: U -> string)
    requires GroupsOf(groups, uris, key) && AllMarshal(uris, key) && !Injective(uris, key)
    ensures Warns(groups, show) != []
  {
    var i, j :| 0 <= i < j < |uris| && key(uris[i]) == key(uris[j]);
    var k := key(uris[i]).value;
    assert Shared(uris, key, k);
    MembersOfCount(uris, key, k);
    var n := WarningOf(groups, show, IndexOf(groups, k));
  }

  /** The check fails iff marshaling one of the locations fails. */
  lemma {:induction false} ClashFails<U>(uris: seq<U>, key: U -> Result<string>, show: U -> string)
    ensures ClashWarnings(uris, key, show).Err? <==> exists i :: 0 <= i < |uris| && key(uris[i]).Err?
  {
    GroupFails(uris, key);
  }

  lemma {:induction false} GroupFails<U>(uris: seq<U>, key: U -> Result<string>)
    ensures Group(uris, key).Err? <==> exists i :: 0 <= i < |uris| && key(uris[i]).Err?
    decreases |uris|
  {
    if uris != [] {
      var n := |uris| - 1;
      var init := uris[..n];
      GroupFails(init, key);
      if Group(init, key).Err? {
        var i :| 0 <= i < n && key(init[i]).Err?;
        assert init[i] == uris[i];
      } else if key(uris[n]).Ok? {
        forall i | 0 <= i < |uris| ensures key(uris[i]).Ok? {
          if i < n { assert init[i] == uris[i]; }
        }
      }
    }
  }
}
