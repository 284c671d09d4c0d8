/** The operations on Python `str` values that the flattener relies on: `str.replace`,
    the substring test `sub in s`, and `sorted` over strings (code-point order). */
module Text {

  /** `s.replace(src, dst)`: scanning left to right, each occurrence of `src` that does
      not overlap an earlier replaced one is replaced by `dst`. */
  function Replace(s: string, src: string, dst: string): string
    requires src != []
    decreases |s|
  {
    if |s| < |src| then s
    else if s[..|src|] == src then dst + Replace(s[|src|..], src, dst)
    else [s[0]] + Replace(s[1..], src, dst)
  }

  /** Replacing a one-character pattern by a text without that character removes it. */
  lemma {:induction false} ReplaceRemoves(s: string, c: char, dst: string)
    requires c !in dst
    ensures c !in Replace(s, [c], dst)
    decreases |s|
  {
    if |s| >= 1 {
      ReplaceRemoves(s[1..], c, dst);
    }
  }

  /** Replacing never introduces a character that is in neither the text nor the replacement. */
  lemma {:induction false} ReplaceKeepsAbsent(s: string, src: string, dst: string, c: char)
    requires src != []
    requires c !in s && c !in dst
    ensures c !in Replace(s, src, dst)
    decreases |s|
  {
    if |s| < |src| {
    } else if s[..|src|] == src {
      ReplaceKeepsAbsent(s[|src|..], src, dst, c);
    } else {
      ReplaceKeepsAbsent(s[1..], src, dst, c);
    }
  }

  /** A one-character replacement works character by character, so it distributes over concatenation. */
  lemma {:induction false} ReplaceAppend(a: string, b: string, c: char, dst: string)
    ensures Replace(a + b, [c], dst) == Replace(a, [c], dst) + Replace(b, [c], dst)
    decreases |a|
  {
    if a != [] {
      assert (a + b)[1..] == a[1..] + b;
      assert (a + b)[..1] == a[..1] == [a[0]];
      ReplaceAppend(a[1..], b, c, dst);
      if a[0] == c {
        assert Replace(a, [c], dst) == dst + Replace(a[1..], [c], dst);
        assert Replace(a + b, [c], dst) == dst + Replace(a[1..] + b, [c], dst);
      } else {
        assert Replace(a, [c], dst) == [a[0]] + Replace(a[1..], [c], dst);
        assert Replace(a + b, [c], dst) == [a[0]] + Replace(a[1..] + b, [c], dst);
      }
    } else {
      assert a + b == b;
    }
  }

  /** A text without the character is left as it is. */
  lemma {:induction false} ReplaceAbsent(s: string, c: char, dst: string)
    requires c !in s
    ensures Replace(s, [c], dst) == s
    decreases |s|
  {
    if s != [] {
      ReplaceAbsent(s[1..], c, dst);
    }
  }

  /** Around a single occurrence of a one-character pattern, only that occurrence and the
      text after it are rewritten. */
  lemma ReplaceAround(a: string, b: string, c: char, dst: string)
    requires c !in a
    ensures Replace(a + [c] + b, [c], dst) == a + dst + Replace(b, [c], dst)
  {
    ReplaceAppend(a, [c] + b, c, dst);
    assert a + [c] + b == a + ([c] + b);
    ReplaceAbsent(a, c, dst);
    ReplaceAppend([c], b, c, dst);
    assert Replace([c], [c], dst) == dst + Replace([], [c], dst);
  }

  /** `sub in s` on strings. */
  predicate Contains(s: string, sub: string)
    decreases |s|
  {
    if |s| < |sub| then false else s[..|sub|] == sub || Contains(s[1..], sub)
  }

  /** `a <= b` on Python strings: lexicographic on code points, a prefix first. */
  predicate LexLeq(a: string, b: string)
    decreases |a|
  {
    a == [] || (b != [] && (a[0] < b[0] || (a[0] == b[0] && LexLeq(a[1..], b[1..]))))
  }

  lemma {:induction false} LexTotal(a: string, b: string)
    ensures LexLeq(a, b) || LexLeq(b, a)
    decreases |a|
  {
    if a != [] && b != [] && a[0] == b[0] {
      LexTotal(a[1..], b[1..]);
    }
  }

  lemma {:induction false} LexTransitive(a: string, b: string, c: string)
    requires LexLeq(a, b) && LexLeq(b, c)
    ensures LexLeq(a, c)
    decreases |a|
  {
    if a != [] && a[0] == b[0] && b[0] == c[0] {
      LexTransitive(a[1..], b[1..], c[1..]);
    }
  }

  ghost predicate Sorted(s: seq<string>) {
    forall i, j :: 0 <= i < j < |s| ==> LexLeq(s[i], s[j])
  }

  function Insert(x: string, s: seq<string>): (r: seq<string>)
    ensures multiset(r) == multiset(s) + multiset{x}
    ensures Sorted(s) ==> Sorted(r)
  {
    if s == [] then [x]
    else if LexLeq(x, s[0]) then
      SortedFront(x, s);
      [x] + s
    else
      var rest := Insert(x, s[1..]);
      assert s == [s[0]] + s[1..];
      LexTotal(x, s[0]);
      SortedBehind(x, s, rest);
      [s[0]] + rest
  }

  /** A string no greater than the head of a sorted sequence goes in front of it. */
  lemma SortedFront(x: string, s: seq<string>)
    requires s != [] && LexLeq(x, s[0])
    ensures Sorted(s) ==> Sorted([x] + s)
  {
    if Sorted(s) {
      forall j | 0 <= j < |s| ensures LexLeq(x, s[j]) {
        if j > 0 { LexTransitive(x, s[0], s[j]); }
      }
      forall i, j | 0 <= i < j < |[x] + s| ensures LexLeq(([x] + s)[i], ([x] + s)[j]) {
        if i > 0 { assert ([x] + s)[i] == s[i - 1]; }
        assert ([x] + s)[j] == s[j - 1];
      }
    }
  }

  /** The head of a sorted sequence goes in front of its sorted tail with `x` inserted. */
  lemma SortedBehind(x: string, s: seq<string>, rest: seq<string>)
    requires s != [] && LexLeq(s[0], x)
    requires multiset(rest) == multiset(s[1..]) + multiset{x}
    requires Sorted(s) ==> Sorted(rest)
    ensures Sorted(s) ==> Sorted([s[0]] + rest)
  {
    if Sorted(s) {
      forall y | y in rest ensures LexLeq(s[0], y) {
        assert y in multiset(rest);
        if y != x {
          assert y in multiset(s[1..]);
          var k :| 0 <= k < |s[1..]| && s[1..][k] == y;
          assert s[k + 1] == y;
        }
      }
      forall i, j | 0 <= i < j < |[s[0]] + rest| ensures LexLeq(([s[0]] + rest)[i], ([s[0]] + rest)[j]) {
        assert ([s[0]] + rest)[j] == rest[j - 1];
        if i > 0 { assert ([s[0]] + rest)[i] == rest[i - 1]; }
        else { assert rest[j - 1] in rest; }
      }
    }
  }

  /** `sorted(s)` (insertion sort): an ordered permutation of `s`. */
  function Sort(s: seq<string>): (r: seq<string>)
    ensures Sorted(r)
    ensures multiset(r) == multiset(s)
  {
    if s == [] then []
    else
      assert s == [s[0]] + s[1..];
      Insert(s[0], Sort(s[1..]))
  }
}
