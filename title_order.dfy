/** The order JavaScript's default `Array.prototype.sort` puts a list of
    titles in: strings compared character by character, a proper prefix
    first, and missing titles (`undefined`) after every string. */
module TitleOrder {
  import opened Utils

  /** Lexicographic order on strings. */
  predicate StrLe(a: string, b: string) {
    a == [] || (b != [] && (a[0] < b[0] || (a[0] == b[0] && StrLe(a[1..], b[1..]))))
  }

  /** A title sorts before another: strings by `StrLe`, a missing title last. */
  predicate TitleLe(a: Option<string>, b: Option<string>) {
    match (a, b)
    case (Some(x), Some(y)) => StrLe(x, y)
    case (_, None) => true
    case (None, Some(_)) => false
  }

  predicate Sorted(s: seq<Option<string>>) {
    forall i, j :: 0 <= i < j < |s| ==> TitleLe(s[i], s[j])
  }

  lemma {:induction false} StrLeTotal(a: string, b: string)
    ensures StrLe(a, b) || StrLe(b, a)
  {
    if a != [] && b != [] && a[0] == b[0] {
      StrLeTotal(a[1..], b[1..]);
    }
  }

  lemma {:induction false} StrLeTransitive(a: string, b: string, c: string)
    requires StrLe(a, b) && StrLe(b, c)
    ensures StrLe(a, c)
  {
    if a != [] && b != [] && c != [] && a[0] == b[0] && b[0] == c[0] {
      StrLeTransitive(a[1..], b[1..], c[1..]);
    }
  }

  lemma {:induction false} StrLeAntisymmetric(a: string, b: string)
    requires StrLe(a, b) && StrLe(b, a)
    ensures a == b
  {
    if a != [] && b != [] {
      StrLeAntisymmetric(a[1..], b[1..]);
      assert a == [a[0]] + a[1..];
      assert b == [b[0]] + b[1..];
    }
  }

  lemma TitleLeTotal(a: Option<string>, b: Option<string>)
    ensures TitleLe(a, b) || TitleLe(b, a)
  {
    if a.Some? && b.Some? {
      StrLeTotal(a.value, b.value);
    }
  }

  lemma TitleLeTransitive(a: Option<string>, b: Option<string>, c: Option<string>)
    requires TitleLe(a, b) && TitleLe(b, c)
    ensures TitleLe(a, c)
  {
    if a.Some? && b.Some? && c.Some? {
      StrLeTransitive(a.value, b.value, c.value);
    }
  }

  lemma TitleLeAntisymmetric(a: Option<string>, b: Option<string>)
    requires TitleLe(a, b) && TitleLe(b, a)
    ensures a == b
  {
    if a.Some? && b.Some? {
      StrLeAntisymmetric(a.value, b.value);
    }
  }

  /** `x` put into its place in a sorted list. */
  function Insert(x: Option<string>, s: seq<Option<string>>): (r: seq<Option<string>>)
    requires Sorted(s)
    ensures Sorted(r)
    ensures multiset(r) == multiset(s) + multiset{x}
    decreases |s|
  {
    if s == [] then [x]
    else if TitleLe(x, s[0]) then
      InsertFront(x, s);
      [x] + s
    else
      SortedTail(s);
      var t := Insert(x, s[1..]);
      InsertBehind(x, s, t);
      [s[0]] + t
  }

  /** A title no greater than the head of a sorted list may go first. */
  lemma InsertFront(x: Option<string>, s: seq<Option<string>>)
    requires Sorted(s) && s != [] && TitleLe(x, s[0])
    ensures Sorted([x] + s)
  {
    forall j | 0 < j < |s| ensures TitleLe(x, s[j]) {
      TitleLeTransitive(x, s[0], s[j]);
    }
  }

  /** The head of a sorted list stays first when a greater title goes into its tail. */
  lemma InsertBehind(x: Option<string>, s: seq<Option<string>>, t: seq<Option<string>>)
    requires Sorted(s) && s != [] && !TitleLe(x, s[0])
    requires Sorted(t) && multiset(t) == multiset(s[1..]) + multiset{x}
    ensures Sorted([s[0]] + t)
    ensures multiset([s[0]] + t) == multiset(s) + multiset{x}
  {
    assert s == [s[0]] + s[1..];
    forall j | 0 <= j < |t| ensures TitleLe(s[0], t[j]) {
      assert t[j] in multiset(t);
      if t[j] == x {
        TitleLeTotal(x, s[0]);
      } else {
        assert t[j] in multiset(s[1..]);
        var m :| 0 <= m < |s[1..]| && s[1..][m] == t[j];
        assert s[m + 1] == t[j];
      }
    }
  }

  /** The titles in ascending order: sorted, and a permutation of the input. */
  function Sort(s: seq<Option<string>>): (r: seq<Option<string>>)
    ensures Sorted(r)
    ensures multiset(r) == multiset(s)
  {
    if s == [] then [] else
      assert s == s[..|s| - 1] + [s[|s| - 1]];
      Insert(s[|s| - 1], Sort(s[..|s| - 1]))
  }

  /** A sorted arrangement of a list is unique: any sorted permutation of the
      titles is the one `Sort` returns. */
  lemma {:induction false} SortedUnique(a: seq<Option<string>>, b: seq<Option<string>>)
    requires Sorted(a) && Sorted(b) && multiset(a) == multiset(b)
    ensures a == b
  {
    if a != [] {
      SortedSameHead(a, b);
      assert a == [a[0]] + a[1..];
      assert b == [b[0]] + b[1..];
      assert multiset(a[1..]) == multiset(b[1..]) by {
        assert multiset(a) == multiset{a[0]} + multiset(a[1..]);
        assert multiset(b) == multiset{b[0]} + multiset(b[1..]);
        assert multiset(a[1..]) == multiset(a) - multiset{a[0]};
        assert multiset(b[1..]) == multiset(b) - multiset{b[0]};
      }
      SortedTail(a);
      SortedTail(b);
      SortedUnique(a[1..], b[1..]);
    }
  }

  /** Two sorted permutations of a non-empty list start with the same title. */
  lemma SortedSameHead(a: seq<Option<string>>, b: seq<Option<string>>)
    requires Sorted(a) && Sorted(b) && multiset(a) == multiset(b) && a != []
    ensures b != [] && a[0] == b[0]
  {
    assert |a| == |multiset(a)| == |b|;
    assert a[0] in multiset(b);
    assert b[0] in multiset(a);
    var i :| 0 <= i < |b| && b[i] == a[0];
    var j :| 0 <= j < |a| && a[j] == b[0];
    assert TitleLe(b[0], a[0]) by {
      if i > 0 {
        assert TitleLe(b[0], b[i]);
      } else {
        TitleLeTotal(a[0], a[0]);
      }
    }
    assert TitleLe(a[0], b[0]) by {
      if j > 0 {
        assert TitleLe(a[0], a[j]);
      }
    }
    TitleLeAntisymmetric(a[0], b[0]);
  }

  lemma SortedTail(s: seq<Option<string>>)
    requires s != [] && Sorted(s)
    ensures Sorted(s[1..])
  {
    forall i, j | 0 <= i < j < |s| - 1 ensures TitleLe(s[1..][i], s[1..][j]) {
      assert TitleLe(s[i + 1], s[j + 1]);
    }
  }

  /** Sorting a list that is already sorted changes nothing. */
  lemma SortSorted(s: seq<Option<string>>)
    requires Sorted(s)
    ensures Sort(s) == s
  {
    SortedUnique(Sort(s), s);
  }
}
