/** The order QStringList::sort(Qt::CaseInsensitive) sorts by: strings compared
    character by character after case folding, a proper prefix first. */
module CaseInsensitiveSort {
  import opened Text

  /** Lexicographic "at most" on code points; a prefix comes before its extensions. */
  predicate LexLe(a: string, b: string)
    decreases |a|
  {
    a == [] || (b != [] && (a[0] < b[0] || (a[0] == b[0] && LexLe(a[1..], b[1..]))))
  }

  /** Any two strings are comparable. */
  lemma {:induction false} LexLeTotal(a: string, b: string)
    ensures LexLe(a, b) || LexLe(b, a)
    decreases |a|
  {
    if a != [] && b != [] && a[0] == b[0] {
      LexLeTotal(a[1..], b[1..]);
    }
  }

  lemma {:induction false} LexLeTransitive(a: string, b: string, c: string)
    requires LexLe(a, b) && LexLe(b, c)
    ensures LexLe(a, c)
    decreases |a|
  {
    if a != [] && b != [] && c != [] && a[0] == b[0] && b[0] == c[0] {
      LexLeTransitive(a[1..], b[1..], c[1..]);
    }
  }

  lemma {:induction false} LexLeAntisymmetric(a: string, b: string)
    requires LexLe(a, b) && LexLe(b, a)
    ensures a == b
    decreases |a|
  {
    if a != [] {
      LexLeAntisymmetric(a[1..], b[1..]);
      assert a == [a[0]] + a[1..];
      assert b == [b[0]] + b[1..];
    }
  }

  /** QString::compare(a, b, Qt::CaseInsensitive) <= 0. */
  predicate LeIgnoringCase(a: string, b: string) {
    LexLe(Lower(a), Lower(b))
  }

  ghost predicate SortedIgnoringCase(s: seq<string>) {
    forall i, j :: 0 <= i < j < |s| ==> LeIgnoringCase(s[i], s[j])
  }

  /** A head that comes before every element of a sorted list keeps it sorted. */
  lemma ConsSorted(y: string, t: seq<string>)
    requires SortedIgnoringCase(t)
    requires forall k :: 0 <= k < |t| ==> LeIgnoringCase(y, t[k])
    ensures SortedIgnoringCase([y] + t)
  {
    var r := [y] + t;
    forall i, j | 0 <= i < j < |r|
      ensures LeIgnoringCase(r[i], r[j])
    {
      assert r[j] == t[j - 1];
      if i > 0 {
        assert r[i] == t[i - 1];
      }
    }
  }

  /** What comes before the head of a sorted list comes before all of it. */
  lemma BeforeHeadBeforeAll(x: string, s: seq<string>)
    requires SortedIgnoringCase(s) && s != [] && LeIgnoringCase(x, s[0])
    ensures forall j :: 0 <= j < |s| ==> LeIgnoringCase(x, s[j])
  {
    forall j | 0 <= j < |s|
      ensures LeIgnoringCase(x, s[j])
    {
      if j > 0 {
        LexLeTransitive(Lower(x), Lower(s[0]), Lower(s[j]));
      }
    }
  }

  /** What comes before every element of `s` and before `x` comes before
      every element of a list holding `s` and `x`. */
  lemma BeforeAllOfPermutation(y: string, s: seq<string>, x: string, t: seq<string>)
    requires forall k :: 0 <= k < |s| ==> LeIgnoringCase(y, s[k])
    requires LeIgnoringCase(y, x)
    requires multiset(t) == multiset(s) + multiset{x}
    ensures forall k :: 0 <= k < |t| ==> LeIgnoringCase(y, t[k])
  {
    forall k | 0 <= k < |t|
      ensures LeIgnoringCase(y, t[k])
    {
      assert t[k] in multiset(t);
      if t[k] != x {
        assert t[k] in multiset(s);
        var m :| 0 <= m < |s| && s[m] == t[k];
      }
    }
  }

  /** Places `x` before the first element it does not come after. */
  function Insert(x: string, s: seq<string>): (r: seq<string>)
    requires SortedIgnoringCase(s)
    ensures SortedIgnoringCase(r)
    ensures multiset(r) == multiset(s) + multiset{x}
  {
    if s == [] then [x]
    else if LeIgnoringCase(x, s[0]) then
      BeforeHeadBeforeAll(x, s);
      ConsSorted(x, s);
      [x] + s
    else
      LexLeTotal(Lower(x), Lower(s[0]));
      var rest := s[1..];
      assert forall k :: 0 <= k < |rest| ==> LeIgnoringCase(s[0], rest[k]) by {
        forall k | 0 <= k < |rest|
          ensures LeIgnoringCase(s[0], rest[k])
        {
          assert rest[k] == s[k + 1];
        }
      }
      var tail := Insert(x, rest);
      BeforeAllOfPermutation(s[0], rest, x, tail);
      ConsSorted(s[0], tail);
      assert s == [s[0]] + rest;
      [s[0]] + tail
  }

  /** QStringList::sort(Qt::CaseInsensitive): a permutation of the input in
      case-insensitive order. */
  function SortIgnoringCase(s: seq<string>): (r: seq<string>)
    ensures SortedIgnoringCase(r)
    ensures multiset(r) == multiset(s)
  {
    if s == [] then []
    else
      assert s == [s[0]] + s[1..];
      Insert(s[0], SortIgnoringCase(s[1..]))
  }

  /** Sorting an already sorted list keeps every element and its order. */
  lemma {:induction false} SortSortedIsIdentity(s: seq<string>)
    requires SortedIgnoringCase(s)
    ensures SortIgnoringCase(s) == s
  {
    if s != [] {
      SortSortedIsIdentity(s[1..]);
      assert LeIgnoringCase(s[0], s[0]) by {
        LexLeTotal(Lower(s[0]), Lower(s[0]));
      }
    }
  }

  /** No two different names in the list are equal ignoring case. */
  ghost predicate DistinctIgnoringCase(s: seq<string>) {
    forall i, j :: 0 <= i < |s| && 0 <= j < |s| && Lower(s[i]) == Lower(s[j]) ==> s[i] == s[j]
  }

  lemma SortedTail(s: seq<string>)
    requires s != [] && SortedIgnoringCase(s)
    ensures SortedIgnoringCase(s[1..])
  {
    var t := s[1..];
    forall i, j | 0 <= i < j < |t|
      ensures LeIgnoringCase(t[i], t[j])
    {
      assert t[i] == s[i + 1] && t[j] == s[j + 1];
    }
  }

  lemma DistinctTail(s: seq<string>)
    requires s != [] && DistinctIgnoringCase(s)
    ensures DistinctIgnoringCase(s[1..])
  {
    var t := s[1..];
    forall i, j | 0 <= i < |t| && 0 <= j < |t| && Lower(t[i]) == Lower(t[j])
      ensures t[i] == t[j]
    {
      assert t[i] == s[i + 1] && t[j] == s[j + 1];
    }
  }

  lemma TailMultiset(s: seq<string>, t: seq<string>)
    requires s != [] && t != [] && s[0] == t[0] && multiset(s) == multiset(t)
    ensures multiset(s[1..]) == multiset(t[1..])
  {
    assert s == [s[0]] + s[1..] && t == [t[0]] + t[1..];
    assert multiset(s[1..]) == multiset(s) - multiset{s[0]};
    assert multiset(t[1..]) == multiset(t) - multiset{t[0]};
  }

  /** Two sorted permutations of a list without case-only differences start
      with the same name: each head comes before the other. */
  lemma SameHead(s: seq<string>, t: seq<string>)
    requires s != [] && SortedIgnoringCase(s) && SortedIgnoringCase(t)
    requires multiset(s) == multiset(t)
    requires DistinctIgnoringCase(s)
    ensures t != [] && s[0] == t[0]
  {
    assert s[0] in multiset(t);
    var k :| 0 <= k < |t| && t[k] == s[0];
    assert t[0] in multiset(s);
    var m :| 0 <= m < |s| && s[m] == t[0];
    if s[0] != t[0] {
      assert LeIgnoringCase(t[0], t[k]) && LeIgnoringCase(s[0], s[m]);
      LexLeAntisymmetric(Lower(s[0]), Lower(t[0]));
      assert false;
    }
  }

  /** When no two names differ only in case, a list has a single sorted
      order: any two sorted permutations of it are the same list. */
  lemma {:induction false} SortedPermutationUnique(s: seq<string>, t: seq<string>)
    requires SortedIgnoringCase(s) && SortedIgnoringCase(t)
    requires multiset(s) == multiset(t)
    requires DistinctIgnoringCase(s)
    ensures s == t
    decreases |s|
  {
    if s == [] {
      assert |multiset(t)| == 0;
    } else {
      SameHead(s, t);
      TailMultiset(s, t);
      SortedTail(s);
      SortedTail(t);
      DistinctTail(s);
      SortedPermutationUnique(s[1..], t[1..]);
      assert s == [s[0]] + s[1..] && t == [t[0]] + t[1..];
    }
  }

  /** QStringList::sort may reorder names that differ only in case; for any
      other list every correct sort, stable or not, agrees with this one. */
  lemma AnySortAgrees(s: seq<string>, sorted: seq<string>)
    requires SortedIgnoringCase(sorted) && multiset(sorted) == multiset(s)
    requires DistinctIgnoringCase(s)
    ensures sorted == SortIgnoringCase(s)
  {
    var r := SortIgnoringCase(s);
    assert DistinctIgnoringCase(r) by {
      forall i, j | 0 <= i < |r| && 0 <= j < |r| && Lower(r[i]) == Lower(r[j])
        ensures r[i] == r[j]
      {
        assert r[i] in multiset(s) && r[j] in multiset(s);
        var a :| 0 <= a < |s| && s[a] == r[i];
        var b :| 0 <= b < |s| && s[b] == r[j];
      }
    }
    SortedPermutationUnique(r, sorted);
  }
}
