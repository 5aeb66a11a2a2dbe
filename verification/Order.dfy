/** Lexicographic order, sorting, and the sort-then-reject-duplicates idiom that
    every collection constructor of the library uses. */
module Order {
  import opened Core

  /** std::lexicographical_compare; on bytes this is also std::string's order. */
  predicate Less(a: seq<int>, b: seq<int>) {
    b != [] && (a == [] || a[0] < b[0] || (a[0] == b[0] && Less(a[1..], b[1..])))
  }

  lemma {:induction false} LessTotal(a: seq<int>, b: seq<int>)
    ensures a == b ==> !Less(a, b)
    ensures a != b ==> Less(a, b) != Less(b, a)
  {
    if a != [] && b != [] && a[0] == b[0] {
      LessTotal(a[1..], b[1..]);
      assert a == [a[0]] + a[1..] && b == [b[0]] + b[1..];
    }
  }

  lemma {:induction false} LessTransitive(a: seq<int>, b: seq<int>, c: seq<int>)
    requires Less(a, b) && Less(b, c)
    ensures Less(a, c)
  {
    if a != [] && a[0] == b[0] == c[0] {
      LessTransitive(a[1..], b[1..], c[1..]);
    }
  }

  /** A common head does not matter. */
  lemma {:induction false} LessAfterPrefix(p: seq<int>, a: seq<int>, b: seq<int>)
    ensures Less(p + a, p + b) == Less(a, b)
  {
    if p == [] {
      assert p + a == a && p + b == b;
    } else {
      assert (p + a)[1..] == p[1..] + a && (p + b)[1..] == p[1..] + b;
      LessAfterPrefix(p[1..], a, b);
    }
  }

  /** -1 is below every byte, so a string closed by -1 compares like the string
      itself and only equal strings pass the comparison on: this is std::tie. */
  function Closed(s: seq<int>): seq<int> { s + [-1] }

  lemma {:induction false} ClosedIsTie(s: Bytes, t: Bytes, a: seq<int>, b: seq<int>)
    ensures Less(Closed(s) + a, Closed(t) + b) == (Less(s, t) || (s == t && Less(a, b)))
    ensures Closed(s) + a == Closed(t) + b ==> s == t && a == b
  {
    var x, y := Closed(s) + a, Closed(t) + b;
    if s == [] && t == [] {
      assert x == [-1] + a && y == [-1] + b;
      assert x[1..] == a && y[1..] == b;
    } else if s == [] || t == [] {
      assert x[0] == (if s == [] then -1 else s[0]);
      assert y[0] == (if t == [] then -1 else t[0]);
    } else {
      assert x[0] == s[0] && y[0] == t[0];
      assert x[1..] == Closed(s[1..]) + a && y[1..] == Closed(t[1..]) + b;
      ClosedIsTie(s[1..], t[1..], a, b);
      assert s == [s[0]] + s[1..] && t == [t[0]] + t[1..];
    }
  }

  function InsertBy<T>(key: T -> seq<int>, x: T, s: seq<T>): seq<T> {
    if s == [] || !Less(key(s[0]), key(x)) then [x] + s
    else [s[0]] + InsertBy(key, x, s[1..])
  }

  /** std::sort.  The lemmas below show that no result of the library depends
      on which arrangement of equal keys the real algorithm leaves. */
  function SortBy<T>(key: T -> seq<int>, s: seq<T>): seq<T> {
    if s == [] then [] else InsertBy(key, s[0], SortBy(key, s[1..]))
  }

  ghost predicate Ascending<T>(key: T -> seq<int>, s: seq<T>) {
    forall i, j :: 0 <= i < j < |s| ==> !Less(key(s[j]), key(s[i]))
  }

  ghost predicate Strict<T>(key: T -> seq<int>, s: seq<T>) {
    forall i, j :: 0 <= i < j < |s| ==> Less(key(s[i]), key(s[j]))
  }

  /** The linear scan for equal neighbours. */
  predicate DistinctNeighbours<T>(key: T -> seq<int>, s: seq<T>) {
    forall i :: 0 < i < |s| ==> key(s[i - 1]) != key(s[i])
  }

  /** Sort, then fail on equal neighbours. */
  function Normalize<T>(key: T -> seq<int>, s: seq<T>): Option<seq<T>> {
    var sorted := SortBy(key, s);
    if DistinctNeighbours(key, sorted) then Some(sorted) else None
  }

  lemma {:induction false} InsertKeeps<T>(key: T -> seq<int>, x: T, s: seq<T>)
    requires Ascending(key, s)
    ensures Ascending(key, InsertBy(key, x, s))
    ensures multiset(InsertBy(key, x, s)) == multiset(s) + multiset{x}
  {
    hide Less;
    if s == [] {
    } else if !Less(key(s[0]), key(x)) {
      forall j | 0 <= j < |s| ensures !Less(key(s[j]), key(x)) {
        LessTotal(key(s[0]), key(x));
        LessTotal(key(s[j]), key(s[0]));
        if j > 0 && Less(key(s[j]), key(x)) && key(x) != key(s[0]) {
          LessTransitive(key(s[j]), key(x), key(s[0]));
        }
      }
    } else {
      var tail := InsertBy(key, x, s[1..]);
      InsertKeeps(key, x, s[1..]);
      assert s == [s[0]] + s[1..];
      LessTotal(key(s[0]), key(x));
      forall j | 0 <= j < |tail| ensures !Less(key(tail[j]), key(s[0])) {
        assert tail[j] in multiset(tail);
        assert tail[j] == x || tail[j] in s[1..];
      }
    }
  }

  lemma {:induction false} SortSorts<T>(key: T -> seq<int>, s: seq<T>)
    ensures Ascending(key, SortBy(key, s))
    ensures multiset(SortBy(key, s)) == multiset(s)
    ensures |SortBy(key, s)| == |s|
  {
    hide Less, InsertBy;
    if s != [] {
      SortSorts(key, s[1..]);
      InsertKeeps(key, s[0], SortBy(key, s[1..]));
      assert s == [s[0]] + s[1..];
    }
    assert |multiset(SortBy(key, s))| == |SortBy(key, s)|;
  }

  lemma AscendingDistinct<T>(key: T -> seq<int>, s: seq<T>)
    requires Ascending(key, s)
    ensures DistinctNeighbours(key, s) <==> Strict(key, s)
  {
    if DistinctNeighbours(key, s) {
      forall i, j | 0 <= i < j < |s| ensures Less(key(s[i]), key(s[j])) {
        LessTotal(key(s[j - 1]), key(s[j]));
        if i < j - 1 {
          LessTotal(key(s[i]), key(s[j - 1]));
          if Less(key(s[i]), key(s[j - 1])) {
            LessTransitive(key(s[i]), key(s[j - 1]), key(s[j]));
          }
        }
      }
    } else {
      var i :| 0 < i < |s| && key(s[i - 1]) == key(s[i]);
      LessTotal(key(s[i - 1]), key(s[i]));
    }
  }

  lemma SameHead<T>(key: T -> seq<int>, s: seq<T>, t: seq<T>)
    requires Strict(key, s) && Ascending(key, t) && multiset(s) == multiset(t)
    requires s != [] && t != []
    ensures s[0] == t[0]
  {
    assert t[0] in multiset(s) && s[0] in multiset(t);
    var i :| 0 <= i < |s| && s[i] == t[0];
    var j :| 0 <= j < |t| && t[j] == s[0];
    if i > 0 {
      assert Less(key(t[j]), key(t[0]));
      LessTotal(key(t[0]), key(t[0]));
      assert j == 0;
    }
  }

  /** An ascending arrangement of strictly ordered values is that order. */
  lemma {:induction false} AscendingUnique<T>(key: T -> seq<int>, s: seq<T>, t: seq<T>)
    requires Strict(key, s) && Ascending(key, t) && multiset(s) == multiset(t)
    ensures s == t
  {
    assert |multiset(s)| == |s| && |multiset(t)| == |t|;
    if s != [] {
      SameHead(key, s, t);
      assert s == [s[0]] + s[1..] && t == [t[0]] + t[1..];
      assert multiset(s[1..]) == multiset(s) - multiset{s[0]};
      assert multiset(t[1..]) == multiset(t) - multiset{t[0]};
      AscendingUnique(key, s[1..], t[1..]);
    }
  }

  /** Normalize succeeds exactly on arrangements of a strictly ordered sequence,
      and then returns that sequence. */
  lemma NormalizeMeans<T>(key: T -> seq<int>, s: seq<T>)
    ensures Normalize(key, s).Some? ==>
              Strict(key, Normalize(key, s).value) && multiset(Normalize(key, s).value) == multiset(s)
              && |Normalize(key, s).value| == |s|
    ensures forall t :: Strict(key, t) && multiset(t) == multiset(s) ==> Normalize(key, s) == Some(t)
  {
    SortSorts(key, s);
    AscendingDistinct(key, SortBy(key, s));
    forall t | Strict(key, t) && multiset(t) == multiset(s) ensures Normalize(key, s) == Some(t) {
      AscendingUnique(key, t, SortBy(key, s));
    }
  }

  lemma NormalizeFixes<T>(key: T -> seq<int>, s: seq<T>)
    requires Strict(key, s)
    ensures Normalize(key, s) == Some(s)
  {
    NormalizeMeans(key, s);
  }

  lemma NormalizeIgnoresOrder<T>(key: T -> seq<int>, s: seq<T>, t: seq<T>)
    requires multiset(s) == multiset(t)
    ensures Normalize(key, s) == Normalize(key, t)
  {
    NormalizeMeans(key, s);
    NormalizeMeans(key, t);
  }

  ghost predicate DistinctKeys<T>(key: T -> seq<int>, s: seq<T>) {
    forall i, j :: 0 <= i < j < |s| ==> key(s[i]) != key(s[j])
  }

  lemma {:induction false} InsertMembers<T>(key: T -> seq<int>, x: T, s: seq<T>)
    ensures forall y :: y in InsertBy(key, x, s) <==> y == x || y in s
  {
    if s != [] && Less(key(s[0]), key(x)) {
      InsertMembers(key, x, s[1..]);
      assert s == [s[0]] + s[1..];
    }
  }

  lemma {:induction false} DistinctHead<T>(key: T -> seq<int>, x: T, s: seq<T>)
    ensures DistinctKeys(key, [x] + s) <==> DistinctKeys(key, s) && Lacks(key, s, key(x))
  {
    var t := [x] + s;
    if DistinctKeys(key, t) {
      forall i, j | 0 <= i < j < |s| ensures key(s[i]) != key(s[j]) {
        assert t[i + 1] == s[i] && t[j + 1] == s[j];
      }
      forall y | y in s ensures key(y) != key(x) {
        var j :| 0 <= j < |s| && s[j] == y;
        assert t[0] == x && t[j + 1] == y;
      }
    }
  }

  /** No member of s has this key. */
  ghost predicate Lacks<T>(key: T -> seq<int>, s: seq<T>, k: seq<int>) { forall y :: y in s ==> key(y) != k }

  lemma LacksSame<T>(key: T -> seq<int>, s: seq<T>, t: seq<T>, k: seq<int>)
    requires forall y :: y in s <==> y in t
    ensures Lacks(key, s, k) <==> Lacks(key, t, k)
  {
  }

  lemma LacksHead<T>(key: T -> seq<int>, x: T, s: seq<T>, t: seq<T>, k: seq<int>)
    requires forall y :: y in t <==> y == x || y in s
    ensures Lacks(key, t, k) <==> key(x) != k && Lacks(key, s, k)
  {
    assert x in t;
  }

  lemma {:induction false} InsertDistinct<T>(key: T -> seq<int>, x: T, s: seq<T>)
    ensures DistinctKeys(key, InsertBy(key, x, s)) <==> DistinctKeys(key, [x] + s)
  {
    hide DistinctKeys, Lacks, Less;
    DistinctHead(key, x, s);
    if s != [] && Less(key(s[0]), key(x)) {
      var tail := InsertBy(key, x, s[1..]);
      InsertDistinct(key, x, s[1..]);
      InsertMembers(key, x, s[1..]);
      DistinctHead(key, x, s[1..]);
      DistinctHead(key, s[0], tail);
      DistinctHead(key, s[0], s[1..]);
      assert s == [s[0]] + s[1..];
      LacksHead(key, x, s[1..], tail, key(s[0]));
      LacksHead(key, s[0], s[1..], s, key(x));
    }
  }

  lemma SortMembers<T>(key: T -> seq<int>, s: seq<T>)
    ensures forall y :: y in SortBy(key, s) <==> y in s
  {
    SortSorts(key, s);
    forall y ensures y in SortBy(key, s) <==> y in s {
      assert y in multiset(SortBy(key, s)) <==> y in multiset(s);
    }
  }

  lemma {:induction false} SortDistinct<T>(key: T -> seq<int>, s: seq<T>)
    ensures DistinctKeys(key, SortBy(key, s)) <==> DistinctKeys(key, s)
  {
    if s != [] {
      var tail := SortBy(key, s[1..]);
      SortDistinct(key, s[1..]);
      SortMembers(key, s[1..]);
      InsertDistinct(key, s[0], tail);
      DistinctHead(key, s[0], tail);
      DistinctHead(key, s[0], s[1..]);
      LacksSame(key, tail, s[1..], key(s[0]));
      assert s == [s[0]] + s[1..];
    }
  }

  /** Normalize fails exactly when two positions hold the same key. */
  lemma NormalizeFails<T>(key: T -> seq<int>, s: seq<T>)
    ensures Normalize(key, s).Some? <==> DistinctKeys(key, s)
  {
    var t := SortBy(key, s);
    SortSorts(key, s);
    SortDistinct(key, s);
    AscendingDistinct(key, t);
    if Strict(key, t) {
      forall i, j | 0 <= i < j < |t| ensures key(t[i]) != key(t[j]) {
        LessTotal(key(t[i]), key(t[j]));
      }
    }
  }

  /** A strictly ordered sequence is determined by its set of members. */
  lemma {:induction false} StrictByMembers<T>(key: T -> seq<int>, s: seq<T>, t: seq<T>)
    requires Strict(key, s) && Strict(key, t)
    requires forall x :: x in s <==> x in t
    ensures s == t
  {
    assert t != [] ==> t[0] in t;
    assert s != [] ==> s[0] in s;
    if s != [] {
      LeastMember(key, s, t);
      StrictTail(key, s);
      StrictTail(key, t);
      assert forall x :: x in s[1..] <==> x in t[1..];
      StrictByMembers(key, s[1..], t[1..]);
      assert s == [s[0]] + s[1..] && t == [t[0]] + t[1..];
    }
  }

  lemma LeastMember<T>(key: T -> seq<int>, s: seq<T>, t: seq<T>)
    requires Strict(key, s) && Strict(key, t) && s != [] && t != []
    requires forall x :: x in s <==> x in t
    ensures s[0] == t[0]
  {
    assert t[0] in s && s[0] in t;
    var i :| 0 <= i < |s| && s[i] == t[0];
    var j :| 0 <= j < |t| && t[j] == s[0];
    LessTotal(key(s[0]), key(t[0]));
  }

  lemma StrictTail<T>(key: T -> seq<int>, s: seq<T>)
    requires Strict(key, s) && s != []
    ensures Strict(key, s[1..])
    ensures forall x :: x in s[1..] <==> x in s && x != s[0]
  {
    forall x | x in s && x != s[0] ensures x in s[1..] {
      var i :| 0 <= i < |s| && s[i] == x;
      assert s[1..][i - 1] == x;
    }
    forall x | x in s[1..] ensures x != s[0] {
      var i :| 0 <= i < |s| - 1 && s[1..][i] == x;
      LessTotal(key(s[0]), key(s[i + 1]));
    }
  }

  /** Index of the first element whose key is not below `wanted`:
      std::lower_bound on a sequence partitioned by the key. */
  method LowerBound<T>(key: T -> seq<int>, s: seq<T>, wanted: seq<int>) returns (k: nat)
    requires Strict(key, s)
    ensures k <= |s|
    ensures forall i :: 0 <= i < k ==> Less(key(s[i]), wanted)
    ensures forall i :: k <= i < |s| ==> !Less(key(s[i]), wanted)
  {
    var low, high := 0, |s|;
    while low < high
      invariant 0 <= low <= high <= |s|
      invariant forall i :: 0 <= i < low ==> Less(key(s[i]), wanted)
      invariant forall i :: high <= i < |s| ==> !Less(key(s[i]), wanted)
    {
      var mid := (low + high) / 2;
      if Less(key(s[mid]), wanted) {
        forall i | 0 <= i < mid ensures Less(key(s[i]), wanted) {
          LessTransitive(key(s[i]), key(s[mid]), wanted);
        }
        low := mid + 1;
      } else {
        forall i | mid < i < |s| ensures !Less(key(s[i]), wanted) {
          if Less(key(s[i]), wanted) {
            LessTransitive(key(s[mid]), key(s[i]), wanted);
          }
        }
        high := mid;
      }
    }
    k := low;
  }
}
