/** The stable sort of `Array.prototype.sort` with a numeric comparator, as an insertion sort. */
module StableSort {

  /** Puts `x` behind every element whose key is not larger. */
  function Insert<T>(s: seq<T>, x: T, key: T -> int): seq<T> {
    if s == [] then [x]
    else if key(s[|s| - 1]) <= key(x) then s + [x]
    else Insert(s[..|s| - 1], x, key) + [s[|s| - 1]]
  }

  function Sort<T>(s: seq<T>, key: T -> int): seq<T> {
    if s == [] then [] else Insert(Sort(s[..|s| - 1], key), s[|s| - 1], key)
  }

  ghost predicate SortedBy<T>(s: seq<T>, key: T -> int) {
    forall i, j :: 0 <= i < j < |s| ==> key(s[i]) <= key(s[j])
  }

  /** The elements of `s` with key `k`, in the order they stand. */
  function OfKey<T>(s: seq<T>, key: T -> int, k: int): seq<T> {
    if s == [] then []
    else OfKey(s[..|s| - 1], key, k) + if key(s[|s| - 1]) == k then [s[|s| - 1]] else []
  }

  lemma {:induction false} InsertPermutes<T>(s: seq<T>, x: T, key: T -> int)
    ensures multiset(Insert(s, x, key)) == multiset(s) + multiset{x}
  {
    if s != [] && key(s[|s| - 1]) > key(x) {
      var front := s[..|s| - 1];
      InsertPermutes(front, x, key);
      assert s == front + [s[|s| - 1]];
    }
  }

  /** The last element after an insertion is the old last element or the new one, whichever key is larger. */
  lemma {:induction false} InsertSorts<T>(s: seq<T>, x: T, key: T -> int)
    requires SortedBy(s, key)
    ensures SortedBy(Insert(s, x, key), key)
    ensures |Insert(s, x, key)| == |s| + 1
    ensures key(Insert(s, x, key)[|s|]) == if s == [] || key(s[|s| - 1]) <= key(x) then key(x) else key(s[|s| - 1])
  {
    if s != [] && key(s[|s| - 1]) > key(x) {
      var front := s[..|s| - 1];
      InsertSorts(front, x, key);
    }
  }

  lemma {:induction false} InsertIsStable<T>(s: seq<T>, x: T, key: T -> int, k: int)
    requires SortedBy(s, key)
    ensures OfKey(Insert(s, x, key), key, k) == OfKey(s, key, k) + if key(x) == k then [x] else []
  {
    if s == [] {
    } else if key(s[|s| - 1]) <= key(x) {
      assert (s + [x])[..|s|] == s;
    } else {
      var front, last := s[..|s| - 1], s[|s| - 1];
      InsertIsStable(front, x, key, k);
      var r := Insert(front, x, key);
      assert (r + [last])[..|r|] == r;
      if key(x) == k {
        assert key(last) != k;
      }
    }
  }

  lemma {:induction false} SortSorts<T>(s: seq<T>, key: T -> int)
    ensures SortedBy(Sort(s, key), key)
    ensures |Sort(s, key)| == |s|
  {
    if s != [] {
      SortSorts(s[..|s| - 1], key);
      InsertSorts(Sort(s[..|s| - 1], key), s[|s| - 1], key);
    }
  }

  lemma {:induction false} SortPermutes<T>(s: seq<T>, key: T -> int)
    ensures multiset(Sort(s, key)) == multiset(s)
  {
    if s != [] {
      SortPermutes(s[..|s| - 1], key);
      InsertPermutes(Sort(s[..|s| - 1], key), s[|s| - 1], key);
      assert s == s[..|s| - 1] + [s[|s| - 1]];
    }
  }

  /** Equal keys keep their order. */
  lemma {:induction false} SortIsStable<T>(s: seq<T>, key: T -> int, k: int)
    ensures OfKey(Sort(s, key), key, k) == OfKey(s, key, k)
  {
    if s != [] {
      SortIsStable(s[..|s| - 1], key, k);
      SortSorts(s[..|s| - 1], key);
      InsertIsStable(Sort(s[..|s| - 1], key), s[|s| - 1], key, k);
    }
  }

  lemma {:induction false} OfKeyMembers<T>(s: seq<T>, key: T -> int, k: int)
    ensures forall x :: x in OfKey(s, key, k) <==> x in s && key(x) == k
  {
    if s != [] {
      OfKeyMembers(s[..|s| - 1], key, k);
      assert s == s[..|s| - 1] + [s[|s| - 1]];
    }
  }

  /** `p` says where each element of `t` stands in `s`: keys do not decrease along `t`, and equal keys stand as in `s`. */
  ghost predicate Places<T>(s: seq<T>, t: seq<T>, key: T -> int, p: seq<nat>) {
    && |p| == |t|
    && (forall i :: 0 <= i < |p| ==> p[i] < |s| && t[i] == s[p[i]])
    && (forall i, k :: 0 <= i < k < |p| ==> key(t[i]) < key(t[k]) || (key(t[i]) == key(t[k]) && p[i] < p[k]))
  }

  lemma PlacesAppend<T>(s: seq<T>, t: seq<T>, key: T -> int, p: seq<nat>, j: nat)
    requires Places(s, t, key, p) && j < |s|
    requires forall i :: 0 <= i < |p| ==> key(t[i]) < key(s[j]) || (key(t[i]) == key(s[j]) && p[i] < j)
    ensures Places(s, t + [s[j]], key, p + [j])
  {
  }

  lemma PlacesLater<T>(s: seq<T>, x: T, t: seq<T>, key: T -> int, p: seq<nat>)
    requires Places(s, t, key, p)
    ensures Places(s + [x], t, key, p)
  {
  }

  lemma {:induction false} InsertPlaces<T>(s: seq<T>, t: seq<T>, x: T, key: T -> int, p: seq<nat>) returns (q: seq<nat>)
    requires Places(s, t, key, p)
    ensures Places(s + [x], Insert(t, x, key), key, q) && |q| == |t| + 1
    ensures forall i :: 0 <= i < |q| ==> q[i] == |s| || q[i] in p
  {
    if t == [] || key(t[|t| - 1]) <= key(x) {
      PlacesLater(s, x, t, key, p);
      PlacesAppend(s + [x], t, key, p, |s|);
      q := p + [|s|];
    } else {
      var n := |t| - 1;
      q := InsertPlaces(s, t[..n], x, key, p[..n]);
      BeforeLast(s, t, x, key, p, Insert(t[..n], x, key), q);
      PlacesAppend(s + [x], Insert(t[..n], x, key), key, q, p[n]);
      q := q + [p[n]];
    }
  }

  lemma BeforeLast<T>(s: seq<T>, t: seq<T>, x: T, key: T -> int, p: seq<nat>, r: seq<T>, q: seq<nat>)
    requires Places(s, t, key, p) && t != [] && key(t[|t| - 1]) > key(x)
    requires Places(s + [x], r, key, q) && forall i :: 0 <= i < |q| ==> q[i] == |s| || q[i] in p[..|t| - 1]
    ensures var last, j := t[|t| - 1], p[|t| - 1];
            forall i :: 0 <= i < |q| ==> key(r[i]) < key(last) || (key(r[i]) == key(last) && q[i] < j)
  {
    forall i | 0 <= i < |q| && q[i] != |s|
      ensures key(r[i]) < key(t[|t| - 1]) || (key(r[i]) == key(t[|t| - 1]) && q[i] < p[|t| - 1])
    {
      var k :| 0 <= k < |t| - 1 && p[..|t| - 1][k] == q[i];
      assert t[k] == s[p[k]];
    }
  }

  /** Sorting rearranges: each place of the result holds the element of one place of `s`, and no place is used twice. */
  lemma {:induction false} SortPlaces<T>(s: seq<T>, key: T -> int) returns (p: seq<nat>)
    ensures Places(s, Sort(s, key), key, p) && |p| == |s|
  {
    if s == [] {
      p := [];
    } else {
      var front, x := s[..|s| - 1], s[|s| - 1];
      var q := SortPlaces(front, key);
      p := InsertPlaces(front, Sort(front, key), x, key, q);
      assert s == front + [x];
    }
  }

  lemma {:induction false} OfKeyHead<T>(s: seq<T>, key: T -> int, c: int) returns (k: nat)
    requires OfKey(s, key, c) != []
    ensures k < |s| && s[k] == OfKey(s, key, c)[0]
  {
    var front := s[..|s| - 1];
    if OfKey(front, key, c) == [] {
      k := |s| - 1;
    } else {
      k := OfKeyHead(front, key, c);
    }
  }

  /** The first element with a key, in a sequence and among the elements with that key. */
  lemma {:induction false} OfKeyFirst<T>(s: seq<T>, key: T -> int, i: nat) returns (k: nat)
    requires i < |s|
    ensures k <= i && OfKey(s, key, key(s[i])) != [] && OfKey(s, key, key(s[i]))[0] == s[k]
  {
    var front := s[..|s| - 1];
    if i < |front| {
      k := OfKeyFirst(front, key, i);
    } else if OfKey(front, key, key(s[i])) == [] {
      k := i;
    } else {
      k := OfKeyHead(front, key, key(s[i]));
    }
  }

  /** The head of the sorted arrangement is the first element of `s` with its key. */
  lemma HeadIsFirst<T>(s: seq<T>, key: T -> int, i: nat) returns (k: nat)
    requires i < |s| && Sort(s, key) != [] && key(s[i]) == key(Sort(s, key)[0])
    ensures k <= i && s[k] == Sort(s, key)[0]
  {
    SortIsStable(s, key, key(s[i]));
    k := OfKeyFirst(s, key, i);
    var h := OfKeyFirst(Sort(s, key), key, 0);
  }

  ghost predicate SameGroups<T>(s: seq<T>, t: seq<T>, key: T -> int) {
    forall k :: OfKey(s, key, k) == OfKey(t, key, k)
  }

  /**
   * Sortedness and stability leave no choice: a sorted arrangement that keeps
   * equal keys in the order of `s` is Sort(s).
   */
  lemma {:induction false} StableSortIsUnique<T>(s: seq<T>, t: seq<T>, key: T -> int)
    requires SortedBy(s, key) && SortedBy(t, key)
    requires SameGroups(s, t, key)
    ensures s == t
  {
    SameGroupsSameMembers(s, t, key);
    SameGroupsSameMembers(t, s, key);
    if s != [] && t != [] {
      SameLastKey(s, t, key);
      SameLast(s, t, key);
      StableSortIsUnique(s[..|s| - 1], t[..|t| - 1], key);
    }
  }

  lemma {:induction false} SameLast<T>(s: seq<T>, t: seq<T>, key: T -> int)
    requires s != [] && t != [] && key(s[|s| - 1]) == key(t[|t| - 1])
    requires SameGroups(s, t, key)
    ensures s[|s| - 1] == t[|t| - 1]
    ensures SameGroups(s[..|s| - 1], t[..|t| - 1], key)
  {
    var x, y, s', t' := s[|s| - 1], t[|t| - 1], s[..|s| - 1], t[..|t| - 1];
    assert OfKey(s, key, key(x)) == OfKey(s', key, key(x)) + [x];
    assert OfKey(t, key, key(x)) == OfKey(t', key, key(x)) + [y];
    assert x == OfKey(s, key, key(x))[|OfKey(s, key, key(x))| - 1] == y;
    forall k: int ensures OfKey(s', key, k) == OfKey(t', key, k) {
      var ss, tt := OfKey(s', key, k), OfKey(t', key, k);
      var tail := if key(x) == k then [x] else [];
      assert OfKey(s, key, k) == ss + tail && OfKey(t, key, k) == tt + tail;
      assert ss == (ss + tail)[..|ss + tail| - |tail|] && tt == (tt + tail)[..|tt + tail| - |tail|];
    }
  }

  lemma {:induction false} SameGroupsSameMembers<T>(s: seq<T>, t: seq<T>, key: T -> int)
    requires SameGroups(s, t, key)
    ensures forall x :: x in s ==> x in t
    ensures s != [] ==> t != []
  {
    forall x | x in s ensures x in t {
      OfKeyMembers(s, key, key(x));
      OfKeyMembers(t, key, key(x));
      assert x in OfKey(t, key, key(x));
    }
    if s != [] {
      assert s[0] in t;
    }
  }

  lemma {:induction false} SameLastKey<T>(s: seq<T>, t: seq<T>, key: T -> int)
    requires SortedBy(s, key) && SortedBy(t, key)
    requires SameGroups(s, t, key)
    requires s != [] && t != []
    ensures key(s[|s| - 1]) == key(t[|t| - 1])
  {
    SameGroupsSameMembers(s, t, key);
    SameGroupsSameMembers(t, s, key);
    assert s[|s| - 1] in t && t[|t| - 1] in s;
  }
}
