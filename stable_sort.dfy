/**
 * `Array.prototype.sort(compare)`. Since ES2019 the sort is stable, so its
 * result is fully determined by the comparator. Both comparators in the client
 * compare integer pairs lexicographically (a distance and nothing else; a line
 * number, then the seconds left), so the sort is stated over a `Key` per
 * element. `Sort` is the result (an insertion sort), `SortInPlace` computes it
 * on an array, and `SortedStablyIsSort` shows that every stable sort produces
 * the same result.
 */
module StableSort {

  /** A sort key: `major` decides, `minor` breaks ties. */
  datatype Key = Key(major: int, minor: int)

  /** `a` does not come after `b`. */
  predicate NotAfter(a: Key, b: Key)
  {
    a.major < b.major || (a.major == b.major && a.minor <= b.minor)
  }

  /** No element is placed before one whose key is smaller. */
  ghost predicate Sorted<T>(s: seq<T>, key: T -> Key)
  {
    forall i, j :: 0 <= i < j < |s| ==> NotAfter(key(s[i]), key(s[j]))
  }

  /** The elements of `s` whose key is `k`, in their order in `s`. */
  function Class<T>(s: seq<T>, k: Key, key: T -> Key): (r: seq<T>)
    ensures |r| <= |s|
  {
    if s == [] then []
    else Class(s[..|s| - 1], k, key) + (if key(s[|s| - 1]) == k then [s[|s| - 1]] else [])
  }

  /**
   * Where the insertion sort drops `x` into `s[..j]`: just after the last
   * element whose key does not exceed that of `x`.
   */
  function Slot<T>(s: seq<T>, x: T, j: nat, key: T -> Key): (p: nat)
    requires j <= |s|
    ensures p <= j
    ensures p == 0 || NotAfter(key(s[p - 1]), key(x))
    ensures forall i :: p <= i < j ==> !NotAfter(key(s[i]), key(x))
  {
    if j == 0 || NotAfter(key(s[j - 1]), key(x)) then j else Slot(s, x, j - 1, key)
  }

  /** The insertion sort's step for one new element `x`. */
  function Insert<T>(s: seq<T>, x: T, key: T -> Key): (r: seq<T>)
    ensures |r| == |s| + 1
  {
    var p := Slot(s, x, |s|, key);
    s[..p] + [x] + s[p..]
  }

  /** The stable sort of `s`. */
  function Sort<T>(s: seq<T>, key: T -> Key): (r: seq<T>)
    ensures |r| == |s|
  {
    if s == [] then [] else Insert(Sort(s[..|s| - 1], key), s[|s| - 1], key)
  }

  lemma InsertPermutes<T>(s: seq<T>, x: T, key: T -> Key)
    ensures multiset(Insert(s, x, key)) == multiset(s) + multiset{x}
  {
    var p := Slot(s, x, |s|, key);
    assert s == s[..p] + s[p..];
  }

  /** The sort only rearranges its input. */
  lemma {:induction false} SortPermutes<T>(s: seq<T>, key: T -> Key)
    ensures multiset(Sort(s, key)) == multiset(s)
  {
    if s != [] {
      var init, last := s[..|s| - 1], s[|s| - 1];
      SortPermutes(init, key);
      InsertPermutes(Sort(init, key), last, key);
      assert s == init + [last];
      assert multiset(s) == multiset(init) + multiset{last};
    }
  }

  lemma InsertSorted<T>(s: seq<T>, x: T, key: T -> Key)
    requires Sorted(s, key)
    ensures Sorted(Insert(s, x, key), key)
  {
    var p := Slot(s, x, |s|, key);
    var r := Insert(s, x, key);
    forall i, j | 0 <= i < j < |r| ensures NotAfter(key(r[i]), key(r[j])) {
      if j < p {
        assert r[i] == s[i] && r[j] == s[j];
      } else if j == p {
        assert r[i] == s[i] && r[j] == x;
        assert NotAfter(key(s[i]), key(s[p - 1]));
      } else if i < p {
        assert r[i] == s[i] && r[j] == s[j - 1];
      } else if i == p {
        assert r[i] == x && r[j] == s[j - 1];
      } else {
        assert r[i] == s[i - 1] && r[j] == s[j - 1];
      }
    }
  }

  /** The insertion sort orders its result. */
  lemma {:induction false} SortSorted<T>(s: seq<T>, key: T -> Key)
    ensures Sorted(Sort(s, key), key)
  {
    if s != [] {
      SortSorted(s[..|s| - 1], key);
      InsertSorted(Sort(s[..|s| - 1], key), s[|s| - 1], key);
    }
  }

  lemma {:induction false} ClassConcat<T>(a: seq<T>, b: seq<T>, k: Key, key: T -> Key)
    ensures Class(a + b, k, key) == Class(a, k, key) + Class(b, k, key)
    decreases |b|
  {
    if b == [] {
      assert a + b == a;
    } else {
      var b' := b[..|b| - 1];
      ClassConcat(a, b', k, key);
      assert (a + b)[..|a + b| - 1] == a + b';
    }
  }

  lemma {:induction false} ClassEmpty<T>(s: seq<T>, k: Key, key: T -> Key)
    requires forall i :: 0 <= i < |s| ==> key(s[i]) != k
    ensures Class(s, k, key) == []
  {
    if s != [] {
      ClassEmpty(s[..|s| - 1], k, key);
    }
  }

  lemma ClassAppend<T>(s: seq<T>, x: T, k: Key, key: T -> Key)
    ensures Class(s + [x], k, key) == Class(s, k, key) + (if key(x) == k then [x] else [])
  {
    assert (s + [x])[..|s|] == s;
  }

  /** What `x` moves past on insertion has a greater key, so it is outside `x`'s class. */
  lemma ClassPastSlot<T>(s: seq<T>, x: T, key: T -> Key)
    ensures Class(s[Slot(s, x, |s|, key)..], key(x), key) == []
  {
    var p := Slot(s, x, |s|, key);
    var back := s[p..];
    forall i | 0 <= i < |back| ensures key(back[i]) != key(x) {
      assert back[i] == s[p + i];
    }
    ClassEmpty(back, key(x), key);
  }

  /** Inserting `x` appends it to its own class and leaves every other class alone. */
  lemma InsertClass<T>(s: seq<T>, x: T, k: Key, key: T -> Key)
    ensures Class(Insert(s, x, key), k, key) == Class(s, k, key) + (if key(x) == k then [x] else [])
  {
    var p := Slot(s, x, |s|, key);
    var front, back := s[..p], s[p..];
    assert Insert(s, x, key) == (front + [x]) + back;
    ClassConcat(front + [x], back, k, key);
    ClassAppend(front, x, k, key);
    assert s == front + back;
    ClassConcat(front, back, k, key);
    if key(x) == k {
      ClassPastSlot(s, x, key);
    }
  }

  /** Stability: elements with equal keys keep their relative order. */
  lemma {:induction false} SortStable<T>(s: seq<T>, k: Key, key: T -> Key)
    ensures Class(Sort(s, key), k, key) == Class(s, k, key)
  {
    if s != [] {
      var init, last := s[..|s| - 1], s[|s| - 1];
      SortStable(init, k, key);
      InsertClass(Sort(init, key), last, k, key);
    }
  }

  lemma {:induction false} ClassMembers<T>(s: seq<T>, k: Key, key: T -> Key, e: T)
    requires e in Class(s, k, key)
    ensures e in s && key(e) == k
  {
    if s != [] {
      var init := s[..|s| - 1];
      if e in Class(init, k, key) {
        ClassMembers(init, k, key, e);
        assert e in s;
      }
    }
  }

  lemma SortedInit<T>(s: seq<T>, key: T -> Key)
    requires Sorted(s, key) && s != []
    ensures Sorted(s[..|s| - 1], key)
  {
    var s' := s[..|s| - 1];
    forall i, j | 0 <= i < j < |s'| ensures NotAfter(key(s'[i]), key(s'[j])) {
      assert s'[i] == s[i] && s'[j] == s[j];
    }
  }

  /** The class of a last element ends with that element. */
  lemma ClassOfLast<T>(s: seq<T>, key: T -> Key)
    requires s != []
    ensures Class(s, key(s[|s| - 1]), key) == Class(s[..|s| - 1], key(s[|s| - 1]), key) + [s[|s| - 1]]
  {
  }

  /** If the class of `r`'s last element is the same in `t`, then that key does not exceed the key of `t`'s last element. */
  lemma LastNotAfter<T>(r: seq<T>, t: seq<T>, key: T -> Key)
    requires Sorted(t, key) && r != [] && t != []
    requires Class(r, key(r[|r| - 1]), key) == Class(t, key(r[|r| - 1]), key)
    ensures NotAfter(key(r[|r| - 1]), key(t[|t| - 1]))
  {
    var a, k := r[|r| - 1], key(r[|r| - 1]);
    ClassOfLast(r, key);
    var c := Class(t, k, key);
    assert c[|c| - 1] == a;
    ClassMembers(t, k, key, a);
    var i :| 0 <= i < |t| && t[i] == a;
    SortedToLast(t, key, i);
  }

  lemma SortedToLast<T>(t: seq<T>, key: T -> Key, i: nat)
    requires Sorted(t, key) && i < |t|
    ensures NotAfter(key(t[i]), key(t[|t| - 1]))
  {
    if i < |t| - 1 {
      assert NotAfter(key(t[i]), key(t[|t| - 1]));
    }
  }

  /** Two sorted sequences with the same classes end with the same element. */
  lemma LastElements<T>(r: seq<T>, t: seq<T>, key: T -> Key)
    requires Sorted(r, key) && Sorted(t, key) && r != [] && t != []
    requires forall k :: Class(r, k, key) == Class(t, k, key)
    ensures r[|r| - 1] == t[|t| - 1]
  {
    var a, b := r[|r| - 1], t[|t| - 1];
    var c := Class(r, key(a), key);
    assert c == Class(t, key(a), key);
    LastNotAfter(r, t, key);
    assert Class(t, key(b), key) == Class(r, key(b), key);
    LastNotAfter(t, r, key);
    // the keys are equal, so `a` and `b` both end the same class
    ClassOfLast(r, key);
    ClassOfLast(t, key);
    assert c[|c| - 1] == a;
  }

  /** Dropping the same last element from two sequences leaves classes that agreed still agreeing. */
  lemma ClassesOfInit<T>(r: seq<T>, t: seq<T>, x: T, k: Key, key: T -> Key)
    requires Class(r + [x], k, key) == Class(t + [x], k, key)
    ensures Class(r, k, key) == Class(t, k, key)
  {
    var tail := if key(x) == k then [x] else [];
    ClassAppend(r, x, k, key);
    ClassAppend(t, x, k, key);
    var c := Class(r + [x], k, key);
    assert Class(r, k, key) == c[..|c| - |tail|];
    assert Class(t, k, key) == c[..|c| - |tail|];
  }

  /**
   * A sorted sequence is determined by its classes: two sorted sequences
   * whose classes agree everywhere are equal.
   */
  lemma {:induction false} SortedDeterminedByClasses<T>(r: seq<T>, t: seq<T>, key: T -> Key)
    requires Sorted(r, key) && Sorted(t, key)
    requires forall k :: Class(r, k, key) == Class(t, k, key)
    ensures r == t
    decreases |r|
  {
    if r == [] && t != [] {
      ClassOfLast(t, key);
    } else if r != [] && t == [] {
      ClassOfLast(r, key);
    } else if r != [] {
      LastElements(r, t, key);
      var r', t', x := r[..|r| - 1], t[..|t| - 1], r[|r| - 1];
      assert r == r' + [x] && t == t' + [x];
      forall k ensures Class(r', k, key) == Class(t', k, key) {
        assert Class(r' + [x], k, key) == Class(t' + [x], k, key);
        ClassesOfInit(r', t', x, k, key);
      }
      SortedInit(r, key);
      SortedInit(t, key);
      SortedDeterminedByClasses(r', t', key);
    }
  }

  /**
   * Any sorted sequence that lists every class of `s` in its order in `s` is
   * `Sort(s)`: whichever stable algorithm the engine runs, the result is the same.
   */
  lemma SortedStablyIsSort<T>(s: seq<T>, r: seq<T>, key: T -> Key)
    requires Sorted(r, key)
    requires forall k :: Class(r, k, key) == Class(s, k, key)
    ensures r == Sort(s, key)
  {
    SortSorted(s, key);
    forall k ensures Class(r, k, key) == Class(Sort(s, key), k, key) {
      SortStable(s, k, key);
    }
    SortedDeterminedByClasses(r, Sort(s, key), key);
  }

  /** Insertion sort of an array in place; its result is `Sort` of the old contents. */
  method SortInPlace<T>(a: array<T>, key: T -> Key)
    modifies a
    ensures a[..] == Sort(old(a[..]), key)
  {
    ghost var input := a[..];
    var i := 0;
    while i < a.Length
      invariant 0 <= i <= a.Length
      invariant a[..i] == Sort(input[..i], key)
      invariant a[i..] == input[i..]
    {
      InsertInPlace(a, i, key);
      assert input[..i + 1] == input[..i] + [input[i]];
      i := i + 1;
    }
    assert input[..a.Length] == input;
  }

  /**
   * One pass of the insertion sort: shifts the elements of `a[..i]` whose key
   * exceeds that of `a[i]` one place right and drops `a[i]` into the gap.
   */
  method InsertInPlace<T>(a: array<T>, i: nat, key: T -> Key)
    requires i < a.Length
    modifies a
    ensures a[..i + 1] == Insert(old(a[..i]), old(a[i]), key)
    ensures a[i + 1..] == old(a[i + 1..])
  {
    ghost var done := a[..i];
    var x := a[i];
    var j := ShiftAbove(a, i, x, key);
    a[j] := x;
    ghost var after := a[..];
    assert forall k :: 0 <= k < j ==> after[k] == done[k];
    assert forall k :: j < k <= i ==> after[k] == done[k - 1];
    InsertedAt(after, done, x, j, key);
    assert a[i + 1..] == old(a[i + 1..]) by {
      assert forall k :: i < k < a.Length ==> a[k] == old(a[k]);
    }
  }

  /**
   * The inner loop of the pass: moves each element of `a[..i]` whose key
   * exceeds that of `x` one place right, scanning from the right, and returns
   * the gap.
   */
  method ShiftAbove<T>(a: array<T>, i: nat, x: T, key: T -> Key) returns (j: nat)
    requires i < a.Length
    modifies a
    ensures j <= i && j == Slot(old(a[..i]), x, i, key)
    ensures forall k :: 0 <= k < j ==> a[k] == old(a[k])
    ensures forall k :: j < k <= i ==> a[k] == old(a[k - 1])
    ensures forall k :: i < k < a.Length ==> a[k] == old(a[k])
  {
    ghost var done := a[..i];
    j := i;
    while j > 0 && !NotAfter(key(a[j - 1]), key(x))
      invariant 0 <= j <= i
      invariant forall k :: 0 <= k < j ==> a[k] == done[k]
      invariant forall k :: j < k <= i ==> a[k] == done[k - 1]
      invariant forall k :: i < k < a.Length ==> a[k] == old(a[k])
      invariant Slot(done, x, j, key) == Slot(done, x, i, key)
    {
      assert a[j - 1] == done[j - 1];
      a[j] := a[j - 1];
      j := j - 1;
    }
    assert j > 0 ==> a[j - 1] == done[j - 1];
  }

  /** The array after the pass, read as a sequence, is `Insert(done, x)`. */
  lemma InsertedAt<T>(after: seq<T>, done: seq<T>, x: T, j: nat, key: T -> Key)
    requires j <= |done| < |after| && Slot(done, x, j, key) == Slot(done, x, |done|, key)
    requires j == 0 || NotAfter(key(done[j - 1]), key(x))
    requires forall k :: 0 <= k < j ==> after[k] == done[k]
    requires after[j] == x
    requires forall k :: j < k <= |done| ==> after[k] == done[k - 1]
    ensures after[..|done| + 1] == Insert(done, x, key)
  {
    assert Slot(done, x, j, key) == j;
    var r := done[..j] + [x] + done[j..];
    assert |r| == |done| + 1;
    forall k | 0 <= k < |r| ensures after[k] == r[k] {
      if k < j {
      } else if k == j {
      } else {
        assert r[k] == done[k - 1];
      }
    }
    assert after[..|done| + 1] == r;
  }
}
