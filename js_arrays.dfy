/**
 * The array idioms the components use to compute a new state value:
 * dropping one position (`xs.filter((_, i) => i !== k)`), dropping one value
 * (`xs.filter(y => y !== x)`), and the include/exclude toggle built on them.
 */
module JsArrays {

  /** `s.filter((_, i) => i !== k)`: keep every element whose position is not `k`. */
  function ExceptIndex<T>(s: seq<T>, k: int): (r: seq<T>)
    ensures 0 <= k < |s| ==> r == s[..k] + s[k + 1..]
    ensures !(0 <= k < |s|) ==> r == s
  {
    if |s| == 0 then []
    else
      var rest := ExceptIndex(s[1..], k - 1);
      if k == 0 then rest
      else
        assert 0 < k < |s| ==> [s[0]] + rest == s[..k] + s[k + 1..];
        [s[0]] + rest
  }

  ghost predicate NoDuplicates<T>(s: seq<T>) {
    forall i, j :: 0 <= i < j < |s| ==> s[i] != s[j]
  }

  /** `s.filter(y => y !== x)`: keep every element that is not `x`, in order. */
  function Without<T(==)>(s: seq<T>, x: T): (r: seq<T>)
    ensures forall i :: 0 <= i < |r| ==> r[i] in s && r[i] != x
    ensures forall i :: 0 <= i < |s| && s[i] != x ==> s[i] in r
    ensures |r| <= |s|
  {
    if |s| == 0 then []
    else if s[0] == x then Without(s[1..], x)
    else [s[0]] + Without(s[1..], x)
  }

  /** The filter keeps every element other than `x` as often as it occurs, and no `x`. */
  lemma {:induction false} WithoutCount<T>(s: seq<T>, x: T)
    ensures multiset(Without(s, x)) == multiset(s)[x := 0]
  {
    if |s| > 0 {
      WithoutCount(s[1..], x);
      assert s == [s[0]] + s[1..];
    }
  }

  /** Filtering distributes over concatenation, so the kept elements stay in their order. */
  lemma {:induction false} WithoutConcat<T>(a: seq<T>, b: seq<T>, x: T)
    ensures Without(a + b, x) == Without(a, x) + Without(b, x)
  {
    if |a| > 0 {
      var ab := a + b;
      assert ab[0] == a[0];
      assert ab[1..] == a[1..] + b;
      WithoutConcat(a[1..], b, x);
    } else {
      assert a + b == b;
    }
  }

  /** The filter equations: one step at the end of the list. */
  lemma WithoutSnoc<T>(s: seq<T>, y: T, x: T)
    ensures Without([], x) == []
    ensures Without(s + [y], x) == Without(s, x) + (if y == x then [] else [y])
  {
    WithoutConcat(s, [y], x);
    assert [y][1..] == [];
  }

  /** Filtering out a value that is absent gives back the same list. */
  lemma {:induction false} WithoutAbsent<T>(s: seq<T>, x: T)
    requires x !in s
    ensures Without(s, x) == s
  {
    if |s| > 0 {
      WithoutAbsent(s[1..], x);
    }
  }

  /** Filtering keeps a list free of duplicates. */
  lemma {:induction false} WithoutNoDuplicates<T>(s: seq<T>, x: T)
    requires NoDuplicates(s)
    ensures NoDuplicates(Without(s, x))
  {
    if |s| > 0 {
      WithoutNoDuplicates(s[1..], x);
      assert s[0] !in s[1..];
    }
  }

  /** `prev.includes(x) ? prev.filter(y => y !== x) : [...prev, x]` */
  function Toggle<T(==)>(s: seq<T>, x: T): (r: seq<T>)
    ensures x in r <==> x !in s
    ensures forall i :: 0 <= i < |s| && s[i] != x ==> s[i] in r
    ensures forall i :: 0 <= i < |r| && r[i] != x ==> r[i] in s
    ensures x !in s ==> r == s + [x]
  {
    if x in s then Without(s, x) else s + [x]
  }

  /** Toggling never introduces a duplicate. */
  lemma ToggleNoDuplicates<T>(s: seq<T>, x: T)
    requires NoDuplicates(s)
    ensures NoDuplicates(Toggle(s, x))
  {
    if x in s {
      WithoutNoDuplicates(s, x);
    }
  }

  /** Toggling twice restores membership; from an absent value it restores the very list. */
  lemma ToggleTwice<T>(s: seq<T>, x: T)
    ensures forall y :: y in Toggle(Toggle(s, x), x) <==> y in s
    ensures x !in s ==> Toggle(Toggle(s, x), x) == s
  {
    if x !in s {
      var t := s + [x];
      assert Without(t, x) == s by {
        WithoutAppend(s, x);
      }
    }
  }

  lemma {:induction false} WithoutAppend<T>(s: seq<T>, x: T)
    requires x !in s
    ensures Without(s + [x], x) == s
  {
    if |s| == 0 {
      assert s + [x] == [x];
    } else {
      WithoutAppend(s[1..], x);
      assert (s + [x])[1..] == s[1..] + [x];
    }
  }
}
