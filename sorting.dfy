/** The two sorts `getData` composes: `Array.prototype.sort()` with no comparator
    (ascending JavaScript string order) and remeda's stable `sortBy` with a boolean
    key (`false` before `true`). */
module Sorting {
  import opened JsStrings

  ghost predicate IsSorted(s: seq<JsString>)
  {
    forall i, j :: 0 <= i < j < |s| ==> Below(s[i], s[j])
  }

  /** Puts `x` in front of the first element it is not above. */
  function Insert(x: JsString, s: seq<JsString>): (r: seq<JsString>)
    requires IsSorted(s)
    ensures multiset(r) == multiset(s) + multiset{x}
    ensures IsSorted(r)
  {
    if s == [] then [x]
    else if Below(x, s[0]) then
      InsertInFront(x, s);
      [x] + s
    else
      BelowTotal(x, s[0]);
      var u := Insert(x, s[1..]);
      assert s == [s[0]] + s[1..];
      InsertAfterMinimum(s[0], x, s[1..], u);
      [s[0]] + u
  }

  lemma {:induction false} InsertInFront(x: JsString, s: seq<JsString>)
    requires IsSorted(s) && s != [] && Below(x, s[0])
    ensures IsSorted([x] + s)
  {
    forall j | 0 < j < |[x] + s|
      ensures Below(([x] + s)[0], ([x] + s)[j])
    {
      if j > 1 {
        BelowTransitive(x, s[0], s[j - 1]);
      }
    }
  }

  lemma {:induction false} InsertAfterMinimum(m: JsString, x: JsString, t: seq<JsString>, u: seq<JsString>)
    requires IsSorted([m] + t) && Below(m, x)
    requires IsSorted(u) && multiset(u) == multiset(t) + multiset{x}
    ensures IsSorted([m] + u)
  {
    forall j | 0 <= j < |u|
      ensures Below(m, u[j])
    {
      assert u[j] in multiset(u);
      if u[j] != x {
        assert u[j] in multiset(t);
        assert u[j] in t;
        var k :| 0 <= k < |t| && t[k] == u[j];
        assert Below(([m] + t)[0], ([m] + t)[k + 1]);
      }
    }
    forall i, j | 0 <= i < j < |[m] + u|
      ensures Below(([m] + u)[i], ([m] + u)[j])
    {
      if i > 0 {
        assert Below(u[i - 1], u[j - 1]);
      }
    }
  }

  /** `options.sort()`: ascending JavaScript string order, an insertion sort as
      the reference. */
  function SortStrings(s: seq<JsString>): (r: seq<JsString>)
    ensures multiset(r) == multiset(s)
    ensures IsSorted(r)
  {
    if s == [] then []
    else
      assert s == [s[0]] + s[1..];
      Insert(s[0], SortStrings(s[1..]))
  }

  /** Two sorted arrangements of the same strings are the same sequence: since the
      string order is total and antisymmetric, what `sort()` returns does not depend
      on the engine's algorithm. */
  lemma {:induction false} SortedPermutationUnique(a: seq<JsString>, b: seq<JsString>)
    requires IsSorted(a) && IsSorted(b) && multiset(a) == multiset(b)
    ensures a == b
    decreases |a|
  {
    if a == [] {
      assert |b| == |multiset(b)| == 0;
    } else {
      assert |b| == |multiset(b)| == |multiset(a)| == |a|;
      SortedHeadsEqual(a, b);
      TailMultiset(a);
      TailMultiset(b);
      SortedPermutationUnique(a[1..], b[1..]);
      assert a == [a[0]] + a[1..] && b == [b[0]] + b[1..];
    }
  }

  lemma {:induction false} SortedHeadsEqual(a: seq<JsString>, b: seq<JsString>)
    requires IsSorted(a) && IsSorted(b) && multiset(a) == multiset(b)
    requires a != [] && b != []
    ensures a[0] == b[0]
  {
    assert b[0] in multiset(a) && a[0] in multiset(b);
    var i :| 0 <= i < |a| && a[i] == b[0];
    var j :| 0 <= j < |b| && b[j] == a[0];
    if i > 0 { assert Below(a[0], a[i]); } else { BelowReflexive(a[0]); }
    if j > 0 { assert Below(b[0], b[j]); } else { BelowReflexive(b[0]); }
    BelowAntisymmetric(a[0], b[0]);
  }

  lemma {:induction false} TailMultiset(a: seq<JsString>)
    requires a != []
    ensures multiset(a[1..]) == multiset(a) - multiset{a[0]}
  {
    assert a == [a[0]] + a[1..];
  }

  /** The output of `sort()` is characterised by its two properties alone. */
  lemma {:induction false} SortStringsUnique(s: seq<JsString>, t: seq<JsString>)
    requires IsSorted(t) && multiset(t) == multiset(s)
    ensures t == SortStrings(s)
  {
    SortedPermutationUnique(t, SortStrings(s));
  }

  /** `key(x) <= key(y)` with `false < true`. */
  predicate KeyAtMost(key: JsString -> bool, x: JsString, y: JsString)
  {
    !key(x) || key(y)
  }

  /** Stable insertion: `x` goes in front of the first element whose key is not below its own. */
  function InsertByKey(x: JsString, s: seq<JsString>, key: JsString -> bool): seq<JsString>
  {
    if s == [] || KeyAtMost(key, x, s[0]) then [x] + s
    else [s[0]] + InsertByKey(x, s[1..], key)
  }

  /** `R.sortBy(s, key)`: a stable sort on a boolean key, which makes it a stable
      partition: the `false` elements in their order, then the `true` elements in
      their order. */
  function SortByKey(s: seq<JsString>, key: JsString -> bool): (r: seq<JsString>)
    ensures r == Keep(s, key, false) + Keep(s, key, true)
  {
    if s == [] then []
    else
      var rest := SortByKey(s[1..], key);
      PartitionStep(s, key, rest);
      InsertByKey(s[0], rest, key)
  }

  /** Inserting the first element into the partition of the rest gives the
      partition of the whole. */
  lemma {:induction false} PartitionStep(s: seq<JsString>, key: JsString -> bool, rest: seq<JsString>)
    requires s != [] && rest == Keep(s[1..], key, false) + Keep(s[1..], key, true)
    ensures InsertByKey(s[0], rest, key) == Keep(s, key, false) + Keep(s, key, true)
  {
    var a, b := Keep(s[1..], key, false), Keep(s[1..], key, true);
    if key(s[0]) {
      KeepHasKey(s[1..], key, false);
      KeepHasKey(s[1..], key, true);
      InsertByKeyAfterFalse(s[0], a, b, key);
      assert Keep(s, key, false) == a && Keep(s, key, true) == [s[0]] + b;
    } else {
      assert InsertByKey(s[0], a + b, key) == [s[0]] + (a + b);
      assert Keep(s, key, false) == [s[0]] + a && Keep(s, key, true) == b;
    }
  }

  /** The elements of `s` whose key is `want`, in their order in `s`. */
  function Keep(s: seq<JsString>, key: JsString -> bool, want: bool): seq<JsString>
  {
    if s == [] then []
    else (if key(s[0]) == want then [s[0]] else []) + Keep(s[1..], key, want)
  }

  lemma {:induction false} InsertByKeyAfterFalse(x: JsString, a: seq<JsString>, b: seq<JsString>, key: JsString -> bool)
    requires key(x)
    requires forall k :: 0 <= k < |a| ==> !key(a[k])
    requires forall k :: 0 <= k < |b| ==> key(b[k])
    ensures InsertByKey(x, a + b, key) == a + [x] + b
    decreases |a|
  {
    if a == [] {
      assert a + b == b;
    } else {
      assert (a + b)[0] == a[0] && (a + b)[1..] == a[1..] + b;
      InsertByKeyAfterFalse(x, a[1..], b, key);
      assert a == [a[0]] + a[1..];
    }
  }

  lemma {:induction false} KeepHasKey(s: seq<JsString>, key: JsString -> bool, want: bool)
    ensures forall k :: 0 <= k < |Keep(s, key, want)| ==> key(Keep(s, key, want)[k]) == want
    decreases |s|
  {
    if s != [] {
      KeepHasKey(s[1..], key, want);
    }
  }

  /** Keeping part of a sequence keeps its multiset split between the two parts. */
  lemma {:induction false} KeepSplitsMultiset(s: seq<JsString>, key: JsString -> bool)
    ensures multiset(Keep(s, key, false)) + multiset(Keep(s, key, true)) == multiset(s)
    decreases |s|
  {
    if s != [] {
      KeepSplitsMultiset(s[1..], key);
      KeepFirst(s, key, false);
      KeepFirst(s, key, true);
      assert s == [s[0]] + s[1..];
    }
  }

  lemma {:induction false} KeepFirst(s: seq<JsString>, key: JsString -> bool, want: bool)
    requires s != []
    ensures multiset(Keep(s, key, want))
         == (if key(s[0]) == want then multiset{s[0]} else multiset{}) + multiset(Keep(s[1..], key, want))
  {
  }

  /** Keep picks a subsequence, so it keeps a sorted sequence sorted. */
  lemma {:induction false} KeepSorted(s: seq<JsString>, key: JsString -> bool, want: bool)
    requires IsSorted(s)
    ensures IsSorted(Keep(s, key, want))
    decreases |s|
  {
    if s != [] {
      var rest := Keep(s[1..], key, want);
      KeepSorted(s[1..], key, want);
      if key(s[0]) == want {
        forall k | 0 <= k < |rest|
          ensures Below(s[0], rest[k])
        {
          KeepIsSubset(s[1..], key, want, k);
          var m :| 0 <= m < |s[1..]| && s[1..][m] == rest[k];
          assert s[m + 1] == rest[k];
        }
      }
    }
  }

  lemma {:induction false} KeepIsSubset(s: seq<JsString>, key: JsString -> bool, want: bool, k: nat)
    requires k < |Keep(s, key, want)|
    ensures exists m :: 0 <= m < |s| && s[m] == Keep(s, key, want)[k]
    decreases |s|
  {
    var rest := Keep(s[1..], key, want);
    if key(s[0]) == want && k == 0 {
      assert s[0] == Keep(s, key, want)[0];
    } else {
      var k' := if key(s[0]) == want then k - 1 else k;
      assert Keep(s, key, want)[k] == rest[k'];
      KeepIsSubset(s[1..], key, want, k');
      var m :| 0 <= m < |s[1..]| && s[1..][m] == rest[k'];
      assert s[m + 1] == rest[k'];
    }
  }
}
