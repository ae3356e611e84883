/** The order in which the roll inspector lists roll options: `R.sortBy(options.sort(),
    (o) => o.includes(":"))`, used for the message's options and again for each
    modifier's and damage die's own options in the tooltip. */
module RollOptions {
  import opened JsStrings
  import opened Sorting

  /** The option has a `prefix:` namespace: it holds a colon. */
  predicate IsNamespaced(o: JsString)
  {
    Colon in o
  }

  /** IsNamespaced is the source's sort key, `o.includes(":")`. */
  lemma NamespacedIsIncludesColon(o: JsString)
    ensures IsNamespaced(o) <==> Includes(o, [Colon])
  {
    IncludesUnit(o, Colon);
  }

  /** `R.sortBy(options.sort(), (o) => o.includes(":"))`: the same options,
      duplicates included. */
  function OrderRollOptions(options: seq<JsString>): (r: seq<JsString>)
    ensures |r| == |options|
    ensures multiset(r) == multiset(options)
  {
    var sorted := SortStrings(options);
    KeepSplitsMultiset(sorted, IsNamespaced);
    var r := SortByKey(sorted, IsNamespaced);
    assert |multiset(r)| == |multiset(options)|;
    r
  }

  /** Un-namespaced options come before namespaced ones. */
  ghost predicate PlainFirst(r: seq<JsString>)
  {
    forall i, j :: 0 <= i < j < |r| && IsNamespaced(r[i]) ==> IsNamespaced(r[j])
  }

  /** Within each of the two groups the options are in ascending string order. */
  ghost predicate GroupsSorted(r: seq<JsString>)
  {
    forall i, j :: 0 <= i < j < |r| && IsNamespaced(r[i]) == IsNamespaced(r[j]) ==> Below(r[i], r[j])
  }

  /** The ordered list holds the same options, duplicates included, with the plain
      group first and each group sorted. */
  lemma {:induction false} OrderRollOptionsSpec(options: seq<JsString>)
    ensures |OrderRollOptions(options)| == |options|
    ensures multiset(OrderRollOptions(options)) == multiset(options)
    ensures PlainFirst(OrderRollOptions(options))
    ensures GroupsSorted(OrderRollOptions(options))
  {
    var t := SortStrings(options);
    KeepHasKey(t, IsNamespaced, false);
    KeepHasKey(t, IsNamespaced, true);
    KeepSorted(t, IsNamespaced, false);
    KeepSorted(t, IsNamespaced, true);
    PlainThenNamespaced(Keep(t, IsNamespaced, false), Keep(t, IsNamespaced, true));
  }

  /** A sorted plain group followed by a sorted namespaced group is in roll-option order. */
  lemma {:induction false} PlainThenNamespaced(a: seq<JsString>, b: seq<JsString>)
    requires forall k :: 0 <= k < |a| ==> !IsNamespaced(a[k])
    requires forall k :: 0 <= k < |b| ==> IsNamespaced(b[k])
    requires IsSorted(a) && IsSorted(b)
    ensures PlainFirst(a + b) && GroupsSorted(a + b)
  {
    var r := a + b;
    forall i, j | 0 <= i < j < |r| && IsNamespaced(r[i]) == IsNamespaced(r[j])
      ensures Below(r[i], r[j])
    {
      if IsNamespaced(r[i]) {
        assert i >= |a|;
        assert r[i] == b[i - |a|] && r[j] == b[j - |a|];
      } else {
        assert j < |a|;
        assert r[i] == a[i] && r[j] == a[j];
      }
    }
  }

  /** The properties of OrderRollOptionsSpec determine the ordered list: any
      arrangement of the options with the plain group first and both groups
      sorted is exactly OrderRollOptions. */
  lemma {:induction false} OrderRollOptionsUnique(options: seq<JsString>, r: seq<JsString>)
    requires multiset(r) == multiset(options)
    requires PlainFirst(r) && GroupsSorted(r)
    ensures r == OrderRollOptions(options)
  {
    OrderRollOptionsSpec(options);
    SameArrangement(options, r, OrderRollOptions(options));
  }

  lemma {:induction false} SameArrangement(options: seq<JsString>, r: seq<JsString>, q: seq<JsString>)
    requires multiset(r) == multiset(options) && multiset(q) == multiset(options)
    requires PlainFirst(r) && GroupsSorted(r)
    requires PlainFirst(q) && GroupsSorted(q)
    ensures r == q
  {
    var p, p' := Count(r), Count(q);
    GroupsOfArrangement(options, r);
    GroupsOfArrangement(options, q);
    SortedPermutationUnique(r[..p], q[..p']);
    SortedPermutationUnique(r[p..], q[p'..]);
    SplitJoin(r, p);
    SplitJoin(q, p');
  }

  lemma {:induction false} SplitJoin(r: seq<JsString>, p: nat)
    requires p <= |r|
    ensures r == r[..p] + r[p..]
  {
  }

  /** In an arrangement with the plain group first and both groups sorted, the
      plain group is a sorted arrangement of the options' plain ones, and
      likewise for the namespaced group. */
  lemma {:induction false} GroupsOfArrangement(options: seq<JsString>, r: seq<JsString>)
    requires multiset(r) == multiset(options)
    requires PlainFirst(r) && GroupsSorted(r)
    ensures IsSorted(r[..Count(r)]) && IsSorted(r[Count(r)..])
    ensures multiset(r[..Count(r)]) == multiset(Keep(options, IsNamespaced, false))
    ensures multiset(r[Count(r)..]) == multiset(Keep(options, IsNamespaced, true))
  {
    var p := Count(r);
    GroupSorted(r, 0, p);
    GroupSorted(r, p, |r|);
    assert r[0..p] == r[..p];
    GroupMultisets(options, r, p);
  }

  lemma {:induction false} GroupMultisets(options: seq<JsString>, r: seq<JsString>, p: nat)
    requires multiset(r) == multiset(options) && p <= |r|
    requires forall k :: 0 <= k < p ==> !IsNamespaced(r[k])
    requires forall k :: p <= k < |r| ==> IsNamespaced(r[k])
    ensures multiset(r[..p]) == multiset(Keep(options, IsNamespaced, false))
    ensures multiset(r[p..]) == multiset(Keep(options, IsNamespaced, true))
  {
    var x, y := r[..p], r[p..];
    assert r == x + y;
    KeepSplitsMultiset(options, IsNamespaced);
    KeepHasKey(options, IsNamespaced, false);
    KeepHasKey(options, IsNamespaced, true);
    forall k | 0 <= k < |x| ensures !IsNamespaced(x[k]) {
      assert x[k] == r[k];
    }
    forall k | 0 <= k < |y| ensures IsNamespaced(y[k]) {
      assert y[k] == r[p + k];
    }
    SameGroupMultisets(x, y, Keep(options, IsNamespaced, false), Keep(options, IsNamespaced, true));
  }

  /** The length of the plain group of a list whose plain group comes first. */
  function Count(r: seq<JsString>): (p: nat)
    requires PlainFirst(r)
    ensures p <= |r|
    ensures forall k :: 0 <= k < p ==> !IsNamespaced(r[k])
    ensures forall k :: p <= k < |r| ==> IsNamespaced(r[k])
  {
    if r == [] || IsNamespaced(r[0]) then 0 else 1 + Count(r[1..])
  }

  lemma {:induction false} GroupSorted(r: seq<JsString>, lo: nat, hi: nat)
    requires lo <= hi <= |r| && GroupsSorted(r)
    requires forall k :: lo <= k < hi ==> IsNamespaced(r[k]) == IsNamespaced(r[lo])
    ensures IsSorted(r[lo..hi])
  {
  }

  /** Two splits of one multiset into a plain part and a namespaced part agree part by part. */
  lemma {:induction false} SameGroupMultisets(x: seq<JsString>, y: seq<JsString>, z: seq<JsString>, w: seq<JsString>)
    requires forall k :: 0 <= k < |x| ==> !IsNamespaced(x[k])
    requires forall k :: 0 <= k < |z| ==> !IsNamespaced(z[k])
    requires forall k :: 0 <= k < |y| ==> IsNamespaced(y[k])
    requires forall k :: 0 <= k < |w| ==> IsNamespaced(w[k])
    requires multiset(x) + multiset(y) == multiset(z) + multiset(w)
    ensures multiset(x) == multiset(z) && multiset(y) == multiset(w)
  {
    forall e
      ensures multiset(x)[e] == multiset(z)[e] && multiset(y)[e] == multiset(w)[e]
    {
      if IsNamespaced(e) {
        assert e !in x && e !in z;
      } else {
        assert e !in y && e !in w;
      }
      assert (multiset(x) + multiset(y))[e] == (multiset(z) + multiset(w))[e];
    }
  }

  /** The worked example: `["flat-footed", "trait:fire", "all"]` is listed as
      `["all", "flat-footed", "trait:fire"]`. */
  lemma {:induction false} OrderRollOptionsExample(all: JsString, flat: JsString, fire: JsString)
    requires all == Ascii("all") && flat == Ascii("flat-footed") && fire == Ascii("trait:fire")
    ensures OrderRollOptions([flat, fire, all]) == [all, flat, fire]
  {
    assert Colon !in all;
    assert Colon !in flat;
    assert fire[5] == Colon;
    var r := [all, flat, fire];
    assert Below(all, flat) && Below(all, fire) && Below(flat, fire);
    assert multiset(r) == multiset([flat, fire, all]);
    OrderRollOptionsUnique([flat, fire, all], r);
  }
}
