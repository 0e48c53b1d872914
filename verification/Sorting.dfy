/** Lexicographic order on strings, and sorting a set of them. */
module Sorting {

  /** Strict lexicographic order. */
  predicate Less(a: string, b: string) {
    b != "" && (a == "" || a[0] < b[0] || (a[0] == b[0] && Less(a[1..], b[1..])))
  }

  lemma {:induction false} LessIsTotal(a: string, b: string)
    ensures a == b <==> !Less(a, b) && !Less(b, a)
    ensures !(Less(a, b) && Less(b, a))
  {
    if a != "" && b != "" && a[0] == b[0] {
      LessIsTotal(a[1..], b[1..]);
      assert a == [a[0]] + a[1..] && b == [b[0]] + b[1..];
    }
  }

  /** The first difference decides, and where there is none the length. */
  lemma {:induction false} LessExactly(a: string, b: string)
    ensures Less(a, b) <==> exists k ::
      0 <= k <= |a| && k < |b| && a[..k] == b[..k] && (k == |a| || a[k] < b[k])
  {
    if a != "" && b != "" && a[0] == b[0] {
      LessExactly(a[1..], b[1..]);
      if Less(a, b) {
        var k :| 0 <= k <= |a[1..]| && k < |b[1..]| && a[1..][..k] == b[1..][..k] && (k == |a[1..]| || a[1..][k] < b[1..][k]);
        assert a[..k + 1] == [a[0]] + a[1..][..k] && b[..k + 1] == [b[0]] + b[1..][..k];
        assert k + 1 == |a| || a[k + 1] < b[k + 1];
      }
      if k :| 0 <= k <= |a| && k < |b| && a[..k] == b[..k] && (k == |a| || a[k] < b[k]) {
        assert k > 0;
        assert a[1..][..k - 1] == a[..k][1..] && b[1..][..k - 1] == b[..k][1..];
        assert k - 1 == |a[1..]| || a[1..][k - 1] < b[1..][k - 1];
      }
    } else if a == "" && b != "" {
      assert a[..0] == b[..0];
    } else if a != "" && b != "" && a[0] < b[0] {
      assert a[..0] == b[..0];
    } else {
      forall k | 0 < k <= |a| && k <= |b| ensures a[..k] == b[..k] ==> a[0] == b[0] {
        PrefixStarts(a, b, k);
      }
    }
  }

  lemma PrefixStarts(a: string, b: string, k: nat)
    requires 0 < k <= |a| && k <= |b|
    ensures a[..k] == b[..k] ==> a[0] == b[0]
  {
    assert a[..k][0] == a[0] && b[..k][0] == b[0];
  }

  lemma {:induction false} LessIsTransitive(a: string, b: string, c: string)
    requires Less(a, b) && Less(b, c)
    ensures Less(a, c)
  {
    if a != "" && a[0] == b[0] == c[0] {
      LessIsTransitive(a[1..], b[1..], c[1..]);
    }
  }

  ghost predicate Sorted(keys: seq<string>) {
    forall i, j | 0 <= i < j < |keys| :: Less(keys[i], keys[j])
  }

  /** There is only one sorted order, so the printed text is determined by the record. */
  lemma {:induction false} SortedIsUnique(a: seq<string>, b: seq<string>)
    requires Sorted(a) && Sorted(b) && forall key :: key in a <==> key in b
    ensures a == b
    decreases |a|
  {
    hide Less;
    assert |a| == 0 || a[0] in b;
    assert |b| == 0 || b[0] in a;
    if a != [] {
      var m, n := |a| - 1, |b| - 1;
      assert a[m] in b && b[n] in a;
      var i :| 0 <= i < |a| && a[i] == b[n];
      var j :| 0 <= j < |b| && b[j] == a[m];
      LessIsTotal(a[m], b[n]);
      assert a[m] == b[n];
      forall key ensures key in a[..m] <==> key in b[..n] {
        assert key in a <==> key in a[..m] || key == a[m];
        assert key in b <==> key in b[..n] || key == b[n];
        LessIsTotal(a[m], a[m]);
      }
      SortedIsUnique(a[..m], b[..n]);
      assert a == a[..m] + [a[m]] && b == b[..n] + [b[n]];
    }
  }

  method Insert(order: seq<string>, key: string) returns (r: seq<string>)
    requires Sorted(order) && key !in order
    ensures Sorted(r) && forall k :: k in r <==> k in order || k == key
  {
    var i := 0;
    while i < |order| && Less(order[i], key)
      invariant 0 <= i <= |order|
      invariant forall j | 0 <= j < i :: Less(order[j], key)
    {
      i := i + 1;
    }
    hide Less;
    forall j | i <= j < |order| ensures Less(key, order[j]) {
      LessIsTotal(order[i], key);
      assert order[i] in order;
      if i < j {
        LessIsTransitive(key, order[i], order[j]);
      }
    }
    r := order[..i] + [key] + order[i..];
    assert forall k :: k in order <==> k in order[..i] || k in order[i..] by {
      assert order == order[..i] + order[i..];
    }
  }

  method SortKeys(keys: set<string>) returns (order: seq<string>)
    ensures Sorted(order) && forall k :: k in order <==> k in keys
  {
    order := [];
    var rest := keys;
    while rest != {}
      invariant rest <= keys && Sorted(order)
      invariant forall k :: k in order <==> k in keys && k !in rest
      decreases |rest|
    {
      var key :| key in rest;
      order := Insert(order, key);
      rest := rest - {key};
    }
  }
}
