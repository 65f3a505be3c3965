/** `array_unique(array_merge($new, $old), SORT_STRING)` as used by
    BannedCoreCron::processIP: the two lists are concatenated, and of every group of
    entries that are equal as strings only the first is kept, in its place. */
module Dedup {

  predicate NoDuplicates(s: seq<string>) {
    forall p, q :: 0 <= p < q < |s| ==> s[p] != s[q]
  }

  /** The index of the first occurrence of x in xs. */
  function FirstIndex(xs: seq<string>, x: string): (i: nat)
    requires x in xs
    ensures i < |xs| && xs[i] == x && x !in xs[..i]
  {
    if xs[0] == x then 0
    else
      var i := 1 + FirstIndex(xs[1..], x);
      assert xs[..i] == [xs[0]] + xs[1..][..i - 1];
      i
  }

  lemma {:induction false} FirstIndexInPrefix(xs: seq<string>, n: nat, x: string)
    requires n <= |xs| && x in xs[..n]
    ensures FirstIndex(xs, x) == FirstIndex(xs[..n], x)
  {
    var k := FirstIndex(xs[..n], x);
    assert xs[..n][..k] == xs[..k];
  }

  /** array_unique: the first occurrence of every string, in the order of xs. */
  function Unique(xs: seq<string>): (u: seq<string>) {
    if xs == [] then []
    else
      var u := Unique(xs[..|xs| - 1]);
      var last := xs[|xs| - 1];
      if last in u then u else u + [last]
  }

  /** No string twice, nothing lost and nothing added. */
  lemma {:induction false} UniqueSpec(xs: seq<string>)
    ensures NoDuplicates(Unique(xs))
    ensures forall x :: x in Unique(xs) <==> x in xs
    ensures |Unique(xs)| <= |xs|
  {
    if xs != [] {
      var n := |xs| - 1;
      UniqueSpec(xs[..n]);
      assert xs == xs[..n] + [xs[n]];
    }
  }

  lemma {:induction false} FirstIndexOfNewLast(xs: seq<string>)
    requires xs != [] && xs[|xs| - 1] !in xs[..|xs| - 1]
    ensures FirstIndex(xs, xs[|xs| - 1]) == |xs| - 1
  {
  }

  /** The kept entries appear in the order of their first occurrences in xs. */
  lemma {:induction false} UniqueKeepsFirstOccurrenceOrder(xs: seq<string>)
    ensures forall x :: x in Unique(xs) ==> x in xs
    ensures forall p, q :: 0 <= p < q < |Unique(xs)| ==>
      FirstIndex(xs, Unique(xs)[p]) < FirstIndex(xs, Unique(xs)[q])
  {
    UniqueSpec(xs);
    if xs != [] {
      var n := |xs| - 1;
      var init, last := xs[..n], xs[n];
      UniqueKeepsFirstOccurrenceOrder(init);
      UniqueSpec(init);
      var u, r := Unique(init), Unique(xs);
      assert r == if last in u then u else u + [last];
      forall p, q | 0 <= p < q < |r| ensures FirstIndex(xs, r[p]) < FirstIndex(xs, r[q]) {
        assert r[p] == u[p] && u[p] in init;
        FirstIndexInPrefix(xs, n, r[p]);
        if q < |u| {
          assert r[q] == u[q] && u[q] in init;
          FirstIndexInPrefix(xs, n, r[q]);
        } else {
          assert r[q] == last && last !in init;
          FirstIndexOfNewLast(xs);
        }
      }
    }
  }

  /** A list without repeats is left as it is. */
  lemma {:induction false} UniqueOfDistinct(xs: seq<string>)
    requires NoDuplicates(xs)
    ensures Unique(xs) == xs
  {
    if xs != [] {
      var n := |xs| - 1;
      assert NoDuplicates(xs[..n]);
      UniqueOfDistinct(xs[..n]);
      assert xs[n] !in xs[..n];
      assert xs == xs[..n] + [xs[n]];
    }
  }

  lemma {:induction false} UniqueIsIdempotent(xs: seq<string>)
    ensures Unique(Unique(xs)) == Unique(xs)
  {
    UniqueSpec(xs);
    UniqueOfDistinct(Unique(xs));
  }

  lemma {:induction false} UniqueIsEmpty(xs: seq<string>)
    ensures Unique(xs) == [] <==> xs == []
  {
    if xs != [] {
      UniqueSpec(xs);
      assert xs[0] in Unique(xs);
    }
  }

  /** processIP: the new addresses merged with the old ones, without repeats. */
  function MergeIps(newIps: seq<string>, oldIps: seq<string>): (r: seq<string>)
  {
    Unique(newIps + oldIps)
  }

  /** What processIP promises: no string twice, nothing lost, nothing added, and the
      survivors in first-occurrence order with every new address before every address
      that only the old list holds. */
  lemma {:induction false} MergeIpsProperties(newIps: seq<string>, oldIps: seq<string>)
    ensures NoDuplicates(MergeIps(newIps, oldIps))
    ensures forall x :: x in MergeIps(newIps, oldIps) <==> x in newIps || x in oldIps
    ensures forall p, q :: 0 <= p < q < |MergeIps(newIps, oldIps)| ==>
      FirstIndex(newIps + oldIps, MergeIps(newIps, oldIps)[p]) <
      FirstIndex(newIps + oldIps, MergeIps(newIps, oldIps)[q])
    ensures forall p, q ::
      0 <= p < |MergeIps(newIps, oldIps)| && 0 <= q < |MergeIps(newIps, oldIps)| &&
      MergeIps(newIps, oldIps)[p] in newIps && MergeIps(newIps, oldIps)[q] !in newIps
      ==> p < q
    ensures MergeIps(newIps, oldIps) == [] <==> newIps == [] && oldIps == []
  {
    var all, r := newIps + oldIps, MergeIps(newIps, oldIps);
    UniqueSpec(all);
    UniqueKeepsFirstOccurrenceOrder(all);
    UniqueIsEmpty(all);
    forall p, q | 0 <= p < |r| && 0 <= q < |r| && r[p] in newIps && r[q] !in newIps ensures p < q {
      FirstIndexInPrefix(all, |newIps|, r[p]);
      assert all[..|newIps|] == newIps;
    }
  }

  lemma {:induction false} UniqueSnoc(xs: seq<string>, x: string)
    ensures Unique(xs + [x]) == if x in Unique(xs) then Unique(xs) else Unique(xs) + [x]
  {
    assert (xs + [x])[..|xs|] == xs;
  }

  /** Two lists sharing their middle entry: the shared entry is kept once. */
  lemma {:induction false} MergeSharingOneEntry(a: string, b: string, c: string)
    requires a != b && a != c && b != c
    ensures MergeIps([a, b], [b, c]) == [a, b, c]
  {
    var ab := [a, b];
    assert NoDuplicates(ab);
    UniqueOfDistinct(ab);
    UniqueSnocKnown(ab, b, ab);
    UniqueSnocNew(ab + [b], c, ab);
    assert [a, b] + [b, c] == (ab + [b]) + [c];
    assert ab + [c] == [a, b, c];
  }

  lemma {:induction false} UniqueSnocKnown(xs: seq<string>, x: string, u: seq<string>)
    requires Unique(xs) == u && x in u
    ensures Unique(xs + [x]) == u
  {
    UniqueSnoc(xs, x);
  }

  lemma {:induction false} UniqueSnocNew(xs: seq<string>, x: string, u: seq<string>)
    requires Unique(xs) == u && x !in u
    ensures Unique(xs + [x]) == u + [x]
  {
    UniqueSnoc(xs, x);
  }

  /** Two address lists sharing one address: it is kept once. */
  lemma {:induction false} MergeIpsExample()
    ensures MergeIps(["1.1.1.1", "2.2.2.2"], ["2.2.2.2", "3.3.3.3"]) == ["1.1.1.1", "2.2.2.2", "3.3.3.3"]
  {
    var a, b, c := "1.1.1.1", "2.2.2.2", "3.3.3.3";
    assert a[0] != b[0] && a[0] != c[0] && b[0] != c[0];
    MergeSharingOneEntry(a, b, c);
  }
}
