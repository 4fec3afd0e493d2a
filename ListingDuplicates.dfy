/**
 keys() lists a parent directory once for every entry beneath it, so a
 directory holding two files appears twice. This module exhibits that on
 the listing `/a/b.txt`, `/a/c.txt`, and defines the listing without
 repeats, proved to hold the same keys, each once, in order.
 */
module ListingDuplicates {
  import opened DropboxApi
  import opened Paths
  import opened StringOrder
  import opened DropboxAdapter

  function File(path: string): Metadata
  {
    Metadata(path, None, None, None, None)
  }

  /** The listing as keys() builds it for the two files /a/b.txt and /a/c.txt, before sorting. */
  lemma TwoSiblingsListing()
    ensures Listing([File("/a/b.txt"), File("/a/c.txt")]) == ["a/b.txt", "a", "a/c.txt", "a"]
  {
    var es := [File("/a/b.txt"), File("/a/c.txt")];
    assert "/a/b.txt"[1..] == "a/b.txt" && "/a/c.txt"[1..] == "a/c.txt";
    assert LtrimSlashes("/a/b.txt") == "a/b.txt";
    assert LtrimSlashes("/a/c.txt") == "a/c.txt";
    assert Dirname("a/b.txt") == "a" by {
      assert "a/b.txt"[..6] == "a/b.tx" && "a/b.tx"[..5] == "a/b.t" && "a/b.t"[..4] == "a/b."
        && "a/b."[..3] == "a/b" && "a/b"[..2] == "a/" && "a/"[..1] == "a";
    }
    assert Dirname("a/c.txt") == "a" by {
      assert "a/c.txt"[..6] == "a/c.tx" && "a/c.tx"[..5] == "a/c.t" && "a/c.t"[..4] == "a/c."
        && "a/c."[..3] == "a/c" && "a/c"[..2] == "a/" && "a/"[..1] == "a";
    }
    assert es[..1][..0] == [] && es[..1] == [File("/a/b.txt")] && es[..|es| - 1] == es[..1];
  }

  /** As written, keys() returns "a" twice for /a/b.txt and /a/c.txt. */
  lemma SharedParentListedTwice()
    ensures var keys := SortStrings(Listing([File("/a/b.txt"), File("/a/c.txt")]));
      multiset(keys)["a"] == 2
  {
    TwoSiblingsListing();
    var listing: seq<string> := ["a/b.txt", "a", "a/c.txt", "a"];
    assert listing == [listing[0]] + [listing[1]] + [listing[2]] + [listing[3]];
    assert multiset(listing)["a"] == 2;
  }

  /** A sorted sequence without its repeated neighbours. */
  function RemoveRepeats(s: seq<string>): (r: seq<string>)
    requires Sorted(s)
    ensures Sorted(r) && forall i :: 0 < i < |r| ==> r[i - 1] != r[i]
    ensures forall k :: k in r <==> k in s
    ensures s != [] ==> r != [] && r[0] == s[0]
  {
    if |s| <= 1 then s
    else
      SortedTail(s);
      var rest := RemoveRepeats(s[1..]);
      assert forall k :: k in s <==> k == s[0] || k in s[1..] by {
        assert s == [s[0]] + s[1..];
      }
      if s[0] == s[1] then rest else [s[0]] + rest
  }

  /** In a sorted sequence without repeated neighbours no key occurs twice. */
  lemma {:induction false} NoRepeatsMeansDistinct(r: seq<string>, i: nat, j: nat)
    requires Sorted(r) && forall n :: 0 < n < |r| ==> r[n - 1] != r[n]
    requires i < j < |r|
    ensures r[i] != r[j]
  {
    SortedPairwise(r, i + 1, j);
    if r[i] == r[j] {
      assert LessOrEqual(r[i], r[i + 1]);
      LessOrEqualAntisymmetric(r[i], r[i + 1]);
      assert false;
    }
  }

  /** The listing keys() evidently means: each key once, sorted. */
  function DistinctKeys(entries: seq<Metadata>): (keys: seq<string>)
    ensures Sorted(keys)
    ensures forall k :: k in keys <==> k in SortStrings(Listing(entries))
    ensures forall i, j :: 0 <= i < j < |keys| ==> keys[i] != keys[j]
  {
    var keys := RemoveRepeats(SortStrings(Listing(entries)));
    forall i, j | 0 <= i < j < |keys|
      ensures keys[i] != keys[j]
    {
      NoRepeatsMeansDistinct(keys, i, j);
    }
    keys
  }

  /** Without repeats, the listing of /a/b.txt and /a/c.txt holds "a" once. */
  lemma SharedParentListedOnce()
    ensures var keys := DistinctKeys([File("/a/b.txt"), File("/a/c.txt")]);
      multiset(keys)["a"] == 1
  {
    var keys := DistinctKeys([File("/a/b.txt"), File("/a/c.txt")]);
    TwoSiblingsListing();
    assert "a" in multiset(SortStrings(["a/b.txt", "a", "a/c.txt", "a"]));
    assert "a" in keys;
    var i :| 0 <= i < |keys| && keys[i] == "a";
    DistinctCountsOnce(keys, i);
  }

  /** A key of a sequence without repeats occurs in it once. */
  lemma {:induction false} DistinctCountsOnce(s: seq<string>, i: nat)
    requires i < |s| && forall m, n :: 0 <= m < n < |s| ==> s[m] != s[n]
    ensures multiset(s)[s[i]] == 1
  {
    var last := |s| - 1;
    assert s == s[..last] + [s[last]];
    if i == last {
      assert s[i] !in s[..last];
    } else {
      DistinctCountsOnce(s[..last], i);
    }
  }
}
