/**
 Properties of the Dropbox adapter that relate several calls or hold for
 every client: how keys resolve to paths, how the not-found condition is
 reported, and what the key listing holds.
 */
module DropboxProperties {
  import opened DropboxApi
  import opened Paths
  import opened StringOrder
  import opened DropboxAdapter

  // ---------------------------------------------------------------- paths

  /** A key resolves to the same path whatever run of leading slashes it has. */
  lemma ComputePathIgnoresLeadingSlashes(a: Dropbox, key: string, n: nat)
    requires n <= |key| && forall i :: 0 <= i < n ==> key[i] == '/'
    ensures a.ComputePath(key[n..]) == a.ComputePath(key)
    ensures a.ComputePath(LtrimSlashes(key)) == a.ComputePath(key)
  {
    LtrimSlashesSkipsSlashes(key, n);
    LtrimSlashesIdempotent(key);
  }

  /** Two keys resolve to the same path exactly when they agree once their leading slashes are gone. */
  lemma ComputePathInjective(a: Dropbox, k1: string, k2: string)
    ensures a.ComputePath(k1) == a.ComputePath(k2) <==> LtrimSlashes(k1) == LtrimSlashes(k2)
  {
    var n := |a.Root()| + 1;
    if a.ComputePath(k1) == a.ComputePath(k2) {
      assert (a.Root() + "/" + LtrimSlashes(k1))[n..] == LtrimSlashes(k1);
      assert (a.Root() + "/" + LtrimSlashes(k2))[n..] == LtrimSlashes(k2);
    }
  }

  /** Operations on keys that resolve to the same path give the same answers. */
  lemma SamePathSameAnswers(a: Dropbox, k1: string, k2: string, target: string, strtotime: string -> OrFalse<int>)
    requires a.ComputePath(k1) == a.ComputePath(k2)
    ensures a.Read(k1) == a.Read(k2)
    ensures a.Delete(k1) == a.Delete(k2)
    ensures a.Rename(k1, target) == a.Rename(k2, target)
    ensures a.Rename(target, k1) == a.Rename(target, k2)
    ensures a.GetDropboxMetadata(k1) == a.GetDropboxMetadata(k2)
    ensures a.Exists(k1) == a.Exists(k2)
    ensures a.IsDirectory(k1) == a.IsDirectory(k2)
    ensures a.Mtime(k1, strtotime) == a.Mtime(k2, strtotime)
    ensures a.Url(k1) == a.Url(k2)
  {
  }

  /** Every operation gives the same answer for a key with leading slashes as for the key without them. */
  lemma LeadingSlashesAreIgnored(a: Dropbox, key: string, target: string, strtotime: string -> OrFalse<int>)
    ensures a.Read(key) == a.Read(LtrimSlashes(key))
    ensures a.Delete(key) == a.Delete(LtrimSlashes(key))
    ensures a.Rename(key, target) == a.Rename(LtrimSlashes(key), target)
    ensures a.Rename(target, key) == a.Rename(target, LtrimSlashes(key))
    ensures a.Exists(key) == a.Exists(LtrimSlashes(key))
    ensures a.IsDirectory(key) == a.IsDirectory(LtrimSlashes(key))
    ensures a.Mtime(key, strtotime) == a.Mtime(LtrimSlashes(key), strtotime)
    ensures a.Url(key) == a.Url(LtrimSlashes(key))
  {
    ComputePathIgnoresLeadingSlashes(a, key, 0);
    SamePathSameAnswers(a, key, LtrimSlashes(key), target, strtotime);
  }

  // ------------------------------------------------- not-found translation

  /** getDropboxMetadata is the one operation that throws FileNotFound; no public operation lets it escape. */
  lemma FileNotFoundNeverEscapes(a: Dropbox, key: string, target: string, strtotime: string -> OrFalse<int>)
    ensures a.Read(key).Throw? ==> a.Read(key).error.Propagated?
    ensures a.Delete(key).Throw? ==> a.Delete(key).error.Propagated?
    ensures a.Rename(key, target).Throw? ==> a.Rename(key, target).error.Propagated?
    ensures a.Exists(key).Throw? ==> a.Exists(key).error.Propagated?
    ensures a.IsDirectory(key).Throw? ==> a.IsDirectory(key).error.Propagated?
    ensures a.Mtime(key, strtotime).Throw? ==> a.Mtime(key, strtotime).error.Propagated?
    ensures a.Url(key).Throw? ==> a.Url(key).error.Propagated?
  {
  }

  /** url catches no client failure of share: a not-found from share is passed on unchanged. */
  lemma ShareNotFoundEscapesUrl(a: Dropbox, key: string)
    requires a.GetDropboxMetadata(key).Return?
    requires a.client.share(a.ComputePath(key)) == Fail(NotFound)
    ensures a.Url(key) == Throw(Propagated(NotFound))
  {
    ExistsMatchesMetadata(a, key);
  }

  /** exists is true exactly when getDropboxMetadata returns, false exactly when it throws FileNotFound. */
  lemma ExistsMatchesMetadata(a: Dropbox, key: string)
    ensures a.Exists(key) == Return(true) <==> a.GetDropboxMetadata(key).Return?
    ensures a.Exists(key) == Return(false) <==>
      a.GetDropboxMetadata(key) == Throw(FileNotFound(a.ComputePath(key)))
    ensures a.Exists(key).Throw? <==> a.GetDropboxMetadata(key).Throw? && a.GetDropboxMetadata(key).error.Propagated?
  {
  }

  /** Metadata flagged deleted reads as absence for every operation that consults metadata. */
  lemma DeletedReadsAsAbsent(a: Dropbox, key: string, strtotime: string -> OrFalse<int>)
    requires a.client.getMetaData(a.ComputePath(key), true).Ok?
    requires FlaggedDeleted(a.client.getMetaData(a.ComputePath(key), true).value)
    ensures a.GetDropboxMetadata(key) == Throw(FileNotFound(a.ComputePath(key)))
    ensures a.Exists(key) == Return(false)
    ensures a.IsDirectory(key) == Return(false)
    ensures a.Mtime(key, strtotime) == Return(False)
    ensures a.Url(key) == Return(None)
  {
  }

  /** A key reported as a directory exists. */
  lemma DirectoryExists(a: Dropbox, key: string)
    requires a.IsDirectory(key) == Return(true)
    ensures a.Exists(key) == Return(true)
  {
  }

  /** url returns a link exactly when the key exists and the share call succeeds. */
  lemma UrlOnlyForExistingKeys(a: Dropbox, key: string)
    ensures a.Url(key).Return? && a.Url(key).value.Some? <==>
      a.Exists(key) == Return(true) && a.client.share(a.ComputePath(key)).Ok?
  {
  }

  /** When the key does not exist, url does not depend on what share would answer: share is not called. */
  lemma UrlSharesOnlyExistingKeys(a: Dropbox, key: string, share: string -> Reply<ShareLink>)
    requires a.Exists(key) != Return(true)
    ensures a.(client := a.client.(share := share)).Url(key) == a.Url(key)
  {
    var b := a.(client := a.client.(share := share));
    assert b.ComputePath(key) == a.ComputePath(key);
    assert b.Exists(key) == a.Exists(key);
  }

  // --------------------------------------------------------------- keys

  /** Each entry contributes one or two keys. */
  lemma {:induction false} ListingLength(entries: seq<Metadata>)
    ensures |entries| <= |Listing(entries)| <= 2 * |entries|
  {
    if entries != [] {
      ListingLength(entries[..|entries| - 1]);
    }
  }

  lemma InConcat<T>(x: T, a: seq<T>, b: seq<T>)
    ensures x in a + b <==> x in a || x in b
  {
  }

  /** Every key an entry contributes is in the listing. */
  lemma {:induction false} ListingHasEntryKeys(entries: seq<Metadata>, i: nat, k: string)
    requires i < |entries| && k in EntryKeys(entries[i])
    ensures k in Listing(entries)
  {
    var init := entries[..|entries| - 1];
    var last := EntryKeys(entries[|entries| - 1]);
    assert Listing(entries) == Listing(init) + last;
    if i < |init| {
      assert init[i] == entries[i];
      ListingHasEntryKeys(init, i, k);
      InConcat(k, Listing(init), last);
    } else {
      InConcat(k, Listing(init), last);
    }
  }

  /** Every key in the listing was contributed by some entry. */
  lemma {:induction false} ListingOnlyEntryKeys(entries: seq<Metadata>, k: string) returns (i: nat)
    requires k in Listing(entries)
    ensures i < |entries| && k in EntryKeys(entries[i])
  {
    var init := entries[..|entries| - 1];
    assert Listing(entries) == Listing(init) + EntryKeys(entries[|entries| - 1]);
    if k in EntryKeys(entries[|entries| - 1]) {
      i := |entries| - 1;
    } else {
      i := ListingOnlyEntryKeys(init, k);
      assert init[i] == entries[i];
    }
  }

  /** keys() returns between n and 2n keys for n entries. */
  lemma ListedKeysCount(entries: seq<Metadata>)
    ensures |entries| <= |SortStrings(Listing(entries))| <= 2 * |entries|
  {
    var keys := SortStrings(Listing(entries));
    ListingLength(entries);
    assert |keys| == |multiset(keys)| == |multiset(Listing(entries))| == |Listing(entries)|;
  }

  /**
   keys() holds exactly the keys the entries contribute: each entry's path
   without leading slashes and that path's parent when it is not ".".
   Whether an entry is flagged deleted plays no part.
   */
  lemma ListedKeysMembers(entries: seq<Metadata>, k: string)
    ensures k in SortStrings(Listing(entries)) <==>
      exists i :: 0 <= i < |entries| && k in EntryKeys(entries[i])
  {
    var keys := SortStrings(Listing(entries));
    assert k in keys <==> k in multiset(keys);
    assert k in Listing(entries) <==> k in multiset(Listing(entries));
    if k in keys {
      var i := ListingOnlyEntryKeys(entries, k);
    }
    if exists i :: 0 <= i < |entries| && k in EntryKeys(entries[i]) {
      var i :| 0 <= i < |entries| && k in EntryKeys(entries[i]);
      ListingHasEntryKeys(entries, i, k);
    }
  }
}
