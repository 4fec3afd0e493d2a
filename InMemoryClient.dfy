/**
 A client that keeps files in a map from path to content, standing in for
 the provider so that the adapter's operations can be composed: what write
 uploads is what a later read of the same key fetches.
 */
module InMemoryClient {
  import opened DropboxApi
  import opened Paths
  import opened DropboxAdapter
  import opened DropboxProperties

  /** The client's answers over the stored files; every upload succeeds. */
  function FakeClient(files: map<string, Content>): Client
  {
    Client(
      path => if path in files then Ok(files[path]) else Fail(NotFound),
      (path, content) => Ok(()),
      (path, list) => if path in files then Ok(Metadata(path, Some(false), None, None, None)) else Fail(NotFound),
      path => if path in files then Ok(()) else Fail(NotFound),
      (source, target) => if source in files then Ok(()) else Fail(NotFound),
      path => Ok(ShareLink(path)))
  }

  /**
   After write(k1, content), read(k2) fetches that content when k1 and k2
   agree once their leading slashes are gone, and whatever was stored before
   otherwise. Write's contract says it calls putFile(ComputePath(k1), content);
   the store update files[ComputePath(k1) := content] is the effect of that
   upload on this client, which accepts every upload.
   */
  lemma {:induction false} WriteThenRead(files: map<string, Content>, directory: Option<string>,
                                         k1: string, k2: string, content: Content)
    ensures var before := Dropbox(FakeClient(files), directory);
      var after := Dropbox(FakeClient(files[before.ComputePath(k1) := content]), directory);
      && before.client.putFile(before.ComputePath(k1), content).Ok?
      && (LtrimSlashes(k1) == LtrimSlashes(k2) ==> after.Read(k2) == Return(Value(content)))
      && (LtrimSlashes(k1) != LtrimSlashes(k2) ==> after.Read(k2) == before.Read(k2))
  {
    var before := Dropbox(FakeClient(files), directory);
    ComputePathInjective(before, k1, k2);
  }

  /** After delete(k) removed k's path, exists(k) and read(k) both report absence. */
  lemma DeleteThenAbsent(files: map<string, Content>, directory: Option<string>, key: string)
    ensures var before := Dropbox(FakeClient(files), directory);
      var after := Dropbox(FakeClient(files - {before.ComputePath(key)}), directory);
      && (before.Delete(key) == Return(true) <==> before.Exists(key) == Return(true))
      && after.Exists(key) == Return(false)
      && after.Read(key) == Return(False)
  {
  }
}
