/**
 The Dropbox adapter of Gaufrette: maps the key-addressed storage contract
 (read, write, delete, rename, exists, isDirectory, mtime, keys, url) onto
 calls of a Dropbox client. The adapter's two fields are set once by its
 constructor and never change, so an adapter is a value.
 */
module DropboxAdapter {
  import opened DropboxApi
  import opened Paths
  import opened StringOrder
  import opened Scratch

  /**
   What an adapter operation throws: Gaufrette's FileNotFound, carrying the
   resolved path, or a client exception passed on unchanged.
   */
  datatype AdapterError = FileNotFound(path: string) | Propagated(cause: ClientError)

  /** An operation either returns a value or throws. */
  datatype Result<T> = Return(value: T) | Throw(error: AdapterError)

  /** PHP's "value or false" return convention. */
  datatype OrFalse<T> = Value(value: T) | False

  /** The keys one listing entry contributes: its path, then its parent unless that is ".". */
  function EntryKeys(entry: Metadata): seq<string>
  {
    var file := LtrimSlashes(entry.path);
    if Dirname(file) != "." then [file, Dirname(file)] else [file]
  }

  /** The keys of a listing before sorting, in the order they are appended. */
  function Listing(entries: seq<Metadata>): seq<string>
  {
    if entries == [] then []
    else Listing(entries[..|entries| - 1]) + EntryKeys(entries[|entries| - 1])
  }

  lemma ListingSnoc(entries: seq<Metadata>, i: nat)
    requires i < |entries|
    ensures Listing(entries[..i + 1]) == Listing(entries[..i]) + EntryKeys(entries[i])
  {
    assert entries[..i + 1][..i] == entries[..i];
  }

  lemma AppendTwice<T>(s: seq<T>, a: T, b: T)
    ensures s + [a] + [b] == s + [a, b]
  {
  }

  /** The Gaufrette\Adapter\Dropbox object: a client and an optional root directory. */
  datatype Dropbox = Dropbox(client: Client, directory: Option<string>)
  {
    /** The directory as it reads when concatenated: null reads as "". */
    function Root(): string
    {
      directory.GetOr("")
    }

    /**
     computePath: the root directory, one '/', then the key without its
     leading slashes. No other normalisation takes place.
     */
    function ComputePath(key: string): (path: string)
      ensures |path| > |Root()| && path[..|Root()|] == Root() && path[|Root()|] == '/'
      ensures var rest := path[|Root()| + 1..];
        && (rest == [] || rest[0] != '/')
        && |rest| <= |key| && key[|key| - |rest|..] == rest
        && forall i :: 0 <= i < |key| - |rest| ==> key[i] == '/'
    {
      var rest := LtrimSlashes(key);
      LtrimSlashesDropsSlashRun(key);
      assert (Root() + "/" + rest)[|Root()| + 1..] == rest;
      Root() + "/" + rest
    }

    /**
     getDropboxMetadata: the metadata of the key's path, listing requested.
     Not-found and a metadata array flagged deleted both throw FileNotFound
     with the resolved path; any other failure passes through.
     */
    function GetDropboxMetadata(key: string): (r: Result<Metadata>)
      ensures var reply := client.getMetaData(ComputePath(key), true);
        && (r == Throw(FileNotFound(ComputePath(key))) <==>
              reply == Fail(NotFound) || (reply.Ok? && FlaggedDeleted(reply.value)))
        && (r.Return? <==> reply.Ok? && !FlaggedDeleted(reply.value))
        && (r.Return? ==> r.value == reply.value)
        && (r.Throw? && r.error.Propagated? <==> reply.Fail? && reply.error != NotFound)
        && (r.Throw? && r.error.Propagated? ==> r.error.cause == reply.error)
    {
      match client.getMetaData(ComputePath(key), true)
      case Fail(NotFound) => Throw(FileNotFound(ComputePath(key)))
      case Fail(e) => Throw(Propagated(e))
      case Ok(m) => if FlaggedDeleted(m) then Throw(FileNotFound(ComputePath(key))) else Return(m)
    }

    /** read: the file's content, false when the client reports not-found. */
    function Read(key: string): (r: Result<OrFalse<Content>>)
      ensures var reply := client.getFile(ComputePath(key));
        && (r == Return(False) <==> reply == Fail(NotFound))
        && (reply.Ok? ==> r == Return(Value(reply.value)))
        && (r.Throw? <==> reply.Fail? && reply.error != NotFound)
        && (r.Throw? ==> r.error == Propagated(reply.error))
    {
      match client.getFile(ComputePath(key))
      case Ok(content) => Return(Value(content))
      case Fail(NotFound) => Return(False)
      case Fail(e) => Throw(Propagated(e))
    }

    /** isDirectory: the metadata's is_dir flag (false when absent), false when the key does not exist. */
    function IsDirectory(key: string): (r: Result<bool>)
      ensures var reply := client.getMetaData(ComputePath(key), true);
        && (reply == Fail(NotFound) || (reply.Ok? && FlaggedDeleted(reply.value)) ==> r == Return(false))
        && (reply.Ok? && !FlaggedDeleted(reply.value) ==> r == Return(reply.value.isDir == Some(true)))
        && (r.Throw? <==> reply.Fail? && reply.error != NotFound)
        && (r.Throw? ==> r.error == Propagated(reply.error))
    {
      match GetDropboxMetadata(key)
      case Throw(FileNotFound(_)) => Return(false)
      case Throw(e) => Throw(e)
      case Return(m) =>
        assert m.isDir.GetOr(false) == (m.isDir == Some(true));
        Return(m.isDir.GetOr(false))
    }

    /**
     write: stage the content in a temporary file, rewind it, upload the
     file to the key's path, close the file on both exits, and return the
     content's size in bytes. A failed upload rethrows after closing.
     */
    method Write(key: string, content: Content) returns (r: Result<nat>, ghost scratch: TempFile)
      ensures fresh(scratch) && !scratch.isOpen && scratch.bytes == content
      ensures var reply := client.putFile(ComputePath(key), content);
        && (reply.Ok? <==> r == Return(|content|))
        && (reply.Fail? <==> r.Throw?)
        && (reply.Fail? ==> r == Throw(Propagated(reply.error)))
    {
      var resource := new TempFile();
      resource.Put(content);
      resource.Rewind();
      assert resource.Remaining() == content;
      scratch := resource;
      var reply := client.putFile(ComputePath(key), resource.Remaining());
      if reply.Fail? {
        resource.Close();
        return Throw(Propagated(reply.error)), scratch;
      }
      resource.Close();
      r := Return(|content|);
    }

    /** delete: true once the client deleted the path, false when it reports not-found. */
    function Delete(key: string): (r: Result<bool>)
      ensures var reply := client.delete(ComputePath(key));
        && (r == Return(true) <==> reply.Ok?)
        && (r == Return(false) <==> reply == Fail(NotFound))
        && (r.Throw? ==> r.error == Propagated(reply.error) && reply.error != NotFound)
    {
      match client.delete(ComputePath(key))
      case Ok(_) => Return(true)
      case Fail(NotFound) => Return(false)
      case Fail(e) => Throw(Propagated(e))
    }

    /** rename: move the source key's path to the target key's path; false on not-found. */
    function Rename(sourceKey: string, targetKey: string): (r: Result<bool>)
      ensures var reply := client.move(ComputePath(sourceKey), ComputePath(targetKey));
        && (r == Return(true) <==> reply.Ok?)
        && (r == Return(false) <==> reply == Fail(NotFound))
        && (r.Throw? ==> r.error == Propagated(reply.error) && reply.error != NotFound)
    {
      match client.move(ComputePath(sourceKey), ComputePath(targetKey))
      case Ok(_) => Return(true)
      case Fail(NotFound) => Return(false)
      case Fail(e) => Throw(Propagated(e))
    }

    /**
     mtime: the `modified` timestamp read by `strtotime` (a parameter here;
     a missing field reads as ""), or false when the key does not exist.
     */
    function Mtime(key: string, strtotime: string -> OrFalse<int>): (r: Result<OrFalse<int>>)
      ensures var reply := client.getMetaData(ComputePath(key), true);
        && (reply == Fail(NotFound) || (reply.Ok? && FlaggedDeleted(reply.value)) ==> r == Return(False))
        && (reply.Ok? && !FlaggedDeleted(reply.value) ==> r == Return(strtotime(reply.value.modified.GetOr(""))))
        && (r.Throw? <==> reply.Fail? && reply.error != NotFound)
        && (r.Throw? ==> r.error == Propagated(reply.error))
    {
      match GetDropboxMetadata(key)
      case Throw(FileNotFound(_)) => Return(False)
      case Throw(e) => Throw(e)
      case Return(m) => Return(strtotime(m.modified.GetOr("")))
    }

    /**
     keys: list the provider's root "/" (not the configured directory) and
     collect, for every entry, its path without leading slashes and, unless
     it is ".", that path's dirname; then sort. Deleted entries are kept and
     parents shared by several entries appear once per entry.
     */
    method Keys() returns (r: Result<seq<string>>)
      ensures client.getMetaData("/", true).Fail? ==>
        r == Throw(Propagated(client.getMetaData("/", true).error))
      ensures client.getMetaData("/", true).Ok? ==>
        var listing := client.getMetaData("/", true).value;
        && (listing.contents.None? ==> r == Return([]))
        && (listing.contents.Some? ==>
              && r.Return? && Sorted(r.value)
              && multiset(r.value) == multiset(Listing(listing.contents.value))
              && r.value == SortStrings(Listing(listing.contents.value)))
    {
      var reply := client.getMetaData("/", true);
      if reply.Fail? {
        return Throw(Propagated(reply.error));
      }
      if reply.value.contents.None? {
        return Return([]);
      }
      var entries := reply.value.contents.value;
      var keys: seq<string> := [];
      var i := 0;
      while i < |entries|
        invariant 0 <= i <= |entries|
        invariant keys == Listing(entries[..i])
      {
        ListingSnoc(entries, i);
        ghost var before := keys;
        var file := LtrimSlashes(entries[i].path);
        keys := keys + [file];
        if Dirname(file) != "." {
          keys := keys + [Dirname(file)];
          AppendTwice(before, file, Dirname(file));
        }
        i := i + 1;
      }
      assert entries[..i] == entries;
      keys := SortStrings(keys);
      r := Return(keys);
    }

    /** exists: true when getDropboxMetadata succeeds, false when it throws FileNotFound. */
    function Exists(key: string): (r: Result<bool>)
      ensures var reply := client.getMetaData(ComputePath(key), true);
        && (r == Return(true) <==> reply.Ok? && !FlaggedDeleted(reply.value))
        && (r == Return(false) <==> reply == Fail(NotFound) || (reply.Ok? && FlaggedDeleted(reply.value)))
        && (r.Throw? ==> r.error == Propagated(reply.error) && reply.error != NotFound)
    {
      match GetDropboxMetadata(key)
      case Return(_) => Return(true)
      case Throw(FileNotFound(_)) => Return(false)
      case Throw(e) => Throw(e)
    }

    /**
     url: null when the key does not exist; otherwise the `url` field of
     the share link for the key's path.
     */
    function Url(key: string): (r: Result<Option<string>>)
      ensures r == Return(None) <==> Exists(key) == Return(false)
      ensures Exists(key) == Return(true) ==>
        var link := client.share(ComputePath(key));
        && (r.Return? <==> link.Ok?)
        && (link.Ok? ==> r.value == Some(link.value.url))
        && (link.Fail? ==> r.error == Propagated(link.error))
      ensures Exists(key).Throw? ==> r == Throw(Exists(key).error)
    {
      match Exists(key)
      case Throw(e) => Throw(e)
      case Return(false) => Return(None)
      case Return(true) =>
        match client.share(ComputePath(key))
        case Ok(link) => Return(Some(link.url))
        case Fail(e) => Throw(Propagated(e))
    }
  }
}
