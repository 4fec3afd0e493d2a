# Gaufrette Dropbox adapter — a Dafny model

This project models the translation layer of Gaufrette's Dropbox adapter
(`Gaufrette\Adapter\Dropbox`). The adapter implements Gaufrette's
key-addressed storage contract: read, write, delete, rename, exists,
isDirectory, mtime, keys and url. It does so by calls to a Dropbox client
(`Dropbox_API`). The model covers four things:

- how a key becomes a remote path (`computePath`);
- how the client's not-found exception and metadata flagged `is_deleted` become
  `false`, `null` or Gaufrette's `FileNotFound`, while every other failure passes through;
- how `keys()` builds and sorts the listing;
- how `write()` stages content in a temporary file that is closed on every exit.

The client is an oracle (`DropboxApi.Client`). Each call is a total function from
its arguments to a `Reply`: `Ok(value)` or `Fail(kind)`, where the kind is
`NotFound`, `Forbidden`, `OverQuota`, `OAuthFailure` or `OtherFailure`.
An adapter's two fields, the client and the optional root directory, are set
by its constructor and never change, so an adapter is a datatype value
(`DropboxAdapter.Dropbox`). Its operations are functions of that value. The two
operations that work step by step are methods:

- `Keys` has the `foreach` loop that appends to the key array, then sorts it.
- `Write` drives a `Scratch.TempFile` object through `tmpfile`, `fwrite`, `fseek` and `fclose`.
  The object carries a ghost open/closed flag.

An operation returns `Return(value)` or `Throw(error)`. The error is `FileNotFound(path)` or
`Propagated(clientError)`. PHP's "value or false" results use
`OrFalse<T> = Value(v) | False`, and `url`'s null uses `Option`.

Files:

- `Paths.dfy`: ltrim of `/` and dirname.
- `StringOrder.dfy`: lexicographic order and the sort standing in for PHP `sort()`.
- `DropboxApi.dfy`: the client boundary and the metadata record.
- `Scratch.dfy`: the temporary file.
- `DropboxAdapter.dfy`: the adapter.
- `DropboxProperties.dfy`: laws that relate several operations.
- `ListingDuplicates.dfy`: the duplicate-parent finding.
- `InMemoryClient.dfy`: a map-backed client, used to compose write with read and delete with exists.

Where one might expect otherwise, the model follows the code:

- `keys()` does not drop entries flagged `is_deleted`. `DropboxProperties.ListedKeysMembers` states the membership without any deleted test.
- `keys()` does not remove repeated parent directories. See Findings.
- `keys()` lists the provider root `/` and ignores the configured directory. `Keys`'s contract names `getMetaData("/", true)`.
- `write()` returns `Util\Size::fromContent($content)`. That is modelled as the byte length of the content.

## Model

| member | source | states |
|---|---|---|
| Paths.LtrimSlashes | src/Gaufrette/Adapter/Dropbox.php:201 | `ltrim($key, '/')` keeps no leading `/` and never lengthens the key |
| Paths.LtrimSlashesDropsSlashRun | src/Gaufrette/Adapter/Dropbox.php:201 | what ltrim keeps is a suffix of the key and everything it drops is `/` |
| Paths.LtrimSlashesIdempotent | src/Gaufrette/Adapter/Dropbox.php:201 | applying ltrim twice equals applying it once |
| Paths.LtrimSlashesSkipsSlashes | src/Gaufrette/Adapter/Dropbox.php:201 | dropping any leading run of `/` first does not change ltrim's result |
| Paths.DirnameIsParent | src/Gaufrette/Adapter/Dropbox.php:144-145 | dirname is the prefix before the last `/`, or `.` when the path has no `/` |
| StringOrder.Insert | src/Gaufrette/Adapter/Dropbox.php:148 | inserting into a sorted listing keeps it sorted and adds exactly that key |
| StringOrder.SortStrings | src/Gaufrette/Adapter/Dropbox.php:148 | `sort($keys)` yields a sorted permutation of the keys |
| StringOrder.SortedUnique | src/Gaufrette/Adapter/Dropbox.php:148 | two sorted permutations of the same keys are equal, so the sorted listing is determined by its keys |
| Scratch.TempFile.constructor | src/Gaufrette/Adapter/Dropbox.php:71 | `tmpfile()` gives an open, empty file positioned at 0 |
| Scratch.TempFile.Put | src/Gaufrette/Adapter/Dropbox.php:72 | `fwrite` overwrites from the position, advances the position by the data's length, keeps the bytes before and after |
| Scratch.TempFile.Rewind | src/Gaufrette/Adapter/Dropbox.php:73 | `fseek($resource, 0)` moves to the start and leaves the bytes alone |
| Scratch.TempFile.Close | src/Gaufrette/Adapter/Dropbox.php:78 | `fclose` closes the file; no further operation on it is allowed |
| DropboxAdapter.Dropbox.ComputePath | src/Gaufrette/Adapter/Dropbox.php:199-202 | the path is the directory (null reads as ""), one `/`, then the key with its whole leading run of `/` removed; the character after the separator is never `/` |
| DropboxAdapter.Dropbox.GetDropboxMetadata | src/Gaufrette/Adapter/Dropbox.php:167-181 | throws `FileNotFound(computePath(key))` exactly when the client reports not-found or the metadata has `is_deleted` true; otherwise returns the metadata unchanged, and other failures pass through unchanged |
| DropboxAdapter.Dropbox.Read | src/Gaufrette/Adapter/Dropbox.php:41-48 | returns false exactly on not-found, the fetched content on success, and throws the client's other failures unchanged |
| DropboxAdapter.Dropbox.IsDirectory | src/Gaufrette/Adapter/Dropbox.php:53-62 | false on not-found or deleted metadata; otherwise `is_dir` when present, else false; other failures pass through |
| DropboxAdapter.Dropbox.Write | src/Gaufrette/Adapter/Dropbox.php:69-86 | uploads exactly the content to computePath(key); the temporary file is closed on success and on failure before the error is rethrown; on success returns the content's length whatever the client returned |
| DropboxAdapter.Dropbox.Delete | src/Gaufrette/Adapter/Dropbox.php:91-100 | true exactly when the client deletes, false exactly on not-found, any other failure rethrown unchanged |
| DropboxAdapter.Dropbox.Rename | src/Gaufrette/Adapter/Dropbox.php:105-114 | moves computePath(source) to computePath(target), in that order; true on success, false exactly on not-found, other failures rethrown |
| DropboxAdapter.Dropbox.Mtime | src/Gaufrette/Adapter/Dropbox.php:119-128 | false on not-found or deleted metadata; otherwise strtotime of `modified`; other failures pass through |
| DropboxAdapter.Dropbox.Keys | src/Gaufrette/Adapter/Dropbox.php:133-151 | lists "/"; empty when `contents` is absent; otherwise the sorted permutation of the keys the entries contribute; client failures pass through |
| DropboxAdapter.Dropbox.Exists | src/Gaufrette/Adapter/Dropbox.php:156-165 | true exactly when metadata is found and not deleted, false exactly on not-found or deleted, other failures rethrown |
| DropboxAdapter.Dropbox.Url | src/Gaufrette/Adapter/Dropbox.php:183-190 | null exactly when exists is false; when it is true, the `url` of share(computePath(key)) or share's failure; exists' failures pass through |
| DropboxProperties.ComputePathIgnoresLeadingSlashes | src/Gaufrette/Adapter/Dropbox.php:199-202 | computePath(k) equals computePath of k with any leading run of `/` removed, and equals computePath(ltrim(k)) |
| DropboxProperties.ComputePathInjective | src/Gaufrette/Adapter/Dropbox.php:199-202 | two keys share a path exactly when they agree after ltrim |
| DropboxProperties.SamePathSameAnswers | src/Gaufrette/Adapter/Dropbox.php:41-190 | every operation depends on its key only through computePath |
| DropboxProperties.LeadingSlashesAreIgnored | src/Gaufrette/Adapter/Dropbox.php:199-202 | read, delete, rename (either key), exists, isDirectory, mtime and url answer the same for k and ltrim(k) |
| DropboxProperties.FileNotFoundNeverEscapes | src/Gaufrette/Adapter/Dropbox.php:41-190 | read, delete, rename, exists, isDirectory, mtime and url never throw FileNotFound; every error they throw is a client failure passed on unchanged. A client not-found still escapes from url (from share), write (from putFile) and keys (from the listing of `/`) |
| DropboxProperties.ShareNotFoundEscapesUrl | src/Gaufrette/Adapter/Dropbox.php:183-190 | when the key exists and share replies not-found, url throws that client failure unchanged |
| DropboxProperties.ExistsMatchesMetadata | src/Gaufrette/Adapter/Dropbox.php:156-181 | exists is true exactly when getDropboxMetadata returns and false exactly when it throws FileNotFound |
| DropboxProperties.DeletedReadsAsAbsent | src/Gaufrette/Adapter/Dropbox.php:167-181 | metadata flagged deleted makes getDropboxMetadata throw FileNotFound and exists, isDirectory, mtime and url report absence |
| DropboxProperties.DirectoryExists | src/Gaufrette/Adapter/Dropbox.php:53-62 | a key isDirectory reports true for exists |
| DropboxProperties.UrlOnlyForExistingKeys | src/Gaufrette/Adapter/Dropbox.php:183-190 | url returns a link exactly when the key exists and share succeeds |
| DropboxProperties.UrlSharesOnlyExistingKeys | src/Gaufrette/Adapter/Dropbox.php:183-190 | when the key does not exist, url's answer does not depend on share: share is not consulted |
| DropboxProperties.ListingLength | src/Gaufrette/Adapter/Dropbox.php:140-147 | n entries contribute between n and 2n keys |
| DropboxProperties.ListingHasEntryKeys | src/Gaufrette/Adapter/Dropbox.php:140-147 | every key an entry contributes is in the listing |
| DropboxProperties.ListingOnlyEntryKeys | src/Gaufrette/Adapter/Dropbox.php:140-147 | every key in the listing comes from some entry |
| DropboxProperties.ListedKeysCount | src/Gaufrette/Adapter/Dropbox.php:133-151 | keys() returns between n and 2n keys for n entries |
| DropboxProperties.ListedKeysMembers | src/Gaufrette/Adapter/Dropbox.php:140-148 | a key is in keys() exactly when some entry contributes it, deleted or not |
| ListingDuplicates.TwoSiblingsListing | src/Gaufrette/Adapter/Dropbox.php:140-147 | `/a/b.txt` and `/a/c.txt` are listed as `a/b.txt`, `a`, `a/c.txt`, `a` before sorting |
| ListingDuplicates.SharedParentListedTwice | src/Gaufrette/Adapter/Dropbox.php:140-148 | as written, keys() holds `a` twice for those two files |
| ListingDuplicates.RemoveRepeats | src/Gaufrette/Adapter/Dropbox.php:148 | dropping repeated neighbours of a sorted listing keeps it sorted, with the same keys and no equal neighbours |
| ListingDuplicates.DistinctKeys | src/Gaufrette/Adapter/Dropbox.php:133-151 | the corrected listing is sorted, holds exactly the keys keys() holds, and no key twice |
| ListingDuplicates.SharedParentListedOnce | src/Gaufrette/Adapter/Dropbox.php:140-148 | the corrected listing holds `a` once for those two files |
| InMemoryClient.WriteThenRead | src/Gaufrette/Adapter/Dropbox.php:41-86 | after write(k1) uploads content, read(k2) fetches it when k1 and k2 agree after ltrim and is unaffected otherwise |
| InMemoryClient.DeleteThenAbsent | src/Gaufrette/Adapter/Dropbox.php:91-165 | over a map-backed client, delete succeeds exactly for existing keys; afterwards exists is false and read is false |

## Left out

- The Dropbox network client, OAuth and HTTP transport are not modelled. Each client call is an oracle function of its arguments.
- The client's state between calls is not modelled. So the window between `exists` and `share` in `url` is not modelled: a path deleted in between is a concurrency matter outside this model.
- `InMemoryClient` stands in for a provider only where write/read and delete/exists are composed.
- Real temp-file I/O (`tmpfile`, `fwrite`, `fseek`, `fclose`) is replaced by the `TempFile` object. The object holds the bytes, the position and a ghost open flag. Failures of these PHP functions are not modelled.
- `strtotime` is not modelled. `Mtime` takes it as a parameter from the `modified` string to an integer or false. A missing `modified` field is passed as "", which is how PHP reads null.
- `Util\Size::fromContent` is not part of this model. It is taken to be the content's length in bytes.
- The ordering of PHP `sort()` is simplified. Its default flags compare numeric-looking strings as numbers. The model uses lexicographic order on character codes for every key.
- PHP `dirname` edge cases are not modelled. The model takes "the prefix before the last `/`, or `.`". It agrees with PHP only on non-empty paths without a trailing `/`, without repeated `/`, and whose only `/` is not their first character. It differs on the empty path (PHP gives ""), on a trailing slash (PHP ignores it), on repeated slashes (PHP gives `a` for `a//b`, the model gives `a/`) and on a path whose only `/` is its first character (PHP gives `/` for `/a`, the model gives ""). `keys()` never passes such a path, because it strips leading slashes first.
- A listing entry without a `path` field is not modelled. Every entry carries its path.
- The `share` reply always has a `url` field.
- The previous exception and code that `FileNotFound` carries are not modelled. Only the path is kept.
- The adapter constructor is not modelled separately. It is the `Dropbox` datatype's constructor.

## Findings

| source | as written | input that shows it | evidently intended | confidence | as-written member | corrected member |
|---|---|---|---|---|---|---|
| src/Gaufrette/Adapter/Dropbox.php:140-148 | each entry appends its parent directory, so a directory with several listed children is listed once per child | a listing with the entries `/a/b.txt` and `/a/c.txt` gives `a`, `a`, `a/b.txt`, `a/c.txt` | every key listed once: `a`, `a/b.txt`, `a/c.txt` | medium, not executed | ListingDuplicates.SharedParentListedTwice | ListingDuplicates.DistinctKeys |
