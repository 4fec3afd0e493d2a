/**
 The boundary with the Dropbox network client (`Dropbox_API`). The client
 is an oracle: each of its calls is a total function from its arguments to
 a reply, either a value or one of the client's failure kinds. Nothing
 about the network, authentication or the provider's storage is modelled.
 */
module DropboxApi {

  datatype Option<T> = None | Some(value: T)
  {
    function GetOr(default: T): T
    {
      match this
      case Some(v) => v
      case None => default
    }
  }

  /** A PHP string holding file content is a sequence of bytes. */
  newtype byte = x: int | 0 <= x < 256

  type Content = seq<byte>

  /**
   The exceptions the client raises: Dropbox_Exception_NotFound, _Forbidden,
   _OverQuota, OAuthException, and any other failure by its kind.
   */
  datatype ClientError = NotFound | Forbidden | OverQuota | OAuthFailure | OtherFailure(kind: string)

  /** What one client call gives back: a value, or the exception it raised. */
  datatype Reply<T> = Ok(value: T) | Fail(error: ClientError)

  /**
   The metadata array of one path. Optional fields are `Option`s, with the
   adapter's defaults: a missing `is_dir` or `is_deleted` counts as false.
   `contents` is present on directory listings, one entry per child.
   */
  datatype Metadata = Metadata(
    path: string,
    isDir: Option<bool>,
    modified: Option<string>,
    isDeleted: Option<bool>,
    contents: Option<seq<Metadata>>)

  /** `isset($metadata['is_deleted']) && $metadata['is_deleted']` */
  predicate FlaggedDeleted(m: Metadata)
  {
    m.isDeleted == Some(true)
  }

  /** The array `share()` returns; the adapter reads only its `url` field. */
  datatype ShareLink = ShareLink(url: string)

  /**
   The client's calls the adapter uses, each as a function of its arguments.
   `putFile` receives the bytes that can be read from the stream handed to it.
   */
  datatype Client = Client(
    getFile: string -> Reply<Content>,
    putFile: (string, Content) -> Reply<()>,
    getMetaData: (string, bool) -> Reply<Metadata>,
    delete: string -> Reply<()>,
    move: (string, string) -> Reply<()>,
    share: string -> Reply<ShareLink>)
}
