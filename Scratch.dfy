/**
 The temporary file `write` stages content in (`tmpfile`, `fwrite`,
 `fseek`, `fclose`). Only what the adapter relies on is kept: the bytes,
 the stream position, and a ghost flag saying whether the file is open.
 Every operation but opening needs the file open.
 */
module Scratch {
  import opened DropboxApi

  class TempFile {
    var bytes: Content
    var position: nat
    ghost var isOpen: bool

    ghost predicate Valid()
      reads this
    {
      position <= |bytes|
    }

    /** tmpfile(): a new, empty, open file. */
    constructor ()
      ensures Valid() && isOpen && bytes == [] && position == 0
    {
      bytes, position := [], 0;
      isOpen := true;
    }

    /** The bytes a reader of the stream gets from the current position on. */
    function Remaining(): (r: Content)
      reads this
      requires Valid() && isOpen
    {
      bytes[position..]
    }

    /** fwrite(file, data): overwrite from the position on, extending the file if needed. */
    method Put(data: Content)
      requires Valid() && isOpen
      modifies this
      ensures Valid() && isOpen
      ensures position == old(position) + |data|
      ensures bytes[..old(position)] == old(bytes[..position])
      ensures bytes[old(position)..position] == data
      ensures bytes[position..] == if position < |old(bytes)| then old(bytes[position + |data|..]) else []
    {
      var tail := if position + |data| < |bytes| then bytes[position + |data|..] else [];
      bytes := bytes[..position] + data + tail;
      position := position + |data|;
    }

    /** fseek(file, 0) */
    method Rewind()
      requires Valid() && isOpen
      modifies this
      ensures Valid() && isOpen && position == 0 && bytes == old(bytes)
    {
      position := 0;
    }

    /** fclose(file) */
    method Close()
      requires isOpen
      modifies this
      ensures !isOpen && bytes == old(bytes) && position == old(position)
    {
      isOpen := false;
    }
  }
}
