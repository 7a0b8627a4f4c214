/**
 * The text file the user picked for the log: what it holds, whether the page
 * may write to it, and the append that every new entry performs on it.
 */
module Files {

  /**
   * The effect of writing chunk at position pos of a writable stream over data:
   * the chunk replaces the characters it covers, and the text grows where the
   * chunk runs past its end.
   */
  function WriteAt(data: string, pos: nat, chunk: string): string
    requires pos <= |data|
  {
    data[..pos] + chunk + (if pos + |chunk| < |data| then data[pos + |chunk|..] else [])
  }

  /** Writing after seeking to the size of the data appends to it. */
  lemma WriteAtEnd(data: string, chunk: string)
    ensures WriteAt(data, |data|, chunk) == data + chunk
  {
    assert data[..|data|] == data;
  }

  /** A file handle obtained from the open-file picker. */
  class FileHandle {
    /** The text stored in the file. */
    var contents: string
    /** Whether readwrite permission on the file has been granted to the page. */
    var writable: bool

    constructor (contents: string, writable: bool)
      ensures this.contents == contents && this.writable == writable
    {
      this.contents := contents;
      this.writable := writable;
    }

    /**
     * The permission step of file selection: queryPermission, and when that
     * is not 'granted', requestPermission, whose answer is the user's.
     */
    method RequestWritePermission(userGrants: bool) returns (granted: bool)
      modifies this`writable
      ensures granted == (old(writable) || userGrants)
      ensures writable == granted
    {
      if !writable {
        if !userGrants {
          return false;
        }
        writable := true;
      }
      granted := true;
    }

    /**
     * writeFile once a handle is held: read the file's size, open a writable
     * stream that keeps the existing data, seek to the size, write the content
     * and close the stream, which stores it. The permission settled when the
     * file was picked is taken as final: without it opening the stream fails
     * and the file is left as it was.
     */
    method Append(content: string) returns (ok: bool)
      modifies this`contents
      ensures ok == writable
      ensures contents == if ok then old(contents) + content else old(contents)
    {
      if !writable {
        return false;
      }
      var size := |contents|;
      var stream := contents;
      var position := size;
      stream := WriteAt(stream, position, content);
      WriteAtEnd(contents, content);
      contents := stream;
      ok := true;
    }
  }
}
