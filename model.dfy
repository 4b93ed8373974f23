/** The shared data model: the inventory and change records exchanged between
    client and server, byte contents, readers and tar streams. */
module Model {
  import opened Wrappers
  import opened Errors

  newtype byte = x: int | 0 <= x < 256

  type Bytes = seq<byte>

  /** One tracked file of a user as seen by the scanner or the server store.
      Modification times are not modelled. */
  datatype InventoryItem = InventoryItem(user: string, path: string, size: int, hash: string, isDir: bool)

  datatype ChangeType = Add | Modify | Delete | Same

  datatype Change = Change(user: string, path: string, kind: ChangeType)

  /** A configured user as handed to the scanner: name, home and effective track list. */
  datatype UserSpec = UserSpec(name: string, home: string, track: seq<string>)

  /** An `io.Reader`: the bytes it yields, then either a clean end of file
      (`failure == None`) or the error it fails with. */
  datatype Reader = Reader(data: Bytes, failure: Option<Error>)

  /** One tar header with its body. `isDir` is `hdr.FileInfo().IsDir()`.
      `data` is what reading the body delivers; `cut` is the error the read
      then fails with when the archive ends inside this body, `None` for a
      complete body. */
  datatype Entry = Entry(name: string, isDir: bool, data: Bytes, cut: Option<Error>)

  /** What a `tar.Reader` yields: its entries, then a clean `io.EOF`
      (`failure == None`) or the error `Next` fails with. */
  datatype TarStream = TarStream(entries: seq<Entry>, failure: Option<Error>)

  /** The bytes of an ASCII string. */
  function AsciiBytes(s: string): (b: Bytes)
    requires forall i :: 0 <= i < |s| ==> s[i] as int < 256
    ensures |b| == |s| && forall i :: 0 <= i < |s| ==> b[i] as int == s[i] as int
  {
    if s == [] then [] else [s[0] as int as byte] + AsciiBytes(s[1..])
  }
}
