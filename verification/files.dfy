/**
 * The file system as the monitor sees it, with the I/O abstracted away: a
 * map from the path spelling the program uses to the bytes of every file
 * that can be opened and read in full. A path outside the map stands for a
 * file that is missing, unreadable, or fails while being read; the program
 * treats all of these the same way.
 */
module Files {
  import opened Wrappers

  type Bytes = seq<bv8>

  type FileSystem = map<string, Bytes>

  /** `open(path, "rb").read()`, with any exception turned into `None`. */
  function ReadBytes(fs: FileSystem, path: string): (r: Option<Bytes>)
    ensures r.Some? <==> path in fs
  {
    if path in fs then Some(fs[path]) else None
  }
}
