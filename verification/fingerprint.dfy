/**
 * `file_hash` and `repo_fingerprint`. SHA-256 itself is a parameter
 * `sha256` from the bytes it is given to their hex digest; the incremental
 * context `hashlib.sha256()` is modelled by the bytes fed into it, so that a
 * digest taken after several updates is `sha256` of their concatenation.
 */
module Fingerprint {
  import opened Wrappers
  import opened Files
  import opened RepoWalk
  import opened Text

  /** `file_hash(path)`: the digest of the whole file, or `None` when it cannot be read. */
  function FileHash(fs: FileSystem, path: string, sha256: Bytes -> string): (r: Option<string>)
    ensures r.None? <==> path !in fs
    ensures r.Some? ==> r.value == sha256(fs[path])
  {
    match ReadBytes(fs, path)
    case None => None
    case Some(data) => Some(sha256(data))
  }

  /** A `hashlib.sha256()` context: what matters of it is every byte fed so far. */
  class HashContext {
    var fed: Bytes

    constructor ()
      ensures fed == []
    {
      fed := [];
    }

    /** `h.update(data)` */
    method Update(data: Bytes)
      modifies this
      ensures fed == old(fed) + data
    {
      fed := fed + data;
    }

    /** `h.hexdigest()` */
    function HexDigest(sha256: Bytes -> string): string
      reads this
    {
      sha256(fed)
    }
  }

  /** The paths one triple hands to the feed loop: `os.path.join(root, f)` for each file, none when excluded. */
  function EntryPaths(e: WalkEntry): (paths: seq<string>)
    ensures |paths| == KeptCount(e)
  {
    if Excluded(e.root) then []
    else seq(|e.files|, k requires 0 <= k < |e.files| => Join(e.root, e.files[k]))
  }

  /** Every path the fingerprint tries to read, in walk order. */
  function KeptPaths(walk: seq<WalkEntry>): seq<string> {
    if walk == [] then [] else KeptPaths(walk[..|walk| - 1]) + EntryPaths(walk[|walk| - 1])
  }

  /** The contents of the paths that can be read, in order; the others are skipped. */
  function ReadableChunks(paths: seq<string>, fs: FileSystem): (chunks: seq<Bytes>)
    ensures |chunks| <= |paths|
  {
    if paths == [] then []
    else
      var p := paths[|paths| - 1];
      ReadableChunks(paths[..|paths| - 1], fs) + (if p in fs then [fs[p]] else [])
  }

  /** The chunks one after another. */
  function Flatten(chunks: seq<Bytes>): Bytes {
    if chunks == [] then [] else Flatten(chunks[..|chunks| - 1]) + chunks[|chunks| - 1]
  }

  /** Every byte `repo_fingerprint` feeds into its hash context, in order. */
  function FedBytes(walk: seq<WalkEntry>, fs: FileSystem): Bytes {
    Flatten(ReadableChunks(KeptPaths(walk), fs))
  }

  /** The paths of the first `j` files of a triple, as the inner loop has reached them. */
  function VisitedPaths(e: WalkEntry, j: nat): seq<string>
    requires j <= |e.files|
  {
    if Excluded(e.root) then [] else EntryPaths(e)[..j]
  }

  lemma VisitedNext(e: WalkEntry, j: nat)
    requires j < |e.files|
    ensures VisitedPaths(e, j + 1) == VisitedPaths(e, j) + (if Excluded(e.root) then [] else [Join(e.root, e.files[j])])
  {
  }

  lemma ChunksNext(paths: seq<string>, p: string, fs: FileSystem)
    ensures ReadableChunks(paths + [p], fs) == ReadableChunks(paths, fs) + (if p in fs then [fs[p]] else [])
  {
    assert (paths + [p])[..|paths|] == paths;
  }

  lemma FlattenNext(chunks: seq<Bytes>, c: Bytes)
    ensures Flatten(chunks + [c]) == Flatten(chunks) + c
  {
    assert (chunks + [c])[..|chunks|] == chunks;
  }

  /** Reaching one more path feeds its contents when it can be read, and nothing otherwise. */
  lemma FeedNext(paths: seq<string>, p: string, fs: FileSystem)
    ensures Flatten(ReadableChunks(paths + [p], fs)) == Flatten(ReadableChunks(paths, fs)) + (if p in fs then fs[p] else [])
  {
    ChunksNext(paths, p, fs);
    if p in fs {
      FlattenNext(ReadableChunks(paths, fs), fs[p]);
    } else {
      assert ReadableChunks(paths, fs) + [] == ReadableChunks(paths, fs);
    }
  }

  lemma KeptPathsNext(walk: seq<WalkEntry>, i: nat)
    requires i < |walk|
    ensures KeptPaths(walk[..i + 1]) == KeptPaths(walk[..i]) + VisitedPaths(walk[i], |walk[i].files|)
  {
    assert walk[..i + 1][..i] == walk[..i];
    if !Excluded(walk[i].root) {
      assert EntryPaths(walk[i])[..|walk[i].files|] == EntryPaths(walk[i]);
    }
  }

  /**
   * `repo_fingerprint()`: for every file of every kept root, in walk order,
   * the file's bytes are fed to one hash context; files that cannot be read
   * are skipped. The result is the digest of everything fed.
   */
  method RepoFingerprint(walk: seq<WalkEntry>, fs: FileSystem, sha256: Bytes -> string) returns (digest: string)
    ensures digest == sha256(FedBytes(walk, fs))
  {
    var h := new HashContext();
    for i := 0 to |walk|
      invariant h.fed == FedBytes(walk[..i], fs)
    {
      FeedEntry(h, walk[i], fs, KeptPaths(walk[..i]));
      KeptPathsNext(walk, i);
    }
    assert walk[..|walk|] == walk;
    digest := h.HexDigest(sha256);
  }

  /** One more file of a triple feeds its bytes when its root is kept and it can be read, and nothing otherwise. */
  lemma FeedStep(done: seq<string>, e: WalkEntry, j: nat, fs: FileSystem)
    requires j < |e.files|
    ensures !Excluded(e.root) ==>
      Flatten(ReadableChunks(done + VisitedPaths(e, j + 1), fs))
      == Flatten(ReadableChunks(done + VisitedPaths(e, j), fs))
         + (if Join(e.root, e.files[j]) in fs then fs[Join(e.root, e.files[j])] else [])
    ensures Excluded(e.root) ==> VisitedPaths(e, j + 1) == VisitedPaths(e, j)
  {
    VisitedNext(e, j);
    if !Excluded(e.root) {
      var path := Join(e.root, e.files[j]);
      SeqAssoc(done, VisitedPaths(e, j), [path]);
      FeedNext(done + VisitedPaths(e, j), path, fs);
    }
  }

  /**
   * The inner loop of `repo_fingerprint`, over the files of one triple: the
   * exclusion test is made per file, and each readable file's bytes are fed
   * after everything fed before.
   */
  method FeedEntry(h: HashContext, entry: WalkEntry, fs: FileSystem, ghost done: seq<string>)
    requires h.fed == Flatten(ReadableChunks(done, fs))
    modifies h
    ensures h.fed == Flatten(ReadableChunks(done + VisitedPaths(entry, |entry.files|), fs))
  {
    assert done + VisitedPaths(entry, 0) == done;
    for j := 0 to |entry.files|
      invariant h.fed == Flatten(ReadableChunks(done + VisitedPaths(entry, j), fs))
    {
      FeedStep(done, entry, j, fs);
      if Excluded(entry.root) {
        continue;
      }
      var path := Join(entry.root, entry.files[j]);
      if path in fs {
        h.Update(fs[path]);
      }
    }
  }

  /** The fingerprint tries to read exactly as many files as `count_files` counts. */
  lemma {:induction false} KeptPathsMatchFileCount(walk: seq<WalkEntry>)
    ensures |KeptPaths(walk)| == FileCount(walk)
  {
    if walk != [] {
      KeptPathsMatchFileCount(walk[..|walk| - 1]);
    }
  }

  lemma {:induction false} KeptPathsAppend(w1: seq<WalkEntry>, w2: seq<WalkEntry>)
    ensures KeptPaths(w1 + w2) == KeptPaths(w1) + KeptPaths(w2)
  {
    if w2 == [] {
      assert w1 + w2 == w1;
    } else {
      var n := |w2| - 1;
      var w := w1 + w2;
      assert w[..|w| - 1] == w1 + w2[..n];
      assert w[|w| - 1] == w2[n];
      assert KeptPaths(w) == KeptPaths(w[..|w| - 1]) + EntryPaths(w[|w| - 1]);
      KeptPathsAppend(w1, w2[..n]);
      SeqAssoc(KeptPaths(w1), KeptPaths(w2[..n]), EntryPaths(w2[n]));
    }
  }

  lemma {:induction false} ChunksAppend(a: seq<string>, b: seq<string>, fs: FileSystem)
    ensures ReadableChunks(a + b, fs) == ReadableChunks(a, fs) + ReadableChunks(b, fs)
  {
    if b == [] {
      assert a + b == a;
    } else {
      var n := |b| - 1;
      assert (a + b)[..|a + b| - 1] == a + b[..n];
      ChunksAppend(a, b[..n], fs);
    }
  }

  lemma {:induction false} ChunksAllReadable(paths: seq<string>, fs: FileSystem)
    requires forall i :: 0 <= i < |paths| ==> paths[i] in fs
    ensures |ReadableChunks(paths, fs)| == |paths|
    ensures forall i :: 0 <= i < |paths| ==> ReadableChunks(paths, fs)[i] == fs[paths[i]]
  {
    if paths != [] {
      var n := |paths| - 1;
      ChunksAllReadable(paths[..n], fs);
    }
  }

  /**
   * When every kept file can be read, one chunk is fed per file `count_files`
   * counts, each the full contents of that file, in walk order.
   */
  lemma AllReadableFeedsEveryFile(walk: seq<WalkEntry>, fs: FileSystem)
    requires forall p :: p in KeptPaths(walk) ==> p in fs
    ensures |ReadableChunks(KeptPaths(walk), fs)| == FileCount(walk)
    ensures forall i :: 0 <= i < FileCount(walk) ==> ReadableChunks(KeptPaths(walk), fs)[i] == fs[KeptPaths(walk)[i]]
  {
    KeptPathsMatchFileCount(walk);
    ChunksAllReadable(KeptPaths(walk), fs);
  }

  /** A file that cannot be read contributes no bytes, wherever it stands among the paths. */
  lemma UnreadableFileFeedsNothing(a: seq<string>, p: string, b: seq<string>, fs: FileSystem)
    requires p !in fs
    ensures ReadableChunks(a + [p] + b, fs) == ReadableChunks(a + b, fs)
  {
    ChunksAppend(a + [p], b, fs);
    ChunksAppend(a, [p], fs);
    ChunksAppend(a, b, fs);
    assert [p][..0] == [];
  }

  /** A triple under an excluded root feeds nothing, wherever it stands in the walk. */
  lemma ExcludedEntryFeedsNothing(w1: seq<WalkEntry>, e: WalkEntry, w2: seq<WalkEntry>, fs: FileSystem)
    requires Excluded(e.root)
    ensures FedBytes(w1 + [e] + w2, fs) == FedBytes(w1 + w2, fs)
  {
    KeptPathsAppend(w1 + [e], w2);
    KeptPathsAppend(w1, [e]);
    KeptPathsAppend(w1, w2);
    assert [e][..0] == [];
    assert KeptPaths(w1) + [] == KeptPaths(w1);
  }

  lemma {:induction false} ChunksAgree(paths: seq<string>, fs1: FileSystem, fs2: FileSystem)
    requires forall p :: p in paths ==> (p in fs1 <==> p in fs2) && (p in fs1 ==> fs1[p] == fs2[p])
    ensures ReadableChunks(paths, fs1) == ReadableChunks(paths, fs2)
  {
    if paths != [] {
      var n := |paths| - 1;
      assert forall p :: p in paths[..n] ==> p in paths;
      ChunksAgree(paths[..n], fs1, fs2);
    }
  }

  /**
   * The fingerprint depends on the contents of kept files only: files under
   * ".git" or "__pycache__" may change or vanish without changing it.
   */
  lemma FingerprintIgnoresExcludedFiles(walk: seq<WalkEntry>, fs1: FileSystem, fs2: FileSystem)
    requires forall p :: p in KeptPaths(walk) ==> (p in fs1 <==> p in fs2) && (p in fs1 ==> fs1[p] == fs2[p])
    ensures FedBytes(walk, fs1) == FedBytes(walk, fs2)
  {
    ChunksAgree(KeptPaths(walk), fs1, fs2);
  }

  /** For a walk listing one readable kept file, the fingerprint is that file's `file_hash`. */
  lemma SingleFileFingerprint(root: string, dirs: seq<string>, name: string, fs: FileSystem, sha256: Bytes -> string)
    requires !Excluded(root) && Join(root, name) in fs
    ensures FileHash(fs, Join(root, name), sha256) == Some(sha256(FedBytes([WalkEntry(root, dirs, [name])], fs)))
  {
    var walk := [WalkEntry(root, dirs, [name])];
    var path := Join(root, name);
    assert walk[..0] == [];
    assert EntryPaths(walk[0]) == [path];
    assert KeptPaths(walk) == [] + [path];
    assert [path][..0] == [];
    assert ReadableChunks([path], fs) == [] + [fs[path]];
    assert [fs[path]][..0] == [];
    assert Flatten([fs[path]]) == [] + fs[path];
    assert FedBytes(walk, fs) == fs[path];
  }

  lemma ExampleRoots()
    ensures Excluded("./.git/objects") && !Excluded("./src") && !Excluded(".")
  {
    assert OccursAt("./.git/objects", ".git", 2);
    ContainsIffOccurs("./.git/objects", ".git");
    MissingCharNotContained("./src", ".git", 'g');
    MissingCharNotContained("./src", "__pycache__", '_');
    MissingCharNotContained(".", ".git", 'g');
    MissingCharNotContained(".", "__pycache__", '_');
  }

  lemma KeptPathsSnoc(walk: seq<WalkEntry>, i: nat)
    requires i < |walk|
    ensures KeptPaths(walk[..i + 1]) == KeptPaths(walk[..i]) + EntryPaths(walk[i])
  {
    assert walk[..i + 1][..i] == walk[..i];
  }

  lemma SrcEntryPaths(e: WalkEntry)
    requires e.root == "./src" && e.files == ["main.txt"] && !Excluded(e.root)
    ensures EntryPaths(e) == ["./src/main.txt"]
  {
    assert Join("./src", "main.txt") == "./src/main.txt";
  }

  /** A walk whose first two triples list no files and whose third is excluded tries only the fourth's files. */
  lemma OnlyLastEntryKept(walk: seq<WalkEntry>)
    requires |walk| == 4
    requires walk[0].files == [] && walk[1].files == []
    requires Excluded(walk[2].root)
    ensures KeptPaths(walk) == EntryPaths(walk[3])
  {
    assert walk[..0] == [] && walk[..4] == walk;
    NoPathsOffered(walk[0]);
    NoPathsOffered(walk[1]);
    NoPathsOffered(walk[2]);
    KeptPathsSnoc(walk, 0);
    KeptPathsSnoc(walk, 1);
    KeptPathsSnoc(walk, 2);
    KeptPathsSnoc(walk, 3);
  }

  /** A triple with no files, or under an excluded root, offers no paths. */
  lemma NoPathsOffered(e: WalkEntry)
    requires e.files == [] || Excluded(e.root)
    ensures EntryPaths(e) == []
  {
  }

  lemma ExampleKeptPaths(walk: seq<WalkEntry>)
    requires |walk| == 4
    requires walk[0] == WalkEntry(".", [".git", "src"], [])
    requires walk[1] == WalkEntry("./.git", ["objects"], [])
    requires walk[2] == WalkEntry("./.git/objects", [], ["abc"])
    requires walk[3] == WalkEntry("./src", [], ["main.txt"])
    ensures KeptPaths(walk) == ["./src/main.txt"]
    ensures FileCount(walk) == 1
  {
    ExampleRoots();
    OnlyLastEntryKept(walk);
    SrcEntryPaths(walk[3]);
    KeptPathsMatchFileCount(walk);
  }

  /**
   * A tree holding ".git/objects/abc" and "src/main.txt": one file is
   * counted, and the fingerprint is computed from "src/main.txt" alone.
   */
  lemma GitObjectsExample(walk: seq<WalkEntry>, fs: FileSystem)
    requires |walk| == 4
    requires walk[0] == WalkEntry(".", [".git", "src"], [])
    requires walk[1] == WalkEntry("./.git", ["objects"], [])
    requires walk[2] == WalkEntry("./.git/objects", [], ["abc"])
    requires walk[3] == WalkEntry("./src", [], ["main.txt"])
    requires "./src/main.txt" in fs
    ensures FileCount(walk) == 1
    ensures FedBytes(walk, fs) == fs["./src/main.txt"]
  {
    ExampleKeptPaths(walk);
    var path := "./src/main.txt";
    assert [path][..0] == [];
    assert ReadableChunks([path], fs) == [] + [fs[path]];
    assert [fs[path]][..0] == [];
    assert Flatten([fs[path]]) == [] + fs[path];
  }
}
