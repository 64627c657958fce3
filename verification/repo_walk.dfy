/**
 * The directory walk shared by `count_files` and `repo_fingerprint`. The walk
 * itself (`os.walk(".")`) is an input: the sequence of `(root, dirs, files)`
 * triples it yields, in the order it yields them. Both consumers skip every
 * triple whose `root` contains ".git" or "__pycache__" as a substring.
 */
module RepoWalk {
  import opened Text

  /** One triple yielded by `os.walk`. */
  datatype WalkEntry = WalkEntry(root: string, dirs: seq<string>, files: seq<string>)

  /** `".git" in root or "__pycache__" in root` */
  predicate Excluded(root: string) {
    Contains(root, ".git") || Contains(root, "__pycache__")
  }

  /**
   * `os.path.join(root, name)` for POSIX paths: an absolute name replaces the
   * root; otherwise the name follows the root, with one "/" put between them
   * unless the root is empty or already ends in "/".
   */
  function Join(root: string, name: string): (path: string)
    ensures name != [] && name[0] == '/' ==> path == name
    ensures !(name != [] && name[0] == '/') ==>
      && |root| + |name| <= |path| <= |root| + 1 + |name|
      && path[..|root|] == root
      && path[|path| - |name|..] == name
      && (|path| == |root| + 1 + |name| <==> root != [] && root[|root| - 1] != '/')
      && (|path| == |root| + 1 + |name| ==> path[|root|] == '/')
  {
    if name != [] && name[0] == '/' then name
    else if root == [] || root[|root| - 1] == '/' then root + name
    else root + "/" + name
  }

  /** The files one triple contributes to the count: all of them, or none when its root is excluded. */
  function KeptCount(e: WalkEntry): nat {
    if Excluded(e.root) then 0 else |e.files|
  }

  /** Specification of `count_files`: the files listed under roots that are not excluded. */
  function FileCount(walk: seq<WalkEntry>): (n: nat)
    ensures n <= ListedCount(walk)
  {
    if walk == [] then 0 else FileCount(walk[..|walk| - 1]) + KeptCount(walk[|walk| - 1])
  }

  /** `count_files()`: one pass over the walk adding `len(files)` for every root that is kept. */
  method CountFiles(walk: seq<WalkEntry>) returns (count: nat)
    ensures count == FileCount(walk)
  {
    count := 0;
    for i := 0 to |walk|
      invariant count == FileCount(walk[..i])
    {
      assert walk[..i + 1][..i] == walk[..i];
      var entry := walk[i];
      if Excluded(entry.root) {
        continue;
      }
      count := count + |entry.files|;
    }
    assert walk[..|walk|] == walk;
  }

  /** Counting two walks one after the other gives the sum of their counts. */
  lemma {:induction false} FileCountAppend(w1: seq<WalkEntry>, w2: seq<WalkEntry>)
    ensures FileCount(w1 + w2) == FileCount(w1) + FileCount(w2)
  {
    if w2 == [] {
      assert w1 + w2 == w1;
    } else {
      var n := |w2| - 1;
      assert (w1 + w2)[..|w1 + w2| - 1] == w1 + w2[..n];
      FileCountAppend(w1, w2[..n]);
    }
  }

  /** The count equals the number of files the walk lists when nothing is excluded. */
  lemma {:induction false} FileCountBound(walk: seq<WalkEntry>)
    ensures (forall i :: 0 <= i < |walk| ==> !Excluded(walk[i].root)) ==> FileCount(walk) == ListedCount(walk)
  {
    if walk != [] {
      var n := |walk| - 1;
      FileCountBound(walk[..n]);
      assert forall i :: 0 <= i < n ==> walk[..n][i] == walk[i];
    }
  }

  /** Every file the walk lists, excluded or not. */
  function ListedCount(walk: seq<WalkEntry>): nat {
    if walk == [] then 0 else ListedCount(walk[..|walk| - 1]) + |walk[|walk| - 1].files|
  }

  /** A triple under an excluded root adds nothing, wherever it stands in the walk. */
  lemma ExcludedEntryCountsNothing(w1: seq<WalkEntry>, e: WalkEntry, w2: seq<WalkEntry>)
    requires Excluded(e.root)
    ensures FileCount(w1 + [e] + w2) == FileCount(w1 + w2)
  {
    FileCountAppend(w1 + [e], w2);
    FileCountAppend(w1, [e]);
    FileCountAppend(w1, w2);
    assert [e][..0] == [];
  }

  /**
   * The test is on substrings of the directory path, so any directory whose
   * path contains ".github" (".github/workflows" among them) is excluded too.
   */
  lemma GithubDirectoriesExcluded(root: string)
    requires Contains(root, ".github")
    ensures Excluded(root)
  {
    ContainsPrefixOfContained(root, ".github", ".git");
  }

  /** The directory holding the CI workflow, as the walk from "." spells it, is excluded. */
  lemma WorkflowDirectoryExcluded()
    ensures Excluded("./.github/workflows")
  {
    assert OccursAt("./.github/workflows", ".git", 2);
    ContainsIffOccurs("./.github/workflows", ".git");
  }

  /**
   * File names are never tested: a top-level ".gitignore" is counted, because
   * the root "." it is listed under contains neither marker.
   */
  lemma FileNamesNeverTested(walk: seq<WalkEntry>)
    requires walk == [WalkEntry(".", [".git", "src"], [".gitignore"])]
    ensures FileCount(walk) == 1
  {
    assert !Contains(".", ".git");
    assert !Contains(".", "__pycache__");
    assert walk[..0] == [];
  }
}
