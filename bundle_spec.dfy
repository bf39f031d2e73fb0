/** What the distribution archive holds: every dependency under "lib/", in
    order, then the executable archive under its own file name. */
module BundleSpec {
  import opened Storage
  import opened Archives

  const LibPrefix := "lib/"

  /** The bytes at `path`, or `None` when no regular file is there. */
  function Lookup(files: map<string, seq<byte>>, path: string): Option<seq<byte>>
  {
    if path in files then Some(files[path]) else None
  }

  /** The entries the zip writer starts, in order, each with the file it copies. */
  function BundleSources(files: map<string, seq<byte>>, deps: seq<string>, jarPath: string): seq<Source>
  {
    seq(|deps|, i requires 0 <= i < |deps| => Source(LibPrefix + BaseName(deps[i]), Lookup(files, deps[i])))
      + [Source(BaseName(jarPath), Lookup(files, jarPath))]
  }

  /** The file map after the zip writer runs: the zip is truncated when it is
      opened, so a source at its own path reads as empty, and receives the
      archive of the entries written when it is closed. */
  function ZipStep(files: map<string, seq<byte>>, creatable: set<string>, deps: seq<string>,
                   zipPath: string, jarPath: string, fmt: Formats): map<string, seq<byte>>
  {
    if zipPath !in creatable then files
    else
      var truncated := files[zipPath := []];
      truncated[zipPath := fmt.archive(CopyAll(BundleSources(truncated, deps, jarPath)).entries)]
  }

  /** With every dependency and the jar on disk: n + 1 entries, "lib/" + the
      base name of each dependency with its bytes, in order, then the jar
      under its base name with the jar file's bytes. */
  lemma BundleComplete(files: map<string, seq<byte>>, deps: seq<string>, jarPath: string)
    requires forall i :: 0 <= i < |deps| ==> deps[i] in files
    requires jarPath in files
    ensures var w := CopyAll(BundleSources(files, deps, jarPath));
      w.ok && |w.entries| == |deps| + 1 &&
      (forall i :: 0 <= i < |deps| ==> w.entries[i] == Entry(LibPrefix + BaseName(deps[i]), files[deps[i]])) &&
      w.entries[|deps|] == Entry(BaseName(jarPath), files[jarPath])
  {
    var srcs := BundleSources(files, deps, jarPath);
    CopyAllOpen(srcs);
  }

  /** With dependency `k` the first missing from disk: the dependencies
      before it are copied, `k` gets an empty entry, and neither the later
      dependencies nor the jar are written. */
  lemma BundleFirstMissing(files: map<string, seq<byte>>, deps: seq<string>, jarPath: string, k: nat)
    requires k < |deps| && deps[k] !in files
    requires forall i :: 0 <= i < k ==> deps[i] in files
    ensures var w := CopyAll(BundleSources(files, deps, jarPath));
      !w.ok && |w.entries| == k + 1 &&
      (forall i :: 0 <= i < k ==> w.entries[i] == Entry(LibPrefix + BaseName(deps[i]), files[deps[i]])) &&
      w.entries[k] == Entry(LibPrefix + BaseName(deps[k]), [])
  {
    var srcs := BundleSources(files, deps, jarPath);
    CopyAllFirstFailure(srcs, k);
  }
}
