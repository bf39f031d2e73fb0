# bootJar packaging goal — Dafny model

This project models the `bootJar` goal of a Maven plugin (class
`com.ksyun.train.BootJarMono`). The goal packages a built project in three steps:

1. It writes an executable jar, `<target>/<finalName>.<packaging>`. The jar holds every file under the
   compiled-output directory, walked depth first. Each file's entry name is its path relative to that
   directory. The last entry is a manifest, `META-INF/MANIFEST.MF`, with three attributes:
   `Manifest-Version: 1.0`, a `Class-Path` listing `lib/<name>` for every dependency, and `Main-Class`.
2. It writes a distribution zip, `<target>/<finalName>.zip`. The zip holds every dependency file under
   `lib/<name>`, followed by the jar under its own file name.
3. It deletes the jar.

Each writer catches its own `IOException`. A failure ends that writer only: the archive keeps the entries
written so far and the next step runs.

## How the model is organised

- `storage.dfy`, module `Storage`, models the disk:
  - the compiled-output tree (`Node`);
  - a flat map from path to bytes, as the class `FileSystem`, whose `Store` and `Delete` change the map in
    place;
  - file reading, as the class `InputStream`, whose `Read` fills a buffer with a chunk of any size from 1
    up to the buffer's length, and returns -1 at the end of the file;
  - `BaseName`, the way `java.io.File.getName` picks the part of a path after its last `/`.
- `archives.dfy`, module `Archives`, models archives:
  - an archive being written is the class `ArchiveStream`, an append-only sequence of entries. An entry is
    started empty by `PutNextEntry` and then grows at its end through `Write`;
  - `Walk` records the entries a writer emitted and whether it may go on. `CopyAll` is the reference
    behaviour of a writer that copies sources in order and stops at the first one it cannot open.
- `jar_spec.dfy`, module `JarSpec`, specifies the jar:
  - `Emit`/`EmitAll` is the walk as the code performs it, building each path incrementally;
  - `Leaves` is an independent reference: the leaf files in pre-order, each with its list of path
    components. `EmitIsCopy` connects the two;
  - the manifest: `ClassPath` and `ManifestAttributes`;
  - the whole jar writer, as `JarWalk` and `JarStep`.
- `bundle_spec.dfy`, module `BundleSpec`, specifies the zip writer: `BundleSources` and `ZipStep`.
- `run_spec.dfy`, module `RunSpec`, specifies one full run as `Run`. This covers the dependency list and
  the two output paths.
- `mojo.dfy`, module `Mojo`, is the goal itself: the class `BootJarMono`. Its methods `Execute`,
  `WriteToJar`, `WriteClassToJar`, `WriteToZip` and `WriteFileToOutputStream` use the same loops and
  branches as the Java methods. Each is proved against the specification functions above.

Some things are parameters, because they belong to libraries outside the class:

- **Archive and manifest bytes.** The bytes a jar or zip file becomes, and the text `Manifest.write`
  produces, are the two functions of `Formats`. The model treats the entries as the archive's meaning.
- **The environment.** The Maven project is represented by a list of `Artifact`s, where an artifact with
  no file has `None`. The settings `mainClass`, `finalName`, `packaging` and `target` make up `Settings`.
  The compiled-output directory is `FileSystem.classes`.

I/O failure is modelled in three places:

- a compiled file that cannot be opened (`File(_, None)`);
- a dependency or jar path with no file in the map;
- an output path at which a file cannot be opened for writing (a path missing from `FileSystem.creatable`).
  The jar path and the zip path are judged separately, so either writer can fail at open while the other
  succeeds.

Each of these throws where the Java code would throw.

Where the code does something other than its method names and comments suggest, the model follows the code:

- **A missing compiled-output directory.** The jar is still created, with no entries at all and no
  manifest. `return` inside `try`-with-resources closes the stream.
- **A failure inside a writer.** It is swallowed, so the run still completes normally. Even when neither
  output can be opened, the final delete runs. Because the model's delete always succeeds, a jar left
  behind by an earlier run is then removed. In practice the usual cause is a directory without write
  permission, and there `File.delete()` fails too. When the jar can be written but the zip cannot, the
  delete removes the only output of the run (`RunSpec.RunZipNotCreatable`).
- **A root that is a regular file.** `listFiles()` returns null, and `Objects.requireNonNull` throws a
  `NullPointerException`, which is not an `IOException`. When the jar could be opened, the exception
  escapes `execute`: the jar stays on disk with no entries, the zip is not written (a zip from an earlier
  run is left as it was) and nothing is deleted. When the jar could not be opened, the exception at
  line 69 comes first; it is caught, and the run completes.
- **The packaging suffix `zip`.** The jar path and the zip path are then the same file. The zip is
  opened over the jar, and the final delete removes the only output. `RunSpec.ZipSuffixLosesBundle`
  states this. In the model the jar entry is read from the truncated file and so is empty. The real zip
  entry instead holds whatever part of the zip has reached the disk by then (see "## Left out").

## Model

| member | source | states |
|---|---|---|
| Storage.BaseNameSuffix | src/main/java/com/ksyun/train/BootJarMono.java:85 | the name used for a file is the suffix of its path after the last '/', containing no '/' |
| Storage.BaseNameOfChild | src/main/java/com/ksyun/train/BootJarMono.java:57 | the jar created as target + "/" + finalName + "." + packaging has base name finalName + "." + packaging |
| Storage.FileSystem.Store | src/main/java/com/ksyun/train/BootJarMono.java:69 | opening an output file creates or truncates exactly that path; closing it sets its bytes; nothing else changes |
| Storage.FileSystem.Delete | src/main/java/com/ksyun/train/BootJarMono.java:61-63 | deleting the jar removes exactly that path from the disk |
| Storage.InputStream.Read | src/main/java/com/ksyun/train/BootJarMono.java:140 | a read hands out the next 1..buffer-length bytes of the file in order, advancing by that many, and -1 only at end of file |
| Archives.CopyAllOpen | src/main/java/com/ksyun/train/BootJarMono.java:104-112 | with every source readable, the writer emits one entry per source, in order, each holding that source's bytes |
| Archives.CopyAllFirstFailure | src/main/java/com/ksyun/train/BootJarMono.java:113-116 | with source k the first that cannot be opened, the sources before it are copied in full, k gets an empty entry and nothing follows |
| Archives.CopyAllStep | src/main/java/com/ksyun/train/BootJarMono.java:104-108 | one more loop iteration extends the writer's walk by the next source's copy |
| Archives.CopyAllStopped | src/main/java/com/ksyun/train/BootJarMono.java:113-116 | once a source fails, the remaining sources add nothing |
| Archives.AppendToLastTwice | src/main/java/com/ksyun/train/BootJarMono.java:140-142 | two successive writes into the current entry are one write of the concatenated bytes |
| Archives.AppendToStarted | src/main/java/com/ksyun/train/BootJarMono.java:134-142 | bytes written after starting an entry become exactly that entry's contents |
| Archives.ArchiveStream.PutNextEntry | src/main/java/com/ksyun/train/BootJarMono.java:135 | starting an entry appends one empty entry with that name |
| Archives.ArchiveStream.Write | src/main/java/com/ksyun/train/BootJarMono.java:141 | writing len bytes of the buffer from off appends them to the current entry only |
| Archives.ArchiveStream.WriteBytes | src/main/java/com/ksyun/train/BootJarMono.java:93 | writing the manifest text appends it to the current (manifest) entry |
| JarSpec.EmitIsCopy | src/main/java/com/ksyun/train/BootJarMono.java:123-145 | the recursive walk emits exactly one entry per leaf file, in pre-order, named by its path components joined with "/", and stops at the first leaf that cannot be opened |
| JarSpec.EmitAllIsCopy | src/main/java/com/ksyun/train/BootJarMono.java:127-132 | a directory's children are walked in listing order under prefix path + "/" as the concatenation of their leaves' copies |
| JarSpec.EmitAllStep | src/main/java/com/ksyun/train/BootJarMono.java:75-77 | one more child visited extends the walk by that child's entries |
| JarSpec.SourcesUnder | src/main/java/com/ksyun/train/BootJarMono.java:128-130 | naming a subdirectory's leaves under path + "/" equals naming them with the subdirectory as first component |
| JarSpec.ClassPathStep | src/main/java/com/ksyun/train/BootJarMono.java:84-86 | each loop iteration appends "lib/" + name + " " for the next dependency |
| JarSpec.ClassPathAppend | src/main/java/com/ksyun/train/BootJarMono.java:83-87 | the Class-Path of a concatenated list is the concatenation of the Class-Paths, so dependency order is kept |
| JarSpec.ClassPathTokens | src/main/java/com/ksyun/train/BootJarMono.java:83-87 | split at spaces, the Class-Path value gives back "lib/" + name of each dependency, in order, when no name contains a space |
| JarSpec.ClassPathShape | src/main/java/com/ksyun/train/BootJarMono.java:83-87 | the Class-Path is empty exactly when there are no dependencies, and otherwise ends with a trailing space |
| JarSpec.MissingRootEmptyJar | src/main/java/com/ksyun/train/BootJarMono.java:71-74 | a missing compiled-output directory gives a jar with no entries and no manifest |
| JarSpec.JarOfReadableTree | src/main/java/com/ksyun/train/BootJarMono.java:68-93 | with all leaves readable, the jar has one entry per leaf in pre-order plus a last entry "META-INF/MANIFEST.MF" whose attributes are exactly Manifest-Version "1.0", the Class-Path and Main-Class verbatim |
| JarSpec.JarOfUnreadableLeaf | src/main/java/com/ksyun/train/BootJarMono.java:94-97 | when leaf k is the first that cannot be opened, the jar holds the earlier leaves and an empty entry k, and no manifest |
| BundleSpec.BundleComplete | src/main/java/com/ksyun/train/BootJarMono.java:100-112 | with every dependency and the jar on disk, the zip holds n lib entries with their bytes, then the jar entry with the jar's bytes |
| BundleSpec.BundleFirstMissing | src/main/java/com/ksyun/train/BootJarMono.java:104-116 | a dependency missing from disk ends the zip after an empty entry for it; later dependencies and the jar are left out |
| RunSpec.DependencyFiles | src/main/java/com/ksyun/train/BootJarMono.java:50-54 | the dependency list holds exactly the artifacts' non-null files, and is no longer than the artifact list |
| RunSpec.DependencyFilesAppend | src/main/java/com/ksyun/train/BootJarMono.java:50-54 | filtering out the null files keeps the artifacts' order |
| RunSpec.DependencyFilesAllPresent | src/main/java/com/ksyun/train/BootJarMono.java:50-54 | when every artifact has a file, the list is those files, index for index |
| RunSpec.OutputPathsCoincide | src/main/java/com/ksyun/train/BootJarMono.java:56-57 | the zip and jar paths are the same exactly when the packaging suffix is "zip" |
| RunSpec.ZipStepComplete | src/main/java/com/ksyun/train/BootJarMono.java:100-112 | with every source on disk, the zip writer sets exactly the zip file to the archive of the lib entries and the jar entry |
| RunSpec.RunBundles | src/main/java/com/ksyun/train/BootJarMono.java:47-66 | a run with readable inputs leaves every other file unchanged, removes the jar, and writes the zip holding each dependency under "lib/" and then the jar built from the compiled tree |
| RunSpec.RunCrashes | src/main/java/com/ksyun/train/BootJarMono.java:75 | with the jar openable, a root that is a regular file aborts the run: the jar is on disk with no entries, the zip is not written, and every other file is unchanged |
| RunSpec.RunUnwritable | src/main/java/com/ksyun/train/BootJarMono.java:59-63 | when neither output can be opened, both failures are swallowed, the run completes having written nothing, and (delete always succeeding in the model) an old jar is removed |
| RunSpec.RunZipNotCreatable | src/main/java/com/ksyun/train/BootJarMono.java:59-63 | when the jar can be written but the zip cannot be opened, the run completes and ends with the disk as before minus the jar path: no output is left |
| RunSpec.RunWithoutClasses | src/main/java/com/ksyun/train/BootJarMono.java:71-74 | a missing compiled-output directory still yields a zip whose jar entry holds an archive with no entries |
| RunSpec.RunDeletesJarAfterFailedBundle | src/main/java/com/ksyun/train/BootJarMono.java:59-63 | a zip aborted by a missing dependency keeps the entries before it; the run completes and the jar is deleted anyway |
| RunSpec.ZipSuffixLosesBundle | src/main/java/com/ksyun/train/BootJarMono.java:56-63 | with packaging "zip" the run completes yet leaves no distribution file |
| RunSpec.RunIdempotent | src/main/java/com/ksyun/train/BootJarMono.java:47-66 | running the goal again on what a run left behind gives the same files and the same outcome, except when only the zip can be opened and an old jar is on disk; the byte equality assumes an encoder that ignores entry times |
| RunSpec.RunNotIdempotent | src/main/java/com/ksyun/train/BootJarMono.java:59-63 | when only the zip can be opened, a first run bundles the old jar and deletes it, so a second run writes a zip whose jar entry is empty |
| Mojo.BuildClassPath | src/main/java/com/ksyun/train/BootJarMono.java:83-87 | the string-builder loop produces the Class-Path value of the dependency list |
| Mojo.BootJarMono.constructor | src/main/java/com/ksyun/train/BootJarMono.java:23-43 | a goal starts with its settings; the Java field starts as null and the model as the empty list, a difference no caller sees because `execute` assigns the list before reading it |
| Mojo.BootJarMono.Execute | src/main/java/com/ksyun/train/BootJarMono.java:47-66 | the goal sets the dependency list to the non-null artifact files and leaves the disk exactly as one full run specifies; it completes unless the jar could be opened and the root is a regular file |
| Mojo.BootJarMono.WriteToJar | src/main/java/com/ksyun/train/BootJarMono.java:68-98 | the jar writer changes only the jar path, which gets the archive of the specified entries, and reports how it ended; an output that cannot be created changes nothing |
| Mojo.BootJarMono.WriteClassToJar | src/main/java/com/ksyun/train/BootJarMono.java:123-145 | walking a node appends exactly the entries of the specified walk and reports whether it can go on |
| Mojo.BootJarMono.WriteLeafToJar | src/main/java/com/ksyun/train/BootJarMono.java:133-144 | the copy loop terminates and the file's entry holds its bytes exactly, or stays empty when the file cannot be opened |
| Mojo.BootJarMono.WriteToZip | src/main/java/com/ksyun/train/BootJarMono.java:100-117 | the zip writer changes only the zip path, which gets the archive of the specified bundle entries |
| Mojo.BootJarMono.WriteZipEntry | src/main/java/com/ksyun/train/BootJarMono.java:105-107 | one bundle step appends one entry with the file's bytes, or an empty one and failure when the file is missing |
| Mojo.BootJarMono.WriteFileToOutputStream | src/main/java/com/ksyun/train/BootJarMono.java:152-161 | the copy loop terminates; it succeeds exactly when the file exists, and then appends its bytes exactly to the current entry; otherwise nothing is written |

## Left out

- **Archive and manifest encoding.** The zip and jar byte formats, compression and the text layout of
  `Manifest.write` are the functions of `Formats`, and they depend on the entry list alone. This means the
  order in which attributes are written, the 72-byte line wrapping and the CRLF line ends are not modelled.
- **Entry times.** None of the entries is given a time, so `putNextEntry` stamps each one with the current
  clock time. `Formats.archive` takes no clock, so these times are not modelled.
- `RunSpec.RunIdempotent`: it states byte-for-byte equality of the files across two runs, which holds only
  because the encoder ignores the clock-derived entry times. In the real program the jar's bytes differ
  between runs, so the zip's jar entry and the zip file differ too. What carries over is the equality of
  the entry lists: the same entry names, the same `lib/` bytes, and a jar entry that encodes the same jar
  entry list.
- **Duplicate entry names.** The container library rejects them with `ZipException`. This is not modelled,
  and a duplicate name is kept as a second entry.
- **Failures after a file is open.** A read that fails midway, a write into an archive that fails, and a
  close that fails are not modelled. Only a failure to open a file, or to create an output file, is.
- **Directory listings.** `listFiles()` returning null for a directory that exists but cannot be listed,
  for example one without read permission, is not modelled. For the root this would throw the
  `NullPointerException` at line 75 and crash the run, as a regular-file root does. For a subdirectory it
  would throw at line 129 and crash the run likewise. In the model a `Dir` always lists its children.
- **Path normalisation.** `java.io.File` collapses doubled or trailing separators. The model uses the path
  strings as built.
- **Disk contents while a file is open.** In the model, bytes reach a file only when its stream is
  closed, so a file opened for writing reads as empty until then. The real `ZipOutputStream` writes each
  local header and the compressed data to the file as it goes. So when the zip path is also read (packaging
  suffix `zip`), the real entry holds a prefix of the zip being written, whose exact bytes depend on the
  container format and buffering.
- **Open streams.** The input stream in the jar walk is not closed when a write throws, and the model does
  not track open file handles.
- **The delete call.** A failed `File.delete()` is not modelled: the delete always succeeds. The old-jar
  removal that `RunSpec.RunUnwritable` and `RunSpec.RunNotIdempotent` describe is a consequence of this.
  Where a directory refuses to create files it usually refuses deletes as well.
- **Logging and integration.** Log messages, the `printStackTrace` output and the Maven wiring of
  parameters are not modelled.
- `Storage.InputStream.Read`: a read that returns 0 on a non-empty buffer is not modelled. The buffers
  here hold 1024 bytes, and a file input stream returns 0 only for an empty buffer.
