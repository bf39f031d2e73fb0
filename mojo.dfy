/** The packaging goal itself: a class whose methods walk the compiled-output
    tree into a jar stream, bundle the jar with its dependencies into a zip
    stream, and delete the jar, each proved against the specification
    functions of JarSpec, BundleSpec and RunSpec. */
module Mojo {
  import opened Storage
  import opened Archives
  import opened JarSpec
  import opened BundleSpec
  import opened RunSpec

  /** The Class-Path value built with a string builder over the dependency list. */
  method BuildClassPath(deps: seq<string>) returns (cp: string)
    ensures cp == ClassPath(deps)
  {
    var sb := "";
    var i := 0;
    while i < |deps|
      invariant 0 <= i <= |deps|
      invariant sb == ClassPath(deps[..i])
    {
      ClassPathStep(deps, i);
      sb := sb + "lib/" + BaseName(deps[i]) + " ";
      i := i + 1;
    }
    assert deps[..i] == deps;
    cp := sb;
  }

  class BootJarMono {
    const settings: Settings
    var dependencyFiles: seq<string>

    constructor (settings: Settings)
      ensures this.settings == settings && dependencyFiles == []
    {
      this.settings := settings;
      dependencyFiles := [];
    }

    /** The goal: collect the dependency files, write the jar, write the zip,
        then delete the jar if it exists. Both writers swallow I/O failures;
        the run stops early only when the jar was opened and the root exists
        but is a regular file, whose listing is null. */
    method Execute(fs: FileSystem, artifacts: seq<Artifact>, fmt: Formats) returns (completed: bool)
      modifies this, fs
      ensures dependencyFiles == DependencyFiles(artifacts)
      ensures RunOutcome(fs.files, completed) == Run(old(fs.files), fs.creatable, fs.classes, artifacts, settings, fmt)
    {
      dependencyFiles := DependencyFiles(artifacts);
      var zipFile := settings.targetDirPath + "/" + settings.finalName + ".zip";
      var jarTempFile := settings.targetDirPath + "/" + settings.finalName + "." + settings.packagingSuffix;
      var status := WriteToJar(fs, jarTempFile, fmt);
      if status == Crashed {
        return false;
      }
      WriteToZip(fs, zipFile, jarTempFile, fmt);
      if jarTempFile in fs.files {
        fs.Delete(jarTempFile);
      }
      completed := true;
    }

    /** Writes the compiled-output tree and then the manifest into a new jar
        at `jarFile`. The jar stream is closed on every exit, which is when
        its entries reach the file. */
    method WriteToJar(fs: FileSystem, jarFile: string, fmt: Formats) returns (status: JarStatus)
      modifies fs
      ensures (fs.files, status) == JarStep(old(fs.files), fs.creatable, fs.classes, dependencyFiles,
                                            settings.mainClass, jarFile, fmt)
    {
      if jarFile !in fs.creatable {
        return NotCreated;
      }
      fs.Store(jarFile, []);
      var jos := new ArchiveStream();
      match fs.classes
      case Absent(_) =>
        fs.Store(jarFile, fmt.archive(jos.entries));
        Overwrite(old(fs.files), jarFile, [], fmt.archive([]));
        return RootMissing;
      case File(_, _) =>
        fs.Store(jarFile, fmt.archive(jos.entries));
        Overwrite(old(fs.files), jarFile, [], fmt.archive([]));
        return Crashed;
      case Dir(_, kids) =>
        var i := 0;
        while i < |kids|
          invariant 0 <= i <= |kids|
          invariant EmitAll(kids[..i], "").ok
          invariant jos.entries == EmitAll(kids[..i], "").entries
          invariant fs.files == old(fs.files)[jarFile := []]
        {
          var ok := WriteClassToJar(jos, kids[i], kids[i].name);
          assert "" + kids[i].name == kids[i].name;
          EmitAllStep(kids, "", i);
          if !ok {
            EmitAllStopped(kids, "", i + 1);
            fs.Store(jarFile, fmt.archive(jos.entries));
            Overwrite(old(fs.files), jarFile, [], fmt.archive(jos.entries));
            return Aborted;
          }
          i := i + 1;
        }
        assert kids[..i] == kids;

        var attributes: map<string, string> := map[];
        attributes := attributes[ManifestVersionKey := "1.0"];
        var classPath := BuildClassPath(dependencyFiles);
        attributes := attributes[ClassPathKey := classPath];
        attributes := attributes[MainClassKey := settings.mainClass];

        ghost var before := jos.entries;
        jos.PutNextEntry("META-INF/" + ManifestName);
        jos.WriteBytes(fmt.manifest(attributes));
        assert [] + fmt.manifest(attributes) == fmt.manifest(attributes);
        assert jos.entries == before + [Entry(ManifestEntryName, fmt.manifest(attributes))];
        fs.Store(jarFile, fmt.archive(jos.entries));
        Overwrite(old(fs.files), jarFile, [], fmt.archive(jos.entries));
        return Completed;
    }

    /** Writes node `file`, reached under entry name `path`: a directory by
        its children under `path` + "/" + child name, a file as one entry
        holding its bytes, copied through a 1024-byte buffer. Returns false
        where the I/O exception is thrown. */
    method WriteClassToJar(jarOut: ArchiveStream, file: Node, path: string) returns (ok: bool)
      modifies jarOut
      ensures jarOut.entries == old(jarOut.entries) + Emit(file, path).entries
      ensures ok == Emit(file, path).ok
      decreases file
    {
      match file
      case Absent(_) =>
        return true;
      case Dir(_, kids) =>
        var prefix := path + "/";
        var i := 0;
        while i < |kids|
          invariant 0 <= i <= |kids|
          invariant EmitAll(kids[..i], prefix).ok
          invariant jarOut.entries == old(jarOut.entries) + EmitAll(kids[..i], prefix).entries
        {
          assert kids[i] in kids;
          var subPath := prefix + kids[i].name;
          var subOk := WriteClassToJar(jarOut, kids[i], subPath);
          EmitAllStep(kids, prefix, i);
          if !subOk {
            EmitAllStopped(kids, prefix, i + 1);
            return false;
          }
          i := i + 1;
        }
        assert kids[..i] == kids;
        return true;
      case File(_, data) =>
        ok := WriteLeafToJar(jarOut, path, data);
    }

    /** The file branch of the class walk: starts entry `path` and copies the
        file's bytes into it through a 1024-byte buffer, or fails when the
        file cannot be opened. */
    method WriteLeafToJar(jarOut: ArchiveStream, path: string, data: Option<seq<byte>>) returns (ok: bool)
      modifies jarOut
      ensures jarOut.entries == old(jarOut.entries) + Copy(Source(path, data)).entries
      ensures ok == Copy(Source(path, data)).ok
    {
      jarOut.PutNextEntry(path);
      if data.None? {
        return false;
      }
      var fis := new InputStream(data.value);
      var bytes := new byte[1024];
      ghost var started := jarOut.entries;
      AppendNothing(started);
      while true
        invariant fis.Valid() && fis.data == data.value
        invariant jarOut.entries == AppendToLast(started, fis.data[..fis.pos])
        decreases |fis.data| - fis.pos
      {
        ghost var done := fis.pos;
        var length := fis.Read(bytes);
        if length < 0 {
          break;
        }
        jarOut.Write(bytes, 0, length);
        AppendToLastTwice(started, fis.data[..done], fis.data[done..fis.pos]);
        assert fis.data[..done] + fis.data[done..fis.pos] == fis.data[..fis.pos];
      }
      assert fis.data[..fis.pos] == data.value;
      AppendToStarted(old(jarOut.entries), path, data.value);
      return true;
    }

    /** Writes the dependencies under "lib/" and then the jar into a new zip
        at `zipFile`, stopping at the first file that cannot be opened. */
    method WriteToZip(fs: FileSystem, zipFile: string, jarFile: string, fmt: Formats)
      modifies fs
      ensures fs.files == ZipStep(old(fs.files), fs.creatable, dependencyFiles, zipFile, jarFile, fmt)
    {
      if zipFile !in fs.creatable {
        return;
      }
      fs.Store(zipFile, []);
      ghost var srcs := BundleSources(fs.files, dependencyFiles, jarFile);
      var zos := new ArchiveStream();
      var i := 0;
      while i < |dependencyFiles|
        invariant 0 <= i <= |dependencyFiles|
        invariant fs.files == old(fs.files)[zipFile := []]
        invariant CopyAll(srcs[..i]).ok && zos.entries == CopyAll(srcs[..i]).entries
      {
        var ok := WriteZipEntry(fs, zos, "lib/" + BaseName(dependencyFiles[i]), dependencyFiles[i]);
        CopyAllStep(srcs, i);
        if !ok {
          CopyAllStopped(srcs, i + 1);
          fs.Store(zipFile, fmt.archive(zos.entries));
          Overwrite(old(fs.files), zipFile, [], fmt.archive(zos.entries));
          return;
        }
        i := i + 1;
      }
      var ok := WriteZipEntry(fs, zos, BaseName(jarFile), jarFile);
      CopyAllStep(srcs, i);
      assert srcs[..i + 1] == srcs;
      fs.Store(zipFile, fmt.archive(zos.entries));
      Overwrite(old(fs.files), zipFile, [], fmt.archive(zos.entries));
    }

    /** One step of the zip writer: starts entry `name` and copies the file
        at `file` into it. */
    method WriteZipEntry(fs: FileSystem, zos: ArchiveStream, name: string, file: string) returns (ok: bool)
      modifies zos
      ensures zos.entries == old(zos.entries) + Copy(Source(name, Lookup(fs.files, file))).entries
      ensures ok == Copy(Source(name, Lookup(fs.files, file))).ok
    {
      zos.PutNextEntry(name);
      ok := WriteFileToOutputStream(fs, file, zos);
      if ok {
        AppendToStarted(old(zos.entries), name, fs.files[file]);
      }
    }

    /** Copies the file at `sourceFile` into the current entry of `out`
        through a 1024-byte buffer; false when the file cannot be opened. */
    method WriteFileToOutputStream(fs: FileSystem, sourceFile: string, out: ArchiveStream) returns (ok: bool)
      requires out.entries != []
      modifies out
      ensures ok <==> sourceFile in fs.files
      ensures ok ==> out.entries == AppendToLast(old(out.entries), fs.files[sourceFile])
      ensures !ok ==> out.entries == old(out.entries)
    {
      if sourceFile !in fs.files {
        return false;
      }
      var fileInputStream := new InputStream(fs.files[sourceFile]);
      var buffer := new byte[1024];
      ghost var started := out.entries;
      AppendNothing(started);
      while true
        invariant fileInputStream.Valid() && fileInputStream.data == fs.files[sourceFile]
        invariant out.entries == AppendToLast(started, fileInputStream.data[..fileInputStream.pos])
        decreases |fileInputStream.data| - fileInputStream.pos
      {
        ghost var done := fileInputStream.pos;
        var len := fileInputStream.Read(buffer);
        if len <= 0 {
          break;
        }
        out.Write(buffer, 0, len);
        AppendToLastTwice(started, fileInputStream.data[..done], fileInputStream.data[done..fileInputStream.pos]);
        assert fileInputStream.data[..done] + fileInputStream.data[done..fileInputStream.pos]
            == fileInputStream.data[..fileInputStream.pos];
      }
      assert fileInputStream.data[..fileInputStream.pos] == fs.files[sourceFile];
      return true;
    }
  }
}
