/** The file system as the packager sees it: the compiled-output tree, a flat
    map of regular files by path, and input streams that hand out a file's
    bytes in chunks. */
module Storage {

  newtype byte = x: int | 0 <= x < 256

  datatype Option<T> = None | Some(value: T)

  /** One node of the compiled-output directory. `Absent` is a name that no
      longer exists when it is visited; a `File` whose `data` is `None` cannot
      be opened. Children are in the order the directory listing returns them. */
  datatype Node =
    | File(name: string, data: Option<seq<byte>>)
    | Dir(name: string, children: seq<Node>)
    | Absent(name: string)

  /** The last path component: everything after the last '/'. */
  function BaseName(p: string): string
    decreases |p|
  {
    if p == [] then []
    else if p[|p| - 1] == '/' then []
    else BaseName(p[..|p| - 1]) + [p[|p| - 1]]
  }

  /** The base name is the part of the path after its last '/'. */
  lemma {:induction false} BaseNameSuffix(p: string)
    ensures var r := BaseName(p);
      '/' !in r && |r| <= |p| && p[|p| - |r|..] == r && (|r| < |p| ==> p[|p| - |r| - 1] == '/')
    decreases |p|
  {
    if p != [] && p[|p| - 1] != '/' {
      var q := p[..|p| - 1];
      BaseNameSuffix(q);
      var r := BaseName(q);
      assert q[|q| - |r|..] == p[|p| - 1 - |r|..|p| - 1];
      assert p[|p| - |r| - 1..] == p[|p| - 1 - |r|..|p| - 1] + [p[|p| - 1]];
    }
  }

  /** A name appended to a directory path is found again as the base name. */
  lemma BaseNameOfChild(dir: string, n: string)
    requires '/' !in n
    ensures BaseName(dir + "/" + n) == n
  {
    var p := dir + "/" + n;
    BaseNameSuffix(p);
    var r := BaseName(p);
    assert p[|p| - |n| - 1] == '/';
    assert forall j :: |p| - |r| <= j < |p| ==> p[j] == r[j - (|p| - |r|)];
    assert |r| <= |n|;
    assert |r| == |n|;
    assert p[|p| - |n|..] == n;
  }

  /** Writing a file twice leaves only the second contents. */
  lemma Overwrite(m: map<string, seq<byte>>, k: string, a: seq<byte>, b: seq<byte>)
    ensures m[k := a][k := b] == m[k := b]
  {
  }

  /** The regular files of the disk by path, and the paths at which an
      output file can be opened for writing (a path inside a directory that
      does not let files be created, or one a directory occupies, is not among
      them). The compiled-output tree is read only. */
  class FileSystem {
    var files: map<string, seq<byte>>
    const creatable: set<string>
    const classes: Node

    constructor (files: map<string, seq<byte>>, creatable: set<string>, classes: Node)
      ensures this.files == files && this.creatable == creatable && this.classes == classes
    {
      this.files := files;
      this.creatable := creatable;
      this.classes := classes;
    }

    /** Creates or truncates the file at `path` and gives it `bytes`. */
    method Store(path: string, bytes: seq<byte>)
      modifies this
      ensures files == old(files)[path := bytes]
    {
      files := files[path := bytes];
    }

    /** Removes the file at `path`. */
    method Delete(path: string)
      modifies this
      ensures files == old(files) - {path}
    {
      files := files - {path};
    }
  }

  /** An opened source file: its fixed contents and how far it has been read. */
  class InputStream {
    const data: seq<byte>
    var pos: nat

    ghost predicate Valid()
      reads this
    {
      pos <= |data|
    }

    constructor (data: seq<byte>)
      ensures Valid() && this.data == data && pos == 0
    {
      this.data := data;
      pos := 0;
    }

    /** Reads the next chunk into `buf`: at least one byte and at most
        `buf.Length` while any remain, -1 at the end, 0 into an empty buffer.
        The chunk size is not fixed: any short read is allowed. */
    method Read(buf: array<byte>) returns (n: int)
      requires Valid()
      modifies this, buf
      ensures Valid()
      ensures buf.Length == 0 ==> n == 0 && pos == old(pos)
      ensures buf.Length > 0 && old(pos) == |data| ==> n == -1 && pos == old(pos)
      ensures buf.Length > 0 && old(pos) < |data| ==>
        1 <= n <= buf.Length && pos == old(pos) + n && buf[..n] == data[old(pos)..pos]
    {
      if buf.Length == 0 {
        return 0;
      }
      if pos == |data| {
        return -1;
      }
      n :| 1 <= n <= buf.Length && n <= |data| - pos;
      forall k | 0 <= k < n {
        buf[k] := data[pos + k];
      }
      pos := pos + n;
    }
  }
}
