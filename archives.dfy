/** Archives as append-only sequences of named entries, and the stream that
    writes them: each entry is started empty and then grows at its end. */
module Archives {
  import opened Storage

  /** One archive entry: a "/"-joined relative name and its bytes. */
  datatype Entry = Entry(name: string, data: seq<byte>)

  /** The byte encodings that belong to the container library: the archive
      file that a list of entries becomes when its stream is closed, and the
      text a manifest's main attributes are written as. */
  datatype Formats = Formats(archive: seq<Entry> -> seq<byte>, manifest: map<string, string> -> seq<byte>)

  /** The entries a writer has emitted so far and whether it may go on
      (`ok`), or stopped at an I/O failure. */
  datatype Walk = Walk(entries: seq<Entry>, ok: bool)

  const Done := Walk([], true)

  /** Runs `b` after `a`, unless `a` failed: a failure ends the writer. */
  function Then(a: Walk, b: Walk): Walk
  {
    if a.ok then Walk(a.entries + b.entries, b.ok) else a
  }

  lemma ThenAssociative(a: Walk, b: Walk, c: Walk)
    ensures Then(Then(a, b), c) == Then(a, Then(b, c))
  {
  }

  /** A pending entry: its name and the bytes of the file it copies, `None`
      when that file cannot be opened. */
  datatype Source = Source(name: string, bytes: Option<seq<byte>>)

  /** An entry that is started and then given the bytes of its file, or left
      empty when that file cannot be opened, which ends the writer. */
  function Copy(s: Source): Walk
  {
    match s.bytes
    case Some(bytes) => Walk([Entry(s.name, bytes)], true)
    case None => Walk([Entry(s.name, [])], false)
  }

  /** Copying the sources in order, stopping at the first that cannot be opened. */
  function CopyAll(srcs: seq<Source>): Walk
    decreases |srcs|
  {
    if srcs == [] then Done else Then(Copy(srcs[0]), CopyAll(srcs[1..]))
  }

  lemma {:induction false} CopyAllAppend(a: seq<Source>, b: seq<Source>)
    ensures CopyAll(a + b) == Then(CopyAll(a), CopyAll(b))
    decreases |a|
  {
    if a == [] {
      assert a + b == b;
    } else {
      assert (a + b)[0] == a[0];
      assert (a + b)[1..] == a[1..] + b;
      CopyAllAppend(a[1..], b);
      ThenAssociative(Copy(a[0]), CopyAll(a[1..]), CopyAll(b));
    }
  }

  /** A writer's loop: one more source extends the walk. */
  lemma CopyAllStep(srcs: seq<Source>, i: nat)
    requires i < |srcs|
    ensures CopyAll(srcs[..i + 1]) == Then(CopyAll(srcs[..i]), Copy(srcs[i]))
  {
    assert srcs[..i + 1] == srcs[..i] + [srcs[i]];
    CopyAllAppend(srcs[..i], [srcs[i]]);
    assert [srcs[i]][1..] == [];
    var w := Copy(srcs[i]);
    assert w.entries + [] == w.entries;
  }

  ghost predicate AllOpen(srcs: seq<Source>)
  {
    forall i :: 0 <= i < |srcs| ==> srcs[i].bytes.Some?
  }

  /** With every source readable: one entry per source, in order, holding its bytes. */
  lemma {:induction false} CopyAllOpen(srcs: seq<Source>)
    requires AllOpen(srcs)
    ensures CopyAll(srcs).ok && |CopyAll(srcs).entries| == |srcs|
    ensures forall i :: 0 <= i < |srcs| ==> CopyAll(srcs).entries[i] == Entry(srcs[i].name, srcs[i].bytes.value)
    decreases |srcs|
  {
    if srcs != [] {
      CopyAllOpen(srcs[1..]);
      var r, t := CopyAll(srcs), CopyAll(srcs[1..]);
      assert r.entries == [Entry(srcs[0].name, srcs[0].bytes.value)] + t.entries;
      forall i | 1 <= i < |srcs|
        ensures r.entries[i] == Entry(srcs[i].name, srcs[i].bytes.value)
      {
        assert r.entries[i] == t.entries[i - 1];
        assert srcs[1..][i - 1] == srcs[i];
      }
    }
  }

  /** With source `k` the first that cannot be opened: the sources before it
      are copied in full, `k` gets an empty entry and nothing follows. */
  lemma CopyAllFirstFailure(srcs: seq<Source>, k: nat)
    requires k < |srcs| && srcs[k].bytes.None?
    requires AllOpen(srcs[..k])
    ensures !CopyAll(srcs).ok && |CopyAll(srcs).entries| == k + 1
    ensures forall i :: 0 <= i < k ==> CopyAll(srcs).entries[i] == Entry(srcs[i].name, srcs[i].bytes.value)
    ensures CopyAll(srcs).entries[k] == Entry(srcs[k].name, [])
  {
    assert srcs == srcs[..k] + [srcs[k]] + srcs[k + 1..];
    CopyAllAppend(srcs[..k] + [srcs[k]], srcs[k + 1..]);
    CopyAllAppend(srcs[..k], [srcs[k]]);
    CopyAllOpen(srcs[..k]);
    assert [srcs[k]][1..] == [];
    forall i | 0 <= i < k
      ensures CopyAll(srcs).entries[i] == Entry(srcs[i].name, srcs[i].bytes.value)
    {
      assert srcs[..k][i] == srcs[i];
    }
  }

  /** Once the sources up to `i` have failed, the later ones add nothing. */
  lemma CopyAllStopped(srcs: seq<Source>, i: nat)
    requires i <= |srcs| && !CopyAll(srcs[..i]).ok
    ensures CopyAll(srcs) == CopyAll(srcs[..i])
  {
    assert srcs == srcs[..i] + srcs[i..];
    CopyAllAppend(srcs[..i], srcs[i..]);
  }

  /** `es` with `bytes` added at the end of its last entry. */
  function AppendToLast(es: seq<Entry>, bytes: seq<byte>): seq<Entry>
    requires es != []
  {
    es[..|es| - 1] + [Entry(es[|es| - 1].name, es[|es| - 1].data + bytes)]
  }

  lemma AppendToLastTwice(es: seq<Entry>, a: seq<byte>, b: seq<byte>)
    requires es != []
    ensures AppendToLast(AppendToLast(es, a), b) == AppendToLast(es, a + b)
  {
    var x := AppendToLast(AppendToLast(es, a), b);
    var y := AppendToLast(es, a + b);
    assert es[|es| - 1].data + a + b == es[|es| - 1].data + (a + b);
    assert x[..|x| - 1] == y[..|y| - 1];
    assert x == x[..|x| - 1] + [x[|x| - 1]];
    assert y == y[..|y| - 1] + [y[|y| - 1]];
  }

  lemma AppendNothing(es: seq<Entry>)
    requires es != []
    ensures AppendToLast(es, []) == es
  {
    var r := AppendToLast(es, []);
    assert es[|es| - 1].data + [] == es[|es| - 1].data;
    assert r == r[..|r| - 1] + [r[|r| - 1]];
    assert es == es[..|es| - 1] + [es[|es| - 1]];
  }

  /** Bytes written into an entry just started make up that entry. */
  lemma AppendToStarted(es: seq<Entry>, name: string, bytes: seq<byte>)
    ensures AppendToLast(es + [Entry(name, [])], bytes) == es + [Entry(name, bytes)]
  {
    var started := es + [Entry(name, [])];
    assert started[..|started| - 1] == es;
    assert [] + bytes == bytes;
  }

  /** An open archive-writing session. */
  class ArchiveStream {
    var entries: seq<Entry>

    constructor ()
      ensures entries == []
    {
      entries := [];
    }

    /** Starts a new, empty entry; later writes go into it. */
    method PutNextEntry(name: string)
      modifies this
      ensures entries == old(entries) + [Entry(name, [])]
    {
      entries := entries + [Entry(name, [])];
    }

    /** Writes `len` bytes of `buf` from `off` into the current entry. */
    method Write(buf: array<byte>, off: nat, len: nat)
      requires entries != []
      requires off + len <= buf.Length
      modifies this
      ensures entries == AppendToLast(old(entries), buf[off..off + len])
    {
      entries := AppendToLast(entries, buf[off..off + len]);
    }

    /** Writes `bytes` into the current entry. */
    method WriteBytes(bytes: seq<byte>)
      requires entries != []
      modifies this
      ensures entries == AppendToLast(old(entries), bytes)
    {
      entries := AppendToLast(entries, bytes);
    }
  }
}
