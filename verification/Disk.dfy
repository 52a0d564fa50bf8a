/** A directory of files with crashes: data is safe once the file is synced, a directory entry once the
    directory is. Only the four names the configuration uses exist. */
module Disk {
  import opened Common

  datatype Name = Main | MainTmp | Prev | PrevTmp

  datatype Inode = Inode(data: string, synced: bool)

  type Dir = map<Name, nat>

  /** `past` holds the directory versions since the last directory sync that a crash may bring back;
      inode numbers from `next` up are unused. */
  datatype Fs = Fs(inodes: map<nat, Inode>, dir: Dir, past: seq<Dir>, next: nat)

  predicate Wf(fs: Fs) {
    && (forall i :: i in fs.inodes ==> i < fs.next)
    && (forall n :: n in fs.dir ==> fs.dir[n] in fs.inodes)
    && (forall v, n :: v in fs.past && n in v ==> v[n] in fs.inodes)
  }

  /** What the two real files hold, None for an absent one. */
  datatype Contents = Contents(main: Option<string>, prev: Option<string>)

  function Content(fs: Fs, v: Dir, n: Name): Option<string> {
    if n in v && v[n] in fs.inodes then Some(fs.inodes[v[n]].data) else None
  }

  /** What version v of the directory holds. */
  function In(fs: Fs, v: Dir): Contents { Contents(Content(fs, v, Main), Content(fs, v, Prev)) }

  /** What readers see. */
  function Now(fs: Fs): Contents { In(fs, fs.dir) }

  // ------------------------------------------------------------ system calls

  /** open(O_WRONLY|O_CREATE|O_TRUNC) */
  function Open(fs: Fs, n: Name): Fs {
    if n in fs.dir then fs.(inodes := fs.inodes[fs.dir[n] := Inode("", false)])
    else
      fs.(inodes := fs.inodes[fs.next := Inode("", false)], past := fs.past + [fs.dir],
          dir := fs.dir[n := fs.next], next := fs.next + 1)
  }

  function Put(fs: Fs, n: Name, data: string, synced: bool): Fs {
    if n in fs.dir then fs.(inodes := fs.inodes[fs.dir[n] := Inode(data, synced)]) else fs
  }

  function Rename(fs: Fs, from: Name, to: Name): Fs {
    if from in fs.dir then fs.(past := fs.past + [fs.dir], dir := (fs.dir - {from})[to := fs.dir[from]]) else fs
  }

  function SyncDir(fs: Fs): Fs { fs.(past := []) }

  /** The first k steps of writeDurably (config.go:241-266): open and truncate the temporary file,
      write it, sync it, rename it into place, sync the directory. */
  function WriteSteps(fs: Fs, tmp: Name, path: Name, data: string, k: nat): Fs {
    if k == 0 then fs
    else if k == 1 then Open(fs, tmp)
    else if k == 2 then Put(Open(fs, tmp), tmp, data, false)
    else if k == 3 then Put(Open(fs, tmp), tmp, data, true)
    else if k == 4 then Rename(Put(Open(fs, tmp), tmp, data, true), tmp, path)
    else SyncDir(Rename(Put(Open(fs, tmp), tmp, data, true), tmp, path))
  }

  /** The machine stops: any directory version since the last directory sync may be the one on disk,
      and a file that was not synced may hold anything. */
  ghost predicate CrashTo(fs: Fs, after: Fs) {
    && (after.dir == fs.dir || after.dir in fs.past)
    && after.past == [] && after.next == fs.next
    && after.inodes.Keys == fs.inodes.Keys
    && forall i :: i in fs.inodes ==>
         after.inodes[i].synced && (fs.inodes[i].synced ==> after.inodes[i] == fs.inodes[i])
  }

  // ------------------------------------------------------- what never happens

  /** The directory versions a crash may leave. */
  predicate Version(fs: Fs, v: Dir) { v == fs.dir || v in fs.past }

  /** Version v gives n an existing synced inode that no temporary name, in v or live, refers to. */
  predicate Isolated(fs: Fs, v: Dir, n: Name) {
    n in v ==>
      && v[n] in fs.inodes && fs.inodes[v[n]].synced
      && (MainTmp in v ==> v[MainTmp] != v[n]) && (PrevTmp in v ==> v[PrevTmp] != v[n])
      && (MainTmp in fs.dir ==> fs.dir[MainTmp] != v[n]) && (PrevTmp in fs.dir ==> fs.dir[PrevTmp] != v[n])
  }

  /** In version v the two real files are isolated from the temporary ones and hold allowed contents. */
  ghost predicate VersionOk(fs: Fs, v: Dir, ok: iset<Contents>) {
    && (forall n :: n in v ==> v[n] in fs.inodes)
    && In(fs, v) in ok
    && Isolated(fs, v, Main) && Isolated(fs, v, Prev)
    && (MainTmp in v && PrevTmp in v ==> v[MainTmp] != v[PrevTmp])
  }

  /** Whatever directory version survives, the real files hold allowed contents. */
  ghost predicate Solid(fs: Fs, ok: iset<Contents>) {
    Wf(fs) && forall v :: Version(fs, v) ==> VersionOk(fs, v, ok)
  }

  /** Only the contents of the versions matter for which contents are allowed. */
  lemma SolidFor(fs: Fs, ok: iset<Contents>, ok': iset<Contents>)
    requires Solid(fs, ok) && forall v :: Version(fs, v) ==> In(fs, v) in ok'
    ensures Solid(fs, ok')
  {
    forall v | Version(fs, v)
      ensures VersionOk(fs, v, ok')
    {
      assert VersionOk(fs, v, ok);
    }
  }

  lemma CrashKeepsSolid(fs: Fs, after: Fs, ok: iset<Contents>)
    requires Solid(fs, ok) && CrashTo(fs, after)
    ensures Solid(after, ok) && Now(after) in ok
    ensures exists v :: Version(fs, v) && Now(after) == In(fs, v)
  {
    var v := after.dir;
    assert Version(fs, v) && VersionOk(fs, v, ok);
    assert In(after, v) == In(fs, v);
    assert VersionOk(after, v, ok);
  }

  /** The crash after which version v is the directory and every file is as it was. */
  function Crashed(fs: Fs, v: Dir): Fs {
    fs.(dir := v, past := [], inodes := map i | i in fs.inodes :: fs.inodes[i].(synced := true))
  }

  lemma AnyVersionSurvives(fs: Fs, v: Dir)
    requires Version(fs, v)
    ensures CrashTo(fs, Crashed(fs, v)) && Now(Crashed(fs, v)) == In(fs, v)
  {
  }

  // --------------------------------------------------------- the durable write

  predicate IsTmp(n: Name) { n == MainTmp || n == PrevTmp }

  predicate IsPair(tmp: Name, path: Name) { (tmp == MainTmp && path == Main) || (tmp == PrevTmp && path == Prev) }

  lemma PutKeepsSolid(fs: Fs, t: Name, data: string, synced: bool, ok: iset<Contents>)
    requires Solid(fs, ok) && IsTmp(t) && t in fs.dir
    ensures Solid(Put(fs, t, data, synced), ok)
    ensures forall v :: Version(fs, v) ==> In(Put(fs, t, data, synced), v) == In(fs, v)
  {
    var fs' := Put(fs, t, data, synced);
    forall v | Version(fs, v)
      ensures In(fs', v) == In(fs, v) && VersionOk(fs', v, ok)
    {
      assert VersionOk(fs, v, ok);
    }
  }

  lemma CreateKeepsSolid(fs: Fs, t: Name, ok: iset<Contents>)
    requires Solid(fs, ok) && IsTmp(t) && t !in fs.dir
    ensures Solid(Open(fs, t), ok) && Now(Open(fs, t)) == Now(fs)
    ensures forall v :: Version(fs, v) ==> In(Open(fs, t), v) == In(fs, v)
  {
    var fs' := Open(fs, t);
    assert fs.next !in fs.inodes;
    forall v | Version(fs, v)
      ensures In(fs', v) == In(fs, v) && VersionOk(fs', v, ok)
    {
      assert VersionOk(fs, v, ok);
    }
    assert VersionOk(fs, fs.dir, ok);
    assert VersionOk(fs', fs'.dir, ok);
  }

  /** The temporary file, written and perhaps synced. */
  function Filled(fs: Fs, tmp: Name, data: string, synced: bool): Fs { Put(Open(fs, tmp), tmp, data, synced) }

  lemma OpenKeepsSolid(fs: Fs, tmp: Name, ok: iset<Contents>)
    requires Solid(fs, ok) && IsTmp(tmp)
    ensures Solid(Open(fs, tmp), ok) && Now(Open(fs, tmp)) == Now(fs)
    ensures forall v :: Version(fs, v) ==> Version(Open(fs, tmp), v) && In(Open(fs, tmp), v) == In(fs, v)
  {
    if tmp in fs.dir {
      PutKeepsSolid(fs, tmp, "", false, ok);
      assert Open(fs, tmp) == Put(fs, tmp, "", false);
    } else {
      CreateKeepsSolid(fs, tmp, ok);
    }
  }

  lemma FillKeepsSolid(fs: Fs, tmp: Name, data: string, synced: bool, ok: iset<Contents>)
    requires Solid(fs, ok) && IsTmp(tmp)
    ensures Solid(Filled(fs, tmp, data, synced), ok) && Now(Filled(fs, tmp, data, synced)) == Now(fs)
    ensures forall v :: Version(fs, v) ==>
              Version(Filled(fs, tmp, data, synced), v) && In(Filled(fs, tmp, data, synced), v) == In(fs, v)
  {
    OpenKeepsSolid(fs, tmp, ok);
    PutKeepsSolid(Open(fs, tmp), tmp, data, synced, ok);
    assert Version(Open(fs, tmp), Open(fs, tmp).dir);
  }

  function With(x: Contents, path: Name, data: string): Contents {
    match path
    case Main => x.(main := Some(data))
    case Prev => x.(prev := Some(data))
    case _ => x
  }

  /** A synced temporary file may replace the real one when the contents that result are allowed. */
  lemma RenameKeepsSolid(fs: Fs, tmp: Name, path: Name, data: string, ok: iset<Contents>)
    requires Solid(fs, ok) && IsPair(tmp, path) && With(Now(fs), path, data) in ok
    requires tmp in fs.dir && fs.inodes[fs.dir[tmp]] == Inode(data, true)
    ensures Solid(Rename(fs, tmp, path), ok) && Now(Rename(fs, tmp, path)) == With(Now(fs), path, data)
    ensures forall v :: Version(fs, v) ==> v in Rename(fs, tmp, path).past && In(Rename(fs, tmp, path), v) == In(fs, v)
  {
    var fs' := Rename(fs, tmp, path);
    forall v | Version(fs, v)
      ensures VersionOk(fs', v, ok)
    {
      assert VersionOk(fs, v, ok);
    }
    assert VersionOk(fs, fs.dir, ok);
    assert In(fs', fs'.dir) == With(Now(fs), path, data);
    assert VersionOk(fs', fs'.dir, ok);
  }

  lemma SyncDirKeepsSolid(fs: Fs, ok: iset<Contents>)
    requires Solid(fs, ok)
    ensures Solid(SyncDir(fs), ok) && Now(SyncDir(fs)) == Now(fs)
  {
    assert VersionOk(fs, fs.dir, ok);
    assert VersionOk(SyncDir(fs), fs.dir, ok);
  }

  /** Stopping a durable write after any step leaves every surviving version with allowed contents: those
      it had, or from the rename on the new data in the one file. */
  lemma WriteKeepsSolid(fs: Fs, tmp: Name, path: Name, data: string, k: nat, ok: iset<Contents>)
    requires Solid(fs, ok) && IsPair(tmp, path) && (k >= 4 ==> With(Now(fs), path, data) in ok)
    ensures Solid(WriteSteps(fs, tmp, path, data, k), ok)
    ensures Now(WriteSteps(fs, tmp, path, data, k)) == if k >= 4 then With(Now(fs), path, data) else Now(fs)
  {
    if k == 1 {
      OpenKeepsSolid(fs, tmp, ok);
    } else if k == 2 {
      FillKeepsSolid(fs, tmp, data, false, ok);
    } else if k > 2 {
      FillKeepsSolid(fs, tmp, data, true, ok);
      if k > 3 {
        var full := Filled(fs, tmp, data, true);
        RenameKeepsSolid(full, tmp, path, data, ok);
        SyncDirKeepsSolid(Rename(full, tmp, path), ok);
      }
    }
  }

  /** Until the directory is synced a crash may undo the rename: every version there was can come back. */
  lemma VersionsStay(fs: Fs, tmp: Name, path: Name, data: string, k: nat, v: Dir, ok: iset<Contents>)
    requires Solid(fs, ok) && IsPair(tmp, path) && (k >= 4 ==> With(Now(fs), path, data) in ok)
    requires k <= 4 && Version(fs, v)
    ensures var s := WriteSteps(fs, tmp, path, data, k); Version(s, v) && In(s, v) == In(fs, v)
    ensures k == 4 ==> v in WriteSteps(fs, tmp, path, data, k).past
  {
    OpenKeepsSolid(fs, tmp, ok);
    FillKeepsSolid(fs, tmp, data, k != 2, ok);
    if k == 4 {
      RenameKeepsSolid(Filled(fs, tmp, data, true), tmp, path, data, ok);
    }
  }

  /** No two of the live names share an inode, as far as the write is concerned. */
  predicate Apart(fs: Fs) {
    && Wf(fs)
    && (forall t, n :: t in fs.dir && n in fs.dir && IsTmp(t) && t != n ==> fs.dir[t] != fs.dir[n])
  }

  lemma SolidIsApart(fs: Fs, ok: iset<Contents>)
    requires Solid(fs, ok)
    ensures Apart(fs)
  {
    assert VersionOk(fs, fs.dir, ok);
  }

  lemma PutKeepsApart(fs: Fs, t: Name, data: string, synced: bool)
    requires Apart(fs) && IsTmp(t) && t in fs.dir
    ensures Apart(Put(fs, t, data, synced)) && Now(Put(fs, t, data, synced)) == Now(fs)
  {
    var fs' := Put(fs, t, data, synced);
    assert Content(fs', fs.dir, Main) == Content(fs, fs.dir, Main);
    assert Content(fs', fs.dir, Prev) == Content(fs, fs.dir, Prev);
  }

  lemma CreateKeepsApart(fs: Fs, t: Name)
    requires Apart(fs) && IsTmp(t) && t !in fs.dir
    ensures Apart(Open(fs, t)) && Now(Open(fs, t)) == Now(fs)
  {
    var fs' := Open(fs, t);
    assert fs.next !in fs.inodes;
    assert Content(fs', fs'.dir, Main) == Content(fs, fs.dir, Main);
    assert Content(fs', fs'.dir, Prev) == Content(fs, fs.dir, Prev);
  }

  lemma FillKeepsApart(fs: Fs, tmp: Name, data: string, synced: bool)
    requires Apart(fs) && IsTmp(tmp)
    ensures Apart(Open(fs, tmp)) && Now(Open(fs, tmp)) == Now(fs)
    ensures var full := Filled(fs, tmp, data, synced);
            Apart(full) && Now(full) == Now(fs) && tmp in full.dir && full.inodes[full.dir[tmp]] == Inode(data, synced)
  {
    if tmp in fs.dir {
      PutKeepsApart(fs, tmp, "", false);
      assert Open(fs, tmp) == Put(fs, tmp, "", false);
    } else {
      CreateKeepsApart(fs, tmp);
    }
    PutKeepsApart(Open(fs, tmp), tmp, data, synced);
  }

  lemma RenameKeepsApart(fs: Fs, tmp: Name, path: Name)
    requires Apart(fs) && IsPair(tmp, path) && tmp in fs.dir
    ensures Apart(Rename(fs, tmp, path))
    ensures Now(Rename(fs, tmp, path)) == With(Now(fs), path, fs.inodes[fs.dir[tmp]].data)
  {
  }

  /** A completed write is what readers see, and the other real file is untouched. */
  lemma WriteTakesEffect(fs: Fs, tmp: Name, path: Name, data: string, k: nat)
    requires Apart(fs) && IsPair(tmp, path)
    ensures Now(WriteSteps(fs, tmp, path, data, k)) == if k >= 4 then With(Now(fs), path, data) else Now(fs)
    ensures Apart(WriteSteps(fs, tmp, path, data, k))
  {
    FillKeepsApart(fs, tmp, data, k >= 3);
    if k >= 4 {
      var renamed := Rename(Filled(fs, tmp, data, true), tmp, path);
      RenameKeepsApart(Filled(fs, tmp, data, true), tmp, path);
      assert Apart(SyncDir(renamed)) && Now(SyncDir(renamed)) == Now(renamed);
    }
  }
}
