/** The operator's configuration document: merged module settings, a save that survives a crash at any
    step, and a load that recovers from the previous copy (config.go:73-266). */
module ConfigFile {
  import opened Common
  import opened Disk

  datatype Value = Scalar(text: string) | Obj(fields: map<string, Value>)
  type Doc = map<string, Value>

  /** JSON, and which top-level documents fit the daemon's own settings. */
  datatype Codec = Codec(enc: Doc -> string, dec: string -> Option<Doc>, fits: Doc -> bool)

  ghost predicate Lawful(c: Codec) {
    forall d: Doc :: c.dec(c.enc(d)) == Some(d) && c.enc(d) != ""
  }

  // ------------------------------------------------------------------- loading

  function Text(o: Option<string>): string { OrElse(o, "") }

  function Top(user: Doc): Doc { user - {"modules"} }

  /** The main file holds bytes that do not parse. */
  predicate Garbage(c: Codec, x: Contents) { Text(x.main) != "" && c.dec(Text(x.main)).None? }

  /** The previous copy, when the main file is empty, absent or garbage and the copy is a non-empty document. */
  function Recovered(c: Codec, x: Contents): Option<Doc> {
    if Text(x.prev) != "" && (Text(x.main) == "" || Garbage(c, x)) then
      var d := c.dec(Text(x.prev));
      if d.Some? && d.value != map[] then d else None
    else None
  }

  /** The configuration a load would come up with, None for an error. */
  function Meaning(c: Codec, x: Contents): Option<Doc> {
    if Recovered(c, x).Some? then Recovered(c, x)
    else if Text(x.main) == "" then Some(map[])
    else c.dec(Text(x.main))
  }

  datatype Memory = Memory(user: Doc, core: Doc, note: bool)

  /** Whether the two reads of a load succeed or find no file; any other error is a failed read. */
  datatype Reads = Reads(main: bool, prev: bool)

  const ALL_READ := Reads(true, true)

  /** A previous copy that cannot be read counts as none. */
  function Seen(x: Contents, io: Reads): Contents { if io.prev then x else x.(prev := None) }

  /** Reload; the rewrite of a recovered file gets as far as step k. */
  function AfterReload(c: Codec, fs: Fs, m: Memory, io: Reads, k: nat): (Fs, Memory, bool) {
    if !io.main then (fs, m.(note := false), false)
    else
      var x := Seen(Now(fs), io);
      var recovered := Recovered(c, x).Some?;
      var fs' := if recovered then WriteSteps(fs, MainTmp, Main, Text(x.prev), k) else fs;
      match Meaning(c, x)
      case None => (fs', m.(note := false), false)
      case Some(u) =>
        if c.fits(Top(u)) then (fs', Memory(u, Top(u), recovered), true)
        else (fs', m.(user := u, note := recovered), false)
  }

  /** The disk after the first kp steps of keeping what is there; an unreadable file is kp == 0. */
  function Kept(fs: Fs, kp: nat): Fs {
    if Text(Now(fs).main) != "" then WriteSteps(fs, PrevTmp, Prev, Text(Now(fs).main), kp) else fs
  }

  /** saveLocked: keep what is there, then replace it. The first write gets as far as step kp (its
      errors are ignored), the second as far as km. */
  function SaveSteps(c: Codec, fs: Fs, user: Doc, kp: nat, km: nat): Fs {
    WriteSteps(Kept(fs, kp), MainTmp, Main, c.enc(user), km)
  }

  // ----------------------------------------------------------- module settings

  function Fields(d: Doc, k: string): Doc {
    if k in d && d[k].Obj? then d[k].fields else map[]
  }

  function WithModule(user: Doc, name: string, values: Doc): Doc {
    var mods := Fields(user, "modules");
    user["modules" := Obj(mods[name := Obj(Fields(mods, name) + values)])]
  }

  const TRUE := Scalar("true")

  function Merged(defaults: map<string, Doc>, user: Doc, name: string): Doc {
    var out := (if name in defaults then defaults[name] else map[]) + Fields(Fields(user, "modules"), name);
    if "enabled" in out then out else out["enabled" := TRUE]
  }

  class Config {
    const codec: Codec
    var user: Doc
    var core: Doc
    var note: bool
    var defaults: map<string, Doc>
    var fs: Fs

    ghost function Mem(): Memory reads this { Memory(user, core, note) }

    constructor (codec: Codec, fs: Fs)
      ensures this.codec == codec && this.fs == fs && Mem() == Memory(map[], map[], false) && defaults == map[]
    {
      this.codec, this.fs, user, core, note, defaults := codec, fs, map[], map[], false, map[];
    }

    method WriteDurably(tmp: Name, path: Name, data: string, k: nat) returns (ok: bool)
      modifies this`fs
      ensures fs == WriteSteps(old(fs), tmp, path, data, k) && ok == (k >= 4)
    {
      if k == 0 { return false; }
      fs := Open(fs, tmp);
      if k == 1 { return false; }
      fs := Put(fs, tmp, data, false);
      if k == 2 { return false; }
      fs := Put(fs, tmp, data, true);
      assert fs == Put(Open(old(fs), tmp), tmp, data, true);
      if k == 3 { return false; }
      fs := Rename(fs, tmp, path);
      if k >= 5 {
        fs := SyncDir(fs);
      }
      return true;
    }

    method Reload(io: Reads, k: nat) returns (ok: bool)
      modifies this`user, this`core, this`note, this`fs
      ensures (fs, Mem(), ok) == AfterReload(codec, old(fs), old(Mem()), io, k)
    {
      note := false;
      if !io.main {
        return false;
      }
      var data := Text(Now(fs).main);
      var parsed: Option<Doc> := Some(map[]);
      if |data| > 0 {
        parsed := codec.dec(data);
      }
      var prev := if io.prev then Text(Now(fs).prev) else "";
      if |prev| > 0 && (parsed.None? || |data| == 0) {
        var recovered := codec.dec(prev);
        if recovered.Some? && recovered.value != map[] {
          note := true;
          parsed := recovered;
          var _ := WriteDurably(MainTmp, Main, prev, k);
        }
      }
      if parsed.None? {
        return false;
      }
      user := parsed.value;
      var top := user - {"modules"};
      if !codec.fits(top) {
        return false;
      }
      core := top;
      return true;
    }

    method SaveLocked(kp: nat, km: nat) returns (ok: bool)
      modifies this`fs
      ensures fs == SaveSteps(codec, old(fs), user, kp, km) && ok == (km >= 4)
    {
      var b := codec.enc(user);
      var was := Text(Now(fs).main);
      if |was| > 0 {
        var _ := WriteDurably(PrevTmp, Prev, was, kp);
      }
      ok := WriteDurably(MainTmp, Main, b, km);
    }

    /** Copies one map over another, key by key, in any order. */
    method Overlay(base: Doc, over: Doc) returns (out: Doc)
      ensures out == base + over
    {
      out := base;
      var left := over.Keys;
      while left != {}
        invariant left <= over.Keys
        invariant out == base + (map k | k in over.Keys - left :: over[k])
        decreases left
      {
        var k :| k in left;
        out := out[k := over[k]];
        left := left - {k};
      }
      assert (map k | k in over.Keys - left :: over[k]) == over;
    }

    method DeclareModule(name: string, values: Doc)
      modifies this`defaults
      ensures defaults == old(defaults)[name := map["enabled" := TRUE] + values]
    {
      var d := Overlay(map["enabled" := TRUE], values);
      defaults := defaults[name := d];
    }

    method Module(name: string) returns (out: Doc)
      ensures out == Merged(defaults, user, name)
    {
      out := map[];
      if name in defaults {
        out := Overlay(out, defaults[name]);
      }
      assert out == if name in defaults then defaults[name] else map[];
      if "modules" in user && user["modules"].Obj? {
        var mods := user["modules"].fields;
        if name in mods && mods[name].Obj? {
          out := Overlay(out, mods[name].fields);
        }
      }
      if "enabled" !in out {
        out := out["enabled" := TRUE];
      }
    }

    method SetModule(name: string, values: Doc, kp: nat, km: nat) returns (ok: bool)
      modifies this`user, this`fs
      ensures user == WithModule(old(user), name, values)
      ensures fs == SaveSteps(codec, old(fs), user, kp, km) && ok == (km >= 4)
    {
      var mods: Doc := map[];
      if "modules" in user && user["modules"].Obj? {
        mods := user["modules"].fields;
      }
      var cur: Doc := map[];
      if name in mods && mods[name].Obj? {
        cur := mods[name].fields;
      }
      cur := Overlay(cur, values);
      mods := mods[name := Obj(cur)];
      user := user["modules" := Obj(mods)];
      ok := SaveLocked(kp, km);
    }
  }

  // ------------------------------------------------------- what a load leaves

  /** The previous copy is missing, cannot be read or is not a document with something in it. */
  predicate NoGoodCopy(c: Codec, x: Contents, io: Reads) {
    !io.prev || x.prev.None? || x.prev == Some("") || c.dec(x.prev.value).None? || c.dec(x.prev.value) == Some(map[])
  }

  /** A main file that parses is what memory holds after the load: its whole document, and without
      "modules" the daemon's own settings, unless those do not fit, which is an error. */
  lemma GoodFileIsLoaded(c: Codec, fs: Fs, m: Memory, io: Reads, k: nat, text: string, u: Doc)
    requires io.main && Now(fs).main == Some(text) && text != "" && c.dec(text) == Some(u)
    ensures var (fs', m', done) := AfterReload(c, fs, m, io, k);
      && fs' == fs && m'.user == u && !m'.note && (done <==> c.fits(u - {"modules"}))
      && m'.core == if done then u - {"modules"} else m.core
  {
  }

  /** An empty or absent file without a good copy is an empty configuration. */
  lemma NothingIsLoadedAsEmpty(c: Codec, fs: Fs, m: Memory, io: Reads, k: nat)
    requires io.main && (Now(fs).main == None || Now(fs).main == Some("")) && NoGoodCopy(c, Now(fs), io)
    ensures var (fs', m', done) := AfterReload(c, fs, m, io, k);
      && fs' == fs && m'.user == map[] && !m'.note && (done <==> c.fits(map[]))
      && m'.core == if done then map[] else m.core
  {
    var nothing: Doc := map[];
    assert nothing - {"modules"} == nothing;
  }

  /** Bytes that do not parse, without a good copy, are an error that keeps memory; so is a failed read. */
  lemma GarbageIsAnError(c: Codec, fs: Fs, m: Memory, io: Reads, k: nat)
    requires !io.main || (Now(fs).main.Some? && Now(fs).main.value != "" && c.dec(Now(fs).main.value).None?
                          && NoGoodCopy(c, Now(fs), io))
    ensures AfterReload(c, fs, m, io, k) == (fs, m.(note := false), false)
  {
  }

  /** A good copy beside an empty, absent or unreadable document is loaded, with a note, and the main
      file is rewritten from it as far as the write gets. */
  lemma GoodCopyIsLoaded(c: Codec, fs: Fs, m: Memory, k: nat, text: string, u: Doc)
    requires Apart(fs) && Now(fs).prev == Some(text) && text != "" && c.dec(text) == Some(u) && u != map[]
    requires Now(fs).main == None || Now(fs).main == Some("") || c.dec(Now(fs).main.value).None?
    ensures var (fs', m', done) := AfterReload(c, fs, m, ALL_READ, k);
      && m'.user == u && m'.note && (done <==> c.fits(u - {"modules"}))
      && m'.core == (if done then u - {"modules"} else m.core)
      && Now(fs') == if k >= 4 then Contents(Some(text), Some(text)) else Now(fs)
  {
    WriteTakesEffect(fs, MainTmp, Main, text, k);
  }

  /** What a load leaves in memory and whether it succeeds, starting from memory m. */
  function Leaves(c: Codec, fs: Fs, m: Memory, k: nat): (Doc, Doc, bool) {
    var (_, m', done) := AfterReload(c, fs, m, ALL_READ, k);
    (m'.user, m'.core, done)
  }

  /** Two disks a load cannot tell apart. */
  ghost predicate LoadsLike(c: Codec, a: Fs, b: Fs) {
    forall m: Memory, k: nat, n: nat :: Leaves(c, a, m, k) == Leaves(c, b, m, n)
  }

  /** Memory after loading document u over m. */
  function Loaded(c: Codec, u: Doc, m: Memory): (Doc, Doc, bool) {
    (u, if c.fits(u - {"modules"}) then u - {"modules"} else m.core, c.fits(u - {"modules"}))
  }

  /** Every load puts u into memory, and the daemon's settings of u if they fit. */
  ghost predicate Loads(c: Codec, fs: Fs, u: Doc) {
    forall m: Memory, k: nat :: Leaves(c, fs, m, k) == Loaded(c, u, m)
  }

  lemma LeavesMeaning(c: Codec, fs: Fs, m: Memory, k: nat)
    ensures Leaves(c, fs, m, k) == match Meaning(c, Now(fs))
                                   case None => (m.user, m.core, false)
                                   case Some(u) => Loaded(c, u, m)
  {
    assert Seen(Now(fs), ALL_READ) == Now(fs);
  }

  function Other(u: Doc): Doc { if u == map[] then map["a" := Scalar("")] else map[] }

  lemma OtherDiffers(u: Doc)
    ensures Other(u) != u
  {
    assert "a" in map["a" := Scalar("")];
  }

  lemma LoadsIff(c: Codec, fs: Fs, u: Doc)
    ensures Loads(c, fs, u) <==> Meaning(c, Now(fs)) == Some(u)
  {
    if Meaning(c, Now(fs)) == Some(u) {
      forall m: Memory, k: nat
        ensures Leaves(c, fs, m, k) == Loaded(c, u, m)
      {
        LeavesMeaning(c, fs, m, k);
      }
    } else {
      var m := Memory(Other(u), map[], false);
      OtherDiffers(u);
      LeavesMeaning(c, fs, m, 0);
      assert Leaves(c, fs, m, 0) != Loaded(c, u, m);
    }
  }

  lemma LoadsLikeIff(c: Codec, a: Fs, b: Fs)
    ensures LoadsLike(c, a, b) <==> Meaning(c, Now(a)) == Meaning(c, Now(b))
  {
    var x, y := Meaning(c, Now(a)), Meaning(c, Now(b));
    if x == y {
      forall m: Memory, k: nat, n: nat
        ensures Leaves(c, a, m, k) == Leaves(c, b, m, n)
      {
        LeavesMeaning(c, a, m, k);
        LeavesMeaning(c, b, m, n);
      }
    } else {
      var u := if x.Some? then x.value else y.value;
      var m := Memory(Other(u), map[], false);
      OtherDiffers(u);
      LeavesMeaning(c, a, m, 0);
      LeavesMeaning(c, b, m, 0);
      assert Leaves(c, a, m, 0) != Leaves(c, b, m, 0);
    }
  }

  // -------------------------------------------------------- crash during a save

  lemma MeaningOfSaved(c: Codec, user: Doc, prev: Option<string>)
    requires Lawful(c)
    ensures Meaning(c, Contents(Some(c.enc(user)), prev)) == Some(user)
    ensures !Garbage(c, Contents(Some(c.enc(user)), prev))
  {
  }

  /** Keeping the main file as the previous copy would destroy the only good copy. */
  predicate LosesPrev(c: Codec, x: Contents) { Garbage(c, x) && Recovered(c, x).Some? }

  lemma SaveKeepsSolid(c: Codec, fs: Fs, user: Doc, kp: nat, km: nat, ok: iset<Contents>)
    requires Solid(fs, ok) && Contents(Some(c.enc(user)), Now(fs).prev) in ok
    requires Text(Now(fs).main) != "" ==>
               Contents(Now(fs).main, Now(fs).main) in ok && Contents(Some(c.enc(user)), Now(fs).main) in ok
    ensures Solid(Kept(fs, kp), ok) && Solid(SaveSteps(c, fs, user, kp, km), ok)
  {
    if Text(Now(fs).main) != "" {
      assert With(Now(fs), Prev, Text(Now(fs).main)) == Contents(Now(fs).main, Now(fs).main);
      WriteKeepsSolid(fs, PrevTmp, Prev, Text(Now(fs).main), kp, ok);
    }
    assert With(Now(Kept(fs, kp)), Main, c.enc(user)) == Contents(Some(c.enc(user)), Now(Kept(fs, kp)).prev);
    WriteKeepsSolid(Kept(fs, kp), MainTmp, Main, c.enc(user), km, ok);
  }

  /** The contents that mean one of two configurations. */
  ghost function Either(c: Codec, a: Option<Doc>, b: Option<Doc>): iset<Contents> {
    iset x: Contents | Meaning(c, x) == a || Meaning(c, x) == b
  }

  /** No step of a save leaves a version that means anything but the old or the new configuration, when
      none did before and keeping the main file destroys nothing. */
  lemma SaveKeepsEither(c: Codec, fs: Fs, user: Doc, kp: nat, km: nat, ok: iset<Contents>)
    requires Lawful(c) && Solid(fs, ok) && !LosesPrev(c, Now(fs))
    requires forall v :: v in fs.past ==> In(fs, v) in Either(c, Meaning(c, Now(fs)), Some(user))
    ensures Solid(Kept(fs, kp), Either(c, Meaning(c, Now(fs)), Some(user)))
    ensures Solid(SaveSteps(c, fs, user, kp, km), Either(c, Meaning(c, Now(fs)), Some(user)))
  {
    var either := Either(c, Meaning(c, Now(fs)), Some(user));
    SolidFor(fs, ok, either);
    MeaningOfSaved(c, user, Now(fs).prev);
    MeaningOfSaved(c, user, Now(fs).main);
    SaveKeepsSolid(c, fs, user, kp, km, either);
  }

  /** Crashing after any step of a save, then loading, leaves in memory what a load would have left before
      the save, or the new configuration. */
  ghost predicate CrashSafe(c: Codec, fs: Fs, user: Doc) {
    forall kp: nat, km: nat, after: Fs :: CrashTo(SaveSteps(c, fs, user, kp, km), after) ==>
      LoadsLike(c, after, fs) || Loads(c, after, user)
  }

  ghost predicate MeansOldOrNew(c: Codec, fs: Fs, user: Doc) {
    forall kp: nat, km: nat, after: Fs :: CrashTo(SaveSteps(c, fs, user, kp, km), after) ==>
      Now(after) in Either(c, Meaning(c, Now(fs)), Some(user))
  }

  lemma CrashSafeIsMeaning(c: Codec, fs: Fs, user: Doc)
    ensures CrashSafe(c, fs, user) <==> MeansOldOrNew(c, fs, user)
  {
    forall after: Fs
      ensures LoadsLike(c, after, fs) || Loads(c, after, user) <==>
              Now(after) in Either(c, Meaning(c, Now(fs)), Some(user))
    {
      LoadsLikeIff(c, after, fs);
      LoadsIff(c, after, user);
    }
  }

  /** Saving over a garbage main file replaces the good previous copy by the garbage first; a crash
      before the new file is in place then leaves nothing to load. */
  lemma GarbageDestroysPrev(c: Codec, fs: Fs, user: Doc) returns (after: Fs)
    requires Apart(fs) && LosesPrev(c, Now(fs))
    ensures CrashTo(SaveSteps(c, fs, user, 5, 0), after)
    ensures Meaning(c, Now(fs)).Some? && Meaning(c, Now(after)).None?
    ensures !LoadsLike(c, after, fs) && !Loads(c, after, user)
  {
    var s := SaveSteps(c, fs, user, 5, 0);
    WriteTakesEffect(fs, PrevTmp, Prev, Text(Now(fs).main), 5);
    AnyVersionSurvives(s, s.dir);
    after := Crashed(s, s.dir);
    LoadsLikeIff(c, after, fs);
    LoadsIff(c, after, user);
  }

  /** CRASH SAFETY: every crash point of a save leads back to the old or the new configuration if and
      only if every directory version still pending means one of the two, and the main file is not
      garbage while a good previous copy is there. */
  lemma CrashSafeIff(c: Codec, fs: Fs, user: Doc, ok: iset<Contents>)
    requires Lawful(c) && Solid(fs, ok)
    ensures CrashSafe(c, fs, user) <==>
            && !LosesPrev(c, Now(fs))
            && forall v :: v in fs.past ==> In(fs, v) in Either(c, Meaning(c, Now(fs)), Some(user))
  {
    var either := Either(c, Meaning(c, Now(fs)), Some(user));
    CrashSafeIsMeaning(c, fs, user);
    if MeansOldOrNew(c, fs, user) {
      if LosesPrev(c, Now(fs)) {
        SolidIsApart(fs, ok);
        var after := GarbageDestroysPrev(c, fs, user);
      }
      forall v | v in fs.past
        ensures In(fs, v) in either
      {
        AnyVersionSurvives(fs, v);
        assert SaveSteps(c, fs, user, 0, 0) == fs;
      }
    } else {
      var kp: nat, km: nat, after: Fs :| CrashTo(SaveSteps(c, fs, user, kp, km), after) && Now(after) !in either;
      if !LosesPrev(c, Now(fs)) && forall v :: v in fs.past ==> In(fs, v) in either {
        SaveKeepsEither(c, fs, user, kp, km, ok);
        CrashKeepsSolid(SaveSteps(c, fs, user, kp, km), after, either);
      }
    }
  }

  // ------------------------------------------------------------ acknowledged saves

  /** Whatever a crash leaves, a load comes up with this configuration. */
  ghost predicate Durable(c: Codec, fs: Fs, user: Doc) {
    forall after :: CrashTo(fs, after) ==> Loads(c, after, user)
  }

  lemma DurableIsMeaning(c: Codec, fs: Fs, user: Doc)
    ensures Durable(c, fs, user) <==> forall after :: CrashTo(fs, after) ==> Meaning(c, Now(after)) == Some(user)
  {
    forall after: Fs
      ensures Loads(c, after, user) <==> Meaning(c, Now(after)) == Some(user)
    {
      LoadsIff(c, after, user);
    }
  }

  lemma DurableIffEveryVersion(c: Codec, fs: Fs, user: Doc, ok: iset<Contents>)
    requires Solid(fs, ok)
    ensures Durable(c, fs, user) <==> forall v :: Version(fs, v) ==> Meaning(c, In(fs, v)) == Some(user)
  {
    DurableIsMeaning(c, fs, user);
    forall v | Version(fs, v)
      ensures CrashTo(fs, Crashed(fs, v)) && Now(Crashed(fs, v)) == In(fs, v)
    {
      AnyVersionSurvives(fs, v);
    }
    forall after | CrashTo(fs, after)
      ensures exists v :: Version(fs, v) && Now(after) == In(fs, v)
    {
      CrashKeepsSolid(fs, after, ok);
    }
  }

  lemma SolidWiden(fs: Fs, ok: iset<Contents>, ok': iset<Contents>)
    requires Solid(fs, ok) && ok <= ok'
    ensures Solid(fs, ok')
  {
    forall v | Version(fs, v)
      ensures In(fs, v) in ok'
    {
      assert VersionOk(fs, v, ok);
    }
    SolidFor(fs, ok, ok');
  }

  /** What was allowed, and what a save can add to it. */
  ghost function SaveAdds(c: Codec, fs: Fs, user: Doc, ok: iset<Contents>): iset<Contents> {
    var x, saved := Now(fs), Some(c.enc(user));
    ok + iset{Contents(x.main, x.main), Contents(saved, x.prev), Contents(saved, x.main)}
  }

  /** The new configuration is what the disk means already, and whatever version comes back, once the
      previous copy was kept. */
  ghost predicate MeansAlready(c: Codec, fs: Fs, user: Doc, kp: nat) {
    && Meaning(c, Now(fs)) == Some(user) && !(kp >= 4 && LosesPrev(c, Now(fs)))
    && ((kp >= 5 && Text(Now(fs).main) != "") || forall v :: v in fs.past ==> Meaning(c, In(fs, v)) == Some(user))
  }

  lemma KeptDurableIff(c: Codec, fs: Fs, user: Doc, kp: nat, ok: iset<Contents>)
    requires Solid(fs, ok)
    ensures Durable(c, Kept(fs, kp), user) <==> MeansAlready(c, fs, user, kp)
  {
    var any, same := SaveAdds(c, fs, user, ok), Either(c, Some(user), Some(user));
    var kept, text := Kept(fs, kp), Text(Now(fs).main);
    SolidWiden(fs, ok, any);
    if text != "" {
      var both := With(Now(fs), Prev, text);
      assert both == Contents(Now(fs).main, Now(fs).main);
      WriteKeepsSolid(fs, PrevTmp, Prev, text, kp, any);
      DurableIffEveryVersion(c, kept, user, any);
      assert Version(kept, kept.dir);
      if kp <= 4 {
        forall v | Version(fs, v)
          ensures Version(kept, v) && In(kept, v) == In(fs, v)
        {
          VersionsStay(fs, PrevTmp, Prev, text, kp, v, any);
        }
        assert Version(fs, fs.dir);
        if MeansAlready(c, fs, user, kp) {
          SolidFor(fs, any, same);
          WriteKeepsSolid(fs, PrevTmp, Prev, text, kp, same);
          assert forall v :: Version(kept, v) ==> VersionOk(kept, v, same);
        }
      }
    } else {
      DurableIffEveryVersion(c, fs, user, any);
    }
  }

  lemma KeptContents(fs: Fs, kp: nat)
    requires Apart(fs)
    ensures Apart(Kept(fs, kp))
    ensures Now(Kept(fs, kp)) ==
            if kp >= 4 && Text(Now(fs).main) != "" then Contents(Now(fs).main, Now(fs).main) else Now(fs)
  {
    if Text(Now(fs).main) != "" {
      WriteTakesEffect(fs, PrevTmp, Prev, Text(Now(fs).main), kp);
    }
  }

  /** A save whose second write got as far as the rename, on the disk as it was before that write. */
  lemma RenamedDurableIff(c: Codec, kept: Fs, user: Doc, ok: iset<Contents>)
    requires Lawful(c) && Solid(kept, ok) && Contents(Some(c.enc(user)), Now(kept).prev) in ok
    ensures Durable(c, WriteSteps(kept, MainTmp, Main, c.enc(user), 4), user) <==> Durable(c, kept, user)
  {
    var s, same := WriteSteps(kept, MainTmp, Main, c.enc(user), 4), Either(c, Some(user), Some(user));
    MeaningOfSaved(c, user, Now(kept).prev);
    DurableIffEveryVersion(c, kept, user, ok);
    forall v | Version(kept, v)
      ensures Version(s, v) && In(s, v) == In(kept, v)
    {
      VersionsStay(kept, MainTmp, Main, c.enc(user), 4, v, ok);
    }
    if Durable(c, kept, user) {
      SolidFor(kept, ok, same);
      WriteKeepsSolid(kept, MainTmp, Main, c.enc(user), 4, same);
      assert forall v :: Version(s, v) ==> VersionOk(s, v, same);
    }
    WriteKeepsSolid(kept, MainTmp, Main, c.enc(user), 4, ok);
    DurableIffEveryVersion(c, s, user, ok);
  }

  /** DURABILITY: a save that reports success survives every crash if and only if the directory was
      synced after the rename, or the disk certainly meant the new configuration already. */
  lemma AcknowledgedSurvivesIff(c: Codec, fs: Fs, user: Doc, kp: nat, km: nat, ok: iset<Contents>)
    requires Lawful(c) && Solid(fs, ok) && km >= 4
    ensures Durable(c, SaveSteps(c, fs, user, kp, km), user) <==> km >= 5 || MeansAlready(c, fs, user, kp)
  {
    var any, kept, s := SaveAdds(c, fs, user, ok), Kept(fs, kp), SaveSteps(c, fs, user, kp, km);
    SolidWiden(fs, ok, any);
    SaveKeepsSolid(c, fs, user, kp, km, any);
    SolidIsApart(fs, ok);
    KeptContents(fs, kp);
    if km == 4 {
      RenamedDurableIff(c, kept, user, any);
      KeptDurableIff(c, fs, user, kp, ok);
    } else {
      WriteKeepsSolid(kept, MainTmp, Main, c.enc(user), km, any);
      MeaningOfSaved(c, user, Now(kept).prev);
      DurableIffEveryVersion(c, s, user, any);
    }
  }

  /** A save whose directory sync failed still reports success. Until the next sync a crash may undo it,
      and the next save is crash-safe if and only if what was there before was one of the two saved. */
  lemma UnsyncedSave(c: Codec, fs: Fs, user: Doc, next: Doc, kp: nat, ok: iset<Contents>)
    requires Lawful(c) && Solid(fs, ok) && fs.past == [] && !LosesPrev(c, Now(fs))
    ensures var s, was := SaveSteps(c, fs, user, kp, 4), Meaning(c, Now(fs));
      && Loads(c, s, user)
      && (Durable(c, s, user) <==> was == Some(user))
      && (CrashSafe(c, s, next) <==> was == Some(user) || was == Some(next))
  {
    var kept, s, was := Kept(fs, kp), SaveSteps(c, fs, user, kp, 4), Meaning(c, Now(fs));
    var either := Either(c, was, Some(user));
    SaveKeepsEither(c, fs, user, kp, 4, ok);
    KeptMeansTheSame(c, fs, kp, ok);
    MeaningOfSaved(c, user, Now(kept).prev);
    assert With(Now(kept), Main, c.enc(user)) == Contents(Some(c.enc(user)), Now(kept).prev);
    WriteKeepsSolid(kept, MainTmp, Main, c.enc(user), 4, either);
    VersionsStay(kept, MainTmp, Main, c.enc(user), 4, kept.dir, either);
    DurableIffEveryVersion(c, s, user, either);
    CrashSafeIff(c, s, next, either);
    LoadsIff(c, s, user);
    forall v | Version(s, v)
      ensures In(s, v) in either
    {
      assert VersionOk(s, v, either);
    }
  }

  lemma KeptMeansTheSame(c: Codec, fs: Fs, kp: nat, ok: iset<Contents>)
    requires Solid(fs, ok) && !LosesPrev(c, Now(fs))
    ensures Meaning(c, Now(Kept(fs, kp))) == Meaning(c, Now(fs))
  {
    SolidIsApart(fs, ok);
    KeptContents(fs, kp);
  }

  /** A save that completes is what the next load reads, and what was there is the previous copy. */
  lemma SaveThenLoad(c: Codec, fs: Fs, user: Doc, kp: nat, km: nat)
    requires Lawful(c) && Apart(fs) && km >= 4
    ensures Loads(c, SaveSteps(c, fs, user, kp, km), user)
    ensures Meaning(c, Now(SaveSteps(c, fs, user, kp, km))) == Some(user)
    ensures Now(SaveSteps(c, fs, user, kp, km)).prev ==
            if kp >= 4 && Text(Now(fs).main) != "" then Now(fs).main else Now(fs).prev
  {
    KeptContents(fs, kp);
    WriteTakesEffect(Kept(fs, kp), MainTmp, Main, c.enc(user), km);
    MeaningOfSaved(c, user, Now(Kept(fs, kp)).prev);
    LoadsIff(c, SaveSteps(c, fs, user, kp, km), user);
  }

  // ------------------------------------------------------------- losing the file

  datatype Event =
    | Save(user: Doc, kp: nat, km: nat)
    | Crash(after: Fs)
    | LoseMain
    | TruncateMain
    | Load(io: Reads, k: nat)

  /** The disk and the contents that were ever the configuration. */
  datatype World = World(fs: Fs, saved: set<string>)

  /** Every save stores a non-empty document: SetModule always writes the "modules" key. */
  ghost predicate Allowed(w: World, e: Event) {
    match e
    case Save(user, _, _) => user != map[]
    case Crash(after) => CrashTo(w.fs, after)
    case _ => true
  }

  function Step(c: Codec, w: World, e: Event): World {
    match e
    case Save(user, kp, km) => World(SaveSteps(c, w.fs, user, kp, km), w.saved + {c.enc(user)})
    case Crash(after) => w.(fs := after)
    case LoseMain => w.(fs := w.fs.(dir := w.fs.dir - {Main}))
    case TruncateMain =>
      w.(fs := w.fs.(inodes := w.fs.inodes[w.fs.next := Inode("", true)], dir := w.fs.dir[Main := w.fs.next],
                     next := w.fs.next + 1))
    case Load(io, k) => w.(fs := AfterReload(c, w.fs, Memory(map[], map[], false), io, k).0)
  }

  function Run(c: Codec, w: World, es: seq<Event>): World {
    if es == [] then w else Step(c, Run(c, w, es[..|es| - 1]), es[|es| - 1])
  }

  ghost predicate AllowedRun(c: Codec, w: World, es: seq<Event>) {
    es == [] || (AllowedRun(c, w, es[..|es| - 1]) && Allowed(Run(c, w, es[..|es| - 1]), es[|es| - 1]))
  }

  /** Both files hold what was the configuration once, unless lost or empty. */
  ghost function Once(saved: set<string>): iset<Contents> {
    iset x: Contents | (Text(x.main) == "" || Text(x.main) in saved) && (x.prev.None? || x.prev.value in saved)
  }

  /** Every version a crash may bring back holds contents that were the configuration. */
  ghost predicate Inv(c: Codec, w: World) {
    && Solid(w.fs, Once(w.saved))
    && forall s :: s in w.saved ==> s != "" && c.dec(s).Some? && c.dec(s).value != map[]
  }

  const EMPTY := World(Fs(map[], map[], [], 0), {})

  /** Every run starts somewhere: from an empty directory, for one. */
  lemma EmptyDirectoryIsFine(c: Codec)
    ensures Inv(c, EMPTY)
  {
  }

  lemma NowAllowed(c: Codec, w: World)
    requires Inv(c, w)
    ensures Now(w.fs) in Once(w.saved) && !Garbage(c, Now(w.fs))
  {
    assert VersionOk(w.fs, w.fs.dir, Once(w.saved));
  }

  lemma SaveStep(c: Codec, w: World, user: Doc, kp: nat, km: nat)
    requires Lawful(c) && Inv(c, w) && user != map[]
    ensures Inv(c, Step(c, w, Save(user, kp, km)))
  {
    var saved := w.saved + {c.enc(user)};
    NowAllowed(c, w);
    forall v | Version(w.fs, v)
      ensures In(w.fs, v) in Once(saved)
    {
      assert VersionOk(w.fs, v, Once(w.saved));
    }
    SolidFor(w.fs, Once(w.saved), Once(saved));
    SaveKeepsSolid(c, w.fs, user, kp, km, Once(saved));
  }

  lemma LoadStep(c: Codec, w: World, io: Reads, k: nat)
    requires Inv(c, w)
    ensures Inv(c, Step(c, w, Load(io, k)))
  {
    NowAllowed(c, w);
    var x := Seen(Now(w.fs), io);
    if io.main && Recovered(c, x).Some? {
      WriteKeepsSolid(w.fs, MainTmp, Main, Text(x.prev), k, Once(w.saved));
    }
  }

  lemma LossStep(c: Codec, w: World, e: Event)
    requires Inv(c, w) && (e.LoseMain? || e.TruncateMain?)
    ensures Inv(c, Step(c, w, e))
    ensures Text(Now(Step(c, w, e).fs).main) == "" && Now(Step(c, w, e).fs).prev == Now(w.fs).prev
  {
    var once, fs, fs' := Once(w.saved), w.fs, Step(c, w, e).fs;
    assert fs.next !in fs.inodes;
    assert VersionOk(fs, fs.dir, once);
    assert VersionOk(fs', fs'.dir, once);
    forall v | v in fs.past
      ensures VersionOk(fs', v, once)
    {
      assert VersionOk(fs, v, once);
    }
  }

  lemma {:induction false} RunKeepsInv(c: Codec, w: World, es: seq<Event>)
    requires Lawful(c) && Inv(c, w) && AllowedRun(c, w, es)
    ensures Inv(c, Run(c, w, es))
  {
    if es != [] {
      var q := Run(c, w, es[..|es| - 1]);
      RunKeepsInv(c, w, es[..|es| - 1]);
      match es[|es| - 1]
      case Save(user, kp, km) => SaveStep(c, q, user, kp, km);
      case Crash(after) => CrashKeepsSolid(q.fs, after, Once(q.saved));
      case LoseMain => LossStep(c, q, LoseMain);
      case TruncateMain => LossStep(c, q, TruncateMain);
      case Load(io, k) => LoadStep(c, q, io, k);
    }
  }

  /** IN EVERY RUN of saves, crashes, losses and loads the next save is crash-safe if and only if every
      version still pending means the current or the new configuration; so always when nothing is
      pending, as after a crash or a save whose directory sync succeeded. */
  lemma SavesAreCrashSafe(c: Codec, w: World, es: seq<Event>, user: Doc)
    requires Lawful(c) && (w == EMPTY || Inv(c, w)) && AllowedRun(c, w, es)
    ensures var fs := Run(c, w, es).fs;
      && (CrashSafe(c, fs, user) <==>
          forall v :: v in fs.past ==> In(fs, v) in Either(c, Meaning(c, Now(fs)), Some(user)))
      && (fs.past == [] ==> CrashSafe(c, fs, user))
    ensures es != [] && Syncs(es[|es| - 1]) ==> Run(c, w, es).fs.past == []
  {
    var q := Run(c, w, es);
    EmptyDirectoryIsFine(c);
    RunKeepsInv(c, w, es);
    NowAllowed(c, q);
    CrashSafeIff(c, q.fs, user, Once(q.saved));
  }

  /** The steps after which no directory operation is pending. */
  predicate Syncs(e: Event) { e.Crash? || (e.Save? && e.km >= 5) }

  /** A load that recovers puts the configuration in memory with a note, and succeeds if it fits. */
  predicate LoadsRecovered(c: Codec, m': Memory, done: bool, u: Doc) {
    && m'.user == u && m'.note && (done <==> c.fits(Top(u))) && (done ==> m'.core == Top(u))
  }

  /** RECOVERY: in every run of saves, crashes, losses and loads, once a previous copy exists, losing or
      truncating the main file makes a load come up with a non-empty configuration that was saved
      before, with a note; and once the rewrite is in place a second load comes up with the same from
      the main file, without a note. */
  lemma LostFileIsRecovered(c: Codec, w: World, es: seq<Event>, loss: Event, m: Memory, k: nat) returns (u: Doc)
    requires Lawful(c) && (w == EMPTY || Inv(c, w)) && AllowedRun(c, w, es) && k >= 4
    requires loss.LoseMain? || loss.TruncateMain?
    ensures Now(Run(c, w, es).fs).prev.Some? ==>
            var lost := Step(c, Run(c, w, es), loss);
            var (fs', m', done) := AfterReload(c, lost.fs, m, ALL_READ, k);
            var (fs2, m2, done2) := AfterReload(c, fs', m', ALL_READ, k);
            && u != map[] && (exists s :: s in lost.saved && c.dec(s) == Some(u))
            && LoadsRecovered(c, m', done, u)
            && fs2 == fs' && m2.user == u && !m2.note && done2 == done && (done ==> m2.core == Top(u))
  {
    var q := Run(c, w, es);
    EmptyDirectoryIsFine(c);
    RunKeepsInv(c, w, es);
    NowAllowed(c, q);
    var lost := Step(c, q, loss);
    LossStep(c, q, loss);
    SolidIsApart(lost.fs, Once(lost.saved));
    NowAllowed(c, lost);
    u := map[];
    if Now(q.fs).prev.Some? {
      var prev := Text(Now(lost.fs).prev);
      u := c.dec(prev).value;
      WriteTakesEffect(lost.fs, MainTmp, Main, prev, k);
      RecoveredLoads(c, lost.fs, m, k, u);
    }
  }

  lemma RecoveredLoads(c: Codec, fs: Fs, m: Memory, k: nat, u: Doc)
    requires Text(Now(fs).main) == "" && Text(Now(fs).prev) != "" && c.dec(Text(Now(fs).prev)) == Some(u) && u != map[]
    requires Now(WriteSteps(fs, MainTmp, Main, Text(Now(fs).prev), k)).main == Now(fs).prev
    ensures var (fs', m', done) := AfterReload(c, fs, m, ALL_READ, k);
            var (fs2, m2, done2) := AfterReload(c, fs', m', ALL_READ, k);
            && LoadsRecovered(c, m', done, u)
            && fs2 == fs' && m2.user == u && !m2.note && done2 == done && (done ==> m2.core == Top(u))
  {
    assert Recovered(c, Now(fs)) == Some(u);
  }

  // --------------------------------------------------------------- settings merge

  lemma OverridesAfter(user: Doc, name: string, values: Doc, other: string)
    ensures Fields(Fields(WithModule(user, name, values), "modules"), other) ==
            if other == name then Fields(Fields(user, "modules"), name) + values
            else Fields(Fields(user, "modules"), other)
  {
  }

  /** WHAT MODULE ANSWERS, key by key: the operator's setting, else the declared default, else "enabled"
      is true and other keys are absent. */
  lemma MergedSays(defaults: map<string, Doc>, user: Doc, name: string, k: string)
    ensures Lookup(Merged(defaults, user, name), k) ==
            if "modules" in user && user["modules"].Obj? && name in user["modules"].fields
               && user["modules"].fields[name].Obj? && k in user["modules"].fields[name].fields
            then Some(user["modules"].fields[name].fields[k])
            else if name in defaults && k in defaults[name] then Some(defaults[name][k])
            else if k == "enabled" then Some(Scalar("true")) else None
  {
  }

  /** What SetModule stores is what Module answers, and keys it does not mention keep their settings. */
  lemma SetThenGet(user: Doc, name: string, values: Doc, defaults: map<string, Doc>, k: string)
    ensures Lookup(Merged(defaults, WithModule(user, name, values), name), k) ==
            if k in values then Some(values[k]) else Lookup(Merged(defaults, user, name), k)
  {
    OverridesAfter(user, name, values, name);
  }

  /** After SetModule, here and after a load from the file it saved, the module has the new values over
      its old settings, and other modules and the daemon's own keys are what they were. */
  lemma SetModuleRoundTrip(c: Codec, fs: Fs, user: Doc, name: string, values: Doc, defaults: map<string, Doc>,
                           kp: nat, km: nat)
    requires Lawful(c) && Apart(fs) && km >= 4
    ensures var user' := WithModule(user, name, values);
      && Loads(c, SaveSteps(c, fs, user', kp, km), user')
      && (forall k :: Lookup(Merged(defaults, user', name), k) ==
            if k in values then Some(values[k]) else Lookup(Merged(defaults, user, name), k))
      && (forall other :: other != name ==> Merged(defaults, user', other) == Merged(defaults, user, other))
      && Top(user') == Top(user)
  {
    var user' := WithModule(user, name, values);
    SaveThenLoad(c, fs, user', kp, km);
    forall k
      ensures Lookup(Merged(defaults, user', name), k) ==
              if k in values then Some(values[k]) else Lookup(Merged(defaults, user, name), k)
    {
      SetThenGet(user, name, values, defaults, k);
    }
    forall other | other != name
      ensures Merged(defaults, user', other) == Merged(defaults, user, other)
    {
      OverridesAfter(user, name, values, other);
    }
    assert Top(user') == Top(user);
  }
}
