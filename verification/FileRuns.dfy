/** The same server and client, with the cache as the sealed file it is on disk. */
module FileRuns {
  import opened Results
  import opened Text
  import opened Crypto
  import opened Mapping
  import opened Api
  import opened Vault
  import opened Sessions
  import opened VaultRuns
  import opened Provider

  datatype FileWorld = FileWorld(ciphers: seq<Cipher>, homes: map<string, Home>, file: Option<string>)

  /** What the client makes of the file. */
  function View(su: Suite, codec: JsonCodec<CacheData>, f: Account, w: FileWorld): World
    requires su.Valid()
  {
    World(w.ciphers, w.homes, ReadCache(su, codec, f.userKey, w.file))
  }

  /** Sessions of the account; a handle that is no session serves nothing. */
  predicate Ours(sessions: JsonCodec<VwSession>, f: Account, handle: string) {
    var s := OpenSession(sessions, handle);
    s.Ok? ==> s.value.userKey == f.userKey
  }

  // ---------- steps ----------

  ghost predicate FileMutation(w: FileWorld, w': FileWorld) {
    exists m :: var v := World(w.ciphers, w.homes, None);
      Allowed(v, m) && w' == FileWorld(Mutate(v, m).ciphers, Mutate(v, m).homes, w.file)
  }

  /** Any `get`, with any randomness and any fate of its write. */
  ghost predicate FileGet(su: Suite, codec: JsonCodec<CacheData>, sessions: JsonCodec<VwSession>, f: Account,
                          w: FileWorld, w': FileWorld)
    requires su.Valid()
  {
    exists handle, ref, st: Store :: Ours(sessions, f, handle) && |st.iv| == 16
      && w' == w.(file := ServeGet(su, codec, sessions, handle, ref, AnswersAt(f, w.ciphers), st, w.file).file)
  }

  /** Any listing or export. */
  ghost predicate FileListing(su: Suite, codec: JsonCodec<CacheData>, sessions: JsonCodec<VwSession>, f: Account,
                              w: FileWorld, w': FileWorld)
    requires su.Valid()
  {
    exists handle, ns, st: Store :: Ours(sessions, f, handle) && |st.iv| == 16
      && w' == w.(file := ServeSecrets(su, codec, sessions, handle, AnswersAt(f, w.ciphers), ns, st, w.file).file)
  }

  /** A command that synced in an earlier state of the server writes its cache only now. */
  ghost predicate FileLateWrite(su: Suite, codec: JsonCodec<CacheData>, f: Account, w: FileWorld, w': FileWorld)
    requires su.Valid()
  {
    exists cs, s: OpenedSession, st: Store :: AtHome(cs, w.homes) && BundleAt(su, f, cs).Ok? && s.userKey == f.userKey && |st.iv| == 16
      && w' == w.(file := FileAfter(su, codec, s, Some(BundleAt(su, f, cs).value), st, w.file))
  }

  /** The file is deleted, cut short, overwritten, or sealed for someone else. */
  ghost predicate FileSpoilt(su: Suite, codec: JsonCodec<CacheData>, f: Account, w: FileWorld, w': FileWorld)
    requires su.Valid()
  {
    ReadCache(su, codec, f.userKey, w'.file) == None && w' == w.(file := w'.file)
  }

  ghost predicate FileStep(su: Suite, codec: JsonCodec<CacheData>, sessions: JsonCodec<VwSession>, f: Account,
                           w: FileWorld, w': FileWorld)
    requires su.Valid()
  {
    || FileMutation(w, w')
    || FileGet(su, codec, sessions, f, w, w')
    || FileListing(su, codec, sessions, f, w, w')
    || FileLateWrite(su, codec, f, w, w')
    || FileSpoilt(su, codec, f, w, w')
  }

  ghost predicate IsFileRun(su: Suite, codec: JsonCodec<CacheData>, sessions: JsonCodec<VwSession>, f: Account,
                            run: seq<FileWorld>)
    requires su.Valid()
  {
    && |run| > 0 && run[0] == FileWorld([], map[], None)
    && forall i :: 0 <= i < |run| - 1 ==> FileStep(su, codec, sessions, f, run[i], run[i + 1])
  }

  // ---------- every run over the file is a run over its content ----------

  function Views(su: Suite, codec: JsonCodec<CacheData>, f: Account, run: seq<FileWorld>): (r: seq<World>)
    requires su.Valid()
    ensures |r| == |run| && forall i :: 0 <= i < |r| ==> r[i] == View(su, codec, f, run[i])
  {
    seq(|run|, i requires 0 <= i < |run| => View(su, codec, f, run[i]))
  }

  /** Reading after a command's write: the old cache, or the one its sync gives. */
  lemma ReadAfter(su: Suite, codec: JsonCodec<CacheData>, f: Account, s: OpenedSession, refreshed: Option<Bundle>, st: Store,
                  before: Option<string>)
    requires su.Valid() && Lossless(codec) && s.userKey == f.userKey && |st.iv| == 16
    ensures CacheAfter(su, f, ReadCache(su, codec, f.userKey, before), refreshed,
                       ReadCache(su, codec, f.userKey, FileAfter(su, codec, s, refreshed, st, before)))
    ensures FileAfter(su, codec, s, refreshed, st, before) == before
            || (refreshed.Some? && WrittenFrom(su, f, refreshed.value,
                                               ReadCache(su, codec, f.userKey, FileAfter(su, codec, s, refreshed, st, before))))
  {
    hide ReadCache, CacheOf, CacheLine;
    if refreshed.Some? && st.ok {
      ReadWrittenCache(su, codec, s.userKey, CacheOf(su, refreshed.value, s.session.account, s.userKey), st.salt, st.iv);
    }
  }

  lemma StandStill(su: Suite, f: Account, w: World)
    ensures Step(su, f, w, w)
  {
    hide Get;
    var o := Get(su, f.userKey, w.cache, AnswersAt(f, w.ciphers), "", "");
    assert CacheAfter(su, f, w.cache, o.refreshed, w.cache) && w == w.(cache := w.cache);
    assert GetStep(su, f, w, w);
  }

  lemma MutationRefines(su: Suite, codec: JsonCodec<CacheData>, f: Account, w: FileWorld, w': FileWorld)
    requires su.Valid() && FileMutation(w, w')
    ensures Step(su, f, View(su, codec, f, w), View(su, codec, f, w'))
  {
    hide ReadCache;
    var v := View(su, codec, f, w);
    var m :| var x := World(w.ciphers, w.homes, None);
             Allowed(x, m) && w' == FileWorld(Mutate(x, m).ciphers, Mutate(x, m).homes, w.file);
    assert Allowed(v, m) && View(su, codec, f, w') == Mutate(v, m);
    assert MutationStep(v, View(su, codec, f, w'));
  }

  lemma GetRefines(su: Suite, codec: JsonCodec<CacheData>, sessions: JsonCodec<VwSession>, f: Account, w: FileWorld, w': FileWorld)
    requires su.Valid() && Lossless(codec) && FileGet(su, codec, sessions, f, w, w')
    ensures Step(su, f, View(su, codec, f, w), View(su, codec, f, w'))
  {
    hide ReadCache, FileAfter, Get, AnswersAt, OpenSession, CacheAfter, Step, WrittenFrom;
    var handle, ref, st: Store :| Ours(sessions, f, handle) && |st.iv| == 16
      && w' == w.(file := ServeGet(su, codec, sessions, handle, ref, AnswersAt(f, w.ciphers), st, w.file).file);
    var v, v' := View(su, codec, f, w), View(su, codec, f, w');
    var a, session := AnswersAt(f, w.ciphers), OpenSession(sessions, handle);
    if ref.scheme == "vw" && session.Ok? {
      var s := session.value;
      var parts := SplitOnce(ref.locus, "/");
      if parts.Some? {
        var o := Get(su, f.userKey, v.cache, a, parts.value.0, parts.value.1);
        ReadAfter(su, codec, f, s, o.refreshed, st, w.file);
        GetStepFrom(su, f, v, v', parts.value.0, parts.value.1);
      } else {
        ReadAfter(su, codec, f, s, None, st, w.file);
        StandStill(su, f, v);
      }
    } else {
      StandStill(su, f, v);
    }
  }

  lemma GetStepFrom(su: Suite, f: Account, w: World, w': World, coll: string, item: string)
    requires var o := Get(su, f.userKey, w.cache, AnswersAt(f, w.ciphers), coll, item);
             CacheAfter(su, f, w.cache, o.refreshed, w'.cache) && w' == w.(cache := w'.cache)
    ensures Step(su, f, w, w')
  {
    hide Get, CacheAfter, AnswersAt;
    assert GetStep(su, f, w, w');
  }

  lemma ListingRefines(su: Suite, codec: JsonCodec<CacheData>, sessions: JsonCodec<VwSession>, f: Account,
                       w: FileWorld, w': FileWorld)
    requires su.Valid() && Lossless(codec) && FileListing(su, codec, sessions, f, w, w')
    ensures Step(su, f, View(su, codec, f, w), View(su, codec, f, w'))
  {
    hide ReadCache, FileAfter, NamespaceSecrets, AnswersAt, OpenSession, CacheAfter, WrittenFrom, GetStep, MutationStep, LateWrite;
    var handle, ns, st: Store :| Ours(sessions, f, handle) && |st.iv| == 16
      && w' == w.(file := ServeSecrets(su, codec, sessions, handle, AnswersAt(f, w.ciphers), ns, st, w.file).file);
    var v, v' := View(su, codec, f, w), View(su, codec, f, w');
    var session := OpenSession(sessions, handle);
    if session.Ok? {
      var o := NamespaceSecrets(su, f.userKey, AnswersAt(f, w.ciphers), ns);
      ReadAfter(su, codec, f, session.value, o.refreshed, st, w.file);
      assert ListingStep(su, f, v, v');
    } else {
      StandStill(su, f, v);
    }
  }

  lemma LateWriteRefines(su: Suite, codec: JsonCodec<CacheData>, f: Account, w: FileWorld, w': FileWorld)
    requires su.Valid() && Lossless(codec) && FileLateWrite(su, codec, f, w, w')
    ensures Step(su, f, View(su, codec, f, w), View(su, codec, f, w'))
  {
    hide ReadCache, FileAfter, BundleAt, CacheAfter, WrittenFrom, GetStep, MutationStep, ListingStep, AtHome;
    var cs, s: OpenedSession, st: Store :| AtHome(cs, w.homes) && BundleAt(su, f, cs).Ok? && s.userKey == f.userKey && |st.iv| == 16
      && w' == w.(file := FileAfter(su, codec, s, Some(BundleAt(su, f, cs).value), st, w.file));
    var v, v' := View(su, codec, f, w), View(su, codec, f, w');
    ReadAfter(su, codec, f, s, Some(BundleAt(su, f, cs).value), st, w.file);
    if w'.file == w.file {
      StandStill(su, f, v);
    } else {
      assert LateWrite(su, f, v, v');
    }
  }

  /** A step over the file is a step over what the client reads in it. */
  lemma StepRefines(su: Suite, codec: JsonCodec<CacheData>, sessions: JsonCodec<VwSession>, f: Account,
                    w: FileWorld, w': FileWorld)
    requires su.Valid() && Lossless(codec) && FileStep(su, codec, sessions, f, w, w')
    ensures Step(su, f, View(su, codec, f, w), View(su, codec, f, w'))
  {
    hide FileMutation, FileGet, FileListing, FileLateWrite, ReadCache, GetStep, MutationStep, ListingStep, LateWrite;
    if FileMutation(w, w') {
      MutationRefines(su, codec, f, w, w');
    } else if FileGet(su, codec, sessions, f, w, w') {
      GetRefines(su, codec, sessions, f, w, w');
    } else if FileListing(su, codec, sessions, f, w, w') {
      ListingRefines(su, codec, sessions, f, w, w');
    } else if FileLateWrite(su, codec, f, w, w') {
      LateWriteRefines(su, codec, f, w, w');
    }
  }

  lemma RunRefines(su: Suite, codec: JsonCodec<CacheData>, sessions: JsonCodec<VwSession>, f: Account, run: seq<FileWorld>)
    requires su.Valid() && Lossless(codec) && IsFileRun(su, codec, sessions, f, run)
    ensures IsRun(su, f, Views(su, codec, f, run))
  {
    hide FileStep, Step, ReadCache;
    NoFileIsCold(su, codec, f);
    var views := Views(su, codec, f, run);
    forall i | 0 <= i < |views| - 1 ensures Step(su, f, views[i], views[i + 1]) {
      StepRefines(su, codec, sessions, f, run[i], run[i + 1]);
    }
  }

  lemma NoFileIsCold(su: Suite, codec: JsonCodec<CacheData>, f: Account)
    requires su.Valid()
    ensures ReadCache(su, codec, f.userKey, None) == None
  {}

  // ---------- the theorems ----------

  /** Whatever the file holds reads back as nothing, or as a cache of the run's homes and keys. */
  lemma FileInvariant(su: Suite, codec: JsonCodec<CacheData>, sessions: JsonCodec<VwSession>, f: Account, run: seq<FileWorld>, i: nat)
    requires su.Valid() && Lossless(codec) && IsFileRun(su, codec, sessions, f, run) && i < |run|
    ensures Invariant(su, f, View(su, codec, f, run[i]))
  {
    hide IsFileRun, IsRun, Invariant, View;
    RunRefines(su, codec, sessions, f, run);
    RunKeepsInvariant(su, f, Views(su, codec, f, run), i);
  }

  /** Whenever the locus names an item, its name is unique in the collection in this state. */
  ghost predicate UniqueLocus(su: Suite, f: Account, ciphers: seq<Cipher>, locus: string) {
    var r := SplitOnce(locus, "/");
    r.Some? ==> UniqueAt(su, f, ciphers, r.value.0, r.value.1)
  }

  /** The answer without a file, from the server in one state. */
  function NoFile(su: Suite, codec: JsonCodec<CacheData>, sessions: JsonCodec<VwSession>, f: Account, handle: string, ref: Refs.Ref,
                  ciphers: seq<Cipher>, st: Store): Result<Secret, ProviderError>
    requires su.Valid()
  {
    ServeGet(su, codec, sessions, handle, ref, AnswersAt(f, ciphers), st, None).answer
  }

  /** A `get_secret` that reads the file at some point of a run, while the server changes and other
      commands read and write the file, answers what it would answer without a file in one of the
      states between its start and its end; or its own sync failed, and it reports that as it would
      without a file. */
  lemma FileGetDuringRun(su: Suite, codec: JsonCodec<CacheData>, sessions: JsonCodec<VwSession>, f: Account, run: seq<FileWorld>,
                         i: nat, j: nat, at: nat -> nat, synced: nat, a: Answers, handle: string, ref: Refs.Ref, st: Store)
      returns (k: nat)
    requires su.Valid() && Lossless(codec) && IsFileRun(su, codec, sessions, f, run) && Ours(sessions, f, handle)
    requires AskedDuring(f, Views(su, codec, f, run), i, j, at, synced, a)
    requires forall t: nat :: i <= t <= j ==> UniqueLocus(su, f, run[t].ciphers, ref.locus)
    ensures i <= k <= j
    ensures var r := ServeGet(su, codec, sessions, handle, ref, a, st, run[i].file).answer;
            || r == NoFile(su, codec, sessions, f, handle, ref, run[k].ciphers, st)
            || (!Synced(a) && r == ServeGet(su, codec, sessions, handle, ref, a, st, None).answer)
  {
    hide IsFileRun, IsRun, ReadCache, FileAfter, Get, OpenSession, UniqueAt;
    k := i;
    NoFileIsCold(su, codec, f);
    var parts := SplitOnce(ref.locus, "/");
    if ref.scheme == "vw" && OpenSession(sessions, handle).Ok? && parts.Some? {
      RunRefines(su, codec, sessions, f, run);
      k := GetDuringRun(su, f, Views(su, codec, f, run), i, j, at, synced, a, parts.value.0, parts.value.1);
    }
  }

  /** At every point of every run, whatever happened to the file, `get_secret` with the file
      answers exactly what it answers without one. */
  lemma FileNeverMatters(su: Suite, codec: JsonCodec<CacheData>, sessions: JsonCodec<VwSession>, f: Account, run: seq<FileWorld>,
                         i: nat, handle: string, ref: Refs.Ref, st: Store)
    requires su.Valid() && Lossless(codec) && IsFileRun(su, codec, sessions, f, run) && i < |run| && Ours(sessions, f, handle)
    requires UniqueLocus(su, f, run[i].ciphers, ref.locus)
    ensures ServeGet(su, codec, sessions, handle, ref, AnswersAt(f, run[i].ciphers), st, run[i].file).answer
            == NoFile(su, codec, sessions, f, handle, ref, run[i].ciphers, st)
  {
    hide IsFileRun, ServeGet, NoFile, UniqueLocus;
    var k := FileGetDuringRun(su, codec, sessions, f, run, i, i, (n: nat) => i, i, AnswersAt(f, run[i].ciphers), handle, ref, st);
  }
}
