/**
 ReplicateOnWriteFs: a filesystem made of two stores, `base` and `layer`.
 Reads consult `base` only; writes are sent to both, mostly without looking
 at what the stores answer. A store is any filesystem: its calls are the
 functions of a `Backend`, and `Local` instantiates them with the abstract
 filesystem of module FileSys.
 */
module Replicate {
  import opened Common
  import opened Paths
  import FileSys

  /** The calls of afero.Fs the wrapper makes, as functions of a store `S`.
      A mode is a number; times are numbers of the clock the caller uses. */
  datatype Backend<!S> = Backend(
    stat: (S, Path) -> Result<FileSys.Entry>,
    chtimes: (S, Path, int, int) -> Change<S>,
    chmod: (S, Path, nat) -> Change<S>,
    rename: (S, Path, Path) -> Change<S>,
    remove: (S, Path) -> Change<S>,
    removeAll: (S, Path) -> Change<S>,
    mkdirAll: (S, Path, nat) -> Change<S>,
    create: (S, Path) -> Change<S>)

  /** NewReplicateOnWriteFs(base, layer): the two filesystems ... */
  datatype Wrapper<!A, !B> = Wrapper(base: Backend<A>, layer: Backend<B>)

  /** ... and the state of each. */
  datatype Stores<A, B> = Stores(base: A, layer: B)

  const WrapperName: string := "ReplicateOnWriteFs"

  function Name(): (name: string)
    ensures name == "ReplicateOnWriteFs"
  {
    WrapperName
  }

  /** Stat: the base's answer. */
  function Stat<A, B>(w: Wrapper<A, B>, s: Stores<A, B>, name: Path): Result<FileSys.Entry> {
    w.base.stat(s.base, name)
  }

  /** The guard Chtimes, Chmod and Rename share: the base's Stat error, if any. */
  function Guard<A, B>(w: Wrapper<A, B>, s: Stores<A, B>, name: Path): Option<Error> {
    var b := w.base.stat(s.base, name);
    if b.Err? then Some(b.error) else None
  }

  /** Chtimes: when the base has `name`, set its times in both stores. */
  function Chtimes<A, B>(w: Wrapper<A, B>, s: Stores<A, B>, name: Path, atime: int, mtime: int): (r: Change<Stores<A, B>>)
    ensures r.outcome.Fail? <==> w.base.stat(s.base, name).Err?
    ensures r.outcome.Fail? ==> r == Change(Fail(w.base.stat(s.base, name).error), s)
    ensures r.outcome.Pass? ==> r.state.base == w.base.chtimes(s.base, name, atime, mtime).state
    ensures r.outcome.Pass? ==> r.state.layer == w.layer.chtimes(s.layer, name, atime, mtime).state
  {
    match Guard(w, s, name)
    case Some(e) => Change(Fail(e), s)
    case None =>
      Change(Pass, Stores(w.base.chtimes(s.base, name, atime, mtime).state,
                          w.layer.chtimes(s.layer, name, atime, mtime).state))
  }

  /** Chmod: when the base has `name`, set its mode in both stores. */
  function Chmod<A, B>(w: Wrapper<A, B>, s: Stores<A, B>, name: Path, mode: nat): (r: Change<Stores<A, B>>)
    ensures r.outcome.Fail? <==> w.base.stat(s.base, name).Err?
    ensures r.outcome.Fail? ==> r == Change(Fail(w.base.stat(s.base, name).error), s)
    ensures r.outcome.Pass? ==> r.state.base == w.base.chmod(s.base, name, mode).state
    ensures r.outcome.Pass? ==> r.state.layer == w.layer.chmod(s.layer, name, mode).state
  {
    match Guard(w, s, name)
    case Some(e) => Change(Fail(e), s)
    case None =>
      Change(Pass, Stores(w.base.chmod(s.base, name, mode).state, w.layer.chmod(s.layer, name, mode).state))
  }

  /** Rename: when the base has `src`, rename in both stores. */
  function Rename<A, B>(w: Wrapper<A, B>, s: Stores<A, B>, src: Path, dst: Path): (r: Change<Stores<A, B>>)
    ensures r.outcome.Fail? <==> w.base.stat(s.base, src).Err?
    ensures r.outcome.Fail? ==> r == Change(Fail(w.base.stat(s.base, src).error), s)
    ensures r.outcome.Pass? ==> r.state.base == w.base.rename(s.base, src, dst).state
    ensures r.outcome.Pass? ==> r.state.layer == w.layer.rename(s.layer, src, dst).state
  {
    match Guard(w, s, src)
    case Some(e) => Change(Fail(e), s)
    case None =>
      Change(Pass, Stores(w.base.rename(s.base, src, dst).state, w.layer.rename(s.layer, src, dst).state))
  }

  /** Remove: remove from both stores and report success. */
  function Remove<A, B>(w: Wrapper<A, B>, s: Stores<A, B>, name: Path): (r: Change<Stores<A, B>>)
    ensures r.outcome == Pass
    ensures r.state.base == w.base.remove(s.base, name).state
    ensures r.state.layer == w.layer.remove(s.layer, name).state
  {
    Change(Pass, Stores(w.base.remove(s.base, name).state, w.layer.remove(s.layer, name).state))
  }

  /** RemoveAll: remove the tree from both stores and report success. */
  function RemoveAll<A, B>(w: Wrapper<A, B>, s: Stores<A, B>, name: Path): (r: Change<Stores<A, B>>)
    ensures r.outcome == Pass
    ensures r.state.base == w.base.removeAll(s.base, name).state
    ensures r.state.layer == w.layer.removeAll(s.layer, name).state
  {
    Change(Pass, Stores(w.base.removeAll(s.base, name).state, w.layer.removeAll(s.layer, name).state))
  }

  /** MkdirAll: when the base has nothing at `name` (afero.IsDir fails
      exactly when Stat does), MkdirAll in both stores; report success. */
  function MkdirAll<A, B>(w: Wrapper<A, B>, s: Stores<A, B>, name: Path, perm: nat): (r: Change<Stores<A, B>>)
    ensures r.outcome == Pass
    ensures w.base.stat(s.base, name).Ok? ==> r.state == s
    ensures w.base.stat(s.base, name).Err? ==>
              r.state == Stores(w.base.mkdirAll(s.base, name, perm).state, w.layer.mkdirAll(s.layer, name, perm).state)
  {
    if w.base.stat(s.base, name).Err? then
      Change(Pass, Stores(w.base.mkdirAll(s.base, name, perm).state, w.layer.mkdirAll(s.layer, name, perm).state))
    else Change(Pass, s)
  }

  /** Mkdir: the same as MkdirAll; the parents are made too. */
  function Mkdir<A, B>(w: Wrapper<A, B>, s: Stores<A, B>, name: Path, perm: nat): (r: Change<Stores<A, B>>)
    ensures r == MkdirAll(w, s, name, perm)
  {
    if w.base.stat(s.base, name).Err? then
      Change(Pass, Stores(w.base.mkdirAll(s.base, name, perm).state, w.layer.mkdirAll(s.layer, name, perm).state))
    else Change(Pass, s)
  }

  /** Create: in the base, then in the layer. A base failure stops before the
      layer, which is left as it was; a layer failure is reported, but the
      base's new file stays. */
  function Create<A, B>(w: Wrapper<A, B>, s: Stores<A, B>, name: Path): (r: Change<Stores<A, B>>)
    ensures w.base.create(s.base, name).outcome.Fail? ==>
              r == Change(w.base.create(s.base, name).outcome, s.(base := w.base.create(s.base, name).state))
    ensures w.base.create(s.base, name).outcome.Fail? ==> r.state.layer == s.layer
    ensures w.base.create(s.base, name).outcome.Pass? ==>
              r.state == Stores(w.base.create(s.base, name).state, w.layer.create(s.layer, name).state)
    ensures r.outcome.Pass? <==> w.base.create(s.base, name).outcome.Pass? && w.layer.create(s.layer, name).outcome.Pass?
  {
    var b := w.base.create(s.base, name);
    if b.outcome.Fail? then Change(b.outcome, s.(base := b.state))
    else
      var l := w.layer.create(s.layer, name);
      Change(l.outcome, Stores(b.state, l.state))
  }

  // ---------------------------------------------------------------- properties

  /** Reads never look at the layer: neither its state nor its calls matter. */
  lemma StatIgnoresLayer<A, B>(w: Wrapper<A, B>, s: Stores<A, B>, layer: B, calls: Backend<B>, name: Path)
    ensures Stat(w.(layer := calls), s.(layer := layer), name) == Stat(w, s, name)
  {
  }

  /** Apart from Create, what a call reports depends on nothing but the
      base's Stat of the name it guards on: the inner calls' own answers are
      dropped. Two wrappers whose bases agree on that Stat report alike,
      whatever their stores and calls. */
  lemma OutcomesIgnoreInnerCalls<A, B, C, D>(w: Wrapper<A, B>, s: Stores<A, B>, v: Wrapper<C, D>, t: Stores<C, D>,
                                             name: Path, dst: Path, mode: nat, atime: int, mtime: int)
    requires w.base.stat(s.base, name) == v.base.stat(t.base, name)
    ensures Chtimes(w, s, name, atime, mtime).outcome == Chtimes(v, t, name, atime, mtime).outcome
    ensures Chmod(w, s, name, mode).outcome == Chmod(v, t, name, mode).outcome
    ensures Rename(w, s, name, dst).outcome == Rename(v, t, name, dst).outcome
    ensures Remove(w, s, name).outcome == Remove(v, t, name).outcome
    ensures RemoveAll(w, s, name).outcome == RemoveAll(v, t, name).outcome
    ensures Mkdir(w, s, name, mode).outcome == Mkdir(v, t, name, mode).outcome
    ensures MkdirAll(w, s, name, mode).outcome == MkdirAll(v, t, name, mode).outcome
  {
  }

  /** Replication: two copies of one filesystem that start equal stay equal
      through every write. */
  lemma WritesKeepReplicasEqual<S>(fs: Backend<S>, st: S, name: Path, dst: Path, mode: nat, atime: int, mtime: int)
    ensures var w := Wrapper(fs, fs); var s := Stores(st, st);
            && Chtimes(w, s, name, atime, mtime).state.base == Chtimes(w, s, name, atime, mtime).state.layer
            && Chmod(w, s, name, mode).state.base == Chmod(w, s, name, mode).state.layer
            && Rename(w, s, name, dst).state.base == Rename(w, s, name, dst).state.layer
            && Remove(w, s, name).state.base == Remove(w, s, name).state.layer
            && RemoveAll(w, s, name).state.base == RemoveAll(w, s, name).state.layer
            && Mkdir(w, s, name, mode).state.base == Mkdir(w, s, name, mode).state.layer
            && MkdirAll(w, s, name, mode).state.base == MkdirAll(w, s, name, mode).state.layer
  {
  }

  /** Create keeps two equal copies equal when a create the store refuses
      changes nothing in it; otherwise the layer misses what the failed
      base call left behind. */
  lemma CreateKeepsReplicasEqual<S>(fs: Backend<S>, st: S, name: Path)
    requires fs.create(st, name).outcome.Fail? ==> fs.create(st, name).state == st
    ensures var r := Create(Wrapper(fs, fs), Stores(st, st), name);
            r.state.base == r.state.layer
  {
  }

  /** The local filesystem's create changes nothing when it fails, so
      Create keeps two equal local copies equal. */
  lemma LocalCreateKeepsReplicasEqual(st: FileSys.Fs, name: Path)
    ensures Local().create(st, name).outcome.Fail? ==> Local().create(st, name).state == st
    ensures var r := Create(LocalPair(), Stores(st, st), name);
            r.state.base == r.state.layer
  {
    CreateKeepsReplicasEqual(Local(), st, name);
  }

  // --------------------------------------------------------- over FileSys

  /** The operating system's filesystem as a store. Permission bits and
      times are not modelled: Chmod and Chtimes only check the name resolves. */
  function Local(): Backend<FileSys.Fs> {
    Backend(
      (fs, p) => FileSys.Stat(fs, p),
      (fs, p, atime, mtime) => FileSys.Touch(fs, p),
      (fs, p, mode) => FileSys.Touch(fs, p),
      (fs, src, dst) => FileSys.Rename(fs, src, dst),
      (fs, p) => FileSys.Remove(fs, p),
      (fs, p) => FileSys.RemoveAll(fs, p),
      (fs, p, perm) => FileSys.MkdirAll(fs, p),
      (fs, p) => FileSys.Create(fs, p))
  }

  function LocalPair(): Wrapper<FileSys.Fs, FileSys.Fs> {
    Wrapper(Local(), Local())
  }

  /** Over two local stores, RemoveAll empties the tree in both, whatever
      either held. */
  lemma LocalRemoveAllClearsBoth(s: Stores<FileSys.Fs, FileSys.Fs>, name: Path)
    requires name != ""
    ensures var r := RemoveAll(LocalPair(), s, name);
            && r.outcome == Pass
            && (forall k :: k in r.state.base <==> k in s.base && !InTree(k, name))
            && (forall k :: k in r.state.layer <==> k in s.layer && !InTree(k, name))
  {
  }

  /** Over two local stores, MkdirAll of a name the base lacks leaves a
      directory there in the base whenever the base's MkdirAll succeeds, and
      a name the base has is left as it is in both stores. */
  lemma LocalMkdirAll(s: Stores<FileSys.Fs, FileSys.Fs>, name: Path, perm: nat)
    ensures var r := MkdirAll(LocalPair(), s, name, perm);
            FileSys.Stat(s.base, name).Err? && FileSys.MkdirAll(s.base, name).outcome.Pass? ==>
              FileSys.Stat(r.state.base, name) == Ok(FileSys.Dir)
    ensures FileSys.Stat(s.base, name).Ok? ==> MkdirAll(LocalPair(), s, name, perm).state == s
  {
  }

  /** The stores can drift apart while every call reports success: a rename
      the layer cannot do is dropped without a word. */
  lemma LocalRenameDrifts()
    ensures var s := Stores(map["a" := FileSys.File([1])], map[]);
            var r := Rename(LocalPair(), s, "a", "b");
            && r.outcome == Pass
            && r.state.base == map["b" := FileSys.File([1])]
            && r.state.layer == map[]
  {
    var fs: FileSys.Fs := map["a" := FileSys.File([1])];
    assert (fs - {"a"})["b" := fs["a"]] == map["b" := FileSys.File([1])];
  }

  /** A Create the layer refuses is reported, but the base keeps the file. */
  lemma LocalCreateKeepsBaseFile()
    ensures var s := Stores(map["d" := FileSys.Dir], map[]);
            var r := Create(LocalPair(), s, "d/f");
            && r.outcome == Fail(PathError("d/f", NoEntry))
            && r.state.base == map["d" := FileSys.Dir, "d/f" := FileSys.File([])]
            && r.state.layer == map[]
  {
    assert Parent("d/f") == "d";
  }
}
