/**
 The operating-system filesystem the store runs on, as a finite map from
 paths to entries. Each os call becomes a pure function from the map to the
 error it reports and the map it leaves behind.

 Symbolic links are followed (at most MaxHops of them) only where the path
 being looked up ends in one; the directories on the way to an entry are
 looked up by their literal path. A link's text names an absolute path when
 it starts with the separator and is otherwise read inside the directory
 that holds the link, as the kernel does.
 */
module FileSys {
  import opened Common
  import opened Paths
  import Order

  /** What a path can name. `Special` stands for devices, pipes and sockets:
      anything whose mode is neither a directory nor a regular file. */
  datatype Entry = Dir | File(data: Bytes) | Symlink(target: Path) | Special

  type Fs = map<Path, Entry>

  /** Linux's MAXSYMLINKS: resolution gives up with ELOOP after this many links. */
  const MaxHops: nat := 40

  /** Where following the symbolic links starting at a path ends. */
  datatype Lookup = Found(at: Path, entry: Entry) | Missing | Looping

  /** Where a link stored at `at` with text `t` points. */
  function Follow(at: Path, t: Path): (r: Path)
    ensures IsAbsolute(t) ==> r == t
    ensures !IsAbsolute(t) && LastSep(at) < 0 ==> r == t
    ensures !IsAbsolute(t) && t != "" && Parent(at) != "" ==> r == Join(Parent(at), t)
  {
    if IsAbsolute(t) then t else at[..LastSep(at) + 1] + t
  }

  function Resolve(fs: Fs, p: Path, hops: nat): (r: Lookup)
    ensures r.Found? ==> r.at in fs && fs[r.at] == r.entry && !r.entry.Symlink?
    ensures p !in fs ==> r == Missing
    ensures p in fs && !fs[p].Symlink? ==> r == Found(p, fs[p])
    decreases hops
  {
    if p !in fs then Missing
    else match fs[p]
      case Symlink(t) => if hops == 0 then Looping else Resolve(fs, Follow(p, t), hops - 1)
      case e => Found(p, e)
  }

  /** Replacing the entry a resolution ends at by another non-link entry
      leaves the links on the way untouched. */
  lemma ResolveAfterUpdate(fs: Fs, p: Path, hops: nat, e: Entry)
    requires Resolve(fs, p, hops).Found?
    requires !e.Symlink?
    ensures Resolve(fs[Resolve(fs, p, hops).at := e], p, hops) == Found(Resolve(fs, p, hops).at, e)
    decreases hops
  {
    if fs[p].Symlink? {
      ResolveAfterUpdate(fs, Follow(p, fs[p].target), hops - 1, e);
    }
  }

  function ErrorOf(p: Path, r: Lookup): Error
    requires !r.Found?
  {
    if r.Missing? then PathError(p, NoEntry) else PathError(p, LinkLoop)
  }

  /** os.Stat: the entry `p` resolves to (never a link). */
  function Stat(fs: Fs, p: Path): (r: Result<Entry>)
    ensures r.Ok? <==> Resolve(fs, p, MaxHops).Found?
    ensures r.Ok? ==> !r.value.Symlink?
    ensures r.Err? ==> r.error.PathError? && r.error.path == p
    ensures p !in fs ==> r == Err(PathError(p, NoEntry))
    ensures p in fs && !fs[p].Symlink? ==> r == Ok(fs[p])
    ensures r.Ok? ==> r.value == Resolve(fs, p, MaxHops).entry
    ensures Resolve(fs, p, MaxHops).Missing? ==> r == Err(PathError(p, NoEntry))
    ensures Resolve(fs, p, MaxHops).Looping? ==> r == Err(PathError(p, LinkLoop))
  {
    var l := Resolve(fs, p, MaxHops);
    if l.Found? then Ok(l.entry) else Err(ErrorOf(p, l))
  }

  /** The directory that holds `p` exists (the root always does). */
  predicate ParentOk(fs: Fs, p: Path) {
    Parent(p) == "" || (Parent(p) in fs && fs[Parent(p)] == Dir)
  }

  predicate HasChildren(fs: Fs, p: Path) {
    exists k :: k in fs && k != p && InTree(k, p)
  }

  /** ioutil.ReadFile */
  function ReadFile(fs: Fs, p: Path): (r: Result<Bytes>)
    ensures p in fs && fs[p].File? ==> r == Ok(fs[p].data)
    ensures r.Ok? ==> Stat(fs, p) == Ok(File(r.value))
    ensures r.Err? ==> r.error.PathError? && r.error.path == p
    ensures Stat(fs, p).Ok? && Stat(fs, p).value.File? ==> r == Ok(Stat(fs, p).value.data)
    ensures Stat(fs, p) == Ok(Dir) ==> r == Err(PathError(p, IsADirectory))
    ensures Stat(fs, p).Err? ==> r == Err(Stat(fs, p).error)
  {
    match Resolve(fs, p, MaxHops)
    case Found(_, File(d)) => Ok(d)
    case Found(_, Dir) => Err(PathError(p, IsADirectory))
    case Found(_, _) => Err(PathError(p, Invalid))
    case Missing => Err(PathError(p, NoEntry))
    case Looping => Err(PathError(p, LinkLoop))
  }

  /** The path whose entry a write to `p` replaces: the end of its links. */
  function WriteTarget(fs: Fs, p: Path): Path {
    var l := Resolve(fs, p, MaxHops);
    if l.Found? then l.at else p
  }

  /** ioutil.WriteFile: create or truncate `p` (through its links) and fill it with `data`. */
  function WriteFile(fs: Fs, p: Path, data: Bytes): (r: Change<Fs>)
    ensures r.outcome.Fail? ==> r.state == fs
    ensures r.outcome.Pass? ==> r.state == fs[WriteTarget(fs, p) := File(data)]
    ensures r.outcome.Pass? ==> ReadFile(r.state, p) == Ok(data)
    ensures (p !in fs && ParentOk(fs, p)) || (p in fs && fs[p].File?) ==> r.outcome.Pass?
    ensures p in fs && fs[p] == Dir ==> r.outcome == Fail(PathError(p, IsADirectory))
    ensures p !in fs && !ParentOk(fs, p) ==> r.outcome == Fail(PathError(p, NoEntry))
  {
    if p in fs then
      var l := Resolve(fs, p, MaxHops);
      match l
      case Found(at, File(_)) =>
        ResolveAfterUpdate(fs, p, MaxHops, File(data));
        Change(Pass, fs[at := File(data)])
      case Found(_, Dir) => Change(Fail(PathError(p, IsADirectory)), fs)
      case Found(_, _) => Change(Fail(PathError(p, Invalid)), fs)
      case _ => Change(Fail(ErrorOf(p, l)), fs)
    else if !ParentOk(fs, p) then
      Change(Fail(PathError(p, NoEntry)), fs)
    else
      Change(Pass, fs[p := File(data)])
  }

  /** Create (open with O_CREATE|O_TRUNC): an empty file at `p`. */
  function Create(fs: Fs, p: Path): (r: Change<Fs>)
    ensures r.outcome.Fail? ==> r.state == fs
    ensures r.outcome.Pass? ==> ReadFile(r.state, p) == Ok([])
    ensures r.outcome.Pass? ==> r.state == fs[WriteTarget(fs, p) := File([])]
    ensures (p !in fs && ParentOk(fs, p)) || (p in fs && fs[p].File?) ==> r.outcome.Pass?
    ensures p in fs && fs[p] == Dir ==> r.outcome == Fail(PathError(p, IsADirectory))
    ensures p !in fs && !ParentOk(fs, p) ==> r.outcome == Fail(PathError(p, NoEntry))
  {
    WriteFile(fs, p, [])
  }

  /** The path `k` (inside the tree at `src`) gets when that tree moves to `dst`. */
  function Rebase(k: Path, src: Path, dst: Path): Path
    requires InTree(k, src)
  {
    dst + k[|src|..]
  }

  lemma RebaseProperties(src: Path, dst: Path)
    ensures forall k :: InTree(k, src) ==> InTree(Rebase(k, src, dst), dst)
    ensures forall k1, k2 :: InTree(k1, src) && InTree(k2, src) && Rebase(k1, src, dst) == Rebase(k2, src, dst) ==> k1 == k2
  {
    forall k1, k2 | InTree(k1, src) && InTree(k2, src) && Rebase(k1, src, dst) == Rebase(k2, src, dst)
      ensures k1 == k2
    {
      assert k1[|src|..] == Rebase(k1, src, dst)[|dst|..];
      assert k1 == k1[..|src|] + k1[|src|..];
      assert k2 == k2[..|src|] + k2[|src|..];
    }
  }

  /** Moving a tree keeps each entry's place under its parent. */
  lemma RebaseParent(k: Path, src: Path, dst: Path)
    requires InTree(k, src) && k != src
    ensures InTree(Parent(k), src)
    ensures Parent(Rebase(k, src, dst)) == Rebase(Parent(k), src, dst)
  {
    var rest := k[|src|..];
    assert k == src + rest;
    assert rest[0] == Sep;
    assert LastSep(rest) >= 0;
    var m := LastSep(rest);
    ParentAppend(src, rest);
    ParentAppend(dst, rest);
    var up := src + rest[..m];
    assert up[|src|..] == rest[..m];
  }

  /** Every entry of the tree at `src` moved to the same place under `dst`;
      entries outside both trees stay. */
  function MoveTree(fs: Fs, src: Path, dst: Path): (r: Fs)
    ensures forall k :: k in fs && !InTree(k, src) && !InTree(k, dst) ==> k in r && r[k] == fs[k]
    ensures forall k :: k in fs && InTree(k, src) ==> Rebase(k, src, dst) in r && r[Rebase(k, src, dst)] == fs[k]
    ensures forall k :: k in r ==> (k in fs && !InTree(k, src) && !InTree(k, dst)) || InTree(k, dst)
  {
    RebaseProperties(src, dst);
    var kept := map k | k in fs && !InTree(k, src) && !InTree(k, dst) :: fs[k];
    var moved := map k | k in fs && InTree(k, src) :: Rebase(k, src, dst) := fs[k];
    assert forall k :: k in moved ==> InTree(k, dst);
    assert forall k :: k in fs && InTree(k, src) ==> Rebase(k, src, dst) in moved && moved[Rebase(k, src, dst)] == fs[k];
    kept + moved
  }

  /** os.Rename on Unix. Go refuses to replace a directory (EEXIST) before it
      asks the kernel; rename(2) then refuses a directory over a non-directory
      and a directory into its own tree. Links are renamed, not followed. */
  function Rename(fs: Fs, src: Path, dst: Path): (r: Change<Fs>)
    ensures r.outcome.Fail? ==> r.state == fs
    ensures src !in fs ==> r.outcome == Fail(PathError(src, NoEntry))
    ensures r.outcome.Pass? && src != dst && fs[src] != Dir ==>
              r.state == (fs - {src})[dst := fs[src]]
    ensures r.outcome.Pass? && src != dst && fs[src] == Dir ==> r.state == MoveTree(fs, src, dst)
    ensures src in fs && dst in fs && fs[dst] == Dir ==> r.outcome == Fail(PathError(dst, AlreadyExists))
    ensures src in fs && fs[src] != Dir && !(dst in fs && fs[dst] == Dir) && ParentOk(fs, dst) ==> r.outcome.Pass?
    ensures src in fs && fs[src] == Dir && dst !in fs && ParentOk(fs, dst) && !InTree(dst, src) ==> r.outcome.Pass?
  {
    if dst in fs && fs[dst] == Dir then
      if src !in fs then Change(Fail(PathError(src, NoEntry)), fs)
      else Change(Fail(PathError(dst, AlreadyExists)), fs)
    else if src !in fs then Change(Fail(PathError(src, NoEntry)), fs)
    else if src == dst then Change(Pass, fs)
    else if !ParentOk(fs, dst) then Change(Fail(PathError(dst, NoEntry)), fs)
    else if fs[src] == Dir then
      if dst in fs then Change(Fail(PathError(dst, NotADirectory)), fs)
      else if InTree(dst, src) then Change(Fail(PathError(dst, Invalid)), fs)
      else Change(Pass, MoveTree(fs, src, dst))
    else Change(Pass, (fs - {src})[dst := fs[src]])
  }

  /** os.Remove: one entry (a link itself, not what it points at); a directory only when empty. */
  function Remove(fs: Fs, p: Path): (r: Change<Fs>)
    ensures r.outcome.Pass? <==> p in fs && !(fs[p] == Dir && HasChildren(fs, p))
    ensures r.outcome.Pass? ==> r.state == fs - {p}
    ensures r.outcome.Fail? ==> r.state == fs
  {
    if p !in fs then Change(Fail(PathError(p, NoEntry)), fs)
    else if fs[p] == Dir && HasChildren(fs, p) then Change(Fail(PathError(p, NotEmpty)), fs)
    else Change(Pass, fs - {p})
  }

  /** os.RemoveAll: `p` and everything below it; an absent path is not an error. */
  function RemoveAll(fs: Fs, p: Path): (r: Change<Fs>)
    ensures r.outcome == Pass
    ensures p != "" ==> forall k :: k in r.state <==> k in fs && !InTree(k, p)
    ensures forall k :: k in r.state ==> k in fs && r.state[k] == fs[k]
  {
    if p == "" then Change(Pass, fs)
    else Change(Pass, map k | k in fs && !InTree(k, p) :: fs[k])
  }

  /** os.Symlink(target, link): a dst link; never replaces an entry. */
  function CreateSymlink(fs: Fs, target: Path, link: Path): (r: Change<Fs>)
    ensures r.outcome.Pass? <==> link !in fs && ParentOk(fs, link)
    ensures r.outcome.Pass? ==> r.state == fs[link := Symlink(target)]
    ensures r.outcome.Fail? ==> r.state == fs
  {
    if link in fs then Change(Fail(PathError(link, AlreadyExists)), fs)
    else if !ParentOk(fs, link) then Change(Fail(PathError(link, NoEntry)), fs)
    else Change(Pass, fs[link := Symlink(target)])
  }

  /** os.Mkdir: one dst directory inside an existing one. */
  function Mkdir(fs: Fs, p: Path): (r: Change<Fs>)
    ensures r.outcome.Pass? <==> p !in fs && ParentOk(fs, p)
    ensures r.outcome.Pass? ==> r.state == fs[p := Dir]
    ensures r.outcome.Fail? ==> r.state == fs
  {
    if p in fs then Change(Fail(PathError(p, AlreadyExists)), fs)
    else if !ParentOk(fs, p) then Change(Fail(PathError(p, NoEntry)), fs)
    else Change(Pass, fs[p := Dir])
  }

  /** Entries are only ever added, and every added one is a directory on the
      way to `p`. */
  ghost predicate AddsDirsTowards(fs: Fs, fs': Fs, p: Path) {
    && (forall k :: k in fs ==> k in fs' && fs'[k] == fs[k])
    && (forall k :: k in fs' && k !in fs ==> fs'[k] == Dir && InTree(p, k))
  }

  /** os.MkdirAll: done when `p` already is a directory; otherwise make the
      parent first, then `p`. Directories made before a failure stay. */
  function MkdirAll(fs: Fs, p: Path): (r: Change<Fs>)
    ensures r.outcome.Pass? ==> Stat(r.state, p) == Ok(Dir)
    ensures p != "" && Stat(fs, p) == Ok(Dir) ==> r == Change(Pass, fs)
    ensures p != "" && Stat(fs, p).Ok? && Stat(fs, p) != Ok(Dir) ==> r == Change(Fail(PathError(p, NotADirectory)), fs)
    ensures AddsDirsTowards(fs, r.state, p)
    ensures p != "" && p !in fs && ParentOk(fs, p) ==> r == Change(Pass, fs[p := Dir])
    decreases |p|
  {
    if p == "" then Change(Fail(PathError(p, NoEntry)), fs)
    else
      match Stat(fs, p)
      case Ok(Dir) => Change(Pass, fs)
      case Ok(_) => Change(Fail(PathError(p, NotADirectory)), fs)
      case Err(_) =>
        var up := if Parent(p) != "" then MkdirAll(fs, Parent(p)) else Change(Pass, fs);
        if up.outcome.Fail? then
          ParentAddsTowards(fs, up.state, p);
          up
        else
          ParentAddsTowards(fs, up.state, p);
          var made := Mkdir(up.state, p);
          if made.outcome.Fail? && p in up.state && up.state[p] == Dir then Change(Pass, up.state)
          else made
  }

  /** MkdirAll can make `p`: walking up from `p`, every missing name is
      followed by another missing one until a directory or the root. */
  predicate Makeable(fs: Fs, p: Path)
    decreases |p|
  {
    && p != ""
    && ((p in fs && fs[p] == Dir)
        || (p !in fs && (Parent(p) == "" || Makeable(fs, Parent(p)))))
  }

  /** MkdirAll creates every missing directory on the way to `p`. */
  lemma {:induction false} MkdirAllMakes(fs: Fs, p: Path)
    requires Makeable(fs, p)
    ensures MkdirAll(fs, p).outcome == Pass
    ensures p in MkdirAll(fs, p).state && MkdirAll(fs, p).state[p] == Dir
    decreases |p|
  {
    if p !in fs && Parent(p) != "" {
      MkdirAllMakes(fs, Parent(p));
      var up := MkdirAll(fs, Parent(p));
      assert p !in up.state by {
        assert |Parent(p)| < |p|;
      }
      assert Mkdir(up.state, p).outcome == Pass;
    }
  }

  /** MkdirAll leaves every name longer than `p` as it was. */
  lemma MkdirAllKeepsLonger(fs: Fs, p: Path, k: Path)
    requires |k| > |p|
    ensures k in MkdirAll(fs, p).state <==> k in fs
    ensures k in fs ==> MkdirAll(fs, p).state[k] == fs[k]
  {
  }

  lemma ParentAddsTowards(fs: Fs, fs': Fs, p: Path)
    requires Parent(p) != "" ==> AddsDirsTowards(fs, fs', Parent(p))
    requires Parent(p) == "" ==> fs' == fs
    ensures AddsDirsTowards(fs, fs', p)
  {
    if Parent(p) != "" {
      ParentIsAncestor(p);
      forall k | k in fs' && k !in fs
        ensures InTree(p, k)
      {
        InTreeTransitive(p, Parent(p), k);
      }
    }
  }

  /** The names of the entries directly inside the directory `at`. */
  function Children(fs: Fs, at: Path): set<Path> {
    set k | k in fs && IsChild(k, at) :: Base(k)
  }

  /** ioutil.ReadDir: the names inside the directory `d` resolves to, sorted. */
  function ReadDir(fs: Fs, d: Path): (r: Result<seq<Path>>)
    ensures r.Ok? ==> Order.IsSorted(r.value)
    ensures r.Ok? ==> forall i, j :: 0 <= i < j < |r.value| ==> r.value[i] != r.value[j]
    ensures r.Ok? <==> Stat(fs, d) == Ok(Dir)
  {
    match Resolve(fs, d, MaxHops)
    case Found(at, Dir) => Ok(Order.SortedNames(Children(fs, at)))
    case Found(_, _) => Err(PathError(d, NotADirectory))
    case Missing => Err(PathError(d, NoEntry))
    case Looping => Err(PathError(d, LinkLoop))
  }

  /** Listing a directory (not reached through a link) gives exactly the
      names `n` for which `d/n` is an entry. */
  lemma ReadDirNames(fs: Fs, d: Path, name: Path)
    requires d != "" && d in fs && fs[d] == Dir
    ensures ReadDir(fs, d).Ok?
    ensures name in ReadDir(fs, d).value <==> name != "" && Sep !in name && Join(d, name) in fs
  {
    var kids := Children(fs, d);
    assert ReadDir(fs, d).value == Order.SortedNames(kids);
    if name in kids {
      var k :| k in fs && IsChild(k, d) && Base(k) == name;
      ChildJoin(k, d);
    }
    if name != "" && Sep !in name && Join(d, name) in fs {
      JoinChild(d, name);
      assert Base(Join(d, name)) in kids;
    }
  }

  /** os.Chmod / os.Chtimes: permission bits and times are not part of this
      model, so the call only checks that `p` resolves. */
  function Touch(fs: Fs, p: Path): (r: Change<Fs>)
    ensures r.state == fs
    ensures r.outcome.Pass? <==> Resolve(fs, p, MaxHops).Found?
  {
    match Stat(fs, p)
    case Ok(_) => Change(Pass, fs)
    case Err(e) => Change(Fail(e), fs)
  }

  /** A link holding its own absolute path never resolves: every hop lands
      on the same link. */
  lemma {:induction false} SelfLinkLoops(fs: Fs, p: Path, hops: nat)
    requires IsAbsolute(p) && p in fs && fs[p] == Symlink(p)
    ensures Resolve(fs, p, hops) == Looping
    decreases hops
  {
    if hops > 0 {
      SelfLinkLoops(fs, p, hops - 1);
    }
  }

  // ------------------------------------------------------------ tree shape

  /** Every entry sits in a directory that exists: the shape a real
      filesystem always has. Each call below keeps it. */
  predicate WellFormed(fs: Fs) {
    forall k :: k in fs ==> ParentOk(fs, k)
  }

  lemma WriteFileKeepsShape(fs: Fs, p: Path, data: Bytes)
    requires WellFormed(fs)
    ensures WellFormed(WriteFile(fs, p, data).state)
  {
    var r := WriteFile(fs, p, data);
    if r.outcome.Pass? {
      var at := WriteTarget(fs, p);
      assert r.state == fs[at := File(data)];
      if p in fs {
        assert Resolve(fs, p, MaxHops).Found? && fs[at].File?;
      } else {
        assert at == p && ParentOk(fs, p);
      }
      forall k | k in r.state
        ensures ParentOk(r.state, k)
      {
        if k in fs {
          assert ParentOk(fs, k);
        }
      }
    }
  }

  lemma MkdirKeepsShape(fs: Fs, p: Path)
    requires WellFormed(fs)
    ensures WellFormed(Mkdir(fs, p).state)
  {
  }

  lemma CreateSymlinkKeepsShape(fs: Fs, target: Path, link: Path)
    requires WellFormed(fs)
    ensures WellFormed(CreateSymlink(fs, target, link).state)
  {
  }

  lemma {:induction false} MkdirAllKeepsShape(fs: Fs, p: Path)
    requires WellFormed(fs)
    ensures WellFormed(MkdirAll(fs, p).state)
    decreases |p|
  {
    if p != "" && Stat(fs, p).Err? {
      var up := if Parent(p) != "" then MkdirAll(fs, Parent(p)) else Change(Pass, fs);
      if Parent(p) != "" {
        ParentIsAncestor(p);
        MkdirAllKeepsShape(fs, Parent(p));
      }
      MkdirKeepsShape(up.state, p);
    }
  }

  /** Removing one entry cannot orphan another: a directory with entries
      below it is refused. */
  lemma RemoveKeepsShape(fs: Fs, p: Path)
    requires WellFormed(fs)
    ensures WellFormed(Remove(fs, p).state)
  {
    var r := Remove(fs, p);
    if r.outcome.Pass? {
      forall k | k in r.state
        ensures ParentOk(r.state, k)
      {
        if Parent(k) != "" && Parent(k) == p {
          ParentIsAncestor(k);
        }
      }
    }
  }

  /** Renaming moves an entry (with its tree) only into an existing
      directory, and never a directory into itself. */
  lemma RenameKeepsShape(fs: Fs, src: Path, dst: Path)
    requires WellFormed(fs)
    ensures WellFormed(Rename(fs, src, dst).state)
  {
    var r := Rename(fs, src, dst);
    if r.outcome.Pass? && src != dst {
      if fs[src] == Dir {
        MoveTreeKeepsShape(fs, src, dst);
      } else {
        forall x | x in r.state
          ensures ParentOk(r.state, x)
        {
          if x != dst {
            assert ParentOk(fs, x);
          }
        }
      }
    }
  }

  /** Every entry in the moved tree came from the tree at `src`. */
  lemma MoveTreeSources(fs: Fs, src: Path, dst: Path, k: Path)
    requires k in MoveTree(fs, src, dst) && InTree(k, dst)
    ensures exists j :: j in fs && InTree(j, src) && k == Rebase(j, src, dst)
  {
  }

  lemma MoveTreeKeepsShape(fs: Fs, src: Path, dst: Path)
    requires WellFormed(fs)
    requires src in fs && fs[src] == Dir && dst !in fs && ParentOk(fs, dst) && !InTree(dst, src)
    ensures WellFormed(MoveTree(fs, src, dst))
  {
    var r := MoveTree(fs, src, dst);
    forall x | x in r
      ensures ParentOk(r, x)
    {
      var p := Parent(x);
      if InTree(x, dst) {
        MoveTreeSources(fs, src, dst, x);
        var k :| k in fs && InTree(k, src) && x == Rebase(k, src, dst);
        if k == src {
          if p != "" {
            ParentIsAncestor(dst);
            if InTree(p, src) {
              InTreeTransitive(dst, p, src);
            }
          }
        } else {
          RebaseParent(k, src, dst);
          assert ParentOk(fs, k);
        }
      } else if p != "" {
        ParentIsAncestor(x);
        if InTree(p, src) {
          InTreeTransitive(x, p, src);
        }
        if InTree(p, dst) {
          InTreeTransitive(x, p, dst);
        }
      }
    }
  }

  /** Removing a whole tree cannot orphan an entry outside it. */
  lemma RemoveAllKeepsShape(fs: Fs, p: Path)
    requires WellFormed(fs)
    ensures WellFormed(RemoveAll(fs, p).state)
  {
    var r := RemoveAll(fs, p);
    if p != "" {
      forall k | k in r.state
        ensures ParentOk(r.state, k)
      {
        if Parent(k) != "" {
          ParentIsAncestor(k);
          if InTree(Parent(k), p) {
            InTreeTransitive(k, Parent(k), p);
          }
        }
      }
    }
  }
}
