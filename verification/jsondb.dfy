/**
 The record store of jsondb.go: a collection is a directory under the
 database directory, a record is the file `<collection>/<resource>.json`.
 Every operation is a function of the database state; those that write
 return the state they leave behind, including the lock table entry they
 took.
 */
module JsonDb {
  import opened Common
  import opened Paths
  import FileSys
  import Ids
  import Locks
  import QueryPath
  import Scanning

  type Fs = FileSys.Fs

  /** A JSONDB: its directory, the filesystem it lives on and its lock table. */
  datatype Db = Db(dir: Path, fs: Fs, locks: map<string, Locks.Mutex>)

  const NoCollectionToSave: string := "Missing collection - no place to save record!"
  const NoResourceToSave: string := "Missing resource - unable to save record (no name)!"
  const NoCollectionToRead: string := "Missing collection - unable to record location!"

  function NotFound(path: Path): Error {
    Message("Unable to find file or directory named " + path + "\n")
  }

  /** Take the lock for `key`: the table gains the key if it lacked it. */
  function Lock(db: Db, key: string): Db {
    db.(locks := Locks.GetOrCreate(db.locks, key, Locks.Unlocked).table)
  }

  /** The file a record lives in. */
  function RecordFile(dir: Path, collection: string, resource: string): Path {
    Join3(dir, collection, resource) + JsonExt
  }

  /** JSONDB.Stat: the bare path, and only when that does not exist, the
      path with ".json" appended. A bare path that ends in a loop of links
      exists for this purpose, so there is no fallback for it. */
  function Stat(fs: Fs, p: Path): (r: Result<FileSys.Entry>)
    ensures FileSys.Resolve(fs, p, FileSys.MaxHops).Found? ==>
              r == Ok(FileSys.Resolve(fs, p, FileSys.MaxHops).entry)
    ensures FileSys.Resolve(fs, p, FileSys.MaxHops).Looping? ==> r == Err(PathError(p, LinkLoop))
    ensures FileSys.Resolve(fs, p, FileSys.MaxHops).Missing? ==> r == FileSys.Stat(fs, p + JsonExt)
    ensures r.Ok? <==> FileSys.Resolve(fs, p, FileSys.MaxHops).Found?
                       || (FileSys.Resolve(fs, p, FileSys.MaxHops).Missing?
                           && FileSys.Resolve(fs, p + JsonExt, FileSys.MaxHops).Found?)
  {
    var bare := FileSys.Stat(fs, p);
    if bare.Err? && IsNotExist(bare.error) then FileSys.Stat(fs, p + JsonExt) else bare
  }

  /** The name Put stores under: the resource, or 64 symbols made from the
      first 64 bytes of the random stream when the resource is empty. */
  function RecordName(resource: string, random: nat -> byte): (name: string)
    ensures resource != "" ==> name == resource
    ensures resource == "" ==> |name| == Ids.GeneratedIdLength
    ensures resource == "" ==> forall i :: 0 <= i < |name| ==> Ids.IsAlphanumeric(name[i])
  {
    if resource == "" then Ids.GenId(seq(Ids.GeneratedIdLength, i requires 0 <= i => random(i))) else resource
  }

  /** InitCollection: make the collection's directory (and any missing
      directory on the way to it) under the collection's lock. */
  function InitCollection(db: Db, collection: string): (r: Change<Db>)
    ensures r.state == Lock(db, collection).(fs := r.state.fs)
    ensures FileSys.AddsDirsTowards(db.fs, r.state.fs, Join(db.dir, collection))
    ensures r.outcome.Pass? ==> FileSys.Stat(r.state.fs, Join(db.dir, collection)) == Ok(FileSys.Dir)
    ensures var dir := Join(db.dir, collection);
            dir != "" && dir !in db.fs && FileSys.ParentOk(db.fs, dir) ==>
              r.outcome == Pass && r.state.fs == db.fs[dir := FileSys.Dir]
  {
    var locked := Lock(db, collection);
    var made := FileSys.MkdirAll(db.fs, Join(db.dir, collection));
    Change(made.outcome, locked.(fs := made.state))
  }

  /** The last two steps of Put: write the bytes to `final` + ".tmp", then
      rename that over `final`. A failed rename leaves the temporary file. */
  function Store(fs: Fs, final: Path, b: Bytes): (r: Change<Fs>)
    ensures r.outcome.Fail? ==>
              r.state == fs || r.state == fs[FileSys.WriteTarget(fs, final + TmpExt) := FileSys.File(b)]
    ensures r.outcome.Pass? && !(final + TmpExt in fs && fs[final + TmpExt].Symlink?) ==>
              r.state == (fs - {final + TmpExt})[final := FileSys.File(b)]
  {
    var temp := final + TmpExt;
    var written := FileSys.WriteFile(fs, temp, b);
    if written.outcome.Fail? then written
    else
      assert !(temp in fs && fs[temp].Symlink?) ==> written.state == fs[temp := FileSys.File(b)];
      assert temp != final;
      FileSys.Rename(written.state, temp, final)
  }

  /** Put: validate, name, lock, make the collection directory, encode,
      write `<name>.json.tmp`, then rename it over `<name>.json`. */
  function Put<V>(db: Db, collection: string, resource: string, v: V,
                  encode: V -> Result<Bytes>, random: nat -> byte): (r: Change<Db>)
    ensures collection == "" ==> r == Change(Fail(Message(NoCollectionToSave)), db)
    ensures collection != "" ==> r.state == Lock(db, collection).(fs := r.state.fs)
    ensures r.outcome.Pass? ==> encode(v).Ok?
  {
    if collection == "" then Change(Fail(Message(NoCollectionToSave)), db)
    else
      var locked := Lock(db, collection);
      var dir := Join(db.dir, collection);
      var made := FileSys.MkdirAll(db.fs, dir);
      if made.outcome.Fail? then Change(made.outcome, locked.(fs := made.state))
      else
        match encode(v)
        case Err(e) => Change(Fail(e), locked.(fs := made.state))
        case Ok(b) =>
          var stored := Store(made.state, Join(dir, RecordName(resource, random) + JsonExt), b);
          Change(stored.outcome, locked.(fs := stored.state))
  }

  /** GetBytes: validate, check the record exists, read its ".json" file. */
  function GetBytes(db: Db, collection: string, resource: string): (r: Result<Bytes>)
    ensures collection == "" ==> r == Err(Message(NoCollectionToSave))
    ensures collection != "" && resource == "" ==> r == Err(Message(NoResourceToSave))
    ensures collection != "" && resource != "" && Stat(db.fs, Join3(db.dir, collection, resource)).Err? ==>
              r == Err(Stat(db.fs, Join3(db.dir, collection, resource)).error)
    ensures collection != "" && resource != "" && Stat(db.fs, Join3(db.dir, collection, resource)).Ok? ==>
              r == FileSys.ReadFile(db.fs, RecordFile(db.dir, collection, resource))
  {
    if collection == "" then Err(Message(NoCollectionToSave))
    else if resource == "" then Err(Message(NoResourceToSave))
    else
      var rec := Join3(db.dir, collection, resource);
      match Stat(db.fs, rec)
      case Err(e) => Err(e)
      case Ok(_) => FileSys.ReadFile(db.fs, rec + JsonExt)
  }

  /** Get: GetBytes, then unmarshal. */
  function Get<R>(db: Db, collection: string, resource: string, decode: Bytes -> Result<R>): (r: Result<R>)
    ensures GetBytes(db, collection, resource).Err? ==> r == Err(GetBytes(db, collection, resource).error)
    ensures GetBytes(db, collection, resource).Ok? ==> r == decode(GetBytes(db, collection, resource).value)
  {
    match GetBytes(db, collection, resource)
    case Err(e) => Err(e)
    case Ok(b) => decode(b)
  }

  /** Delete: under the lock of "collection/resource", remove the directory
      tree when the path is a directory, the ".json" file when it is a
      regular file, nothing otherwise. */
  function Delete(db: Db, collection: string, resource: string): (r: Change<Db>)
    ensures r.state == Lock(db, Join(collection, resource)).(fs := r.state.fs)
    ensures forall k :: k in r.state.fs ==> k in db.fs && r.state.fs[k] == db.fs[k]
    ensures var found := Stat(db.fs, Join(db.dir, Join(collection, resource)));
            found.Err? ==> r.outcome == Fail(NotFound(Join(collection, resource))) && r.state.fs == db.fs
    ensures var dir := Join(db.dir, Join(collection, resource));
            Stat(db.fs, dir) == Ok(FileSys.Dir) && dir != "" ==>
              r.outcome == Pass && forall k :: k in r.state.fs <==> k in db.fs && !InTree(k, dir)
    ensures var dir := Join(db.dir, Join(collection, resource));
            Stat(db.fs, dir).Ok? && Stat(db.fs, dir).value.File? ==>
              r.outcome == Pass && forall k :: k in r.state.fs <==> k in db.fs && !InTree(k, dir + JsonExt)
    ensures var found := Stat(db.fs, Join(db.dir, Join(collection, resource)));
            found.Ok? && !found.value.Dir? && !found.value.File? ==> r.outcome == Pass && r.state.fs == db.fs
  {
    var path := Join(collection, resource);
    var locked := Lock(db, path);
    var dir := Join(db.dir, path);
    var found := Stat(db.fs, dir);
    if found.Err? then Change(Fail(NotFound(path)), locked)
    else if found.value.Dir? then
      var gone := FileSys.RemoveAll(db.fs, dir);
      Change(gone.outcome, locked.(fs := gone.state))
    else if found.value.File? then
      var gone := FileSys.RemoveAll(db.fs, dir + JsonExt);
      Change(gone.outcome, locked.(fs := gone.state))
    else Change(Pass, locked)
  }

  /** Link: under the source's lock, a symbolic link at the destination to
      the source directory, or from "dest.json" to "src.json" after removing
      whatever "dest.json" was. */
  function Link(db: Db, srcCollection: string, srcResource: string,
                destCollection: string, destResource: string): (r: Change<Db>)
    ensures r.state == Lock(db, Join(srcCollection, srcResource)).(fs := r.state.fs)
    ensures var src := Join(db.dir, Join(srcCollection, srcResource));
            Stat(db.fs, src).Err? ==>
              r.outcome == Fail(NotFound(Join(srcCollection, srcResource))) && r.state.fs == db.fs
    ensures var src := Join(db.dir, Join(srcCollection, srcResource));
            var dest := Join(db.dir, Join(destCollection, destResource));
            Stat(db.fs, src) == Ok(FileSys.Dir) ==>
              && (r.outcome.Pass? <==> dest !in db.fs && FileSys.ParentOk(db.fs, dest))
              && r.state.fs == (if r.outcome.Pass? then db.fs[dest := FileSys.Symlink(src)] else db.fs)
    ensures var src := Join(db.dir, Join(srcCollection, srcResource));
            var dest := Join(db.dir, Join(destCollection, destResource));
            Stat(db.fs, src).Ok? && Stat(db.fs, src).value.File? && r.outcome.Pass? ==>
              r.state.fs == (db.fs - {dest + JsonExt})[dest + JsonExt := FileSys.Symlink(src + JsonExt)]
    ensures var src := Join(db.dir, Join(srcCollection, srcResource));
            var dest := Join(db.dir, Join(destCollection, destResource));
            Stat(db.fs, src).Ok? && Stat(db.fs, src).value.File? ==>
              (r.outcome.Pass? <==>
                 && FileSys.ParentOk(db.fs - {dest + JsonExt}, dest + JsonExt)
                 && !(dest + JsonExt in db.fs && db.fs[dest + JsonExt] == FileSys.Dir
                      && FileSys.HasChildren(db.fs, dest + JsonExt)))
    ensures var src := Join(db.dir, Join(srcCollection, srcResource));
            var dest := Join(db.dir, Join(destCollection, destResource));
            Stat(db.fs, src).Ok? && Stat(db.fs, src).value.File? && r.outcome.Fail? ==>
              r.state.fs == FileSys.Remove(db.fs, dest + JsonExt).state
    ensures var found := Stat(db.fs, Join(db.dir, Join(srcCollection, srcResource)));
            found.Ok? && !found.value.Dir? && !found.value.File? ==> r.outcome == Pass && r.state.fs == db.fs
  {
    var srcPath := Join(srcCollection, srcResource);
    var destPath := Join(destCollection, destResource);
    var locked := Lock(db, srcPath);
    var src := Join(db.dir, srcPath);
    var dest := Join(db.dir, destPath);
    var found := Stat(db.fs, src);
    if found.Err? then Change(Fail(NotFound(srcPath)), locked)
    else if found.value.Dir? then
      var made := FileSys.CreateSymlink(db.fs, src, dest);
      Change(made.outcome, locked.(fs := made.state))
    else if found.value.File? then
      var cleared := FileSys.Remove(db.fs, dest + JsonExt);
      var made := FileSys.CreateSymlink(cleared.state, src + JsonExt, dest + JsonExt);
      Change(made.outcome, locked.(fs := made.state))
    else Change(Pass, locked)
  }

  /** The names in the collection directory; a listing error counts as an
      empty directory. */
  function Listing(fs: Fs, dir: Path): seq<Path> {
    var listed := FileSys.ReadDir(fs, dir);
    if listed.Ok? then listed.value else []
  }

  function FileReader(fs: Fs, dir: Path): Path -> Result<Bytes> {
    name => FileSys.ReadFile(fs, Join(dir, name))
  }

  /** How GetAll reads a listed file: every file is wanted. */
  function AllReader<R>(fs: Fs, dir: Path, decode: Bytes -> Result<R>): Scanning.Reader<Path, R> {
    Scanning.Reader(FileReader(fs, dir), _ => Ok(true), decode)
  }

  /** GetAll: validate, check the collection exists, then read and decode
      the listed files in order. The records of the files before the first
      one that cannot be read or decoded are kept, and that file's error is
      returned with them. */
  function GetAll<R>(db: Db, collection: string, decode: Bytes -> Result<R>): (r: Scanning.Scan<R>)
    ensures collection == "" ==> r == Scanning.Scan([], Some(Message(NoCollectionToRead)))
    ensures collection != "" && Stat(db.fs, Join(db.dir, collection)).Err? ==>
              r == Scanning.Scan([], Some(Stat(db.fs, Join(db.dir, collection)).error))
    ensures collection != "" && Stat(db.fs, Join(db.dir, collection)).Ok? ==>
              var rd := AllReader(db.fs, Join(db.dir, collection), decode);
              var files := Listing(db.fs, Join(db.dir, collection));
              var i := Scanning.FirstFailure(rd, files);
              && r.records == Scanning.Loads(rd, files[..i])
              && r.failure == (if i < |files| then Some(Scanning.Load(rd, files[i]).error) else None)
  {
    if collection == "" then Scanning.Scan([], Some(Message(NoCollectionToRead)))
    else
      var dir := Join(db.dir, collection);
      match Stat(db.fs, dir)
      case Err(e) => Scanning.Scan([], Some(e))
      case Ok(_) =>
        var rd := AllReader(db.fs, dir, decode);
        var files := Listing(db.fs, dir);
        Scanning.ScanAllSpec(rd, files);
        Scanning.ScanAll(rd, files)
  }

  /** How GetWhere/GetWhereNot read a listed file: `probe` stands for
      decoding the bytes into a generic map, looking the query path up with
      the accessor that fits the expected value's type, and comparing. */
  function QueryReader<R>(fs: Fs, dir: Path, query: string,
                          probe: (Bytes, seq<string>) -> Result<bool>,
                          decode: Bytes -> Result<R>): Scanning.Reader<Path, R> {
    Scanning.Reader(FileReader(fs, dir), b => probe(b, QueryPath.QueryPathOf(query)), decode)
  }

  /** The body shared by GetWhere (`want` true) and GetWhereNot (`want` false). */
  function Query<R>(db: Db, collection: string, query: string,
                    probe: (Bytes, seq<string>) -> Result<bool>, decode: Bytes -> Result<R>,
                    limit: int, want: bool): (r: Scanning.Scan<R>)
    ensures collection == "" ==> r == Scanning.Scan([], Some(Message(NoCollectionToRead)))
    ensures collection != "" && Stat(db.fs, Join(db.dir, collection)).Err? ==>
              r == Scanning.Scan([], Some(Stat(db.fs, Join(db.dir, collection)).error))
    ensures limit >= 1 ==> |r.records| <= limit
  {
    if collection == "" then Scanning.Scan([], Some(Message(NoCollectionToRead)))
    else
      var dir := Join(db.dir, collection);
      match Stat(db.fs, dir)
      case Err(e) => Scanning.Scan([], Some(e))
      case Ok(_) =>
        Scanning.ScanWhere(QueryReader(db.fs, dir, query, probe, decode), want, limit, 0, Listing(db.fs, dir))
  }

  function GetWhere<R>(db: Db, collection: string, query: string,
                       probe: (Bytes, seq<string>) -> Result<bool>, decode: Bytes -> Result<R>,
                       limit: int): (r: Scanning.Scan<R>)
    ensures collection == "" ==> r == Scanning.Scan([], Some(Message(NoCollectionToRead)))
    ensures limit >= 1 ==> |r.records| <= limit
  {
    Query(db, collection, query, probe, decode, limit, true)
  }

  function GetWhereNot<R>(db: Db, collection: string, query: string,
                          probe: (Bytes, seq<string>) -> Result<bool>, decode: Bytes -> Result<R>,
                          limit: int): (r: Scanning.Scan<R>)
    ensures collection == "" ==> r == Scanning.Scan([], Some(Message(NoCollectionToRead)))
    ensures limit >= 1 ==> |r.records| <= limit
  {
    Query(db, collection, query, probe, decode, limit, false)
  }

  /** Put and GetBytes name the same file: Join(dir/collection, name.json)
      is Join(dir, collection, name) with ".json" appended. */
  lemma RecordPaths(dir: Path, collection: string, name: string)
    requires collection != "" && name != ""
    ensures Join(dir, collection) != ""
    ensures Join(Join(dir, collection), name + JsonExt) == RecordFile(dir, collection, name)
    ensures |Join(dir, collection)| < |Join3(dir, collection, name)| < |RecordFile(dir, collection, name)|
  {
  }

  /** What Put stored, GetBytes returns: the bytes `encode` made. The bare
      record path and the temporary file must not be symbolic links. */
  lemma PutThenGetBytes<V>(db: Db, collection: string, resource: string, v: V,
                           encode: V -> Result<Bytes>, random: nat -> byte)
    requires Put(db, collection, resource, v, encode, random).outcome.Pass?
    requires var rec := Join3(db.dir, collection, RecordName(resource, random));
             !(rec in db.fs && db.fs[rec].Symlink?)
    requires var temp := RecordFile(db.dir, collection, RecordName(resource, random)) + TmpExt;
             !(temp in db.fs && db.fs[temp].Symlink?)
    ensures GetBytes(Put(db, collection, resource, v, encode, random).state,
                     collection, RecordName(resource, random)) == encode(v)
  {
    var name := RecordName(resource, random);
    var dir := Join(db.dir, collection);
    RecordPaths(db.dir, collection, name);
    var rec := Join3(db.dir, collection, name);
    var final := RecordFile(db.dir, collection, name);
    var temp := final + TmpExt;
    var made := FileSys.MkdirAll(db.fs, dir);
    var b := encode(v).value;
    assert !(temp in made.state && made.state[temp].Symlink?);
    var after := Put(db, collection, resource, v, encode, random).state.fs;
    assert after == (made.state - {temp})[final := FileSys.File(b)];
    assert rec !in after || (rec in db.fs && after[rec] == db.fs[rec]);
  }

  /** InitCollection makes every missing directory on the way to the
      collection's, when walking up from it reaches a directory or the root
      through missing names only. */
  lemma InitCollectionCreates(db: Db, collection: string)
    requires FileSys.Makeable(db.fs, Join(db.dir, collection))
    ensures InitCollection(db, collection).outcome == Pass
    ensures var dir := Join(db.dir, collection);
            dir in InitCollection(db, collection).state.fs
            && InitCollection(db, collection).state.fs[dir] == FileSys.Dir
  {
    FileSys.MkdirAllMakes(db.fs, Join(db.dir, collection));
  }

  /** When Put succeeds: the collection directory exists or MkdirAll can
      make it, the value encodes, the name holds no separator, the temporary name is free or a
      regular file, and the record name is not a directory. */
  lemma PutSucceeds<V>(db: Db, collection: string, resource: string, v: V,
                       encode: V -> Result<Bytes>, random: nat -> byte)
    requires collection != "" && encode(v).Ok?
    requires FileSys.Makeable(db.fs, Join(db.dir, collection))
    requires Sep !in RecordName(resource, random)
    requires var final := RecordFile(db.dir, collection, RecordName(resource, random));
             (final + TmpExt !in db.fs || db.fs[final + TmpExt].File?)
             && (final !in db.fs || db.fs[final] != FileSys.Dir)
    ensures Put(db, collection, resource, v, encode, random).outcome == Pass
  {
    var name := RecordName(resource, random);
    var dir := Join(db.dir, collection);
    RecordPaths(db.dir, collection, name);
    FileSys.MkdirAllMakes(db.fs, dir);
    StoreAfterMkdirAll(db.fs, dir, name + JsonExt, encode(v).value);
  }

  /** MkdirAll only adds directories above the files of the new directory,
      so Store into it succeeds on the same conditions. */
  lemma StoreAfterMkdirAll(fs: Fs, dir: Path, file: Path, b: Bytes)
    requires FileSys.Makeable(fs, dir)
    requires file != "" && Sep !in file + TmpExt
    requires var final := Join(dir, file);
             (final + TmpExt !in fs || fs[final + TmpExt].File?) && (final !in fs || fs[final] != FileSys.Dir)
    ensures Store(FileSys.MkdirAll(fs, dir).state, Join(dir, file), b).outcome == Pass
  {
    FileSys.MkdirAllMakes(fs, dir);
    var made := FileSys.MkdirAll(fs, dir).state;
    var final := Join(dir, file);
    FileSys.MkdirAllKeepsLonger(fs, dir, final);
    FileSys.MkdirAllKeepsLonger(fs, dir, final + TmpExt);
    StoreSucceeds(made, dir, file, b);
  }

  /** Store succeeds in an existing directory when the temporary name is
      free or a regular file and the final name is not a directory. */
  lemma StoreSucceeds(fs: Fs, dir: Path, file: Path, b: Bytes)
    requires dir != "" && dir in fs && fs[dir] == FileSys.Dir
    requires file != "" && Sep !in file + TmpExt
    requires var final := Join(dir, file);
             (final + TmpExt !in fs || fs[final + TmpExt].File?) && (final !in fs || fs[final] != FileSys.Dir)
    ensures Store(fs, Join(dir, file), b).outcome == Pass
  {
    var final := Join(dir, file);
    var temp := final + TmpExt;
    assert Sep !in file by {
      assert forall c :: c in file ==> c in file + TmpExt;
    }
    JoinChild(dir, file);
    JoinChild(dir, file + TmpExt);
    assert Join(dir, file + TmpExt) == temp;
    var written := FileSys.WriteFile(fs, temp, b);
    assert written.outcome == Pass && written.state == fs[temp := FileSys.File(b)];
    assert FileSys.ParentOk(written.state, final);
  }

  /** A successful Put changes exactly this: the record file holds the
      encoded bytes, the temporary file is gone, and the only other new
      entries are directories on the way to the collection. */
  lemma PutFrame<V>(db: Db, collection: string, resource: string, v: V,
                    encode: V -> Result<Bytes>, random: nat -> byte)
    requires Put(db, collection, resource, v, encode, random).outcome.Pass?
    requires var temp := RecordFile(db.dir, collection, RecordName(resource, random)) + TmpExt;
             !(temp in db.fs && db.fs[temp].Symlink?)
    ensures var final := RecordFile(db.dir, collection, RecordName(resource, random));
            var after := Put(db, collection, resource, v, encode, random).state.fs;
            && final in after && after[final] == FileSys.File(encode(v).value)
            && final + TmpExt !in after
            && (forall k :: k in db.fs && k != final && k != final + TmpExt ==> k in after && after[k] == db.fs[k])
            && (forall k :: k in after && k !in db.fs && k != final ==>
                  after[k] == FileSys.Dir && InTree(Join(db.dir, collection), k))
  {
    var name := RecordName(resource, random);
    var dir := Join(db.dir, collection);
    RecordPaths(db.dir, collection, name);
    var final := RecordFile(db.dir, collection, name);
    var temp := final + TmpExt;
    var made := FileSys.MkdirAll(db.fs, dir);
    assert !(temp in made.state && made.state[temp].Symlink?);
    var after := Put(db, collection, resource, v, encode, random).state.fs;
    assert after == (made.state - {temp})[final := FileSys.File(encode(v).value)];
  }

  /** Get after a successful Put decodes exactly the bytes Put encoded; with
      a decoder that inverts the encoder, that is the value put. */
  lemma PutThenGet<V>(db: Db, collection: string, resource: string, v: V,
                      encode: V -> Result<Bytes>, decode: Bytes -> Result<V>, random: nat -> byte)
    requires Put(db, collection, resource, v, encode, random).outcome.Pass?
    requires var rec := Join3(db.dir, collection, RecordName(resource, random));
             !(rec in db.fs && db.fs[rec].Symlink?)
    requires var temp := RecordFile(db.dir, collection, RecordName(resource, random)) + TmpExt;
             !(temp in db.fs && db.fs[temp].Symlink?)
    requires forall b :: encode(v) == Ok(b) ==> decode(b) == Ok(v)
    ensures Get(Put(db, collection, resource, v, encode, random).state,
                collection, RecordName(resource, random), decode) == Ok(v)
  {
    PutThenGetBytes(db, collection, resource, v, encode, random);
  }

  /** A failed Put leaves the record file as it was: the new bytes only ever
      reach it through the final rename. */
  lemma PutFailureKeepsRecord<V>(db: Db, collection: string, resource: string, v: V,
                                 encode: V -> Result<Bytes>, random: nat -> byte)
    requires collection != ""
    requires Put(db, collection, resource, v, encode, random).outcome.Fail?
    requires var temp := RecordFile(db.dir, collection, RecordName(resource, random)) + TmpExt;
             !(temp in db.fs && db.fs[temp].Symlink?)
    ensures var final := RecordFile(db.dir, collection, RecordName(resource, random));
            var after := Put(db, collection, resource, v, encode, random).state.fs;
            (final in after <==> final in db.fs) && (final in db.fs ==> after[final] == db.fs[final])
  {
    var name := RecordName(resource, random);
    var dir := Join(db.dir, collection);
    RecordPaths(db.dir, collection, name);
    var final := RecordFile(db.dir, collection, name);
    var temp := final + TmpExt;
    var made := FileSys.MkdirAll(db.fs, dir);
    assert !(temp in made.state && made.state[temp].Symlink?);
    assert FileSys.WriteTarget(made.state, temp) == temp;
  }

  /** Deleting a record removes its file: GetBytes then reports the ".json"
      file missing. */
  lemma DeleteRecordThenGetBytes(db: Db, collection: string, resource: string)
    requires collection != "" && resource != ""
    requires Join3(db.dir, collection, resource) !in db.fs
    requires var final := RecordFile(db.dir, collection, resource); final in db.fs && db.fs[final].File?
    ensures Delete(db, collection, resource).outcome == Pass
    ensures GetBytes(Delete(db, collection, resource).state, collection, resource)
            == Err(PathError(RecordFile(db.dir, collection, resource), NoEntry))
  {
    JoinAssoc(db.dir, collection, resource);
    RecordPaths(db.dir, collection, resource);
  }

  /** Deleting a collection removes every record in it. */
  lemma DeleteCollectionThenGetBytes(db: Db, collection: string, resource: string)
    requires collection != "" && resource != ""
    requires var dir := Join(db.dir, collection); dir in db.fs && db.fs[dir] == FileSys.Dir
    ensures Delete(db, collection, "").outcome == Pass
    ensures GetBytes(Delete(db, collection, "").state, collection, resource)
            == Err(PathError(RecordFile(db.dir, collection, resource), NoEntry))
  {
    var dir := Join(db.dir, collection);
    RecordPaths(db.dir, collection, resource);
    var rec := Join3(db.dir, collection, resource);
    assert InTree(rec, dir) by {
      assert rec[..|dir|] == dir && rec[|dir|] == Sep;
    }
    assert InTree(rec + JsonExt, dir) by {
      assert (rec + JsonExt)[..|dir|] == dir && (rec + JsonExt)[|dir|] == Sep;
    }
  }

  /** Linking a record under an absolute data directory: GetBytes on the
      destination reads the source's bytes through the ".json" link,
      whatever non-directory entry the destination's file was before. */
  lemma LinkThenGetBytes(db: Db, srcCollection: string, srcResource: string,
                         destCollection: string, destResource: string)
    requires IsAbsolute(db.dir)
    requires srcCollection != "" && srcResource != "" && destCollection != "" && destResource != ""
    requires Sep !in destResource
    requires var src := Join3(db.dir, srcCollection, srcResource);
             src !in db.fs && src + JsonExt in db.fs && db.fs[src + JsonExt].File?
    requires var destDir := Join(db.dir, destCollection); destDir in db.fs && db.fs[destDir] == FileSys.Dir
    requires var dest := Join3(db.dir, destCollection, destResource);
             dest !in db.fs && (dest + JsonExt !in db.fs || db.fs[dest + JsonExt] != FileSys.Dir)
    requires Join3(db.dir, srcCollection, srcResource) != Join3(db.dir, destCollection, destResource)
    ensures Link(db, srcCollection, srcResource, destCollection, destResource).outcome == Pass
    ensures GetBytes(Link(db, srcCollection, srcResource, destCollection, destResource).state,
                     destCollection, destResource)
            == Ok(db.fs[Join3(db.dir, srcCollection, srcResource) + JsonExt].data)
  {
    var src := Join3(db.dir, srcCollection, srcResource);
    var dest := Join3(db.dir, destCollection, destResource);
    assert src + JsonExt != dest + JsonExt by {
      assert src == (src + JsonExt)[..|src + JsonExt| - |JsonExt|];
      assert dest == (dest + JsonExt)[..|dest + JsonExt| - |JsonExt|];
    }
    LinkRecordFile(db, srcCollection, srcResource, destCollection, destResource);
    var linked := Link(db, srcCollection, srcResource, destCollection, destResource);
    assert IsAbsolute(src + JsonExt);
    GetBytesThroughLink(linked.state, destCollection, destResource);
  }

  /** The file case of Link, on the filesystem: the destination's ".json"
      name becomes a link to the source's. */
  lemma LinkRecordFile(db: Db, srcCollection: string, srcResource: string,
                       destCollection: string, destResource: string)
    requires srcCollection != "" && srcResource != "" && destCollection != "" && destResource != ""
    requires Sep !in destResource
    requires var src := Join3(db.dir, srcCollection, srcResource);
             src !in db.fs && src + JsonExt in db.fs && db.fs[src + JsonExt].File?
    requires var destDir := Join(db.dir, destCollection); destDir in db.fs && db.fs[destDir] == FileSys.Dir
    requires var dest := Join3(db.dir, destCollection, destResource);
             dest !in db.fs && (dest + JsonExt !in db.fs || db.fs[dest + JsonExt] != FileSys.Dir)
    requires Join3(db.dir, srcCollection, srcResource) != Join3(db.dir, destCollection, destResource)
    ensures var src := Join3(db.dir, srcCollection, srcResource);
            var dest := Join3(db.dir, destCollection, destResource);
            var linked := Link(db, srcCollection, srcResource, destCollection, destResource);
            && linked.outcome == Pass
            && linked.state.fs == (db.fs - {dest + JsonExt})[dest + JsonExt := FileSys.Symlink(src + JsonExt)]
  {
    var src := Join3(db.dir, srcCollection, srcResource);
    var dest := Join3(db.dir, destCollection, destResource);
    var destDir := Join(db.dir, destCollection);
    assert Join(db.dir, Join(srcCollection, srcResource)) == src by {
      JoinAssoc(db.dir, srcCollection, srcResource);
    }
    assert Join(db.dir, Join(destCollection, destResource)) == dest by {
      JoinAssoc(db.dir, destCollection, destResource);
    }
    assert Stat(db.fs, src) == Ok(db.fs[src + JsonExt]);
    LinkFileCase(db, srcCollection, srcResource, destCollection, destResource);
    var cleared := FileSys.Remove(db.fs, dest + JsonExt).state;
    assert cleared == db.fs - {dest + JsonExt};
    RecordFileParent(db.dir, destCollection, destResource);
  }

  /** A record's ".json" file sits directly in its collection's directory. */
  lemma RecordFileParent(dir: Path, collection: string, resource: string)
    requires collection != "" && resource != "" && Sep !in resource
    ensures Parent(RecordFile(dir, collection, resource)) == Join(dir, collection)
  {
    RecordPaths(dir, collection, resource);
    assert Sep !in resource + JsonExt;
    JoinChild(Join(dir, collection), resource + JsonExt);
  }

  /** Link on a source that Stat finds to be a regular file: remove the
      destination's ".json" name, then link it to the source's. */
  lemma LinkFileCase(db: Db, srcCollection: string, srcResource: string,
                     destCollection: string, destResource: string)
    requires var found := Stat(db.fs, Join(db.dir, Join(srcCollection, srcResource)));
             found.Ok? && found.value.File?
    ensures var src := Join(db.dir, Join(srcCollection, srcResource));
            var dest := Join(db.dir, Join(destCollection, destResource));
            var cleared := FileSys.Remove(db.fs, dest + JsonExt).state;
            var linked := Link(db, srcCollection, srcResource, destCollection, destResource);
            && linked.outcome == FileSys.CreateSymlink(cleared, src + JsonExt, dest + JsonExt).outcome
            && linked.state.fs == FileSys.CreateSymlink(cleared, src + JsonExt, dest + JsonExt).state
  {
  }

  /** GetBytes follows a link at the record's ".json" name to a file. */
  lemma GetBytesThroughLink(db: Db, collection: string, resource: string)
    requires collection != "" && resource != ""
    requires var rec := Join3(db.dir, collection, resource);
             && rec !in db.fs && rec + JsonExt in db.fs && db.fs[rec + JsonExt].Symlink?
             && var t := FileSys.Follow(rec + JsonExt, db.fs[rec + JsonExt].target);
                t in db.fs && db.fs[t].File?
    ensures var rec := Join3(db.dir, collection, resource);
            var t := FileSys.Follow(rec + JsonExt, db.fs[rec + JsonExt].target);
            GetBytes(db, collection, resource) == Ok(db.fs[t].data)
  {
    var rec := Join3(db.dir, collection, resource);
    var t := FileSys.Follow(rec + JsonExt, db.fs[rec + JsonExt].target);
    assert FileSys.Resolve(db.fs, rec + JsonExt, FileSys.MaxHops) == FileSys.Found(t, db.fs[t]);
  }

  /** The link Link makes holds the source's path as Join builds it, which
      the kernel reads inside the destination's directory. Under a relative
      data directory ("data/db", as NewJSONDB("data") makes it) the
      destination "data/db/people/y.json" then points at
      "data/db/people/data/db/people/x.json", so the record just linked
      cannot be read. */
  lemma LinkDanglesUnderRelativeDir()
    ensures var db := PeopleDb();
            && GetBytes(db, "people", "x") == Ok([7])
            && Link(db, "people", "x", "people", "y").outcome == Pass
            && GetBytes(Link(db, "people", "x", "people", "y").state, "people", "y").Err?
  {
    PeopleRead();
    PeopleLink();
    var linked := Link(PeopleDb(), "people", "x", "people", "y").state;
    PeopleReadThroughLink(linked);
  }

  /** NewJSONDB's data directory: "db" under `datadir` (filepath.Clean is
      not modelled). It is absolute only when `datadir` is. */
  function DataDir(datadir: Path): (dir: Path)
    ensures IsAbsolute(dir) <==> datadir == "" || IsAbsolute(datadir)
    ensures |dir| > |datadir| && dir[..|datadir|] == datadir
  {
    datadir + "/db"
  }

  /** The data directory made absolute against the working directory `cwd`,
      so that the text Link stores names the source from any directory. */
  function AbsoluteDataDir(cwd: Path, datadir: Path): (dir: Path)
    requires IsAbsolute(cwd)
    ensures IsAbsolute(dir)
    ensures IsAbsolute(DataDir(datadir)) ==> dir == DataDir(datadir)
  {
    if IsAbsolute(DataDir(datadir)) then DataDir(datadir) else Join(cwd, DataDir(datadir))
  }

  /** With the data directory made absolute, a linked record reads back as
      its source: `LinkThenGetBytes` instantiated with `AbsoluteDataDir`. */
  lemma LinkUnderAbsoluteDataDir(cwd: Path, datadir: Path, db: Db,
                                 srcCollection: string, srcResource: string,
                                 destCollection: string, destResource: string)
    requires IsAbsolute(cwd) && db.dir == AbsoluteDataDir(cwd, datadir)
    requires srcCollection != "" && srcResource != "" && destCollection != "" && destResource != ""
    requires Sep !in destResource
    requires var src := Join3(db.dir, srcCollection, srcResource);
             src !in db.fs && src + JsonExt in db.fs && db.fs[src + JsonExt].File?
    requires var destDir := Join(db.dir, destCollection); destDir in db.fs && db.fs[destDir] == FileSys.Dir
    requires var dest := Join3(db.dir, destCollection, destResource);
             dest !in db.fs && (dest + JsonExt !in db.fs || db.fs[dest + JsonExt] != FileSys.Dir)
    requires Join3(db.dir, srcCollection, srcResource) != Join3(db.dir, destCollection, destResource)
    ensures Link(db, srcCollection, srcResource, destCollection, destResource).outcome == Pass
    ensures GetBytes(Link(db, srcCollection, srcResource, destCollection, destResource).state,
                     destCollection, destResource)
            == Ok(db.fs[Join3(db.dir, srcCollection, srcResource) + JsonExt].data)
  {
    LinkThenGetBytes(db, srcCollection, srcResource, destCollection, destResource);
  }

  /** One collection "people" holding one record "x", under the relative
      data directory "data/db". */
  function PeopleDb(): Db {
    Db(DataDir("data"), map["data/db" := FileSys.Dir, "data/db/people" := FileSys.Dir,
                 "data/db/people/x.json" := FileSys.File([7])], map[])
  }

  lemma PeopleRead()
    ensures GetBytes(PeopleDb(), "people", "x") == Ok([7])
  {
    assert DataDir("data") == "data/db";
    assert Join3("data/db", "people", "x") == "data/db/people/x";
    assert "data/db/people/x" + JsonExt == "data/db/people/x.json";
  }

  /** "data/db/people/y.json" holding the text "data/db/people/x.json" points at
      "data/db/people/data/db/people/x.json", which does not exist. */
  lemma PeopleReadThroughLink(db: Db)
    requires db.dir == DataDir("data")
    requires db.fs == PeopleDb().fs["data/db/people/y.json" := FileSys.Symlink("data/db/people/x.json")]
    ensures GetBytes(db, "people", "y").Err?
  {
    PeopleRecordY();
    PeopleLinkTarget();
    assert "data/db/people/y" !in db.fs;
    assert "data/db/people/data/db/people/x.json" !in db.fs;
    GetBytesDangling(db, "people", "y");
  }

  /** The record "people/y" of PeopleDb lives at "data/db/people/y.json". */
  lemma PeopleRecordY()
    ensures Join3(DataDir("data"), "people", "y") == "data/db/people/y"
    ensures Join(DataDir("data"), Join("people", "y")) == "data/db/people/y"
    ensures "data/db/people/y" + JsonExt == "data/db/people/y.json"
  {
    assert DataDir("data") == "data/db";
  }

  lemma PeopleLinkTarget()
    ensures FileSys.Follow("data/db/people/y.json", "data/db/people/x.json")
            == "data/db/people/data/db/people/x.json"
  {
    PeopleParentY();
    assert !IsAbsolute("data/db/people/x.json");
    assert Join("data/db/people", "data/db/people/x.json") == "data/db/people/data/db/people/x.json";
  }

  lemma PeopleParentY()
    ensures Parent("data/db/people/y.json") == "data/db/people"
  {
    var y := "data/db/people/y.json";
    PeopleLastSep();
    assert y[..14] == "data/db/people";
  }

  /** The last separator of "data/db/people/y.json" is the one before "y". */
  lemma PeopleLastSep()
    ensures LastSep("data/db/people/y.json") == 14
  {
    var y := "data/db/people/y.json";
    assert y[14] == Sep && forall j :: 14 < j < |y| ==> y[j] != Sep;
  }

  /** Linking "people/x" to "people/y" in PeopleDb stores the text
      "data/db/people/x.json" at "data/db/people/y.json". */
  lemma PeopleLink()
    ensures var linked := Link(PeopleDb(), "people", "x", "people", "y");
            && linked.outcome == Pass
            && linked.state.dir == DataDir("data")
            && linked.state.fs == PeopleDb().fs["data/db/people/y.json" := FileSys.Symlink("data/db/people/x.json")]
  {
    PeopleRecordX();
    PeopleRecordY();
    PeopleSource();
    PeopleDestParent();
    PeopleRemoveY();
  }

  /** The record "people/x" of PeopleDb lives at "data/db/people/x.json". */
  lemma PeopleRecordX()
    ensures Join3(DataDir("data"), "people", "x") == "data/db/people/x"
    ensures Join(DataDir("data"), Join("people", "x")) == "data/db/people/x"
    ensures "data/db/people/x" + JsonExt == "data/db/people/x.json"
  {
    assert DataDir("data") == "data/db";
  }

  /** Removing the absent "data/db/people/y.json" leaves PeopleDb alone. */
  lemma PeopleRemoveY()
    ensures FileSys.Remove(PeopleDb().fs, "data/db/people/y.json").state == PeopleDb().fs
  {
    assert "data/db/people/y.json" !in PeopleDb().fs;
  }

  lemma PeopleSource()
    ensures Stat(PeopleDb().fs, "data/db/people/x") == Ok(FileSys.File([7]))
  {
    assert DataDir("data") == "data/db";
    assert "data/db/people/x" + JsonExt == "data/db/people/x.json";
  }

  lemma PeopleDestParent()
    ensures FileSys.ParentOk(PeopleDb().fs, "data/db/people/y.json")
  {
    PeopleParentY();
    assert DataDir("data") == "data/db";
  }

  /** A linked record shares the source's bytes but not its life: once the
      source is deleted, the destination's link leads nowhere. */
  lemma LinkThenDeleteSourceDangles(db: Db, srcCollection: string, srcResource: string,
                                    destCollection: string, destResource: string)
    requires IsAbsolute(db.dir)
    requires srcCollection != "" && srcResource != "" && destCollection != "" && destResource != ""
    requires Sep !in destResource
    requires var src := Join3(db.dir, srcCollection, srcResource);
             src !in db.fs && src + JsonExt in db.fs && db.fs[src + JsonExt].File?
    requires var destDir := Join(db.dir, destCollection); destDir in db.fs && db.fs[destDir] == FileSys.Dir
    requires var dest := Join3(db.dir, destCollection, destResource);
             dest !in db.fs && (dest + JsonExt !in db.fs || db.fs[dest + JsonExt] != FileSys.Dir)
    requires Join3(db.dir, srcCollection, srcResource) != Join3(db.dir, destCollection, destResource)
    ensures var linked := Link(db, srcCollection, srcResource, destCollection, destResource).state;
            var deleted := Delete(linked, srcCollection, srcResource);
            && deleted.outcome == Pass
            && GetBytes(deleted.state, destCollection, destResource).Err?
  {
    LinkedSource(db, srcCollection, srcResource, destCollection, destResource);
    var linked := Link(db, srcCollection, srcResource, destCollection, destResource).state;
    DeleteLinkedSource(linked, srcCollection, srcResource, destCollection, destResource);
  }

  /** After a link the source record still reads as before, and the
      destination's ".json" name is a link to the source's. */
  lemma LinkedSource(db: Db, srcCollection: string, srcResource: string,
                     destCollection: string, destResource: string)
    requires IsAbsolute(db.dir)
    requires srcCollection != "" && srcResource != "" && destCollection != "" && destResource != ""
    requires Sep !in destResource
    requires var src := Join3(db.dir, srcCollection, srcResource);
             src !in db.fs && src + JsonExt in db.fs && db.fs[src + JsonExt].File?
    requires var destDir := Join(db.dir, destCollection); destDir in db.fs && db.fs[destDir] == FileSys.Dir
    requires var dest := Join3(db.dir, destCollection, destResource);
             dest !in db.fs && (dest + JsonExt !in db.fs || db.fs[dest + JsonExt] != FileSys.Dir)
    requires Join3(db.dir, srcCollection, srcResource) != Join3(db.dir, destCollection, destResource)
    ensures var linked := Link(db, srcCollection, srcResource, destCollection, destResource).state;
            var src := Join3(db.dir, srcCollection, srcResource);
            var dest := Join3(db.dir, destCollection, destResource);
            && IsAbsolute(src + JsonExt)
            && Stat(linked.fs, src) == Ok(db.fs[src + JsonExt])
            && dest !in linked.fs
            && dest + JsonExt in linked.fs && linked.fs[dest + JsonExt] == FileSys.Symlink(src + JsonExt)
  {
    var src := Join3(db.dir, srcCollection, srcResource);
    var dest := Join3(db.dir, destCollection, destResource);
    assert src + JsonExt != dest + JsonExt by {
      assert src == (src + JsonExt)[..|src + JsonExt| - |JsonExt|];
      assert dest == (dest + JsonExt)[..|dest + JsonExt| - |JsonExt|];
    }
    var linked := Link(db, srcCollection, srcResource, destCollection, destResource).state;
    assert linked.fs == (db.fs - {dest + JsonExt})[dest + JsonExt := FileSys.Symlink(src + JsonExt)] by {
      LinkRecordFile(db, srcCollection, srcResource, destCollection, destResource);
    }
    assert IsAbsolute(src + JsonExt);
    StatAfterLink(db.fs, src, dest + JsonExt);
  }

  /** Linking some other name to a record's ".json" file leaves the record
      readable, even when the new name is the record's bare name. */
  lemma StatAfterLink(fs: Fs, p: Path, d: Path)
    requires p !in fs && p + JsonExt in fs && fs[p + JsonExt].File?
    requires IsAbsolute(p + JsonExt) && d != p + JsonExt
    ensures Stat((fs - {d})[d := FileSys.Symlink(p + JsonExt)], p) == Ok(fs[p + JsonExt])
  {
    var linked := (fs - {d})[d := FileSys.Symlink(p + JsonExt)];
    if p == d {
      assert FileSys.Resolve(linked, p, FileSys.MaxHops) == FileSys.Found(p + JsonExt, fs[p + JsonExt]);
    }
  }

  /** Deleting a record stored as a regular file leaves a link to its
      ".json" name dangling. */
  lemma DeleteLinkedSource(db: Db, srcCollection: string, srcResource: string,
                           destCollection: string, destResource: string)
    requires srcCollection != "" && srcResource != "" && destCollection != "" && destResource != ""
    requires var src := Join3(db.dir, srcCollection, srcResource);
             var found := Stat(db.fs, src);
             IsAbsolute(src + JsonExt) && found.Ok? && found.value.File?
    requires var src := Join3(db.dir, srcCollection, srcResource);
             var dest := Join3(db.dir, destCollection, destResource);
             dest !in db.fs && dest + JsonExt in db.fs && db.fs[dest + JsonExt] == FileSys.Symlink(src + JsonExt)
    ensures Delete(db, srcCollection, srcResource).outcome == Pass
    ensures GetBytes(Delete(db, srcCollection, srcResource).state, destCollection, destResource).Err?
  {
    var src := Join3(db.dir, srcCollection, srcResource);
    var dest := Join3(db.dir, destCollection, destResource);
    DeleteRecordFile(db, srcCollection, srcResource);
    var after := Delete(db, srcCollection, srcResource).state;
    assert src + JsonExt !in after.fs;
    assert FileSys.Follow(dest + JsonExt, src + JsonExt) == src + JsonExt;
    GetBytesDangling(after, destCollection, destResource);
  }

  /** Delete on a record that Stat finds to be a regular file passes and
      removes exactly the tree at its ".json" name. */
  lemma DeleteRecordFile(db: Db, collection: string, resource: string)
    requires collection != "" && resource != ""
    requires var found := Stat(db.fs, Join3(db.dir, collection, resource)); found.Ok? && found.value.File?
    ensures Delete(db, collection, resource).outcome == Pass
    ensures forall k :: k in Delete(db, collection, resource).state.fs <==>
                          k in db.fs && !InTree(k, RecordFile(db.dir, collection, resource))
  {
    JoinAssoc(db.dir, collection, resource);
  }

  /** A record whose only name is a link to a path that is gone cannot be
      read. */
  lemma GetBytesDangling(db: Db, collection: string, resource: string)
    requires collection != "" && resource != ""
    requires var rec := Join3(db.dir, collection, resource);
             && rec !in db.fs
             && (rec + JsonExt in db.fs ==>
                   && db.fs[rec + JsonExt].Symlink?
                   && FileSys.Follow(rec + JsonExt, db.fs[rec + JsonExt].target) !in db.fs)
    ensures GetBytes(db, collection, resource).Err?
  {
    var rec := Join3(db.dir, collection, resource);
    if rec + JsonExt in db.fs {
      assert FileSys.Resolve(db.fs, rec + JsonExt, FileSys.MaxHops) == FileSys.Missing;
    }
  }

  /** Linking a record onto itself loses it: Link first removes the
      destination's ".json" file, which is the source's, then links that name
      to itself (or fails to, when its directory is a link). */
  lemma LinkOntoItself(db: Db, collection: string, resource: string)
    requires IsAbsolute(db.dir)
    requires collection != "" && resource != ""
    requires var rec := Join3(db.dir, collection, resource);
             rec !in db.fs && rec + JsonExt in db.fs && db.fs[rec + JsonExt].File?
    ensures GetBytes(db, collection, resource).Ok?
    ensures GetBytes(Link(db, collection, resource, collection, resource).state, collection, resource).Err?
  {
    JoinAssoc(db.dir, collection, resource);
    var final := RecordFile(db.dir, collection, resource);
    var after := Link(db, collection, resource, collection, resource).state.fs;
    if final in after {
      assert IsAbsolute(final);
      FileSys.SelfLinkLoops(after, final, FileSys.MaxHops);
    }
  }

  /** With no limit and every listed file readable, queryable and decodable,
      GetWhere and GetWhereNot together return what GetAll returns. */
  lemma WhereAndWhereNotSplitGetAll<R>(db: Db, collection: string, query: string,
                                       probe: (Bytes, seq<string>) -> Result<bool>, decode: Bytes -> Result<R>)
    requires collection != "" && Stat(db.fs, Join(db.dir, collection)).Ok?
    requires var dir := Join(db.dir, collection);
             Scanning.Decodable(QueryReader(db.fs, dir, query, probe, decode), Listing(db.fs, dir))
    ensures GetWhere(db, collection, query, probe, decode, -1).failure == None
    ensures GetWhereNot(db, collection, query, probe, decode, -1).failure == None
    ensures GetAll(db, collection, decode).failure == None
    ensures multiset(GetWhere(db, collection, query, probe, decode, -1).records)
            + multiset(GetWhereNot(db, collection, query, probe, decode, -1).records)
            == multiset(GetAll(db, collection, decode).records)
  {
    var dir := Join(db.dir, collection);
    var rd := QueryReader(db.fs, dir, query, probe, decode);
    Scanning.WhereSplitsAll(rd, Listing(db.fs, dir));
    Scanning.ScanAllIgnoresTest(rd, _ => Ok(true), Listing(db.fs, dir));
  }

  /** A negative limit keeps every matching record, in listing order, when
      no file makes the query fail. */
  lemma GetWhereUnlimited<R>(db: Db, collection: string, query: string,
                             probe: (Bytes, seq<string>) -> Result<bool>, decode: Bytes -> Result<R>,
                             limit: int, want: bool)
    requires collection != "" && Stat(db.fs, Join(db.dir, collection)).Ok?
    requires limit < 0
    requires var dir := Join(db.dir, collection);
             Scanning.Clean(QueryReader(db.fs, dir, query, probe, decode), want, Listing(db.fs, dir))
    ensures var dir := Join(db.dir, collection);
            Query(db, collection, query, probe, decode, limit, want)
            == Scanning.Scan(Scanning.Selected(QueryReader(db.fs, dir, query, probe, decode),
                                               want, Listing(db.fs, dir)), None)
  {
    var dir := Join(db.dir, collection);
    Scanning.WhereUnbounded(QueryReader(db.fs, dir, query, probe, decode), want, limit, 0, Listing(db.fs, dir));
  }

  /** With a negative limit, a query that fails at the listed file `i` still
      returns the matching records of the files before it, with that file's
      problem. */
  lemma GetWhereUnlimitedFailure<R>(db: Db, collection: string, query: string,
                                    probe: (Bytes, seq<string>) -> Result<bool>, decode: Bytes -> Result<R>,
                                    limit: int, want: bool, i: nat)
    requires collection != "" && Stat(db.fs, Join(db.dir, collection)).Ok?
    requires limit < 0
    requires var dir := Join(db.dir, collection);
             var rd := QueryReader(db.fs, dir, query, probe, decode);
             var files := Listing(db.fs, dir);
             i < |files| && Scanning.Problem(rd, want, files[i]).Some? && Scanning.Clean(rd, want, files[..i])
    ensures var dir := Join(db.dir, collection);
            var rd := QueryReader(db.fs, dir, query, probe, decode);
            var files := Listing(db.fs, dir);
            Query(db, collection, query, probe, decode, limit, want)
            == Scanning.Scan(Scanning.Selected(rd, want, files[..i]), Scanning.Problem(rd, want, files[i]))
  {
    var dir := Join(db.dir, collection);
    Scanning.WhereUnboundedFailure(QueryReader(db.fs, dir, query, probe, decode), want, limit, 0,
                                   Listing(db.fs, dir), i);
  }

  /** A positive limit keeps the first `limit` matching records, in listing
      order, when no file makes the query fail. */
  lemma GetWhereLimited<R>(db: Db, collection: string, query: string,
                           probe: (Bytes, seq<string>) -> Result<bool>, decode: Bytes -> Result<R>,
                           limit: int, want: bool)
    requires collection != "" && Stat(db.fs, Join(db.dir, collection)).Ok?
    requires limit >= 1
    requires var dir := Join(db.dir, collection);
             Scanning.Clean(QueryReader(db.fs, dir, query, probe, decode), want, Listing(db.fs, dir))
    ensures var dir := Join(db.dir, collection);
            Query(db, collection, query, probe, decode, limit, want)
            == Scanning.Scan(Scanning.Take(Scanning.Selected(QueryReader(db.fs, dir, query, probe, decode),
                                                             want, Listing(db.fs, dir)), limit), None)
  {
    var dir := Join(db.dir, collection);
    var rd := QueryReader(db.fs, dir, query, probe, decode);
    assert Query(db, collection, query, probe, decode, limit, want)
           == Scanning.ScanWhere(rd, want, limit, 0, Listing(db.fs, dir));
    Scanning.WhereBounded(rd, want, limit, 0, Listing(db.fs, dir));
  }

  // ------------------------------------------------------------ tree shape

  /** The writing calls keep every entry inside an existing directory. */
  lemma InitCollectionKeepsShape(db: Db, collection: string)
    requires FileSys.WellFormed(db.fs)
    ensures FileSys.WellFormed(InitCollection(db, collection).state.fs)
  {
    FileSys.MkdirAllKeepsShape(db.fs, Join(db.dir, collection));
  }

  lemma StoreKeepsShape(fs: Fs, final: Path, b: Bytes)
    requires FileSys.WellFormed(fs)
    ensures FileSys.WellFormed(Store(fs, final, b).state)
  {
    var temp := final + TmpExt;
    FileSys.WriteFileKeepsShape(fs, temp, b);
    FileSys.RenameKeepsShape(FileSys.WriteFile(fs, temp, b).state, temp, final);
  }

  lemma PutKeepsShape<V>(db: Db, collection: string, resource: string, v: V,
                         encode: V -> Result<Bytes>, random: nat -> byte)
    requires FileSys.WellFormed(db.fs)
    ensures FileSys.WellFormed(Put(db, collection, resource, v, encode, random).state.fs)
  {
    if collection != "" {
      var dir := Join(db.dir, collection);
      FileSys.MkdirAllKeepsShape(db.fs, dir);
      var made := FileSys.MkdirAll(db.fs, dir);
      if made.outcome.Pass? && encode(v).Ok? {
        StoreKeepsShape(made.state, Join(dir, RecordName(resource, random) + JsonExt), encode(v).value);
      }
    }
  }

  lemma DeleteKeepsShape(db: Db, collection: string, resource: string)
    requires FileSys.WellFormed(db.fs)
    ensures FileSys.WellFormed(Delete(db, collection, resource).state.fs)
  {
    var dir := Join(db.dir, Join(collection, resource));
    FileSys.RemoveAllKeepsShape(db.fs, dir);
    FileSys.RemoveAllKeepsShape(db.fs, dir + JsonExt);
  }

  lemma LinkKeepsShape(db: Db, srcCollection: string, srcResource: string,
                       destCollection: string, destResource: string)
    requires FileSys.WellFormed(db.fs)
    ensures FileSys.WellFormed(Link(db, srcCollection, srcResource, destCollection, destResource).state.fs)
  {
    var src := Join(db.dir, Join(srcCollection, srcResource));
    var dest := Join(db.dir, Join(destCollection, destResource));
    FileSys.CreateSymlinkKeepsShape(db.fs, src, dest);
    FileSys.RemoveKeepsShape(db.fs, dest + JsonExt);
    FileSys.CreateSymlinkKeepsShape(FileSys.Remove(db.fs, dest + JsonExt).state, src + JsonExt, dest + JsonExt);
  }
}
