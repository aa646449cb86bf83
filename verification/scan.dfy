/**
 The engine behind GetAll, GetWhere and GetWhereNot: one pass over a
 directory listing, in listing order, appending a decoded element for every
 file it keeps and returning the first error it meets.

 The Go code appends each element to the caller's slice as soon as it is
 decoded, so the elements appended before an error stay visible to the
 caller; a `Scan` therefore carries both the appended elements and the error.
 */
module Scanning {
  import opened Common

  /** How a scan sees one listed file `F`. */
  datatype Reader<!F, R> = Reader(
    read: F -> Result<Bytes>,     // read the file's bytes
    test: Bytes -> Result<bool>,  // look the query field up in the bytes and compare it
    decode: Bytes -> Result<R>)   // unmarshal the bytes into a new element

  /** The elements appended to the caller's slice and the error returned, if any. */
  datatype Scan<R> = Scan(records: seq<R>, failure: Option<Error>)

  function Cons<R>(r: R, s: Scan<R>): Scan<R> {
    Scan([r] + s.records, s.failure)
  }

  // ---------------------------------------------------------------- GetAll

  /** What GetAll makes of one file: its bytes, decoded. */
  function Load<F, R>(rd: Reader<F, R>, f: F): Result<R> {
    match rd.read(f)
    case Err(e) => Err(e)
    case Ok(b) => rd.decode(b)
  }

  /** The GetAll loop: every file read and decoded, stopping at the first failure. */
  function ScanAll<F, R>(rd: Reader<F, R>, files: seq<F>): (s: Scan<R>)
    ensures |s.records| <= |files|
    ensures s.failure == None ==> |s.records| == |files|
  {
    if |files| == 0 then Scan([], None)
    else
      match rd.read(files[0])
      case Err(e) => Scan([], Some(e))
      case Ok(b) =>
        match rd.decode(b)
        case Err(e) => Scan([], Some(e))
        case Ok(r) => Cons(r, ScanAll(rd, files[1..]))
  }

  /** Index of the first file that fails to load, or |files| when none does. */
  function FirstFailure<F, R>(rd: Reader<F, R>, files: seq<F>): (i: nat)
    ensures i <= |files|
    ensures forall j :: 0 <= j < i ==> Load(rd, files[j]).Ok?
    ensures i < |files| ==> Load(rd, files[i]).Err?
  {
    if |files| == 0 then 0
    else if Load(rd, files[0]).Err? then 0
    else 1 + FirstFailure(rd, files[1..])
  }

  /** The loaded elements of files that all load. */
  function Loads<F, R>(rd: Reader<F, R>, files: seq<F>): (rs: seq<R>)
    requires forall f :: f in files ==> Load(rd, f).Ok?
    ensures |rs| == |files|
    ensures forall i :: 0 <= i < |files| ==> rs[i] == Load(rd, files[i]).value
  {
    if |files| == 0 then [] else [Load(rd, files[0]).value] + Loads(rd, files[1..])
  }

  /** GetAll appends one element per file, in listing order, up to the first
      failing file, and returns that file's error. */
  lemma {:induction false} ScanAllSpec<F, R>(rd: Reader<F, R>, files: seq<F>)
    ensures var i := FirstFailure(rd, files);
            && ScanAll(rd, files).records == Loads(rd, files[..i])
            && ScanAll(rd, files).failure == (if i < |files| then Some(Load(rd, files[i]).error) else None)
  {
    if |files| > 0 {
      ScanAllSpec(rd, files[1..]);
      var i := FirstFailure(rd, files);
      if i > 0 {
        assert files[..i][1..] == files[1..][..i - 1];
      }
    }
  }

  /** Nothing after the first failing file is examined: the files past it
      could be anything. */
  lemma {:induction false} ScanAllStopsAtFailure<F, R>(rd: Reader<F, R>, files: seq<F>, i: nat)
    requires i < |files| && Load(rd, files[i]).Err?
    ensures ScanAll(rd, files) == ScanAll(rd, files[..i + 1])
  {
    if i > 0 && Load(rd, files[0]).Ok? {
      ScanAllStopsAtFailure(rd, files[1..], i - 1);
      assert files[..i + 1][1..] == files[1..][..i];
    }
  }

  // ------------------------------------------------ GetWhere / GetWhereNot

  /** The file's field compares as `want` (true for GetWhere, false for GetWhereNot). */
  predicate Hit<F, R>(rd: Reader<F, R>, want: bool, f: F) {
    rd.read(f).Ok? && rd.test(rd.read(f).value) == Ok(want)
  }

  /** The error the query loop returns at file `f`, if it returns one there. */
  function Problem<F, R>(rd: Reader<F, R>, want: bool, f: F): Option<Error> {
    match rd.read(f)
    case Err(e) => Some(e)
    case Ok(b) =>
      match rd.test(b)
      case Err(e) => Some(e)
      case Ok(m) =>
        if m != want then None
        else
          match rd.decode(b)
          case Err(e) => Some(e)
          case Ok(_) => None
  }

  /** The query loop (jsondb.go GetWhere/GetWhereNot). `found` is numFound;
      the limit is checked after every file, whether or not it was kept. */
  function ScanWhere<F, R>(rd: Reader<F, R>, want: bool, limit: int, found: int, files: seq<F>): (s: Scan<R>)
    ensures |s.records| <= |files|
    ensures 0 <= found < limit ==> |s.records| <= limit - found
    decreases |files|
  {
    if |files| == 0 then Scan([], None)
    else
      match rd.read(files[0])
      case Err(e) => Scan([], Some(e))
      case Ok(b) =>
        match rd.test(b)
        case Err(e) => Scan([], Some(e))
        case Ok(m) =>
          if m == want then
            match rd.decode(b)
            case Err(e) => Scan([], Some(e))
            case Ok(r) =>
              if found + 1 == limit then Scan([r], None)
              else Cons(r, ScanWhere(rd, want, limit, found + 1, files[1..]))
          else if found == limit then Scan([], None)
          else ScanWhere(rd, want, limit, found, files[1..])
  }

  /** The files the query keeps, in listing order. */
  function Kept<F, R>(rd: Reader<F, R>, want: bool, files: seq<F>): (k: seq<F>)
    ensures forall f :: f in k ==> f in files && Hit(rd, want, f)
  {
    if |files| == 0 then []
    else if Hit(rd, want, files[0]) then [files[0]] + Kept(rd, want, files[1..])
    else Kept(rd, want, files[1..])
  }

  /** No file makes the query loop return an error. */
  predicate Clean<F, R>(rd: Reader<F, R>, want: bool, files: seq<F>) {
    forall i :: 0 <= i < |files| ==> Problem(rd, want, files[i]) == None
  }

  lemma KeptLoads<F, R>(rd: Reader<F, R>, want: bool, files: seq<F>)
    requires Clean(rd, want, files)
    ensures forall f :: f in Kept(rd, want, files) ==> Load(rd, f).Ok?
  {
    forall f | f in Kept(rd, want, files)
      ensures Load(rd, f).Ok?
    {
      var i :| 0 <= i < |files| && files[i] == f;
      assert Problem(rd, want, files[i]) == None;
    }
  }

  /** The elements the query should produce: every kept file, decoded. */
  function Selected<F, R>(rd: Reader<F, R>, want: bool, files: seq<F>): seq<R>
    requires Clean(rd, want, files)
  {
    KeptLoads(rd, want, files);
    Loads(rd, Kept(rd, want, files))
  }

  function Take<T>(s: seq<T>, n: int): seq<T>
    requires n >= 0
  {
    if n < |s| then s[..n] else s
  }

  /** Once the limit can no longer be hit (it is negative, or numFound has
      passed it), the loop runs to the end of the listing. */
  lemma {:induction false} WhereUnbounded<F, R>(rd: Reader<F, R>, want: bool, limit: int, found: int, files: seq<F>)
    requires Clean(rd, want, files)
    requires found >= 0 && (limit < 0 || limit < found)
    ensures ScanWhere(rd, want, limit, found, files) == Scan(Selected(rd, want, files), None)
    decreases |files|
  {
    if |files| > 0 {
      CleanTail(rd, want, files);
      if Hit(rd, want, files[0]) {
        WhereUnbounded(rd, want, limit, found + 1, files[1..]);
      } else {
        WhereUnbounded(rd, want, limit, found, files[1..]);
      }
    }
  }

  /** Below a positive limit the loop keeps the first `limit - numFound`
      selected elements and no more. */
  lemma {:induction false} WhereBounded<F, R>(rd: Reader<F, R>, want: bool, limit: int, found: int, files: seq<F>)
    requires Clean(rd, want, files)
    requires 0 <= found < limit
    ensures ScanWhere(rd, want, limit, found, files) == Scan(Take(Selected(rd, want, files), limit - found), None)
    decreases |files|
  {
    if |files| > 0 {
      CleanTail(rd, want, files);
      SelectedStep(rd, want, files);
      WhereStep(rd, want, limit, found, files);
      var rest := Selected(rd, want, files[1..]);
      if Hit(rd, want, files[0]) {
        var r := Load(rd, files[0]).value;
        if found + 1 < limit {
          WhereBounded(rd, want, limit, found + 1, files[1..]);
          TakeCons(r, rest, limit - found);
        } else {
          assert Take([r] + rest, 1) == [r];
        }
      } else {
        WhereBounded(rd, want, limit, found, files[1..]);
      }
    }
  }

  lemma TakeCons<T>(x: T, s: seq<T>, n: int)
    requires n >= 1
    ensures Take([x] + s, n) == [x] + Take(s, n - 1)
  {
  }

  /** One turn of the query loop over a file that causes no problem. */
  lemma WhereStep<F, R>(rd: Reader<F, R>, want: bool, limit: int, found: int, files: seq<F>)
    requires |files| > 0 && Problem(rd, want, files[0]) == None
    ensures Hit(rd, want, files[0]) ==> Load(rd, files[0]).Ok?
    ensures Hit(rd, want, files[0]) ==>
              ScanWhere(rd, want, limit, found, files)
              == if found + 1 == limit then Scan([Load(rd, files[0]).value], None)
                 else Cons(Load(rd, files[0]).value, ScanWhere(rd, want, limit, found + 1, files[1..]))
    ensures !Hit(rd, want, files[0]) ==>
              ScanWhere(rd, want, limit, found, files)
              == if found == limit then Scan([], None) else ScanWhere(rd, want, limit, found, files[1..])
  {
  }

  /** A limit of 0: the check after the first file stops the loop only if
      that file was not kept; a kept first file lifts numFound past the
      limit, and then nothing stops the loop. */
  lemma WhereZeroLimit<F, R>(rd: Reader<F, R>, want: bool, files: seq<F>)
    requires Clean(rd, want, files) && |files| > 0
    ensures !Hit(rd, want, files[0]) ==> ScanWhere(rd, want, 0, 0, files) == Scan([], None)
    ensures Hit(rd, want, files[0]) ==> ScanWhere(rd, want, 0, 0, files) == Scan(Selected(rd, want, files), None)
  {
    assert Problem(rd, want, files[0]) == None;
    if Hit(rd, want, files[0]) {
      CleanTail(rd, want, files);
      WhereUnbounded(rd, want, 0, 1, files[1..]);
    }
  }

  /** The error the query returns is the problem of the first file that has one. */
  lemma {:induction false} WhereFailureIsFirstProblem<F, R>(rd: Reader<F, R>, want: bool, limit: int, found: int, files: seq<F>)
    requires ScanWhere(rd, want, limit, found, files).failure.Some?
    ensures exists i :: 0 <= i < |files|
              && Problem(rd, want, files[i]) == ScanWhere(rd, want, limit, found, files).failure
              && forall j :: 0 <= j < i ==> Problem(rd, want, files[j]) == None
    decreases |files|
  {
    var s := ScanWhere(rd, want, limit, found, files);
    if Problem(rd, want, files[0]) != None {
      assert Problem(rd, want, files[0]) == s.failure;
    } else {
      var found' := if Hit(rd, want, files[0]) then found + 1 else found;
      assert s.failure == ScanWhere(rd, want, limit, found', files[1..]).failure;
      WhereFailureIsFirstProblem(rd, want, limit, found', files[1..]);
      var i :| 0 <= i < |files[1..]|
               && Problem(rd, want, files[1..][i]) == s.failure
               && forall j :: 0 <= j < i ==> Problem(rd, want, files[1..][j]) == None;
      assert files[1..][i] == files[i + 1];
      assert forall j :: 0 < j <= i + 1 ==> files[j] == files[1..][j - 1];
    }
  }

  /** With no limit in reach, a query that meets its first problem at file
      `i` returns the selected elements of the files before it, and that
      problem: partial results are not discarded. */
  lemma {:induction false} WhereUnboundedFailure<F, R>(rd: Reader<F, R>, want: bool, limit: int, found: int,
                                                       files: seq<F>, i: nat)
    requires found >= 0 && (limit < 0 || limit < found)
    requires i < |files| && Problem(rd, want, files[i]).Some? && Clean(rd, want, files[..i])
    ensures ScanWhere(rd, want, limit, found, files) == Scan(Selected(rd, want, files[..i]), Problem(rd, want, files[i]))
    decreases i
  {
    if i > 0 {
      SelectedStep(rd, want, files[..i]);
      assert files[..i][1..] == files[1..][..i - 1];
      var found' := if Hit(rd, want, files[0]) then found + 1 else found;
      WhereUnboundedFailure(rd, want, limit, found', files[1..], i - 1);
    }
  }

  /** The query loop returns at the first problem file: the files past it
      could be anything. */
  lemma {:induction false} WhereStopsAtProblem<F, R>(rd: Reader<F, R>, want: bool, limit: int, found: int, files: seq<F>, i: nat)
    requires i < |files| && Problem(rd, want, files[i]).Some?
    ensures ScanWhere(rd, want, limit, found, files) == ScanWhere(rd, want, limit, found, files[..i + 1])
    decreases |files|
  {
    if i > 0 && Problem(rd, want, files[0]) == None {
      assert files[..i + 1][1..] == files[1..][..i];
      var found' := if Hit(rd, want, files[0]) then found + 1 else found;
      WhereStopsAtProblem(rd, want, limit, found', files[1..], i - 1);
    }
  }

  // ------------------------------------------------------------ partition

  /** `a` is `b` with some elements left out, the rest in their order. */
  ghost predicate IsSubsequence<T>(a: seq<T>, b: seq<T>)
    decreases |b|
  {
    |a| == 0 || (|b| > 0 && ((a[0] == b[0] && IsSubsequence(a[1..], b[1..])) || IsSubsequence(a, b[1..])))
  }

  lemma {:induction false} KeptIsSubsequence<F, R>(rd: Reader<F, R>, want: bool, files: seq<F>)
    ensures IsSubsequence(Kept(rd, want, files), files)
  {
    if |files| > 0 {
      KeptIsSubsequence(rd, want, files[1..]);
      var k := Kept(rd, want, files);
      if Hit(rd, want, files[0]) {
        assert k[0] == files[0] && k[1..] == Kept(rd, want, files[1..]);
      }
    }
  }

  /** Every file can be read and its field looked up. */
  predicate Queryable<F, R>(rd: Reader<F, R>, files: seq<F>) {
    forall i :: 0 <= i < |files| ==> rd.read(files[i]).Ok? && rd.test(rd.read(files[i]).value).Ok?
  }

  /** ... and every file also decodes. */
  predicate Decodable<F, R>(rd: Reader<F, R>, files: seq<F>) {
    && Queryable(rd, files)
    && forall i :: 0 <= i < |files| ==> rd.decode(rd.read(files[i]).value).Ok?
  }

  lemma HitOneWay<F, R>(rd: Reader<F, R>, files: seq<F>, i: int)
    requires Queryable(rd, files) && 0 <= i < |files|
    ensures Hit(rd, true, files[i]) != Hit(rd, false, files[i])
  {
    var f := files[i];
    var t := rd.test(rd.read(f).value);
    if t.value {
      assert t == Ok(true);
      assert Hit(rd, true, f);
      assert !Hit(rd, false, f);
    } else {
      assert t == Ok(false);
      assert !Hit(rd, true, f);
      assert Hit(rd, false, f);
    }
  }

  /** Every file whose field can be looked up is kept by exactly one of the
      two queries. */
  lemma {:induction false} KeptPartition<F, R>(rd: Reader<F, R>, files: seq<F>)
    requires Queryable(rd, files)
    ensures |Kept(rd, true, files)| + |Kept(rd, false, files)| == |files|
    ensures multiset(Kept(rd, true, files)) + multiset(Kept(rd, false, files)) == multiset(files)
  {
    if |files| > 0 {
      var rest := files[1..];
      assert Queryable(rd, rest) by {
        forall i | 0 <= i < |rest| ensures rest[i] == files[i + 1] { }
      }
      KeptPartition(rd, rest);
      HitOneWay(rd, files, 0);
      assert files == [files[0]] + rest;
    }
  }

  lemma CleanTail<F, R>(rd: Reader<F, R>, want: bool, files: seq<F>)
    requires Clean(rd, want, files) && |files| > 0
    ensures Clean(rd, want, files[1..])
    ensures Problem(rd, want, files[0]) == None
  {
    forall i | 0 <= i < |files[1..]| ensures Problem(rd, want, files[1..][i]) == None {
      assert files[1..][i] == files[i + 1];
    }
  }

  lemma SelectedStep<F, R>(rd: Reader<F, R>, want: bool, files: seq<F>)
    requires Clean(rd, want, files) && |files| > 0
    ensures Clean(rd, want, files[1..])
    ensures Hit(rd, want, files[0]) ==> Load(rd, files[0]).Ok?
    ensures Selected(rd, want, files)
            == (if Hit(rd, want, files[0]) then [Load(rd, files[0]).value] else []) + Selected(rd, want, files[1..])
  {
    CleanTail(rd, want, files);
    KeptLoads(rd, want, files);
    KeptLoads(rd, want, files[1..]);
  }

  lemma DecodableClean<F, R>(rd: Reader<F, R>, want: bool, files: seq<F>)
    requires Decodable(rd, files)
    ensures Clean(rd, want, files)
    ensures forall f :: f in files ==> Load(rd, f).Ok?
  {
  }

  lemma {:induction false} SelectedPartition<F, R>(rd: Reader<F, R>, files: seq<F>)
    requires Decodable(rd, files)
    ensures Clean(rd, true, files) && Clean(rd, false, files)
    ensures forall f :: f in files ==> Load(rd, f).Ok?
    ensures multiset(Selected(rd, true, files)) + multiset(Selected(rd, false, files)) == multiset(Loads(rd, files))
  {
    DecodableClean(rd, true, files);
    DecodableClean(rd, false, files);
    if |files| > 0 {
      var rest := files[1..];
      assert Decodable(rd, rest) by {
        forall i | 0 <= i < |rest| ensures rest[i] == files[i + 1] { }
      }
      SelectedPartition(rd, rest);
      SelectedStep(rd, true, files);
      SelectedStep(rd, false, files);
      HitOneWay(rd, files, 0);
      var head := [Load(rd, files[0]).value];
      assert Loads(rd, files) == head + Loads(rd, rest);
      if Hit(rd, true, files[0]) {
        assert Selected(rd, true, files) == head + Selected(rd, true, rest);
        assert Selected(rd, false, files) == Selected(rd, false, rest);
      } else {
        assert Selected(rd, true, files) == Selected(rd, true, rest);
        assert Selected(rd, false, files) == head + Selected(rd, false, rest);
      }
      assert multiset(Loads(rd, files)) == multiset(head) + multiset(Loads(rd, rest));
    }
  }

  /** Where every file loads and its field can be looked up, the elements
      GetWhere and GetWhereNot append (with no limit) are, together, the
      elements GetAll appends. */
  lemma WhereSplitsAll<F, R>(rd: Reader<F, R>, files: seq<F>)
    requires Decodable(rd, files)
    ensures ScanWhere(rd, true, -1, 0, files).failure == None
    ensures ScanWhere(rd, false, -1, 0, files).failure == None
    ensures ScanAll(rd, files).failure == None
    ensures multiset(ScanWhere(rd, true, -1, 0, files).records) + multiset(ScanWhere(rd, false, -1, 0, files).records)
            == multiset(ScanAll(rd, files).records)
  {
    SelectedPartition(rd, files);
    WhereUnbounded(rd, true, -1, 0, files);
    WhereUnbounded(rd, false, -1, 0, files);
    ScanAllSpec(rd, files);
    assert files[..FirstFailure(rd, files)] == files;
  }

  /** GetAll has no query: its scan never consults the reader's test. */
  lemma {:induction false} ScanAllIgnoresTest<F, R>(rd: Reader<F, R>, test: Bytes -> Result<bool>, files: seq<F>)
    ensures ScanAll(rd.(test := test), files) == ScanAll(rd, files)
    decreases |files|
  {
    if |files| > 0 {
      ScanAllIgnoresTest(rd, test, files[1..]);
    }
  }
}
