/**
 The field path of a GetWhere/GetWhereNot query: "a.b.c" names field c of
 field b of field a; a query with no dot names one top-level field.
 */
module QueryPath {

  const Dot: char := '.'

  /** strings.Split(s, "."): the pieces between the dots, empty ones included. */
  function Split(s: string): (parts: seq<string>)
    ensures |parts| >= 1
    ensures forall i :: 0 <= i < |parts| ==> Dot !in parts[i]
    decreases |s|
  {
    if |s| == 0 then [""]
    else
      var rest := Split(s[1..]);
      if s[0] == Dot then [""] + rest
      else [[s[0]] + rest[0]] + rest[1..]
  }

  /** strings.Join(parts, ".") */
  function JoinDots(parts: seq<string>): string
    requires |parts| >= 1
    decreases |parts|
  {
    if |parts| == 1 then parts[0] else parts[0] + [Dot] + JoinDots(parts[1..])
  }

  function CountDots(s: string): nat {
    if |s| == 0 then 0 else (if s[0] == Dot then 1 else 0) + CountDots(s[1..])
  }

  lemma {:induction false} JoinSplit(s: string)
    ensures JoinDots(Split(s)) == s
    ensures |Split(s)| == CountDots(s) + 1
    decreases |s|
  {
    if |s| > 0 {
      JoinSplit(s[1..]);
      var rest := Split(s[1..]);
      if s[0] != Dot && |rest| > 1 {
        assert JoinDots(rest) == rest[0] + [Dot] + JoinDots(rest[1..]);
        assert Split(s)[1..] == rest[1..];
      }
      assert s == [s[0]] + s[1..];
    }
  }

  lemma {:induction false} SplitJoin(parts: seq<string>)
    requires |parts| >= 1
    requires forall i :: 0 <= i < |parts| ==> Dot !in parts[i]
    ensures Split(JoinDots(parts)) == parts
    decreases |parts|, |parts[0]|
  {
    var p := parts[0];
    if |parts| == 1 {
      SplitNoDot(p);
    } else if |p| == 0 {
      SplitJoin(parts[1..]);
      assert JoinDots(parts) == [Dot] + JoinDots(parts[1..]);
      assert JoinDots(parts)[1..] == JoinDots(parts[1..]);
    } else {
      var tail := [p[1..]] + parts[1..];
      assert forall i :: 0 <= i < |tail| ==> Dot !in tail[i] by {
        assert forall c :: c in p[1..] ==> c in p;
      }
      SplitJoin(tail);
      assert tail[1..] == parts[1..];
      assert JoinDots(parts)[1..] == JoinDots(tail);
      assert [p[0]] + p[1..] == p;
    }
  }

  lemma {:induction false} SplitNoDot(s: string)
    requires Dot !in s
    ensures Split(s) == [s]
    decreases |s|
  {
    if |s| > 0 {
      assert Dot !in s[1..] by {
        assert forall c :: c in s[1..] ==> c in s;
      }
      SplitNoDot(s[1..]);
      assert [s[0]] + s[1..] == s;
    }
  }

  /** The query path jsondb.go builds: Split when the query holds a dot,
      otherwise the query alone. Either way it is the dot-free pieces that
      join back to the query. */
  function QueryPathOf(query: string): (path: seq<string>)
    ensures |path| == CountDots(query) + 1
    ensures forall i :: 0 <= i < |path| ==> Dot !in path[i]
    ensures JoinDots(path) == query
    ensures path == Split(query)
  {
    JoinSplit(query);
    if Dot in query then Split(query)
    else
      SplitNoDot(query);
      [query]
  }
}
