/**
 Slash-separated paths. `Join` is filepath.Join without the lexical
 clean-up of filepath.Clean: empty elements are skipped and the others are
 glued with a single '/'.
 */
module Paths {

  type Path = string

  const Sep: char := '/'
  const JsonExt: string := ".json"
  const TmpExt: string := ".tmp"

  /** filepath.Join(a, b) on clean, non-dotted elements. */
  function Join(a: Path, b: Path): (r: Path)
    ensures a == "" ==> r == b
    ensures b == "" ==> r == a
  {
    if a == "" then b else if b == "" then a else a + [Sep] + b
  }

  /** A join of two non-empty elements is `a`, one separator, then `b`; it
      lies in the tree at `a`, and it is `a`'s child when `b` is one name. */
  lemma JoinParts(a: Path, b: Path)
    requires a != "" && b != ""
    ensures Join(a, b)[..|a|] == a && Join(a, b)[|a|] == Sep && Join(a, b)[|a| + 1..] == b
    ensures InTree(Join(a, b), a)
    ensures Sep !in b ==> Parent(Join(a, b)) == a && Base(Join(a, b)) == b
  {
    var r := Join(a, b);
    assert r[..|a|] == a && r[|a| + 1..] == b;
    if Sep !in b {
      JoinChild(a, b);
    }
  }

  /** filepath.Join(a, b, c) */
  function Join3(a: Path, b: Path, c: Path): Path {
    Join(Join(a, b), c)
  }

  /** `k` is `root` itself or lies somewhere below it. */
  predicate InTree(k: Path, root: Path) {
    k == root || (|k| > |root| && k[..|root|] == root && k[|root|] == Sep)
  }

  /** Index of the last separator in `p`, or -1 when there is none. */
  function LastSep(p: Path): (i: int)
    ensures -1 <= i < |p|
    ensures i >= 0 ==> p[i] == Sep
    ensures forall j :: i < j < |p| ==> p[j] != Sep
  {
    if |p| == 0 then -1
    else if p[|p| - 1] == Sep then |p| - 1
    else LastSep(p[..|p| - 1])
  }

  /** `p` starts at the root rather than at the working directory. */
  predicate IsAbsolute(p: Path) {
    p != "" && p[0] == Sep
  }

  /** The directory holding `p`; "" stands for the root or the working directory. */
  function Parent(p: Path): Path {
    var i := LastSep(p);
    if i > 0 then p[..i] else ""
  }

  /** The last element of `p`. */
  function Base(p: Path): Path {
    p[LastSep(p) + 1..]
  }

  /** `k` names an entry directly inside the (non-empty) directory `dir`. */
  predicate IsChild(k: Path, dir: Path) {
    && dir != ""
    && |k| > |dir| + 1
    && LastSep(k) == |dir|
    && k[..|dir|] == dir
  }

  lemma ParentIsAncestor(p: Path)
    requires Parent(p) != ""
    ensures |Parent(p)| < |p|
    ensures InTree(p, Parent(p))
  {
  }

  /** The last separator of `a + b`, when `b` holds one, is `b`'s. */
  lemma LastSepAppend(a: Path, b: Path)
    requires LastSep(b) >= 0
    ensures LastSep(a + b) == |a| + LastSep(b)
  {
    var i := LastSep(a + b);
    assert (a + b)[|a| + LastSep(b)] == Sep;
    assert forall j :: |a| + LastSep(b) < j < |a + b| ==> (a + b)[j] == b[j - |a|];
  }

  /** The parent of `a + b`, when `b` holds a separator, ends inside `b`. */
  lemma ParentAppend(a: Path, b: Path)
    requires LastSep(b) >= 0
    ensures Parent(a + b) == a + b[..LastSep(b)]
  {
    LastSepAppend(a, b);
    if |a| + LastSep(b) > 0 {
      assert (a + b)[..|a| + LastSep(b)] == a + b[..LastSep(b)];
    }
  }

  lemma InTreeTransitive(a: Path, b: Path, c: Path)
    requires InTree(a, b) && InTree(b, c)
    ensures InTree(a, c)
  {
    if a != b && b != c {
      assert a[..|b|][..|c|] == a[..|c|];
    }
  }

  lemma ChildJoin(k: Path, dir: Path)
    requires IsChild(k, dir)
    ensures Base(k) != "" && Sep !in Base(k)
    ensures Join(dir, Base(k)) == k
  {
    assert k == k[..|dir|] + [k[|dir|]] + k[|dir| + 1..];
  }

  lemma JoinChild(dir: Path, name: Path)
    requires dir != "" && name != "" && Sep !in name
    ensures IsChild(Join(dir, name), dir)
    ensures Base(Join(dir, name)) == name
  {
    var k := Join(dir, name);
    assert k[|dir|] == Sep;
    assert k[|dir| + 1..] == name;
  }

  /** Joining three non-empty elements does not depend on the grouping. */
  lemma JoinAssoc(a: Path, b: Path, c: Path)
    requires b != "" && c != ""
    ensures Join(a, Join(b, c)) == Join3(a, b, c)
  {
  }
}
