/**
  Directory paths and the ancestor walk shared by the two lookups.
  A path is the sequence of its components: the root `/` is `[]` and
  `/foo/bar` is `["foo", "bar"]`.
 */
module Paths {
  import opened Options

  type Path = seq<string>

  /** `Path::parent`: the path with its last component dropped; the root has none. */
  function Parent(p: Path): (r: Option<Path>)
    ensures r.None? <==> p == []
    ensures r.Some? ==> r.value < p && |r.value| + 1 == |p|
  {
    if p == [] then None else Some(p[..|p| - 1])
  }

  /**
    `c` starts at `p`, each later element is the parent of the one before,
    and it ends at the root, the one path without a parent.
   */
  ghost predicate IsAncestorChain(p: Path, c: seq<Path>) {
    && |c| > 0
    && c[0] == p
    && Parent(c[|c| - 1]).None?
    && forall i :: 0 <= i < |c| - 1 ==> Parent(c[i]) == Some(c[i + 1])
  }

  /** The ancestor chain of `p`: `p`, its parent, its parent's parent, ..., the root. */
  function Ancestors(p: Path): (c: seq<Path>)
    ensures IsAncestorChain(p, c)
    ensures |c| == |p| + 1
    ensures forall i :: 0 <= i < |c| ==> c[i] == p[..|p| - i]
    decreases |p|
  {
    match Parent(p)
    case None => [p]
    case Some(q) => [p] + Ancestors(q)
  }

  /** There is only one ancestor chain per path: any chain is the one `Ancestors` builds. */
  lemma {:induction false} AncestorChainUnique(p: Path, c: seq<Path>)
    requires IsAncestorChain(p, c)
    ensures c == Ancestors(p)
    decreases |p|
  {
    if |c| == 1 {
      assert Parent(p).None?;
      assert c == [p];
    } else {
      assert Parent(c[0]) == Some(c[1]);
      var q, rest := c[1], c[1..];
      assert forall i :: 0 <= i < |rest| - 1 ==> Parent(rest[i]) == Some(rest[i + 1]) by {
        forall i | 0 <= i < |rest| - 1
          ensures Parent(rest[i]) == Some(rest[i + 1])
        {
          assert Parent(c[i + 1]) == Some(c[i + 2]);
        }
      }
      assert rest[|rest| - 1] == c[|c| - 1];
      AncestorChainUnique(q, rest);
      assert c == [p] + rest;
    }
  }

  /**
    The walk at the head of both lookups: start at `pwd` and follow
    `parent()` until there is none, recording every path visited.
   */
  method WalkAncestors(pwd: Path) returns (paths: seq<Path>)
    ensures IsAncestorChain(pwd, paths)
    ensures paths == Ancestors(pwd)
  {
    ghost var chain := Ancestors(pwd);
    var curr: Option<Path> := Some(pwd);
    paths := [];
    while curr.Some?
      invariant |paths| <= |chain|
      invariant paths == chain[..|paths|]
      invariant curr.Some? <==> |paths| < |chain|
      invariant curr.Some? ==> curr.value == chain[|paths|]
      decreases |chain| - |paths|
    {
      var p := curr.value;
      paths := paths + [p];
      curr := Parent(p);
    }
    assert paths == chain;
  }
}
