/** The paths of the conditions of a trie, with their prefixes and wildcards (addPath in engine.go). */
module Paths {
  import opened ByteStrings
  import Rules

  /** wilds holds the parts of the wildcard paths before ".*". */
  datatype Index = Index(paths: set<Bytes>, prefixes: set<Bytes>, wilds: set<Bytes>)

  const EMPTY := Index({}, {}, {})

  function WildPath(base: Bytes): Bytes {
    base + [DOT, STAR]
  }

  lemma {:induction false} WildPathInjective(b: Bytes, c: Bytes)
    ensures WildPath(b) == WildPath(c) <==> b == c
  {
    if WildPath(b) == WildPath(c) {
      assert b == WildPath(b)[..|b|] && c == WildPath(c)[..|c|];
    }
  }

  /** q is the part of path before one of its dots. */
  ghost predicate IsPrefix(q: Bytes, path: Bytes) {
    |q| < |path| && q == path[..|q|] && path[|q|] == DOT
  }

  ghost predicate IsPrefixOfAny(q: Bytes, paths: set<Bytes>) {
    exists path :: path in paths && IsPrefix(q, path)
  }

  ghost predicate Valid(x: Index) {
    && (forall q :: q in x.prefixes <==> IsPrefixOfAny(q, x.paths))
    && (forall b :: b in x.wilds <==> b != [] && WildPath(b) in x.paths)
  }

  lemma {:induction false} WildBaseOf(path: Bytes)
    ensures Rules.WildBase(path).Some? ==>
              Rules.WildBase(path).value != [] && path == WildPath(Rules.WildBase(path).value)
    ensures forall b: Bytes :: b != [] && path == WildPath(b) ==> Rules.WildBase(path) == Some(b)
  {
    if Rules.WildBase(path).Some? {
      assert path == path[..|path| - 2] + path[|path| - 2..];
    }
    forall b: Bytes | b != [] && path == WildPath(b) ensures Rules.WildBase(path) == Some(b) {
      assert path[|path| - 2..] == [DOT, STAR] && path[..|path| - 2] == b;
    }
  }

  /** addPath: records a path, the parts before its dots, and the part before a wildcard. */
  method AddPath(x: Index, path: Bytes) returns (y: Index)
    requires Valid(x)
    ensures Valid(y) && y.paths == x.paths + {path}
  {
    if path in x.paths {
      assert x.paths + {path} == x.paths;
      return x;
    }
    var prefixes := x.prefixes;
    for i := 0 to |path|
      invariant forall q :: q in prefixes <==> q in x.prefixes || (|q| < i && IsPrefix(q, path))
    {
      if path[i] == DOT {
        prefixes := prefixes + {path[..i]};
      }
      assert forall q: Bytes :: |q| == i && IsPrefix(q, path) ==> q == path[..i];
    }
    var base := Rules.WildBase(path);
    WildBaseOf(path);
    y := Index(x.paths + {path}, prefixes, if base.Some? then x.wilds + {base.value} else x.wilds);
    forall q ensures IsPrefixOfAny(q, y.paths) <==> IsPrefixOfAny(q, x.paths) || IsPrefix(q, path) {
      assert path in y.paths && forall p :: p in x.paths ==> p in y.paths;
    }
  }
}
