// A VyOS configuration as a finite set of token paths, and the effect of the
// device tools my_delete and my_set on it.
module Config {
  type Path = seq<string>
  type Config = set<Path>

  // Tells which nodes hold at most one value: setting a path below such a node
  // displaces the siblings of the path's last token.
  type Schema = Path -> bool

  function Delete(c: Config, root: Path): Config {
    set p | p in c && !(root <= p)
  }

  predicate Displaces(schema: Schema, q: Path, p: Path) {
    && q != [] && |p| >= |q|
    && schema(q[..|q| - 1])
    && p[..|q| - 1] == q[..|q| - 1]
    && p[|q| - 1] != q[|q| - 1]
  }

  function Set(schema: Schema, c: Config, q: Path): Config {
    (set p | p in c && !Displaces(schema, q, p)) + {q}
  }

  function DeleteAll(c: Config, roots: seq<Path>): Config {
    if roots == [] then c else Delete(DeleteAll(c, roots[..|roots| - 1]), roots[|roots| - 1])
  }

  function SetAll(schema: Schema, c: Config, paths: seq<Path>): Config {
    if paths == [] then c else Set(schema, SetAll(schema, c, paths[..|paths| - 1]), paths[|paths| - 1])
  }

  // Delete every root, then set every path.
  function Replace(schema: Schema, c: Config, roots: seq<Path>, paths: seq<Path>): Config {
    SetAll(schema, DeleteAll(c, roots), paths)
  }

  predicate Under(roots: seq<Path>, p: Path) {
    exists r | r in roots :: r <= p
  }

  predicate DisplacedBy(schema: Schema, paths: seq<Path>, p: Path) {
    exists q | q in paths :: Displaces(schema, q, p)
  }

  // What survives of an old configuration.
  function Kept(schema: Schema, c: Config, roots: seq<Path>, paths: seq<Path>): Config {
    set p | p in c && !Under(roots, p) && !DisplacedBy(schema, paths, p)
  }

  // The delete phase removes exactly what lies under some root, so neither order
  // nor duplicates nor nesting of the roots matter.
  lemma {:induction false} DeletePhase(c: Config, roots: seq<Path>)
    ensures DeleteAll(c, roots) == set p | p in c && !Under(roots, p)
  {
    if roots != [] {
      var n := |roots| - 1;
      DeletePhase(c, roots[..n]);
      UnderLast(roots);
    }
  }

  lemma UnderLast(roots: seq<Path>)
    requires roots != []
    ensures var n := |roots| - 1;
      forall p :: Under(roots, p) <==> Under(roots[..n], p) || roots[n] <= p
  {
    var n := |roots| - 1;
    assert roots == roots[..n] + [roots[n]];
    forall p
      ensures Under(roots, p) <==> Under(roots[..n], p) || roots[n] <= p
    {
      if Under(roots, p) {
        var r :| r in roots && r <= p;
        assert r in roots[..n] || r == roots[n];
      }
      if Under(roots[..n], p) {
        var r :| r in roots[..n] && r <= p;
        assert r in roots;
      }
      assert roots[n] in roots;
    }
  }

  lemma DeleteOrderIrrelevant(c: Config, roots: seq<Path>, roots': seq<Path>)
    requires forall r :: r in roots <==> r in roots'
    ensures DeleteAll(c, roots) == DeleteAll(c, roots')
  {
    DeletePhase(c, roots);
    DeletePhase(c, roots');
  }

  // A set phase acts on every old path separately.
  lemma {:induction false} SetPhase(schema: Schema, c: Config, paths: seq<Path>)
    ensures SetAll(schema, c, paths) ==
      SetAll(schema, {}, paths) + set p | p in c && !DisplacedBy(schema, paths, p)
  {
    if paths != [] {
      var n := |paths| - 1;
      SetPhase(schema, c, paths[..n]);
      assert paths == paths[..n] + [paths[n]];
    }
  }

  // The new configuration is what the set commands alone produce, plus the old
  // paths that nothing deletes or displaces.
  lemma ReplaceShape(schema: Schema, c: Config, roots: seq<Path>, paths: seq<Path>)
    ensures Replace(schema, c, roots, paths) ==
      SetAll(schema, {}, paths) + Kept(schema, c, roots, paths)
  {
    DeletePhase(c, roots);
    SetPhase(schema, DeleteAll(c, roots), paths);
  }

  // Applying the same plan again changes nothing.
  lemma ReplaceIdempotent(schema: Schema, c: Config, roots: seq<Path>, paths: seq<Path>)
    ensures Replace(schema, Replace(schema, c, roots, paths), roots, paths) == Replace(schema, c, roots, paths)
  {
    ReplaceShape(schema, c, roots, paths);
    ReplaceShape(schema, Replace(schema, c, roots, paths), roots, paths);
  }

  // Two starting points lead to the same configuration exactly when they agree on
  // the surviving paths that the set commands do not produce anyway.
  lemma ReplaceAgrees(schema: Schema, a: Config, b: Config, roots: seq<Path>, paths: seq<Path>)
    ensures Replace(schema, a, roots, paths) == Replace(schema, b, roots, paths) <==>
      Kept(schema, a, roots, paths) - SetAll(schema, {}, paths)
        == Kept(schema, b, roots, paths) - SetAll(schema, {}, paths)
  {
    ReplaceShape(schema, a, roots, paths);
    ReplaceShape(schema, b, roots, paths);
    var added := SetAll(schema, {}, paths);
    var ka, kb := Kept(schema, a, roots, paths), Kept(schema, b, roots, paths);
    assert (added + ka) - added == ka - added;
    assert (added + kb) - added == kb - added;
    assert added + (ka - added) == added + ka;
    assert added + (kb - added) == added + kb;
  }

  // Set paths never leave the areas they are in: what they produce is made of
  // them, and a displaced path shares all but the last token with one of them.
  lemma {:induction false} FreshIsSet(schema: Schema, paths: seq<Path>)
    ensures forall p | p in SetAll(schema, {}, paths) :: p in paths
  {
    if paths != [] {
      var n := |paths| - 1;
      FreshIsSet(schema, paths[..n]);
      assert paths == paths[..n] + [paths[n]];
    }
  }

  // ---- what is there in the end ----

  // Below a node of one value a path ends every other value, and nothing else.
  lemma SetExactly(schema: Schema, c: Config, q: Path, p: Path)
    ensures p in Set(schema, c, q) <==>
      || p == q
      || (p in c && (q <= p || q == [] || !schema(q[..|q| - 1]) || !(q[..|q| - 1] < p)))
  {
    if q != [] {
      var parent := q[..|q| - 1];
      assert q == parent + [q[|q| - 1]];
      if parent < p {
        assert p == parent + [p[|parent|]] + p[|q|..];
      }
    }
  }

  // The i-th of the paths is set, and no later one displaces it.
  ghost predicate SetLast(schema: Schema, paths: seq<Path>, p: Path, i: nat) {
    i < |paths| && paths[i] == p && forall j | i < j < |paths| :: !Displaces(schema, paths[j], p)
  }

  lemma {:induction false} SetAllExactly(schema: Schema, paths: seq<Path>, p: Path)
    ensures p in SetAll(schema, {}, paths) <==> exists i :: SetLast(schema, paths, p, i)
  {
    if paths != [] {
      var n := |paths| - 1;
      var front := paths[..n];
      SetAllExactly(schema, front, p);
      if i: nat :| SetLast(schema, front, p, i) && !Displaces(schema, paths[n], p) {
        assert SetLast(schema, paths, p, i);
      }
      if i: nat :| SetLast(schema, paths, p, i) && i < n {
        assert forall j | i < j < n :: front[j] == paths[j];
        assert SetLast(schema, front, p, i);
      }
      if paths[n] == p {
        assert SetLast(schema, paths, p, n);
      }
    }
  }

  // A path is there after the plan exactly if a set puts it there and no later one
  // displaces it, or it was there, lies under no root, and no set displaces it.
  lemma ReplaceExactly(schema: Schema, c: Config, roots: seq<Path>, paths: seq<Path>, p: Path)
    ensures p in Replace(schema, c, roots, paths) <==>
      || (exists i :: SetLast(schema, paths, p, i))
      || (p in c && (forall r | r in roots :: !(r <= p)) && forall q | q in paths :: !Displaces(schema, q, p))
  {
    ReplaceShape(schema, c, roots, paths);
    SetAllExactly(schema, paths, p);
  }
}
