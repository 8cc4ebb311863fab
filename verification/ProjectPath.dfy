// Normalizing an absolute path that may partly be missing: the longest
// existing ancestor is canonicalized and the missing names are put back.

module ProjectPath {
  import opened Options

  datatype Component = Normal(name: string) | Up

  // The components below the root; the root is the empty path.
  type Path = seq<Component>

  // found: the path exists, links followed. canonical: its canonical form.
  datatype FileSystem = FileSystem(found: Path -> bool, canonical: Path -> Option<Path>)

  datatype PathError = NotAbsolute | IsRoot | CannotBeNormalized | NotCanonicalizable

  // The ancestor with k components exists, and everything below it is missing and is a plain name.
  predicate AncestorAt(fs: FileSystem, path: Path, k: nat) {
    && k <= |path|
    && fs.found(path[..k])
    && MissingBelow(fs, path, k)
  }

  predicate MissingBelow(fs: FileSystem, path: Path, k: nat)
    requires k <= |path|
  {
    forall j :: k < j <= |path| ==> !fs.found(path[..j]) && path[j - 1].Normal?
  }

  // No ancestor exists without first meeting a component that is not a name.
  predicate Blocked(fs: FileSystem, path: Path) {
    exists k :: 0 <= k <= |path| && MissingBelow(fs, path, k) && !fs.found(path[..k]) && (k == 0 || path[k - 1].Up?)
  }

  // p is the canonical form of the ancestor with k components, followed by the
  // missing ones in their order.
  predicate RebuiltAt(fs: FileSystem, path: Path, k: nat, p: Path) {
    AncestorAt(fs, path, k) && fs.canonical(path[..k]).Some? && p == fs.canonical(path[..k]).value + path[k..]
  }

  ghost predicate NormalizesTo(fs: FileSystem, path: Path, p: Path) {
    && path != []
    && if fs.canonical(path).Some? then p == fs.canonical(path).value else exists k: nat :: RebuiltAt(fs, path, k, p)
  }

  // Only one ancestor qualifies, so the outcome is determined.
  lemma AncestorIsUnique(fs: FileSystem, path: Path, j: nat, k: nat)
    requires AncestorAt(fs, path, j) && AncestorAt(fs, path, k)
    ensures j == k
  {
    assert !(j < k) && !(k < j);
  }

  // Blocked paths have no ancestor to build on.
  lemma BlockedHasNoAncestor(fs: FileSystem, path: Path, j: nat, k: nat)
    requires j <= |path| && MissingBelow(fs, path, j) && !fs.found(path[..j]) && (j == 0 || path[j - 1].Up?)
    ensures !AncestorAt(fs, path, k)
  {
  }

  method NormalizeAbsolute(fs: FileSystem, absolute: bool, path: Path) returns (r: Result<Path, PathError>)
    ensures r == Err(NotAbsolute) <==> !absolute
    ensures r == Err(IsRoot) <==> absolute && path == []
    ensures r.Ok? ==> NormalizesTo(fs, path, r.value)
    ensures absolute && r.Err? ==> forall p :: !NormalizesTo(fs, path, p)
    ensures r == Err(CannotBeNormalized) ==> Blocked(fs, path)
    ensures r == Err(NotCanonicalizable) ==> exists k: nat :: AncestorAt(fs, path, k) && fs.canonical(path[..k]).None?
  {
    if !absolute {
      return Err(NotAbsolute);
    }
    if path == [] {
      return Err(IsRoot);
    }
    if fs.canonical(path).Some? {
      return Ok(fs.canonical(path).value);
    }
    var existing := path;
    var missing: seq<Component> := [];
    while !fs.found(existing)
      invariant |existing| <= |path| && existing == path[..|existing|]
      invariant |missing| == |path| - |existing|
      invariant forall i :: 0 <= i < |missing| ==> missing[i] == path[|path| - 1 - i]
      invariant MissingBelow(fs, path, |existing|)
      decreases |existing|
    {
      var n := |existing|;
      if n == 0 || existing[n - 1].Up? {
        forall k: nat
          ensures !AncestorAt(fs, path, k)
        {
          BlockedHasNoAncestor(fs, path, n, k);
        }
        return Err(CannotBeNormalized);
      }
      missing := missing + [existing[n - 1]];
      existing := existing[..n - 1];
      assert existing == path[..n - 1];
      assert path[..n] == path[..n - 1] + [path[n - 1]];
    }
    assert AncestorAt(fs, path, |existing|);
    var canonical := fs.canonical(existing);
    if canonical.None? {
      forall k: nat | AncestorAt(fs, path, k)
        ensures k == |existing|
      {
        AncestorIsUnique(fs, path, k, |existing|);
      }
      return Err(NotCanonicalizable);
    }
    var normalized := canonical.value;
    var i := |missing|;
    while i > 0
      invariant 0 <= i <= |missing|
      invariant normalized == canonical.value + path[|existing|..|path| - i]
    {
      i := i - 1;
      normalized := normalized + [missing[i]];
      assert path[|existing|..|path| - i] == path[|existing|..|path| - i - 1] + [missing[i]];
    }
    assert path[|existing|..|path|] == path[|existing|..];
    assert RebuiltAt(fs, path, |existing|, normalized);
    return Ok(normalized);
  }

  // ----- file systems -----

  // A path exists exactly when it has a canonical form; canonical forms are
  // their own, have no "..", and have the same entries as the path they stand
  // for; what exists has an existing parent.
  ghost predicate WellBehaved(fs: FileSystem) {
    && (forall p :: fs.found(p) <==> fs.canonical(p).Some?)
    && (forall p :: fs.canonical(p).Some? ==> Settled(fs, fs.canonical(p).value))
    && (forall p, name :: fs.canonical(p).Some? ==>
          fs.found(p + [Normal(name)]) == fs.found(fs.canonical(p).value + [Normal(name)]))
    && (forall p, c :: fs.found(p + [c]) ==> fs.found(p))
  }

  predicate Settled(fs: FileSystem, p: Path) {
    fs.canonical(p) == Some(p) && NoUps(p)
  }

  predicate NoUps(p: Path) {
    forall i :: 0 <= i < |p| ==> p[i].Normal?
  }

  // Below something missing everything is missing.
  lemma {:induction false} MissingStays(fs: FileSystem, p: Path, n: nat)
    requires WellBehaved(fs) && n <= |p| && !fs.found(p[..n])
    ensures !fs.found(p)
    decreases |p| - n
  {
    if n < |p| {
      assert p[..n + 1] == p[..n] + [p[n]];
      MissingStays(fs, p, n + 1);
    } else {
      assert p[..n] == p;
    }
  }

  // What is found of a rebuilt path is exactly its canonical part.
  lemma RebuiltShape(fs: FileSystem, path: Path, k: nat, p: Path)
    requires WellBehaved(fs) && RebuiltAt(fs, path, k, p)
    ensures AncestorAt(fs, p, |fs.canonical(path[..k]).value|)
    ensures NoUps(p)
  {
    var c := fs.canonical(path[..k]).value;
    assert p[..|c|] == c && Settled(fs, c) && NoUps(c);
    forall i | |c| <= i < |p|
      ensures p[i].Normal?
    {
      var j := i - |c| + k + 1;
      assert p[i] == path[j - 1];
      assert !fs.found(path[..j]) && path[j - 1].Normal?;
    }
    forall j | |c| < j <= |p|
      ensures !fs.found(p[..j])
    {
      FirstMissing(fs, path, k, p);
      assert p[..j][..|c| + 1] == p[..|c| + 1];
      MissingStays(fs, p[..j], |c| + 1);
    }
  }

  lemma FirstMissing(fs: FileSystem, path: Path, k: nat, p: Path)
    requires WellBehaved(fs) && RebuiltAt(fs, path, k, p) && k < |path|
    ensures var n := |fs.canonical(path[..k]).value|; n < |p| && !fs.found(p[..n + 1])
  {
    var c := fs.canonical(path[..k]).value;
    assert path[..k + 1] == path[..k] + [path[k]];
    assert p[|c|] == path[k];
    assert p[..|c| + 1] == c + [path[k]];
    assert !fs.found(path[..k + 1]) && path[k + 1 - 1].Normal?;
  }

  // Normalizing twice is normalizing once, unless the result is the root: the
  // root is refused the second time.
  lemma NormalizingAgain(fs: FileSystem, path: Path, p: Path, q: Path)
    requires WellBehaved(fs) && NormalizesTo(fs, path, p)
    ensures NoUps(p)
    ensures NormalizesTo(fs, p, q) <==> p != [] && q == p
  {
    if fs.canonical(path).None? {
      var k: nat :| RebuiltAt(fs, path, k, p);
      RebuiltShape(fs, path, k, p);
      RebuiltAgain(fs, p, |fs.canonical(path[..k]).value|, q);
    }
  }

  // A path whose found part is canonical already stays as it is.
  lemma RebuiltAgain(fs: FileSystem, p: Path, base: nat, q: Path)
    requires WellBehaved(fs) && AncestorAt(fs, p, base) && Settled(fs, p[..base])
    ensures NormalizesTo(fs, p, q) <==> p != [] && q == p
  {
    assert p[..base] + p[base..] == p;
    assert RebuiltAt(fs, p, base, p);
    forall k: nat | RebuiltAt(fs, p, k, q)
      ensures q == p
    {
      AncestorIsUnique(fs, p, base, k);
    }
    assert p[..|p|] == p;
  }

  // The condition can fail: "/.." is not the root and normalizes to it.
  lemma NormalizingCanReachTheRoot()
    ensures exists fs :: WellBehaved(fs) && NormalizesTo(fs, [Up], [])
  {
    var fs := FileSystem(p => OnlyUps(p), p => if OnlyUps(p) then Some([]) else None);
    assert fs.canonical([]) == Some([]);
    forall p: Path, c: Component | fs.found(p + [c])
      ensures fs.found(p) && c.Up?
    {
      assert forall i :: 0 <= i < |p| ==> (p + [c])[i] == p[i];
      assert (p + [c])[|p|] == c;
    }
    assert WellBehaved(fs);
  }

  predicate OnlyUps(p: Path) {
    forall i :: 0 <= i < |p| ==> p[i].Up?
  }
}
