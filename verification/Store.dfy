/** The file store: mapping what a client asks for to a path below a root. */
module Store {
  import opened Wrappers
  import opened Text
  import opened Paths
  import opened FileTree

  datatype ResolveError = OutsideRoots | Unresolvable

  // ---- Roots ---------------------------------------------------------------------

  /** filepath.Abs: clean, relative paths below the working directory. */
  function Absolute(cwd: string, p: string): seq<string> {
    if IsAbs(p) then Components(p) else Components(cwd + "/" + p)
  }

  /** The stored form of one configured root: its real path if it exists. */
  function RootOf(t: Tree, cwd: string, p: string): string {
    var abs := Absolute(cwd, p);
    match EvalSymlinks(t, Render(abs))
    case Real(path) => Render(path)
    case _ => Render(abs)
  }

  ghost predicate ValidRoots(roots: seq<string>) {
    roots != [] && forall i :: 0 <= i < |roots| ==> IsCleanPath(roots[i])
  }

  lemma RootIsClean(t: Tree, cwd: string, p: string)
    ensures IsCleanPath(RootOf(t, cwd, p))
  {
    var abs := Absolute(cwd, p);
    ComponentsAreNames(if IsAbs(p) then p else cwd + "/" + p);
    ComponentsRender(abs);
    EvalRendered(t, abs);
    assert IsDirectoryPath(t, []);
    assert ArePieces(abs) by {
      forall i | 0 <= i < |abs| ensures '/' !in abs[i] { assert IsName(abs[i]); }
    }
    WalkEndsReal(t, [], abs, 0);
    if EvalComponents(t, abs).Real? {
      ComponentsRender(EvalComponents(t, abs).path);
    }
  }

  lemma JoinIsRelative(cs: seq<string>)
    requires IsNames(cs)
    ensures !IsAbs(Join(cs, '/'))
  {
    if |cs| == 1 {
      assert IsName(cs[0]);
    } else if |cs| > 1 {
      assert IsName(cs[0]) && Join(cs, '/')[0] == cs[0][0];
    }
  }

  /** A configured path of names is taken below the working directory, or by itself when
      it is absolute; what is kept is where it leads, or the path itself if it leads
      nowhere yet. */
  lemma RootExactly(t: Tree, cwd: string, cs: seq<string>, absolute: bool)
    requires IsNames(cs) && IsNames(Components(cwd))
    ensures var given := if absolute then "/" + Join(cs, '/') else Join(cs, '/');
      var abs := if absolute then cs else Components(cwd) + cs;
      && (EvalComponents(t, abs).Real? ==> RootOf(t, cwd, given) == Render(EvalComponents(t, abs).path))
      && (!EvalComponents(t, abs).Real? ==> RootOf(t, cwd, given) == Render(abs))
  {
    var given := if absolute then "/" + Join(cs, '/') else Join(cs, '/');
    var abs := if absolute then cs else Components(cwd) + cs;
    NamesBehind(cwd, cs);
    NamesBehind("", cs);
    assert Components("") == [] && "" + "/" + Join(cs, '/') == "/" + Join(cs, '/') && [] + cs == cs;
    JoinIsRelative(cs);
    assert Absolute(cwd, given) == abs;
    EvalRendered(t, abs);
    hide Components, Join, Absolute, EvalComponents, Render;
  }

  /** So a root that is a link to a directory is kept as that directory, and moving the
      link later does not move the boundary. */
  lemma LinkedRoot(t: Tree, cwd: string, front: seq<string>, c: string, dir: seq<string>)
    requires IsDirectoryPath(t, front) && IsName(c) && IsDirectoryPath(t, dir) && dir != [] && IsNames(Components(cwd))
    requires front + [c] in t && t[front + [c]] == Link(Render(dir))
    ensures RootOf(t, cwd, "/" + Join(front + [c], '/')) == Render(dir)
  {
    RootExactly(t, cwd, front + [c], true);
    LinkToDirectory(t, front, c, dir);
    hide Render, Join, IsDirectoryPath, EvalComponents, RootOf;
  }

  /** NewStore: the roots, resolved once; at least one is required. */
  method NewStore(t: Tree, cwd: string, configured: seq<string>) returns (roots: Option<seq<string>>)
    ensures roots.None? <==> configured == []
    ensures roots.Some? ==> ValidRoots(roots.value) && |roots.value| == |configured|
    ensures roots.Some? ==>
      forall i :: 0 <= i < |configured| ==> roots.value[i] == RootOf(t, cwd, configured[i])
  {
    hide RootOf, IsCleanPath;
    if configured == [] {
      return None;
    }
    var resolved: seq<string> := [];
    for n := 0 to |configured|
      invariant |resolved| == n
      invariant forall i :: 0 <= i < n ==> resolved[i] == RootOf(t, cwd, configured[i])
      invariant forall i :: 0 <= i < n ==> IsCleanPath(resolved[i])
    {
      RootIsClean(t, cwd, configured[n]);
      resolved := resolved + [RootOf(t, cwd, configured[n])];
    }
    roots := Some(resolved);
  }

  // ---- Resolving a path -------------------------------------------------------------

  /** What the loop of resolveExisting arrives at from `current`, with `remainder`
      cut off already; `path` is where it started. */
  function Existing(t: Tree, path: seq<string>, current: seq<string>, remainder: seq<string>)
    : Option<seq<string>>
  {
    match EvalComponents(t, current)
    case Real(p) => Some(p + remainder)
    case Broken => None
    case Missing =>
      if current == [] then Some(path)
      else Existing(t, path, current[..|current| - 1], [current[|current| - 1]] + remainder)
  }

  /** resolveExisting: drop components from the end until the rest resolves. */
  method ResolveExisting(t: Tree, path: seq<string>) returns (r: Option<seq<string>>)
    ensures r == Existing(t, path, path, [])
  {
    var remainder: seq<string> := [];
    var current := path;
    while true
      invariant Existing(t, path, path, []) == Existing(t, path, current, remainder)
      decreases |current|
    {
      var eval := EvalComponents(t, current);
      if eval.Real? {
        return Some(eval.path + remainder);
      }
      if eval.Broken? {
        return None;
      }
      if current == [] {
        return Some(path);
      }
      remainder := [current[|current| - 1]] + remainder;
      current := current[..|current| - 1];
    }
  }

  /** The path a request names: below the first root unless it is absolute. */
  function Candidate(roots: seq<string>, rel: string): seq<string>
    requires roots != []
  {
    Components(if IsAbs(rel) then rel else roots[0] + "/" + rel)
  }

  predicate UnderSomeRoot(roots: seq<string>, path: string) {
    exists i :: 0 <= i < |roots| && Accepts(roots[i], path)
  }

  /** Store.Resolve. */
  function Resolve(t: Tree, roots: seq<string>, rel: string): Result<string, ResolveError>
    requires roots != []
  {
    if '\0' in rel then Err(OutsideRoots)
    else
      var candidate := Candidate(roots, rel);
      match Existing(t, candidate, candidate, [])
      case None => Err(Unresolvable)
      case Some(p) =>
        if UnderSomeRoot(roots, Render(p)) then Ok(Render(p)) else Err(OutsideRoots)
  }

  // ---- What resolving means ------------------------------------------------------------

  /** The loop skips every prefix that does not exist. */
  lemma {:induction false} ExistingSkips(t: Tree, path: seq<string>, current: seq<string>, remainder: seq<string>, k: nat)
    requires k <= |current|
    requires forall j :: k < j <= |current| ==> EvalComponents(t, current[..j]) == Missing
    ensures Existing(t, path, current, remainder)
         == Existing(t, path, current[..k], current[k..] + remainder)
    decreases |current|
  {
    if k == |current| {
      assert current[..k] == current && current[k..] + remainder == remainder;
    } else {
      var front, last := current[..|current| - 1], [current[|current| - 1]];
      assert current[..|current|] == current;
      assert forall j :: k < j <= |front| ==> front[..j] == current[..j];
      ExistingSkips(t, path, front, last + remainder, k);
      assert front[..k] == current[..k];
      assert front[k..] + (last + remainder) == current[k..] + remainder;
    }
  }

  /** `k` components of `path` are the longest part of it that resolves or fails
      for another reason than not being there. */
  ghost predicate LongestThere(t: Tree, path: seq<string>, k: nat) {
    && k <= |path|
    && !EvalComponents(t, path[..k]).Missing?
    && forall j :: k < j <= |path| ==> EvalComponents(t, path[..j]) == Missing
  }

  /** There always is one, because "/" resolves. */
  lemma {:induction false} LongestThereExists(t: Tree, path: seq<string>, hi: nat) returns (k: nat)
    requires hi <= |path|
    requires forall j :: hi < j <= |path| ==> EvalComponents(t, path[..j]) == Missing
    ensures LongestThere(t, path, k)
    decreases hi
  {
    if EvalComponents(t, path[..hi]).Missing? {
      assert path[..0] == [];
      k := LongestThereExists(t, path, hi - 1);
    } else {
      k := hi;
    }
  }

  /** The real path of the part that is there, and the untouched rest. */
  function Target(t: Tree, path: seq<string>, k: nat): (p: seq<string>)
    requires k <= |path| && EvalComponents(t, path[..k]).Real?
  {
    EvalComponents(t, path[..k]).path + path[k..]
  }

  /** Component by component, the path is a root or lies below one. The root "/"
      counts only for itself. */
  ghost predicate Below(roots: seq<string>, p: seq<string>) {
    exists i :: 0 <= i < |roots| && Components(roots[i]) <= p && (roots[i] == "/" ==> p == [])
  }

  lemma UnderMeansBelow(roots: seq<string>, p: seq<string>)
    requires ValidRoots(roots) && IsNames(p)
    ensures UnderSomeRoot(roots, Render(p)) <==> Below(roots, p)
  {
    forall i | 0 <= i < |roots|
      ensures Accepts(roots[i], Render(p))
         <==> Components(roots[i]) <= p && (roots[i] == "/" ==> p == [])
    {
      var root := Components(roots[i]);
      assert IsCleanPath(roots[i]);
      ComponentsAreNames(roots[i]);
      AcceptsExactly(root, p);
      RootTextIsEmptyPath(root);
    }
  }

  lemma RootTextIsEmptyPath(cs: seq<string>)
    requires IsNames(cs)
    ensures Render(cs) == "/" <==> cs == []
  {
    ComponentsRender(cs);
    ComponentsRender([]);
  }

  lemma CandidateIsNames(roots: seq<string>, rel: string)
    requires roots != []
    ensures IsNames(Candidate(roots, rel)) && ArePieces(Candidate(roots, rel))
  {
    ComponentsAreNames(if IsAbs(rel) then rel else roots[0] + "/" + rel);
    forall i | 0 <= i < |Candidate(roots, rel)| ensures '/' !in Candidate(roots, rel)[i] {
      assert IsName(Candidate(roots, rel)[i]);
    }
  }

  lemma TargetIsNames(t: Tree, path: seq<string>, k: nat)
    requires IsNames(path) && ArePieces(path)
    requires k <= |path| && EvalComponents(t, path[..k]).Real?
    ensures IsRealPath(t, EvalComponents(t, path[..k]).path)
    ensures IsNames(Target(t, path, k))
  {
    assert IsDirectoryPath(t, []);
    WalkEndsReal(t, [], path[..k], 0);
  }

  /** Resolving, exactly. Apart from names with a NUL, the answer depends on the
      longest part of the cleaned path that is there: if it resolves, the accepted
      path is its real path followed by the untouched rest, and it is accepted if
      and only if that lies below a root component by component. */
  lemma ResolveExactly(t: Tree, roots: seq<string>, rel: string) returns (k: nat)
    requires ValidRoots(roots)
    ensures '\0' in rel ==> Resolve(t, roots, rel) == Err(OutsideRoots)
    ensures LongestThere(t, Candidate(roots, rel), k)
    ensures '\0' !in rel ==>
      var path := Candidate(roots, rel);
      match EvalComponents(t, path[..k])
      case Broken => Resolve(t, roots, rel) == Err(Unresolvable)
      case Real(q) =>
        && IsRealPath(t, q)
        && IsNames(q + path[k..])
        && Resolve(t, roots, rel)
           == (if Below(roots, q + path[k..]) then Ok(Render(q + path[k..])) else Err(OutsideRoots))
      case Missing => false
  {
    var path := Candidate(roots, rel);
    CandidateIsNames(roots, rel);
    k := LongestThereExists(t, path, |path|);
    ExistingSkips(t, path, path, [], k);
    if EvalComponents(t, path[..k]).Real? {
      TargetIsNames(t, path, k);
      var p := Target(t, path, k);
      assert path[k..] + [] == path[k..];
      UnderMeansBelow(roots, p);
    }
  }

  /** An accepted path is absolute, clean, and below a root. */
  lemma AcceptedIsCleanAndBelow(t: Tree, roots: seq<string>, rel: string)
    requires ValidRoots(roots) && Resolve(t, roots, rel).Ok?
    ensures IsAbs(Resolve(t, roots, rel).value)
    ensures IsCleanPath(Resolve(t, roots, rel).value)
    ensures Below(roots, Components(Resolve(t, roots, rel).value))
  {
    var k := ResolveExactly(t, roots, rel);
    var path := Candidate(roots, rel);
    ComponentsRender(EvalComponents(t, path[..k]).path + path[k..]);
  }

  // ---- Resolving an accepted path again ---------------------------------------------------

  /** Names cannot contain NUL; no kernel stores one. */
  ghost predicate NoNul(t: Tree, roots: seq<string>) {
    && (forall p, c :: p in t && c in p ==> '\0' !in c)
    && (forall i :: 0 <= i < |roots| ==> '\0' !in roots[i])
  }

  lemma RenderFrom(cs: seq<string>, x: char)
    requires x != '/' && forall c :: c in cs ==> x !in c
    ensures x !in Render(cs)
  {
    JoinFrom([""] + cs, x);
  }

  lemma {:induction false} JoinFrom(cs: seq<string>, x: char)
    requires x != '/' && forall c :: c in cs ==> x !in c
    ensures x !in Join(cs, '/')
  {
    if |cs| > 1 {
      JoinFrom(cs[1..], x);
      assert cs[0] in cs;
    }
  }

  /** The path a resolution accepts is its own longest part that is there plus the
      rest that is not. */
  lemma TargetSplitsTheSame(t: Tree, path: seq<string>, k: nat)
    requires IsNames(path) && ArePieces(path)
    requires LongestThere(t, path, k) && EvalComponents(t, path[..k]).Real?
    ensures var q := EvalComponents(t, path[..k]).path;
      && LongestThere(t, q + path[k..], |q|)
      && (q + path[k..])[..|q|] == q
      && EvalComponents(t, q) == Real(q)
  {
    var q, rest := EvalComponents(t, path[..k]).path, path[k..];
    TargetIsNames(t, path, k);
    RealPathIsFixed(t, q);
    assert (q + rest)[..|q|] == q;
    forall j | |q| < j <= |q + rest| ensures EvalComponents(t, (q + rest)[..j]) == Missing {
      var n := j - |q|;
      assert (q + rest)[..j] == q + rest[..n];
      assert path[..k] + rest[..n] == path[..k + n];
      assert IsDirectoryPath(t, []);
      MissingBelow(t, [], path[..k], rest[..n], 0);
      assert [] + q == q;
      WalkAlongReal(t, [], q, rest[..n], 0);
    }
  }

  lemma AcceptedHasNoNul(t: Tree, roots: seq<string>, rel: string, k: nat)
    requires ValidRoots(roots) && NoNul(t, roots) && '\0' !in rel
    requires k <= |Candidate(roots, rel)| && EvalComponents(t, Candidate(roots, rel)[..k]).Real?
    ensures '\0' !in Render(Target(t, Candidate(roots, rel), k))
  {
    var path := Candidate(roots, rel);
    var q := EvalComponents(t, path[..k]).path;
    CandidateIsNames(roots, rel);
    TargetIsNames(t, path, k);
    forall c | c in q + path[k..] ensures '\0' !in c {
      if c in q {
        assert q[..|q|] == q;
        assert q in t;
      } else {
        var text := if IsAbs(rel) then rel else roots[0] + "/" + rel;
        assert c in Components(text);
        if '\0' in c {
          ComponentsFrom(text, c, '\0');
        }
      }
    }
    RenderFrom(q + path[k..], '\0');
  }

  /** What an accepted path looks like: a real path, and nothing there beyond it. */
  lemma AcceptedShape(t: Tree, roots: seq<string>, rel: string) returns (k: nat)
    requires ValidRoots(roots) && Resolve(t, roots, rel).Ok?
    ensures var p := Components(Resolve(t, roots, rel).value);
      && IsNames(p) && k <= |p| && LongestThere(t, p, k)
      && IsRealPath(t, p[..k]) && EvalComponents(t, p[..k]) == Real(p[..k])
  {
    var path := Candidate(roots, rel);
    var j := ResolveExactly(t, roots, rel);
    CandidateIsNames(roots, rel);
    TargetSplitsTheSame(t, path, j);
    TargetIsNames(t, path, j);
    ComponentsRender(Target(t, path, j));
    k := |EvalComponents(t, path[..j]).path|;
  }

  lemma AcceptedAgain(t: Tree, roots: seq<string>, value: string, k: nat)
    requires roots != [] && '\0' !in value && IsAbs(value) && IsCleanPath(value) && UnderSomeRoot(roots, value)
    requires var p := Components(value);
      k <= |p| && LongestThere(t, p, k) && EvalComponents(t, p[..k]) == Real(p[..k])
    ensures Resolve(t, roots, value) == Ok(value)
  {
    var p := Components(value);
    hide Components, Accepts;
    ExistingSkips(t, p, p, [], k);
    assert p[..k] + (p[k..] + []) == p;
  }

  /** Resolving an accepted path again, on an unchanged tree, gives the same path,
      whether or not its last components exist. */
  lemma ResolveIdempotent(t: Tree, roots: seq<string>, rel: string)
    requires ValidRoots(roots) && NoNul(t, roots)
    requires Resolve(t, roots, rel).Ok?
    ensures Resolve(t, roots, Resolve(t, roots, rel).value) == Resolve(t, roots, rel)
  {
    var j := ResolveExactly(t, roots, rel);
    AcceptedHasNoNul(t, roots, rel, j);
    AcceptedIsCleanAndBelow(t, roots, rel);
    var value := Resolve(t, roots, rel).value;
    assert '\0' !in value && UnderSomeRoot(roots, value);
    var k := AcceptedShape(t, roots, rel);
    hide *;
    AcceptedAgain(t, roots, value, k);
  }

  /** A path of which only the last name does not resolve stays as it is. */
  lemma ExistingLast(t: Tree, front: seq<string>, c: string)
    requires EvalComponents(t, front) == Real(front) && EvalComponents(t, front + [c]) == Missing
    ensures Existing(t, front + [c], front + [c], []) == Some(front + [c])
  {
    var p := front + [c];
    assert p[..|p| - 1] == front && p[|p| - 1] == c && [c] + [] == [c];
    hide EvalComponents;
    assert Existing(t, p, front, [c]) == Some(p);
  }

  /** A plain name is taken below the first root. */
  lemma CandidateBelow(roots: seq<string>, c: string)
    requires ValidRoots(roots) && Components(roots[0]) != [] && IsName(c)
    ensures IsNames(Components(roots[0])) && Candidate(roots, c) == Components(roots[0]) + [c]
  {
    var root := Components(roots[0]);
    ComponentsAreNames(roots[0]);
    JoinConcat([""] + root, [c], '/');
    assert [""] + root + [c] == [""] + (root + [c]);
    assert Join([c], '/') == c;
    assert roots[0] + "/" + c == Render(root) + ['/'] + c;
    assert IsNames(root + [c]);
    ComponentsRender(root + [c]);
    hide Join;
  }

  /** A relative path of names is taken below the first root, all of it. */
  lemma CandidateJoins(roots: seq<string>, cs: seq<string>)
    requires roots != [] && IsNames(cs)
    ensures Candidate(roots, Join(cs, '/')) == Components(roots[0]) + cs
    ensures Candidate(roots, "/" + Join(cs, '/')) == cs
  {
    var rel := Join(cs, '/');
    NamesBehind(roots[0], cs);
    NamesBehind("", cs);
    assert Components("") == [] && "" + "/" + rel == "/" + rel && [] + cs == cs;
    JoinIsRelative(cs);
    hide Components, Join;
  }

  /** Any other relative path is cleaned below the first root, an absolute one by itself. */
  lemma CandidateIs(roots: seq<string>, rel: string)
    requires roots != []
    ensures !IsAbs(rel) ==> Candidate(roots, rel) == Components(roots[0] + "/" + rel)
    ensures IsAbs(rel) ==> Candidate(roots, rel) == Components(rel)
  {
  }

  /** What exists below the first root under a relative path of names is what that path
      resolves to. */
  lemma NamesResolve(t: Tree, roots: seq<string>, cs: seq<string>)
    requires ValidRoots(roots) && roots[0] != "/" && IsNames(cs) && '\0' !in Join(cs, '/')
    requires IsRealPath(t, Components(roots[0]) + cs)
    ensures Resolve(t, roots, Join(cs, '/')) == Ok(Render(Components(roots[0]) + cs))
  {
    var p := Components(roots[0]) + cs;
    CandidateJoins(roots, cs);
    RealPathIsFixed(t, p);
    assert p + [] == p;
    assert Components(roots[0]) <= p;
    UnderMeansBelow(roots, p);
    hide Components, Join, Render, IsRealPath, EvalComponents, Accepts;
    assert Existing(t, p, p, []) == Some(p);
  }

  // ---- Where a copy to an accepted path goes ------------------------------------------------

  /** Nothing hangs in the air: what is there lies in a directory. */
  ghost predicate Grounded(t: Tree) {
    forall p :: p in t && p != [] ==> IsDirectoryAt(t, Parent(p))
  }

  /** Past the longest part that is there, everything is missing below it. */
  lemma RestIsMissing(t: Tree, p: seq<string>, k: nat)
    requires IsNames(p) && k < |p| && LongestThere(t, p, k)
    requires IsRealPath(t, p[..k]) && EvalComponents(t, p[..k]) == Real(p[..k])
    ensures IsDirectoryPath(t, p[..k])
    ensures forall j :: k < j <= |p| ==> Walk(t, p[..k], p[k..j], 0) == Missing
  {
    assert IsDirectoryPath(t, []);
    forall j | k < j <= |p| ensures Walk(t, p[..k], p[k..j], 0) == Missing && IsDirectoryPath(t, p[..k]) {
      assert p[..k] + p[k..j] == p[..j];
      MissingBelow(t, [], p[..k], p[k..j], 0);
    }
    assert p[..k + 1] == p[..k] + p[k..k + 1];
    assert Walk(t, p[..k], p[k..k + 1], 0) == Missing;
  }

  /** A path that is there altogether. */
  lemma CopyGoesThere(t: Tree, p: seq<string>)
    requires IsRealPath(t, p) && !IsDirectoryAt(t, p)
    ensures p in t && t[p].File? && CopyTo(t, p) == Some(p)
  {
    assert p[..|p|] == p;
    var front, last := Parent(p), [p[|p| - 1]];
    assert p == front + last && [] + front == front;
    RealPathIsFixed(t, front);
    OpensAlongReal(t, [], front, last, 0);
  }

  /** A path of which only the last name is not there. */
  lemma CopyGoesLast(t: Tree, front: seq<string>, c: string)
    requires IsDirectoryPath(t, front) && IsName(c) && Walk(t, front, [c], 0) == Missing
    ensures var p := front + [c];
      && (CopyTo(t, p) == Some(p) <==> !(p in t && t[p].Link?))
      && (CopyTo(t, p) != Some(p) && CopyTo(t, p).Some? ==> CopyTo(t, p).value !in t)
  {
    assert Parent(front + [c]) == front && [] + front == front;
    RealPathIsFixed(t, front);
    OpensAlongReal(t, [], front, [c], 0);
    OpensNothing(t, front, [c], 0);
    assert CopyTo(t, front + [c]) == Opens(t, front, [c], 0);
  }

  lemma CopyGoesFrom(t: Tree, p: seq<string>, k: nat)
    requires Grounded(t) && IsNames(p) && k <= |p| && LongestThere(t, p, k)
    requires IsRealPath(t, p[..k]) && EvalComponents(t, p[..k]) == Real(p[..k])
    requires CanMake(t, Parent(p)) && !IsDirectoryAt(t, p)
    ensures CopyTo(t, p) == Some(p) <==> !(p in t && t[p].Link?)
    ensures CopyTo(t, p) != Some(p) && CopyTo(t, p).Some? ==> CopyTo(t, p).value !in t
  {
    var front := Parent(p);
    assert p == front + [p[|p| - 1]];
    hide Walk, Opens, IsRealPath, IsDirectoryPath;
    if k == |p| {
      assert p[..k] == p;
      CopyGoesThere(t, p);
    } else {
      RestIsMissing(t, p, k);
      if k == |p| - 1 {
        assert p[..k] == front && p[k..|p|] == [p[k]];
        CopyGoesLast(t, front, p[k]);
      } else {
        assert front == p[..|p| - 1];
        assert EvalComponents(t, front) == Missing;
      }
    }
  }

  /** A copy to an accepted path stays there exactly when there is no link under that
      name. If there is one, it leads to nothing yet, and the copy either fails or
      creates a file elsewhere. */
  lemma CopyGoes(t: Tree, roots: seq<string>, rel: string)
    requires ValidRoots(roots) && Grounded(t) && Resolve(t, roots, rel).Ok?
    requires var p := Components(Resolve(t, roots, rel).value);
      CanMake(t, Parent(p)) && !IsDirectoryAt(t, p)
    ensures var p := Components(Resolve(t, roots, rel).value);
      && (CopyTo(t, p) == Some(p) <==> !(p in t && t[p].Link?))
      && (CopyTo(t, p) != Some(p) && CopyTo(t, p).Some? ==> CopyTo(t, p).value !in t)
  {
    var k := AcceptedShape(t, roots, rel);
    hide *;
    CopyGoesFrom(t, Components(Resolve(t, roots, rel).value), k);
  }

  // ---- Accepted paths as places in the tree -------------------------------------------------

  /** An accepted path names its own entry, if its directory is there. */
  lemma AcceptedEntry(t: Tree, roots: seq<string>, rel: string)
    requires ValidRoots(roots) && Resolve(t, roots, rel).Ok?
    ensures var p := Components(Resolve(t, roots, rel).value);
      Entry(t, p).Some? ==> Entry(t, p) == Some(p)
  {
    var k := AcceptedShape(t, roots, rel);
    EntryFrom(t, Components(Resolve(t, roots, rel).value), k);
    hide *;
  }

  lemma EntryFrom(t: Tree, p: seq<string>, k: nat)
    requires IsNames(p) && k <= |p| && LongestThere(t, p, k)
    requires IsRealPath(t, p[..k]) && EvalComponents(t, p[..k]) == Real(p[..k])
    ensures Entry(t, p).Some? ==> Entry(t, p) == Some(p)
  {
    if p != [] {
      var front := Parent(p);
      assert p == front + [p[|p| - 1]];
      if k == |p| {
        assert p[..k] == p;
        FrontIsReal(t, p);
      } else if k == |p| - 1 {
        assert p[..k] == front;
      } else {
        assert front == p[..|p| - 1];
        assert EvalComponents(t, front) == Missing;
      }
    }
    hide EvalComponents;
  }

  lemma FrontIsReal(t: Tree, p: seq<string>)
    requires IsRealPath(t, p) && p != []
    ensures EvalComponents(t, Parent(p)) == Real(Parent(p))
  {
    if IsDirectoryPath(t, p) {
      PrefixOfDirectoryPath(t, p, |p| - 1);
    }
    RealPathIsFixed(t, Parent(p));
  }

  /** When the directory of an accepted path is there or can be made, no name on the way
      to it is a link: every one that is there is a directory. So what lies under the
      path lies below a root in the tree itself. */
  lemma NoLinkOnTheWay(t: Tree, roots: seq<string>, rel: string)
    requires ValidRoots(roots) && Resolve(t, roots, rel).Ok?
    requires CanMake(t, Parent(Components(Resolve(t, roots, rel).value)))
    ensures var p := Components(Resolve(t, roots, rel).value);
      && Below(roots, p)
      && (forall i :: 0 < i < |p| && p[..i] in t ==> t[p[..i]].Directory?)
  {
    AcceptedIsCleanAndBelow(t, roots, rel);
    var k := AcceptedShape(t, roots, rel);
    var p := Components(Resolve(t, roots, rel).value);
    assert forall i :: 0 < i < |p| ==> p[..i] == p[..i];
    hide Resolve, Components, Below;
    forall i | 0 < i < |p| && p[..i] in t ensures t[p[..i]].Directory? {
      OnTheWay(t, p, k, i);
    }
  }

  lemma OnTheWay(t: Tree, p: seq<string>, k: nat, i: nat)
    requires IsNames(p) && k <= |p| && LongestThere(t, p, k)
    requires IsRealPath(t, p[..k]) && EvalComponents(t, p[..k]) == Real(p[..k])
    requires CanMake(t, Parent(p)) && 0 < i < |p| && p[..i] in t
    ensures t[p[..i]].Directory?
  {
    if i <= k {
      assert p[..k][..i] == p[..i];
      if !IsDirectoryPath(t, p[..k]) {
        if i < k {
          assert p[..k][..k - 1][..i] == p[..i];
        } else {
          RestIsMissing(t, p, k);
        }
      }
    } else {
      assert Parent(p) == p[..|p| - 1];
      MadeOnTheWay(t, p, k, |p| - 1, i);
    }
  }

  /** Making a directory makes what is missing above it. */
  lemma {:induction false} MadeOnTheWay(t: Tree, p: seq<string>, k: nat, j: nat, i: nat)
    requires k < i <= j <= |p| && LongestThere(t, p, k) && CanMake(t, p[..j])
    ensures p[..i] !in t
    decreases j
  {
    assert EvalComponents(t, p[..j]) == Missing;
    assert Parent(p[..j]) == p[..j - 1];
    if i < j {
      MadeOnTheWay(t, p, k, j - 1, i);
    }
  }

  /** Exactly then: the directory of an accepted path is there or can be made if and only
      if whatever is there on the way is a directory. */
  lemma CanMakeExactly(t: Tree, roots: seq<string>, rel: string)
    requires ValidRoots(roots) && Grounded(t) && Resolve(t, roots, rel).Ok?
    ensures var p := Components(Resolve(t, roots, rel).value);
      CanMake(t, Parent(p)) <==> forall i :: 0 < i < |p| && p[..i] in t ==> t[p[..i]].Directory?
  {
    var p := Components(Resolve(t, roots, rel).value);
    if CanMake(t, Parent(p)) {
      NoLinkOnTheWay(t, roots, rel);
    }
    if forall i :: 0 < i < |p| && p[..i] in t ==> t[p[..i]].Directory? {
      var k := AcceptedShape(t, roots, rel);
      hide Resolve, Components;
      if p != [] {
        assert Parent(p) == p[..|p| - 1];
        MadeAllTheWay(t, p, k, |p| - 1);
      } else {
        assert IsDirectoryPath(t, []);
        RealPathIsFixed(t, []);
      }
    }
  }

  lemma {:induction false} MadeAllTheWay(t: Tree, p: seq<string>, k: nat, j: nat)
    requires Grounded(t) && IsNames(p) && k <= |p| && LongestThere(t, p, k) && j < |p|
    requires IsRealPath(t, p[..k]) && EvalComponents(t, p[..k]) == Real(p[..k])
    requires forall i :: 0 < i < |p| && p[..i] in t ==> t[p[..i]].Directory?
    ensures CanMake(t, p[..j])
    decreases j
  {
    if j <= k {
      RealFront(t, p, k, j);
    } else {
      RestIsMissing(t, p, k);
      MadeAllTheWay(t, p, k, j - 1);
      assert Parent(p[..j]) == p[..j - 1];
      NothingThere(t, p, k, j);
    }
  }

  lemma RealFront(t: Tree, p: seq<string>, k: nat, j: nat)
    requires IsNames(p) && j <= k <= |p| && j < |p| && IsRealPath(t, p[..k])
    requires forall i :: 0 < i < |p| && p[..i] in t ==> t[p[..i]].Directory?
    ensures CanMake(t, p[..j])
  {
    var q := p[..k];
    assert q[..j] == p[..j];
    if !IsDirectoryPath(t, q) {
      assert q[..k - 1] == p[..k - 1];
      if j < k {
        assert q[..k - 1][..j] == p[..j];
        PrefixOfDirectoryPath(t, q[..k - 1], j);
      }
    } else {
      PrefixOfDirectoryPath(t, q, j);
    }
    assert IsDirectoryPath(t, p[..j]);
    RealPathIsFixed(t, p[..j]);
    assert j > 0 ==> p[..j][..j] == p[..j];
    hide EvalComponents;
  }

  lemma {:induction false} NothingThere(t: Tree, p: seq<string>, k: nat, j: nat)
    requires Grounded(t) && IsNames(p) && k < j < |p| && IsDirectoryPath(t, p[..k])
    requires forall i :: k < i <= |p| ==> Walk(t, p[..k], p[k..i], 0) == Missing
    requires forall i :: 0 < i < |p| && p[..i] in t ==> t[p[..i]].Directory?
    ensures p[..j] !in t
    decreases j
  {
    assert Parent(p[..j]) == p[..j - 1];
    if j == k + 1 {
      assert p[k..j] == [p[k]] && p[..k] + [p[k]] == p[..j];
      if p[..j] in t {
        OneStep(t, p[..k], p[k]);
      }
    } else {
      NothingThere(t, p, k, j - 1);
    }
  }

  /** A name in a real directory below a root is accepted. */
  lemma EntryAccepted(t: Tree, roots: seq<string>, rel: string, front: seq<string>, c: string)
    requires ValidRoots(roots) && IsAbs(rel) && '\0' !in rel && Components(rel) == front + [c]
    requires IsDirectoryPath(t, front) && IsName(c) && Below(roots, front + [c])
    requires front + [c] in t ==> t[front + [c]].File? || t[front + [c]].Directory?
    ensures Resolve(t, roots, rel) == Ok(Render(front + [c]))
  {
    var p := front + [c];
    UnderMeansBelow(roots, p);
    RealPathIsFixed(t, front);
    assert [] + front == front;
    WalkAlongReal(t, [], front, [c], 0);
    assert Candidate(roots, rel) == p;
    hide Components, Accepts, Below, IsDirectoryPath, Render;
    if p in t {
      assert EvalComponents(t, p) == Real(p) by {
        OneStep(t, front, c);
      }
      assert p + [] == p;
    } else {
      ExistingLast(t, front, c);
    }
    hide EvalComponents;
  }

  lemma OneStep(t: Tree, front: seq<string>, c: string)
    requires IsName(c) && front + [c] in t && (t[front + [c]].File? || t[front + [c]].Directory?)
    ensures Walk(t, front, [c], 0) == Real(front + [c])
  {
    assert [c][1..] == [];
    assert Walk(t, front + [c], [], 0) == Real(front + [c]);
  }
}
