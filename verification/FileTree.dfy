/** A directory tree with symbolic links, and filepath.EvalSymlinks over it. */
module FileTree {
  import opened Wrappers
  import opened Text
  import opened Paths

  /** What lstat finds under a name. `Blocked` is any failure other than "does
      not exist". */
  datatype Node = Directory | File | Link(target: string) | Blocked

  type Tree = map<seq<string>, Node>

  /** The outcome of resolving links: the real path, "does not exist", or another
      failure (a file used as a directory, too many links, no permission). */
  datatype Eval = Real(path: seq<string>) | Missing | Broken

  const MAX_LINKS: nat := 255

  /** The walk of filepath.EvalSymlinks: `dest` is resolved already, `todo` are the
      pieces still ahead. A link puts its target in front of them. */
  function Walk(t: Tree, dest: seq<string>, todo: seq<string>, links: nat): Eval
    requires links <= MAX_LINKS
    decreases MAX_LINKS - links, |todo|
  {
    if todo == [] then Real(dest)
    else
      var c, rest := todo[0], todo[1..];
      if c == "" || c == "." then Walk(t, dest, rest, links)
      else if c == ".." then
        Walk(t, if dest == [] then [] else dest[..|dest| - 1], rest, links)
      else
        var here := dest + [c];
        if here !in t then Missing
        else
          match t[here]
          case Directory => Walk(t, here, rest, links)
          case File => if rest == [] then Real(here) else Broken
          case Blocked => Broken
          case Link(target) =>
            if links == MAX_LINKS then Broken
            else Walk(t, if IsAbs(target) then [] else dest, Split(target, '/') + rest, links + 1)
  }

  /** filepath.EvalSymlinks on an absolute path. */
  function EvalSymlinks(t: Tree, path: string): Eval {
    Walk(t, [], Split(path, '/'), 0)
  }

  function EvalComponents(t: Tree, cs: seq<string>): Eval {
    Walk(t, [], cs, 0)
  }

  lemma EvalRendered(t: Tree, cs: seq<string>)
    requires IsNames(cs)
    ensures EvalSymlinks(t, Render(cs)) == EvalComponents(t, cs)
  {
    if cs == [] {
      assert "/" == "" + ['/'] + "";
      SplitField("", "", '/');
      SplitWhole("", '/');
      assert Split("/", '/') == ["", ""];
      assert Walk(t, [], ["", ""], 0) == Walk(t, [], [""], 0);
    } else {
      SplitRendered(cs);
      assert ([""] + cs)[1..] == cs;
    }
  }

  // ---- Real paths --------------------------------------------------------------

  /** Every step along `p` is a directory, none a link. */
  ghost predicate IsDirectoryPath(t: Tree, p: seq<string>) {
    && IsNames(p)
    && forall i :: 0 < i <= |p| ==> p[..i] in t && t[p[..i]].Directory?
  }

  /** A path without links that exists: directories, and at the end a directory
      or a file. */
  ghost predicate IsRealPath(t: Tree, p: seq<string>) {
    || IsDirectoryPath(t, p)
    || (p != [] && IsNames(p) && IsDirectoryPath(t, p[..|p| - 1]) && p in t && t[p].File?)
  }

  lemma StepDown(t: Tree, p: seq<string>, c: string)
    requires IsDirectoryPath(t, p) && IsName(c) && p + [c] in t && t[p + [c]].Directory?
    ensures IsDirectoryPath(t, p + [c])
  {
    forall i | 0 < i <= |p| + 1
      ensures (p + [c])[..i] in t && t[(p + [c])[..i]].Directory?
    {
      if i == |p| + 1 {
        assert (p + [c])[..i] == p + [c];
      } else {
        assert (p + [c])[..i] == p[..i];
      }
    }
  }

  lemma PrefixOfDirectoryPath(t: Tree, p: seq<string>, k: nat)
    requires IsDirectoryPath(t, p) && k <= |p|
    ensures IsDirectoryPath(t, p[..k])
  {
    assert forall i :: 0 < i <= k ==> p[..k][..i] == p[..i];
  }

  predicate ArePieces(todo: seq<string>) {
    forall i :: 0 <= i < |todo| ==> '/' !in todo[i]
  }

  /** Whatever the links say, a successful walk ends on a real path. */
  lemma {:induction false} WalkEndsReal(t: Tree, dest: seq<string>, todo: seq<string>, links: nat)
    requires links <= MAX_LINKS && IsDirectoryPath(t, dest) && ArePieces(todo)
    ensures Walk(t, dest, todo, links).Real? ==> IsRealPath(t, Walk(t, dest, todo, links).path)
    decreases MAX_LINKS - links, |todo|
  {
    if todo != [] {
      var c, rest := todo[0], todo[1..];
      var here := dest + [c];
      if c == "" || c == "." {
        WalkEndsReal(t, dest, rest, links);
      } else if c == ".." {
        if dest != [] {
          PrefixOfDirectoryPath(t, dest, |dest| - 1);
        }
        WalkEndsReal(t, if dest == [] then [] else dest[..|dest| - 1], rest, links);
      } else if here in t {
        match t[here]
        case Directory =>
          StepDown(t, dest, c);
          WalkEndsReal(t, here, rest, links);
        case File =>
          assert here[..|here| - 1] == dest;
        case Blocked =>
        case Link(target) =>
          if links < MAX_LINKS {
            SplitPieces(target, '/');
            WalkEndsReal(t, if IsAbs(target) then [] else dest, Split(target, '/') + rest, links + 1);
          }
      }
    }
  }

  /** Walking down directories that are no links changes nothing. */
  lemma {:induction false} WalkAlongReal(t: Tree, dest: seq<string>, down: seq<string>, todo: seq<string>, links: nat)
    requires links <= MAX_LINKS && IsDirectoryPath(t, dest + down)
    ensures Walk(t, dest, down + todo, links) == Walk(t, dest + down, todo, links)
    decreases |down|
  {
    if down == [] {
      assert down + todo == todo && dest + down == dest;
    } else {
      var here := dest + [down[0]];
      assert (dest + down)[..|here|] == here;
      assert (dest + down)[|dest|] == down[0];
      assert (down + todo)[1..] == down[1..] + todo;
      assert here + down[1..] == dest + down;
      WalkAlongReal(t, here, down[1..], todo, links);
    }
  }

  /** A real path resolves to itself. */
  lemma RealPathIsFixed(t: Tree, p: seq<string>)
    requires IsRealPath(t, p)
    ensures EvalComponents(t, p) == Real(p)
  {
    if IsDirectoryPath(t, p) {
      assert p + [] == p && [] + p == p;
      WalkAlongReal(t, [], p, [], 0);
    } else {
      var front, last := p[..|p| - 1], [p[|p| - 1]];
      assert p == front + last && [] + front == front;
      WalkAlongReal(t, [], front, last, 0);
    }
  }

  /** A link to a real directory leads there. */
  lemma LinkToDirectory(t: Tree, front: seq<string>, c: string, dir: seq<string>)
    requires IsDirectoryPath(t, front) && IsName(c) && IsDirectoryPath(t, dir) && dir != []
    requires front + [c] in t && t[front + [c]] == Link(Render(dir))
    ensures EvalComponents(t, front + [c]) == Real(dir)
  {
    SplitRendered(dir);
    assert [] + front == front && [] + dir == dir && dir + [] == dir;
    WalkAlongReal(t, [], front, [c], 0);
    assert [""] + dir + [] == [""] + dir && ([""] + dir)[1..] == dir;
    WalkAlongReal(t, [], dir, [], 1);
    assert IsAbs(Render(dir)) by { RenderStarts(dir); }
    assert Walk(t, [], [""] + dir, 1) == Walk(t, [], dir, 1);
  }

  /** What is behind a file or behind something blocked does not count as missing. */
  lemma BehindAFile(t: Tree, front: seq<string>, c: string, rest: seq<string>)
    requires IsDirectoryPath(t, front) && IsName(c) && front + [c] in t
    ensures t[front + [c]].File? && rest != [] ==> EvalComponents(t, front + [c] + rest) == Broken
    ensures t[front + [c]].Blocked? ==> EvalComponents(t, front + [c] + rest) == Broken
  {
    assert [] + front == front && front + [c] + rest == front + ([c] + rest) && ([c] + rest)[1..] == rest;
    WalkAlongReal(t, [], front, [c] + rest, 0);
  }

  // ---- Cutting a walk in two ----------------------------------------------------

  /** A walk that did not fail on the way does the same with links to spare. */
  lemma {:induction false} FewerLinks(t: Tree, dest: seq<string>, todo: seq<string>, n: nat, m: nat)
    requires m <= n <= MAX_LINKS && !Walk(t, dest, todo, n).Broken?
    ensures Walk(t, dest, todo, m) == Walk(t, dest, todo, n)
    decreases MAX_LINKS - n, |todo|
  {
    if todo != [] {
      var c, rest := todo[0], todo[1..];
      var here := dest + [c];
      if c == "" || c == "." {
        FewerLinks(t, dest, rest, n, m);
      } else if c == ".." {
        FewerLinks(t, if dest == [] then [] else dest[..|dest| - 1], rest, n, m);
      } else if here in t {
        match t[here]
        case Directory => FewerLinks(t, here, rest, n, m);
        case File =>
        case Blocked =>
        case Link(target) =>
          FewerLinks(t, if IsAbs(target) then [] else dest, Split(target, '/') + rest, n + 1, m + 1);
      }
    }
  }

  /** If a path resolves and a longer one does not exist, the path is a directory
      and what is left of the longer one does not exist below it. */
  lemma {:induction false} MissingBelow(t: Tree, dest: seq<string>, a: seq<string>, b: seq<string>, n: nat)
    requires n <= MAX_LINKS && IsDirectoryPath(t, dest) && ArePieces(a)
    requires Walk(t, dest, a, n).Real? && b != []
    requires Walk(t, dest, a + b, n) == Missing
    ensures Walk(t, Walk(t, dest, a, n).path, b, 0) == Missing
    ensures IsDirectoryPath(t, Walk(t, dest, a, n).path)
    decreases MAX_LINKS - n, |a|
  {
    if a == [] {
      assert a + b == b;
      FewerLinks(t, dest, b, n, 0);
    } else {
      var c, rest := a[0], a[1..];
      assert (a + b)[1..] == rest + b;
      var here := dest + [c];
      if c == "" || c == "." {
        MissingBelow(t, dest, rest, b, n);
      } else if c == ".." {
        if dest != [] {
          PrefixOfDirectoryPath(t, dest, |dest| - 1);
        }
        MissingBelow(t, if dest == [] then [] else dest[..|dest| - 1], rest, b, n);
      } else {
        match t[here]
        case Directory =>
          StepDown(t, dest, c);
          MissingBelow(t, here, rest, b, n);
        case File =>
        case Link(target) =>
          SplitPieces(target, '/');
          assert Split(target, '/') + rest + b == Split(target, '/') + (rest + b);
          MissingBelow(t, if IsAbs(target) then [] else dest, Split(target, '/') + rest, b, n + 1);
      }
    }
  }

  // ---- Opening for writing ---------------------------------------------------------

  /** The kernel follows fewer links than EvalSymlinks. */
  const OPEN_LINKS: nat := 40

  /** Where open with O_CREATE ends up: the file it opens or creates, following links,
      also one that leads to nothing yet. None: it fails. */
  function Opens(t: Tree, dest: seq<string>, todo: seq<string>, links: nat): Option<seq<string>>
    requires links <= OPEN_LINKS
    decreases OPEN_LINKS - links, |todo|
  {
    if todo == [] then None
    else
      var c, rest := todo[0], todo[1..];
      if c == "" || c == "." then Opens(t, dest, rest, links)
      else if c == ".." then
        Opens(t, if dest == [] then [] else dest[..|dest| - 1], rest, links)
      else
        var here := dest + [c];
        if here !in t then (if rest == [] then Some(here) else None)
        else
          match t[here]
          case Directory => Opens(t, here, rest, links)
          case File => if rest == [] then Some(here) else None
          case Blocked => None
          case Link(target) =>
            if links == OPEN_LINKS then None
            else Opens(t, if IsAbs(target) then [] else dest, Split(target, '/') + rest, links + 1)
  }

  predicate IsDirectoryAt(t: Tree, p: seq<string>) {
    p == [] || (p in t && t[p].Directory?)
  }

  function Parent(p: seq<string>): seq<string> {
    if p == [] then [] else p[..|p| - 1]
  }

  /** The directory entry a path names: its last name in the real directory in front of
      it. Two paths are one file exactly if they name one entry. */
  function Entry(t: Tree, p: seq<string>): Option<seq<string>> {
    if p == [] then None
    else
      match EvalComponents(t, Parent(p))
      case Real(d) => Some(d + [p[|p| - 1]])
      case _ => None
  }

  /** os.MkdirAll: a directory that is there, or one that can be made below one. A link
      that leads to nothing is in the way. */
  predicate CanMake(t: Tree, dir: seq<string>)
    decreases |dir|
  {
    match EvalComponents(t, dir)
    case Real(p) => IsDirectoryAt(t, p)
    case _ => dir != [] && dir !in t && CanMake(t, Parent(dir))
  }

  /** Where a copy to `target` goes once its directory was made. */
  function CopyTo(t: Tree, target: seq<string>): Option<seq<string>> {
    if EvalComponents(t, Parent(target)).Real? then Opens(t, [], target, 0) else Some(target)
  }

  /** Opening ends on a file or on nothing, never on a link. */
  lemma {:induction false} OpensNoLink(t: Tree, dest: seq<string>, todo: seq<string>, links: nat)
    requires links <= OPEN_LINKS
    ensures var r := Opens(t, dest, todo, links);
      r.Some? && r.value in t ==> t[r.value].File?
    decreases OPEN_LINKS - links, |todo|
  {
    if todo != [] {
      var c, rest := todo[0], todo[1..];
      var here := dest + [c];
      if c == "" || c == "." {
        OpensNoLink(t, dest, rest, links);
      } else if c == ".." {
        OpensNoLink(t, if dest == [] then [] else dest[..|dest| - 1], rest, links);
      } else if here in t {
        match t[here]
        case Directory => OpensNoLink(t, here, rest, links);
        case File =>
        case Blocked =>
        case Link(target) =>
          if links < OPEN_LINKS {
            OpensNoLink(t, if IsAbs(target) then [] else dest, Split(target, '/') + rest, links + 1);
          }
      }
    }
  }

  /** What does not exist is created where nothing is. */
  lemma {:induction false} OpensNothing(t: Tree, dest: seq<string>, todo: seq<string>, links: nat)
    requires links <= OPEN_LINKS && Walk(t, dest, todo, links) == Missing
    ensures var r := Opens(t, dest, todo, links);
      r.Some? ==> r.value !in t
    decreases OPEN_LINKS - links, |todo|
  {
    if todo != [] {
      var c, rest := todo[0], todo[1..];
      var here := dest + [c];
      if c == "" || c == "." {
        OpensNothing(t, dest, rest, links);
      } else if c == ".." {
        OpensNothing(t, if dest == [] then [] else dest[..|dest| - 1], rest, links);
      } else if here in t {
        match t[here]
        case Directory => OpensNothing(t, here, rest, links);
        case File =>
        case Blocked =>
        case Link(target) =>
          if links < OPEN_LINKS {
            OpensNothing(t, if IsAbs(target) then [] else dest, Split(target, '/') + rest, links + 1);
          }
      }
    }
  }

  /** Opening walks down directories that are no links as it is told. */
  lemma {:induction false} OpensAlongReal(t: Tree, dest: seq<string>, down: seq<string>, todo: seq<string>, links: nat)
    requires links <= OPEN_LINKS && IsDirectoryPath(t, dest + down)
    ensures Opens(t, dest, down + todo, links) == Opens(t, dest + down, todo, links)
    decreases |down|
  {
    if down == [] {
      assert down + todo == todo && dest + down == dest;
    } else {
      var here := dest + [down[0]];
      assert (dest + down)[..|here|] == here;
      assert (dest + down)[|dest|] == down[0];
      assert (down + todo)[1..] == down[1..] + todo;
      assert here + down[1..] == dest + down;
      OpensAlongReal(t, here, down[1..], todo, links);
    }
  }

  /** A link to a file that is not there, in a directory that is: following it fails,
      opening it makes the file. */
  lemma LinkToNothing(t: Tree, front: seq<string>, c: string, dir: seq<string>, n: string)
    requires IsDirectoryPath(t, front) && IsDirectoryPath(t, dir) && IsName(c) && IsName(n)
    requires front + [c] in t && t[front + [c]] == Link(Render(dir + [n])) && dir + [n] !in t
    ensures EvalComponents(t, front + [c]) == Missing
    ensures CopyTo(t, front + [c]) == Some(dir + [n])
  {
    var p := dir + [n];
    SplitRendered(p);
    assert [] + front == front && [] + dir == dir && Parent(front + [c]) == front;
    WalkAlongReal(t, [], front, [c], 0);
    OpensAlongReal(t, [], front, [c], 0);
    RealPathIsFixed(t, front);
    assert [""] + p + [] == [""] + p && ([""] + p)[1..] == p;
    WalkAlongReal(t, [], dir, [n], 1);
    OpensAlongReal(t, [], dir, [n], 1);
    assert Walk(t, dir, [n], 1) == Missing && Opens(t, dir, [n], 1) == Some(p);
    assert Render(p)[0] == '/' by {
      RenderStarts(p);
    }
    assert Walk(t, [], [""] + p, 1) == Walk(t, [], p, 1) && Opens(t, [], [""] + p, 1) == Opens(t, [], p, 1);
  }

  lemma RenderStarts(p: seq<string>)
    ensures IsAbs(Render(p))
  {
  }

  // ---- Links, by what they lead to ------------------------------------------------------

  /** A relative link starts from the directory it lies in, and ".." in it leads to the
      parent of that. */
  lemma RelativeLink(t: Tree, front: seq<string>, c: string, cs: seq<string>)
    requires IsDirectoryPath(t, front) && IsName(c) && cs != [] && front + [c] in t
    ensures IsDirectoryPath(t, front + cs) && t[front + [c]] == Link(Join(cs, '/')) ==>
      EvalComponents(t, front + [c]) == Real(front + cs)
    ensures front != [] && IsDirectoryPath(t, Parent(front) + cs) && t[front + [c]] == Link(Join([".."] + cs, '/')) ==>
      EvalComponents(t, front + [c]) == Real(Parent(front) + cs)
  {
    assert [] + front == front;
    WalkAlongReal(t, [], front, [c], 0);
    assert cs + [] == cs && [".."] + cs + [] == [".."] + cs && ([".."] + cs)[1..] == cs;
    if IsDirectoryPath(t, front + cs) && t[front + [c]] == Link(Join(cs, '/')) {
      assert IsNames(cs) by { LastNames(front, cs); }
      SplitJoin(cs, '/');
      assert !IsAbs(Join(cs, '/')) by { JoinStarts(cs); }
      WalkAlongReal(t, front, cs, [], 1);
    }
    if front != [] && IsDirectoryPath(t, Parent(front) + cs) && t[front + [c]] == Link(Join([".."] + cs, '/')) {
      assert IsNames(cs) by { LastNames(Parent(front), cs); }
      SplitJoin([".."] + cs, '/');
      assert !IsAbs(Join([".."] + cs, '/')) by { JoinStarts([".."] + cs); }
      WalkAlongReal(t, Parent(front), cs, [], 1);
      assert Walk(t, front, [".."] + cs, 1) == Walk(t, Parent(front), cs, 1);
    }
  }

  lemma LastNames(front: seq<string>, cs: seq<string>)
    requires IsNames(front + cs)
    ensures IsNames(cs)
  {
    forall i | 0 <= i < |cs| ensures IsName(cs[i]) {
      assert (front + cs)[|front| + i] == cs[i];
    }
  }

  lemma JoinStarts(cs: seq<string>)
    requires cs != [] && cs[0] != "" && cs[0][0] != '/'
    ensures !IsAbs(Join(cs, '/'))
  {
  }

  /** A link that leads to itself, and whatever is asked for behind it, is an error and
      not "does not exist". */
  lemma LoopIsBroken(t: Tree, front: seq<string>, c: string, rest: seq<string>, links: nat)
    requires IsDirectoryPath(t, front) && IsName(c) && links <= MAX_LINKS
    requires front + [c] in t && t[front + [c]] == Link(Render(front + [c]))
    ensures Walk(t, front, [c] + rest, links) == Broken
    decreases MAX_LINKS - links
  {
    var p := front + [c];
    assert ([c] + rest)[1..] == rest;
    if links < MAX_LINKS {
      LoopIsBroken(t, front, c, rest, links + 1);
      SplitRendered(p);
      RenderStarts(p);
      assert [""] + p + rest == [""] + (p + rest) && ([""] + (p + rest))[1..] == p + rest;
      assert p + rest == front + ([c] + rest) && [] + front == front;
      WalkAlongReal(t, [], front, [c] + rest, links + 1);
      assert Walk(t, [], [""] + (p + rest), links + 1) == Walk(t, [], p + rest, links + 1);
    }
  }

  /** Opening leads where evaluating leads, and to nothing where that finds nothing: the
      kernel and EvalSymlinks follow links alike, as far as the kernel follows them. */
  lemma {:induction false} OpensAgrees(t: Tree, dest: seq<string>, todo: seq<string>, links: nat)
    requires links <= OPEN_LINKS
    ensures var r := Opens(t, dest, todo, links);
      r.Some? ==> Walk(t, dest, todo, links) == if r.value in t then Real(r.value) else Missing
    decreases OPEN_LINKS - links, |todo|
  {
    if todo != [] {
      var c, rest := todo[0], todo[1..];
      var here := dest + [c];
      if c == "" || c == "." {
        OpensAgrees(t, dest, rest, links);
      } else if c == ".." {
        OpensAgrees(t, if dest == [] then [] else dest[..|dest| - 1], rest, links);
      } else if here in t {
        match t[here]
        case Directory => OpensAgrees(t, here, rest, links);
        case File =>
        case Blocked =>
        case Link(target) =>
          if links < OPEN_LINKS {
            OpensAgrees(t, if IsAbs(target) then [] else dest, Split(target, '/') + rest, links + 1);
          }
      }
    }
  }
}
