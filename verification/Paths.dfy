/** Absolute slash-separated paths, as text and as lists of components. */
module Paths {
  import opened Text

  /** A component that stands for itself. */
  predicate IsName(n: string) {
    n != "" && n != "." && n != ".." && '/' !in n
  }

  predicate IsNames(cs: seq<string>) {
    forall i :: 0 <= i < |cs| ==> IsName(cs[i])
  }

  /** The text of a path; the root is "/". */
  function Render(cs: seq<string>): string {
    if cs == [] then "/" else Join([""] + cs, '/')
  }

  /** filepath.Clean on the pieces of an absolute path: empty pieces and "." go
      away, ".." takes the component in front of it along, and stops at "/". */
  function Clean(pieces: seq<string>, acc: seq<string>): seq<string>
    decreases |pieces|
  {
    if pieces == [] then acc
    else if pieces[0] == "" || pieces[0] == "." then Clean(pieces[1..], acc)
    else if pieces[0] == ".." then
      Clean(pieces[1..], if acc == [] then [] else acc[..|acc| - 1])
    else Clean(pieces[1..], acc + [pieces[0]])
  }

  /** The components of an absolute path. filepath.Clean(s) is
      Render(Components(s)). */
  function Components(s: string): seq<string> {
    Clean(Split(s, '/'), [])
  }

  predicate IsAbs(s: string) {
    s != "" && s[0] == '/'
  }

  /** Absolute and clean: cleaning leaves the text as it is. */
  predicate IsCleanPath(s: string) {
    s == Render(Components(s))
  }

  lemma {:induction false} CleanKeepsNames(pieces: seq<string>, acc: seq<string>)
    requires IsNames(acc)
    requires forall p :: p in pieces ==> '/' !in p
    ensures IsNames(Clean(pieces, acc))
    decreases |pieces|
  {
    if pieces != [] {
      var p := pieces[0];
      if p == "" || p == "." {
        CleanKeepsNames(pieces[1..], acc);
      } else if p == ".." {
        CleanKeepsNames(pieces[1..], if acc == [] then [] else acc[..|acc| - 1]);
      } else {
        CleanKeepsNames(pieces[1..], acc + [p]);
      }
    }
  }

  /** Cleaning always ends in proper names. */
  lemma ComponentsAreNames(s: string)
    ensures IsNames(Components(s))
  {
    SplitPieces(s, '/');
    CleanKeepsNames(Split(s, '/'), []);
  }

  lemma {:induction false} CleanFrom(pieces: seq<string>, acc: seq<string>)
    ensures forall c :: c in Clean(pieces, acc) ==> c in pieces || c in acc
    decreases |pieces|
  {
    if pieces != [] {
      var p := pieces[0];
      if p == "" || p == "." {
        CleanFrom(pieces[1..], acc);
      } else if p == ".." {
        CleanFrom(pieces[1..], if acc == [] then [] else acc[..|acc| - 1]);
      } else {
        CleanFrom(pieces[1..], acc + [p]);
      }
    }
  }

  /** Cleaning invents no character. */
  lemma ComponentsFrom(s: string, c: string, x: char)
    requires c in Components(s) && x in c
    ensures x in s
  {
    SplitPieces(s, '/');
    CleanFrom(Split(s, '/'), []);
  }

  lemma {:induction false} CleanNames(cs: seq<string>, acc: seq<string>)
    requires IsNames(cs)
    ensures Clean(cs, acc) == acc + cs
    decreases |cs|
  {
    if cs != [] {
      CleanNames(cs[1..], acc + [cs[0]]);
      assert acc + [cs[0]] + cs[1..] == acc + cs;
    }
  }

  lemma SplitRendered(cs: seq<string>)
    requires cs != [] && IsNames(cs)
    ensures Split(Render(cs), '/') == [""] + cs
  {
    SplitJoin([""] + cs, '/');
  }

  /** Reading a rendered path gives its components back. */
  lemma ComponentsRender(cs: seq<string>)
    requires IsNames(cs)
    ensures Components(Render(cs)) == cs
    ensures IsCleanPath(Render(cs))
  {
    if cs == [] {
      SplitField("", "", '/');
      assert "/" == "" + ['/'] + "";
      assert Split("/", '/') == ["", ""];
      assert Clean(["", ""], []) == Clean([""], []);
    } else {
      SplitRendered(cs);
      assert ([""] + cs)[1..] == cs;
      CleanNames(cs, []);
    }
  }

  // ---- The prefix test of the file API ---------------------------------------

  /** path == root || strings.HasPrefix(path, root + "/"). */
  predicate Accepts(root: string, path: string) {
    path == root || HasPrefix(path, root + "/")
  }

  lemma DescendantAccepted(root: seq<string>, rest: seq<string>)
    requires root != []
    ensures Accepts(Render(root), Render(root + rest))
  {
    if rest == [] {
      assert root + rest == root;
    } else {
      JoinConcat([""] + root, rest, '/');
      assert [""] + root + rest == [""] + (root + rest);
      hide Join;
      var text := Render(root + rest);
      assert text == Render(root) + ['/'] + Join(rest, '/');
      assert text[..|Render(root)| + 1] == Render(root) + "/";
    }
  }

  lemma AcceptedDescends(root: seq<string>, path: seq<string>)
    requires IsNames(root) && IsNames(path) && root != []
    requires HasPrefix(Render(path), Render(root) + "/")
    ensures root <= path
  {
    assert ([""] + root)[1..] == root;
    assert |Join([""] + root, '/')| >= 1;
    hide Split, Join;
    var text := Render(path);
    var t := text[|Render(root)| + 1..];
    assert text == Render(root) + ['/'] + t;
    assert path != [] by {
      assert |text| >= 2 && |Render([])| == 1;
    }
    SplitConcat(Render(root), t, '/');
    SplitRendered(root);
    SplitRendered(path);
    DropEmpty(root, path, Split(t, '/'));
  }

  lemma DropEmpty(root: seq<string>, path: seq<string>, rest: seq<string>)
    requires [""] + path == [""] + root + rest
    ensures root <= path
  {
    assert path == ([""] + path)[1..] == ([""] + root + rest)[1..] == root + rest;
  }

  /** The test with the separator accepts exactly the root and what lies below it
      component by component, except that below the root directory "/" it accepts
      nothing: there it would look for a second slash. */
  lemma AcceptsExactly(root: seq<string>, path: seq<string>)
    requires IsNames(root) && IsNames(path)
    ensures Accepts(Render(root), Render(path)) <==> root <= path && (root == [] ==> path == [])
  {
    ComponentsRender(root);
    ComponentsRender(path);
    if root == [] {
      if path != [] {
        assert ([""] + path)[1..] == path;
        assert Render(path) == "" + ['/'] + Join(path, '/');
        assert Render(path)[1] == path[0][0] && path[0][0] in path[0];
        assert ("/" + "/")[1] == '/';
      }
    } else if root <= path {
      DescendantAccepted(root, path[|root|..]);
      assert root + path[|root|..] == path;
    } else if HasPrefix(Render(path), Render(root) + "/") {
      AcceptedDescends(root, path);
    }
  }

  // ---- Cleaning, on the text -------------------------------------------------------

  lemma {:induction false} CleanInTwo(a: seq<string>, b: seq<string>, acc: seq<string>)
    ensures Clean(a + b, acc) == Clean(b, Clean(a, acc))
    decreases |a|
  {
    if a == [] {
      assert a + b == b;
    } else {
      var p := a[0];
      assert (a + b)[1..] == a[1..] + b;
      CleanInTwo(a[1..], b,
        if p == "" || p == "." then acc else if p == ".." then (if acc == [] then [] else acc[..|acc| - 1]) else acc + [p]);
    }
  }

  /** Behind a slash cleaning goes on from what is in front of it. */
  lemma ComponentsInTwo(a: string, b: string)
    ensures Components(a + "/" + b) == Clean(Split(b, '/'), Components(a))
  {
    SplitConcat(a, b, '/');
    CleanInTwo(Split(a, '/'), Split(b, '/'), []);
    assert a + "/" + b == a + ['/'] + b;
    hide Split, Clean;
  }

  /** One piece in front of more. */
  lemma PieceFirst(n: string, b: string, acc: seq<string>)
    requires '/' !in n
    ensures Clean(Split(n + "/" + b, '/'), acc) == Clean(Split(b, '/'), Clean([n], acc))
  {
    SplitField(n, b, '/');
    assert n + "/" + b == n + ['/'] + b;
    CleanInTwo([n], Split(b, '/'), acc);
    hide Split, Clean;
  }

  /** Empty pieces and "." vanish, wherever they stand. */
  lemma NothingVanishes(a: string, b: string)
    ensures Components(a + "/" + ("" + "/" + b)) == Components(a + "/" + b)
    ensures Components(a + "/" + ("." + "/" + b)) == Components(a + "/" + b)
    ensures Components(a + "/") == Components(a)
  {
    ComponentsInTwo(a, "" + "/" + b);
    ComponentsInTwo(a, "." + "/" + b);
    ComponentsInTwo(a, b);
    PieceFirst("", b, Components(a));
    PieceFirst(".", b, Components(a));
    ComponentsInTwo(a, "");
    assert a + "/" + "" == a + "/";
    assert Clean([""], Components(a)) == Components(a) && Clean(["."], Components(a)) == Components(a);
    assert Split("", '/') == [""];
    hide Split, Clean, Components;
  }

  /** A name and ".." behind it cancel, wherever they stand. */
  lemma NameCancels(a: string, n: string, b: string)
    requires IsName(n)
    ensures Components(a + "/" + (n + "/" + (".." + "/" + b))) == Components(a + "/" + b)
  {
    var acc := Components(a);
    ComponentsInTwo(a, n + "/" + (".." + "/" + b));
    ComponentsInTwo(a, b);
    PieceFirst(n, ".." + "/" + b, acc);
    PieceFirst("..", b, acc + [n]);
    assert Clean([n], acc) == acc + [n];
    assert (acc + [n])[..|acc + [n]| - 1] == acc;
    assert Clean([".."], acc + [n]) == acc;
    hide Split, Clean, Components;
  }

  /** At the top ".." stays there. */
  lemma TopStays(b: string)
    ensures Components("" + "/" + (".." + "/" + b)) == Components("" + "/" + b)
  {
    assert Split("", '/') == [""] && Clean([""], []) == [] && Clean([".."], []) == [];
    assert Components("") == [];
    ComponentsInTwo("", ".." + "/" + b);
    ComponentsInTwo("", b);
    PieceFirst("..", b, []);
    hide Split, Clean, Components;
  }

  /** Names behind a path are its components followed by theirs. */
  lemma NamesBehind(a: string, cs: seq<string>)
    requires IsNames(cs)
    ensures Components(a + "/" + Join(cs, '/')) == Components(a) + cs
  {
    ComponentsInTwo(a, Join(cs, '/'));
    if cs == [] {
      assert Split("", '/') == [""];
      assert Clean([""], Components(a)) == Components(a);
    } else {
      SplitJoin(cs, '/');
      CleanNames(cs, Components(a));
    }
    hide Split, Clean, Components;
  }
}
