// Paths, and the sets of files and directories a file system can hold.
module FileTrees {
  // A path below a tree, as its parts.
  type Rel = seq<string>

  // No path is both, the root is neither, and every ancestor is a directory.
  predicate WellFormed(files: set<Rel>, dirs: set<Rel>) {
    && files !! dirs
    && [] !in files && [] !in dirs
    && (forall rel, k :: rel in files && 0 < k < |rel| ==> rel[..k] in dirs)
    && (forall d, k :: d in dirs && 0 < k < |d| ==> d[..k] in dirs)
  }

  // The parent is the root or a directory.
  predicate ParentIn(dirs: set<Rel>, rel: Rel) {
    |rel| == 1 || (|rel| > 1 && rel[..|rel| - 1] in dirs)
  }

  predicate EmptyDir(files: set<Rel>, dirs: set<Rel>, d: Rel) {
    (forall rel :: rel in files ==> !(d < rel)) && (forall c :: c in dirs ==> !(d < c))
  }

  // Every directory some of the files need.
  function Required(files: set<Rel>): set<Rel> {
    set rel, k | rel in files && 0 < k < |rel| :: rel[..k]
  }

  // Files that can stand in one tree.
  predicate TreeLike(files: set<Rel>) {
    WellFormed(files, Required(files))
  }

  lemma RequiredIsAncestorClosed(files: set<Rel>, d: Rel, k: nat)
    requires d in Required(files) && 0 < k < |d|
    ensures d[..k] in Required(files)
  {
    var rel, j :| rel in files && 0 < j < |rel| && d == rel[..j];
    assert rel[..j][..k] == rel[..k];
  }

  lemma ParentsAreRequired(files: set<Rel>, rel: Rel, k: nat)
    requires rel in files && 0 < k < |rel|
    ensures rel[..k] in Required(files)
  {
  }

  lemma AboveFile(files: set<Rel>, rel: Rel, d: Rel)
    requires rel in files && d != [] && d < rel
    ensures d in Required(files)
  {
    assert rel[..|d|] == d;
  }

  lemma AboveRequired(files: set<Rel>, c: Rel, d: Rel)
    requires c in Required(files) && d != [] && d < c
    ensures d in Required(files)
  {
    RequiredIsAncestorClosed(files, c, |d|);
    assert c[..|d|] == d;
  }

  // The directories of a tree include the ones its files need.
  lemma WellFormedIsTreeLike(files: set<Rel>, dirs: set<Rel>)
    requires WellFormed(files, dirs)
    ensures Required(files) <= dirs && TreeLike(files)
  {
    forall d, k | d in Required(files) && 0 < k < |d| ensures d[..k] in Required(files) {
      RequiredIsAncestorClosed(files, d, k);
    }
  }

  // An unneeded directory of greatest depth holds nothing.
  lemma StaleIsEmpty(files: set<Rel>, dirs: set<Rel>, d: Rel)
    requires WellFormed(files, dirs) && d in dirs && d !in Required(files)
    requires forall c :: c in dirs && c !in Required(files) ==> |c| <= |d|
    ensures EmptyDir(files, dirs, d)
  {
    forall rel | rel in files ensures !(d < rel) {
      if d < rel {
        AboveFile(files, rel, d);
      }
    }
    forall c | c in dirs ensures !(d < c) {
      if d < c && c in Required(files) {
        AboveRequired(files, c, d);
      }
    }
  }

  lemma AddDir(files: set<Rel>, dirs: set<Rel>, d: Rel)
    requires WellFormed(files, dirs) && d !in files && d !in dirs && ParentIn(dirs, d)
    ensures WellFormed(files, dirs + {d})
  {
    forall k | 0 < k < |d| ensures d[..k] in dirs {
      var p := d[..|d| - 1];
      assert k == |p| || p[..k] == d[..k];
    }
  }

  lemma AddFile(files: set<Rel>, dirs: set<Rel>, rel: Rel)
    requires WellFormed(files, dirs) && rel !in dirs && ParentIn(dirs, rel)
    ensures WellFormed(files + {rel}, dirs)
  {
    forall k | 0 < k < |rel| ensures rel[..k] in dirs {
      var p := rel[..|rel| - 1];
      assert k == |p| || p[..k] == rel[..k];
    }
  }

  lemma DropFile(files: set<Rel>, dirs: set<Rel>, rel: Rel)
    requires WellFormed(files, dirs)
    ensures WellFormed(files - {rel}, dirs)
  {
  }

  lemma DropDir(files: set<Rel>, dirs: set<Rel>, d: Rel)
    requires WellFormed(files, dirs) && EmptyDir(files, dirs, d)
    ensures WellFormed(files, dirs - {d})
  {
    forall rel, k | rel in files && 0 < k < |rel| ensures rel[..k] != d {
      assert rel[..k] == d ==> d < rel;
    }
    forall c, k | c in dirs && 0 < k < |c| ensures c[..k] != d {
      assert c[..k] == d ==> d < c;
    }
  }

  // ---------------------------------------------------------------- orders of depth

  method Shallowest(s: set<Rel>) returns (r: Rel)
    requires s != {}
    ensures r in s && forall x :: x in s ==> |r| <= |x|
  {
    r :| r in s;
    var rest := s - {r};
    while rest != {}
      invariant r in s && rest <= s && forall x :: x in s && x !in rest ==> |r| <= |x|
      decreases |rest|
    {
      var x :| x in rest;
      if |x| < |r| {
        r := x;
      }
      rest := rest - {x};
    }
  }

  method Deepest(s: set<Rel>) returns (r: Rel)
    requires s != {}
    ensures r in s && forall x :: x in s ==> |x| <= |r|
  {
    r :| r in s;
    var rest := s - {r};
    while rest != {}
      invariant r in s && rest <= s && forall x :: x in s && x !in rest ==> |x| <= |r|
      decreases |rest|
    {
      var x :| x in rest;
      if |x| > |r| {
        r := x;
      }
      rest := rest - {x};
    }
  }
}
