/** The abstract filesystem the terminal commands act on: a map from a path,
    as its sequence of names from the root (`[]`), to a
    regular file (its lines) or a directory (its entries in listing order). */
module FileSystem {
  import opened Wrappers

  type Path = seq<string>

  datatype Node = File(lines: seq<string>) | Dir(children: seq<string>)

  type FS = map<Path, Node>

  /** `File.isFile()`. */
  predicate IsFile(fs: FS, p: Path) { p in fs && fs[p].File? }

  /** `File.isDirectory()`. */
  predicate IsDir(fs: FS, p: Path) { p in fs && fs[p].Dir? }

  function Parent(p: Path): (q: Path)
    requires p != []
    ensures |q| == |p| - 1 && q < p
  {
    p[..|p| - 1]
  }

  function Name(p: Path): string
    requires p != []
  {
    p[|p| - 1]
  }

  predicate Distinct(names: seq<string>) {
    forall i, j :: 0 <= i < j < |names| ==> names[i] != names[j]
  }

  /** The root exists and is a directory. */
  ghost predicate RootIsDir(fs: FS) { IsDir(fs, []) }

  /** Every entry but the root is listed by its parent directory. */
  ghost predicate ParentsList(fs: FS) {
    forall p :: p in fs && p != [] ==> IsDir(fs, Parent(p)) && Name(p) in fs[Parent(p)].children
  }

  /** Every name a directory lists exists. */
  ghost predicate ChildrenExist(fs: FS) {
    forall p, n :: IsDir(fs, p) && n in fs[p].children ==> p + [n] in fs
  }

  /** No directory lists a name twice. */
  ghost predicate ListingsDistinct(fs: FS) {
    forall p :: IsDir(fs, p) ==> Distinct(fs[p].children)
  }

  ghost predicate WellFormed(fs: FS) {
    RootIsDir(fs) && ParentsList(fs) && ChildrenExist(fs) && ListingsDistinct(fs)
  }

  lemma ParentName(p: Path)
    requires p != []
    ensures Parent(p) + [Name(p)] == p
  {
  }

  lemma ChildParent(q: Path, n: string)
    ensures q + [n] != [] && Parent(q + [n]) == q && Name(q + [n]) == n
  {
    assert (q + [n])[..|q|] == q;
  }

  /** A sequence is distinct exactly when its head is not in its distinct tail. */
  lemma DistinctCons(names: seq<string>)
    requires names != []
    ensures Distinct(names) <==> names[0] !in names[1..] && Distinct(names[1..])
  {
    if names[0] in names[1..] {
      var k :| 0 <= k < |names[1..]| && names[1..][k] == names[0];
      assert names[k + 1] == names[0];
    }
    if names[0] !in names[1..] && Distinct(names[1..]) {
      forall i, j | 0 <= i < j < |names|
        ensures names[i] != names[j]
      {
        if i == 0 {
          assert names[j] == names[1..][j - 1];
        } else {
          assert names[i] == names[1..][i - 1] && names[j] == names[1..][j - 1];
        }
      }
    }
  }

  /** `names` without `n`. */
  function Remove(names: seq<string>, n: string): (r: seq<string>)
    ensures forall m :: m in r <==> m in names && m != n
    ensures Distinct(names) ==> Distinct(r)
  {
    if names == [] then []
    else if names[0] == n then Remove(names[1..], n)
    else
      var rest := Remove(names[1..], n);
      DistinctCons(names);
      DistinctCons([names[0]] + rest);
      assert ([names[0]] + rest)[1..] == rest;
      [names[0]] + rest
  }

  /** `Files.delete`: the entry disappears and its parent no longer lists it. */
  function Delete(fs: FS, p: Path): (r: FS)
    requires p != [] && IsDir(fs, Parent(p))
    ensures r.Keys == fs.Keys - {p}
    ensures IsDir(r, Parent(p)) && Name(p) !in r[Parent(p)].children
    ensures forall m :: m in r[Parent(p)].children <==> m in fs[Parent(p)].children && m != Name(p)
    ensures forall q :: q in r && q != Parent(p) ==> r[q] == fs[q]
  {
    (fs - {p})[Parent(p) := Dir(Remove(fs[Parent(p)].children, Name(p)))]
  }

  /** A new entry, listed last by its parent. */
  function Add(fs: FS, p: Path, node: Node): (r: FS)
    requires p != [] && IsDir(fs, Parent(p))
    ensures r.Keys == fs.Keys + {p}
    ensures r[p] == node
    ensures IsDir(r, Parent(p)) && r[Parent(p)].children == fs[Parent(p)].children + [Name(p)]
    ensures forall q :: q in fs && q != Parent(p) && q != p ==> r[q] == fs[q]
  {
    fs[p := node][Parent(p) := Dir(fs[Parent(p)].children + [Name(p)])]
  }

  /** Deleting a regular file or an empty directory keeps the filesystem well formed. */
  lemma {:induction false} DeletePreserves(fs: FS, p: Path)
    requires WellFormed(fs) && p != [] && p in fs
    requires fs[p].File? || fs[p].children == []
    ensures IsDir(fs, Parent(p))
    ensures WellFormed(Delete(fs, p))
  {
    DeleteKeepsParents(fs, p);
    DeleteKeepsChildren(fs, p);
  }

  lemma {:induction false} DeleteKeepsParents(fs: FS, p: Path)
    requires ParentsList(fs) && p != [] && p in fs
    requires fs[p].File? || fs[p].children == []
    ensures IsDir(fs, Parent(p))
    ensures ParentsList(Delete(fs, p))
  {
    var q, n := Parent(p), Name(p);
    var r := Delete(fs, p);
    forall s | s in r && s != []
      ensures IsDir(r, Parent(s)) && Name(s) in r[Parent(s)].children
    {
      assert s in fs;
      if Parent(s) == p {
        assert false;
      }
      if Parent(s) == q {
        ParentName(s);
        ParentName(p);
        assert Name(s) != n;
      }
    }
  }

  lemma {:induction false} DeleteKeepsChildren(fs: FS, p: Path)
    requires RootIsDir(fs) && ChildrenExist(fs) && ListingsDistinct(fs) && p != [] && IsDir(fs, Parent(p))
    ensures RootIsDir(Delete(fs, p)) && ChildrenExist(Delete(fs, p)) && ListingsDistinct(Delete(fs, p))
  {
    var q, n := Parent(p), Name(p);
    var r := Delete(fs, p);
    ParentName(p);
    forall s, m | IsDir(r, s) && m in r[s].children
      ensures s + [m] in r
    {
      ChildParent(s, m);
      assert s + [m] in fs;
    }
  }

  /** Adding a regular file or an empty directory under an existing directory
      keeps the filesystem well formed. */
  lemma {:induction false} AddPreserves(fs: FS, p: Path, node: Node)
    requires WellFormed(fs) && p != [] && p !in fs && IsDir(fs, Parent(p))
    requires node.File? || node.children == []
    ensures WellFormed(Add(fs, p, node))
  {
    AddKeepsParents(fs, p, node);
    AddKeepsChildren(fs, p, node);
  }

  lemma {:induction false} AddKeepsParents(fs: FS, p: Path, node: Node)
    requires ParentsList(fs) && p != [] && p !in fs && IsDir(fs, Parent(p))
    ensures ParentsList(Add(fs, p, node))
  {
    var r := Add(fs, p, node);
    forall s | s in r && s != []
      ensures IsDir(r, Parent(s)) && Name(s) in r[Parent(s)].children
    {
      if s != p {
        assert s in fs;
        assert Parent(s) != p;
      }
    }
  }

  lemma {:induction false} AddKeepsChildren(fs: FS, p: Path, node: Node)
    requires RootIsDir(fs) && ChildrenExist(fs) && ListingsDistinct(fs)
    requires p != [] && p !in fs && IsDir(fs, Parent(p))
    requires node.File? || node.children == []
    ensures RootIsDir(Add(fs, p, node)) && ChildrenExist(Add(fs, p, node)) && ListingsDistinct(Add(fs, p, node))
  {
    var q, n := Parent(p), Name(p);
    var r := Add(fs, p, node);
    ParentName(p);
    assert n !in fs[q].children;
    forall s, m | IsDir(r, s) && m in r[s].children
      ensures s + [m] in r
    {
      if s == q && m == n {
        assert s + [m] == p;
      } else if s != p {
        assert s + [m] in fs;
      }
    }
    var ch := fs[q].children + [n];
    assert r[q].children == ch;
    assert Distinct(ch) by {
      forall i, j | 0 <= i < j < |ch|
        ensures ch[i] != ch[j]
      {
        if j == |ch| - 1 {
          assert ch[i] in fs[q].children;
        }
      }
    }
  }

  /** Replacing a regular file or an empty directory by a regular file keeps
      the filesystem well formed. */
  lemma {:induction false} ReplacePreserves(fs: FS, p: Path, lines: seq<string>)
    requires WellFormed(fs) && p != [] && p in fs
    requires fs[p].File? || fs[p].children == []
    ensures WellFormed(fs[p := File(lines)])
  {
    var r := fs[p := File(lines)];
    forall s | s in r && s != []
      ensures IsDir(r, Parent(s)) && Name(s) in r[Parent(s)].children
    {
      assert s in fs;
      if Parent(s) == p {
        assert false;
      }
    }
  }

  /** `Files.copy(source, target, REPLACE_EXISTING)` writing `lines` to
      `target`: it replaces a regular file or an empty directory, creates the
      file in an existing directory, and fails (`None`) otherwise. */
  function CopyTo(fs: FS, target: Path, lines: seq<string>): (r: Option<FS>)
    ensures r.Some? ==> r.value.Keys == fs.Keys + {target} && r.value[target] == File(lines)
    ensures r.Some? ==> forall q :: q in fs && q != target && (target == [] || q != Parent(target)) ==> r.value[q] == fs[q]
    ensures r.Some? <==> target != [] && (if target in fs then fs[target].File? || fs[target].children == []
                                          else IsDir(fs, Parent(target)))
  {
    if target in fs then
      if target != [] && (fs[target].File? || fs[target].children == []) then Some(fs[target := File(lines)])
      else None
    else if target != [] && IsDir(fs, Parent(target)) then Some(Add(fs, target, File(lines)))
    else None
  }

  lemma CopyToPreserves(fs: FS, target: Path, lines: seq<string>)
    requires WellFormed(fs) && CopyTo(fs, target, lines).Some?
    ensures WellFormed(CopyTo(fs, target, lines).value)
  {
    if target in fs {
      ReplacePreserves(fs, target, lines);
    } else {
      AddPreserves(fs, target, File(lines));
    }
  }

  /** `File.mkdirs()`: creates `p` and every missing ancestor, or fails
      (`None`) when `p` exists or the nearest existing ancestor is not a
      directory. */
  function Mkdirs(fs: FS, p: Path): (r: Option<FS>)
    ensures r.Some? ==> p !in fs && IsDir(r.value, p) && r.value[p].children == []
    ensures r.Some? ==> fs.Keys <= r.value.Keys
    ensures r.Some? ==> forall q :: q in r.value && q !in fs ==> q <= p && r.value[q].Dir?
    ensures r.Some? ==> forall q :: q in fs && !(q < p) ==> r.value[q] == fs[q]
    ensures r.Some? ==> forall q :: q in fs ==> (r.value[q].File? <==> fs[q].File?)
    ensures r.Some? ==> forall q :: IsFile(fs, q) ==> r.value[q] == fs[q]
    decreases |p|
  {
    if p == [] || p in fs then None
    else if IsDir(fs, Parent(p)) then Some(Add(fs, p, Dir([])))
    else if Parent(p) in fs then None
    else match Mkdirs(fs, Parent(p))
      case None => None
      case Some(fs1) => Some(Add(fs1, p, Dir([])))
  }

  lemma {:induction false} MkdirsPreserves(fs: FS, p: Path)
    requires WellFormed(fs) && Mkdirs(fs, p).Some?
    ensures WellFormed(Mkdirs(fs, p).value)
    decreases |p|
  {
    if IsDir(fs, Parent(p)) {
      AddPreserves(fs, p, Dir([]));
    } else {
      MkdirsPreserves(fs, Parent(p));
      var fs1 := Mkdirs(fs, Parent(p)).value;
      assert p !in fs1;
      AddPreserves(fs1, p, Dir([]));
    }
  }

  /** In a well-formed filesystem every proper prefix of an existing path is a
      directory. */
  lemma {:induction false} AncestorsAreDirs(fs: FS, p: Path, k: nat)
    requires WellFormed(fs) && p in fs && k < |p|
    ensures IsDir(fs, p[..k])
    decreases |p|
  {
    if k < |p| - 1 {
      AncestorsAreDirs(fs, Parent(p), k);
      assert Parent(p)[..k] == p[..k];
    }
  }

  /** `mkdirs` of a missing path fails only when one of its ancestors is a
      regular file. */
  lemma {:induction false} MkdirsFailsBelowFile(fs: FS, p: Path)
    requires WellFormed(fs) && p != [] && p !in fs && Mkdirs(fs, p).None?
    ensures exists k :: 0 < k < |p| && IsFile(fs, p[..k])
    decreases |p|
  {
    if Parent(p) in fs {
      assert Parent(p) != [];
      assert IsFile(fs, p[..|p| - 1]);
    } else {
      MkdirsFailsBelowFile(fs, Parent(p));
      var k :| 0 < k < |p| - 1 && IsFile(fs, Parent(p)[..k]);
      assert Parent(p)[..k] == p[..k];
    }
  }

  /** ... and it does fail when one of them is. */
  lemma {:induction false} MkdirsFailsOnFile(fs: FS, p: Path, k: nat)
    requires WellFormed(fs) && p != [] && p !in fs
    requires 0 < k < |p| && IsFile(fs, p[..k])
    ensures Mkdirs(fs, p).None?
    decreases |p|
  {
    assert Parent(p)[..k] == p[..k];
    if k == |p| - 1 {
      assert p[..k] == Parent(p);
    } else if Parent(p) in fs {
      AncestorsAreDirs(fs, Parent(p), k);
    } else {
      MkdirsFailsOnFile(fs, Parent(p), k);
    }
  }
}
