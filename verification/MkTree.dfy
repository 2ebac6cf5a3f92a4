/** The directory-tree builder: the directories and files it creates, by path. */
module MkTree {
  import opened Wrappers
  import opened Timeout
  import WordList

  datatype Kind = D | F

  /** A created name: "D-l1d0f2" is a directory of level 1, number 0. */
  datatype Name = Name(kind: Kind, level: nat, dir: nat, file: nat)

  /** A path below the base directory. */
  type Path = seq<Name>

  datatype Created = Directory(path: Path) | File(path: Path)

  /** The builder's settings: depth, directories and files per directory. */
  datatype Settings = Settings(nlevel: nat, ndir: nat, nfile: nat)

  function Files(path: Path, level: nat, dir: nat, n: nat): (r: seq<Created>)
    ensures |r| == n
    ensures forall f :: 0 <= f < n ==> r[f] == File(path + [Name(F, level, dir, f)])
  {
    seq(n, f requires 0 <= f < n => File(path + [Name(F, level, dir, f)]))
  }

  function SubPath(path: Path, level: nat, d: nat): Path {
    path + [Name(D, level, d, 0)]
  }

  /** One subdirectory and all below it; a leaf gets its files from its parent's loop. */
  function Branch(s: Settings, path: Path, level: nat, d: nat): seq<Created>
    requires level <= s.nlevel
    decreases s.nlevel - level, 0, 0
  {
    [Directory(SubPath(path, level, d))]
    + (if level == s.nlevel then Files(SubPath(path, level, d), level + 1, d, s.nfile)
       else Tree(s, SubPath(path, level, d), level + 1))
  }

  function Branches(s: Settings, path: Path, level: nat, n: nat): seq<Created>
    requires level <= s.nlevel
    decreases s.nlevel - level, 1, n
  {
    if n == 0 then [] else Branches(s, path, level, n - 1) + Branch(s, path, level, n - 1)
  }

  /** All that is created below a directory that is not a leaf. */
  function Tree(s: Settings, path: Path, level: nat): seq<Created>
    requires level <= s.nlevel
    decreases s.nlevel - level, 2, 0
  {
    Branches(s, path, level, s.ndir) + Files(path, level, s.ndir, s.nfile)
  }

  class Builder {
    const settings: Settings
    var created: seq<Created>

    constructor (settings: Settings)
      ensures this.settings == settings && created == []
    {
      this.settings, created := settings, [];
    }

    method CreateFiles(path: Path, level: nat, dir: nat)
      modifies this
      ensures created == old(created) + Files(path, level, dir, settings.nfile)
    {
      var f := 0;
      while f < settings.nfile
        invariant 0 <= f <= settings.nfile
        invariant created == old(created) + Files(path, level, dir, settings.nfile)[..f]
      {
        created := created + [File(path + [Name(F, level, dir, f)])];
        f := f + 1;
      }
    }

    /** `mktree`: nothing but a non-zero result below the last level. */
    method Make(path: Path, level: nat) returns (ret: int)
      modifies this
      ensures ret == (if level > settings.nlevel then 1 else 0)
      ensures level > settings.nlevel ==> created == old(created)
      ensures level <= settings.nlevel ==> created == old(created) + Tree(settings, path, level)
      decreases if level > settings.nlevel then 0 else settings.nlevel - level + 1
    {
      if level > settings.nlevel {
        return 1;
      }
      hide Branch, Tree;
      var d := 0;
      while d < settings.ndir
        invariant 0 <= d <= settings.ndir
        invariant created == old(created) + Branches(settings, path, level, d)
      {
        var dname := SubPath(path, level, d);
        ghost var before := created;
        created := created + [Directory(dname)];
        ret := Make(dname, level + 1);
        if ret != 0 {
          CreateFiles(dname, level + 1, d);
        }
        BranchAdded(settings, path, level, d, before, created);
        Concat3(old(created), Branches(settings, path, level, d), Branch(settings, path, level, d));
        d := d + 1;
      }
      CreateFiles(path, level, d);
      WholeTree(settings, path, level, old(created));
      ret := 0;
    }
  }

  lemma BranchAdded(s: Settings, path: Path, level: nat, d: nat, before: seq<Created>, after: seq<Created>)
    requires level <= s.nlevel
    requires after == before + [Directory(SubPath(path, level, d))] +
                      (if level == s.nlevel then Files(SubPath(path, level, d), level + 1, d, s.nfile)
                       else Tree(s, SubPath(path, level, d), level + 1))
    ensures after == before + Branch(s, path, level, d)
  {
  }

  lemma WholeTree(s: Settings, path: Path, level: nat, before: seq<Created>)
    requires level <= s.nlevel
    ensures before + Branches(s, path, level, s.ndir) + Files(path, level, s.ndir, s.nfile) == before + Tree(s, path, level)
  {
  }

  // ---------------------------------------------------------------- totals

  function Power(b: nat, k: nat): nat {
    if k == 0 then 1 else b * Power(b, k - 1)
  }

  /** b + b^2 + ... + b^k. */
  function PowerSum(b: nat, k: nat): nat {
    if k == 0 then 0 else PowerSum(b, k - 1) + Power(b, k)
  }

  /** The sum, counted from the other end: b times (1 + the shorter sum). */
  lemma {:induction false} PowerSumFolds(b: nat, k: nat)
    requires k > 0
    ensures PowerSum(b, k) == b * (1 + PowerSum(b, k - 1))
  {
    if k == 1 {
      assert Power(b, 0) == 1 && PowerSum(b, 0) == 0;
      assert Power(b, 1) == b * Power(b, 0) == b;
    } else {
      PowerSumFolds(b, k - 1);
      Distribute(b, 1 + PowerSum(b, k - 2), Power(b, k - 1));
    }
  }

  lemma Distribute(a: nat, b: nat, c: nat)
    ensures a * (b + c) == a * b + a * c
  {
  }

  function Directories(cs: seq<Created>): nat {
    if cs == [] then 0 else (if cs[0].Directory? then 1 else 0) + Directories(cs[1..])
  }

  lemma {:induction false} DirectoriesConcat(a: seq<Created>, b: seq<Created>)
    ensures Directories(a + b) == Directories(a) + Directories(b)
  {
    if a == [] {
      assert a + b == b;
    } else {
      assert (a + b)[0] == a[0] && (a + b)[1..] == a[1..] + b;
      DirectoriesConcat(a[1..], b);
    }
  }

  lemma {:induction false} NoDirectories(cs: seq<Created>)
    requires forall i :: 0 <= i < |cs| ==> cs[i].File?
    ensures Directories(cs) == 0
  {
    if cs != [] {
      NoDirectories(cs[1..]);
    }
  }

  /** Depth `k` is the number of levels from `level` to the last. */
  lemma {:induction false} BranchTotals(s: Settings, path: Path, level: nat, d: nat)
    requires level <= s.nlevel
    ensures var below := PowerSum(s.ndir, s.nlevel - level);
            && Directories(Branch(s, path, level, d)) == 1 + below
            && |Branch(s, path, level, d)| == 1 + below + s.nfile * (1 + below)
    decreases s.nlevel - level, 0, 0
  {
    var dname := SubPath(path, level, d);
    var rest := if level == s.nlevel then Files(dname, level + 1, d, s.nfile) else Tree(s, dname, level + 1);
    DirectoriesConcat([Directory(dname)], rest);
    assert [Directory(dname)][1..] == [];
    assert Directories([Directory(dname)]) == 1;
    if level == s.nlevel {
      NoDirectories(rest);
    } else {
      TreeTotals(s, dname, level + 1);
    }
  }

  lemma {:induction false} BranchesTotals(s: Settings, path: Path, level: nat, n: nat)
    requires level <= s.nlevel
    ensures var each := 1 + PowerSum(s.ndir, s.nlevel - level);
            && Directories(Branches(s, path, level, n)) == n * each
            && |Branches(s, path, level, n)| == n * each + s.nfile * (n * each)
    decreases s.nlevel - level, 1, n
  {
    if n > 0 {
      BranchesTotals(s, path, level, n - 1);
      BranchTotals(s, path, level, n - 1);
      hide Branch, Directories, PowerSum;
      DirectoriesConcat(Branches(s, path, level, n - 1), Branch(s, path, level, n - 1));
      OneMoreBranch(n, 1 + PowerSum(s.ndir, s.nlevel - level), s.nfile);
    }
  }

  lemma OneMoreBranch(n: nat, each: nat, nfile: nat)
    requires n > 0
    ensures (n - 1) * each + each == n * each
    ensures nfile * ((n - 1) * each) + nfile * each == nfile * (n * each)
  {
    var less := (n - 1) * each;
    assert less + each == n * each;
    Distribute(nfile, less, each);
  }

  /** Below a directory of level l: ndir + ... + ndir^(nlevel - l + 1) directories, and
      nfile files in the directory itself and in each of those. */
  lemma {:induction false} TreeTotals(s: Settings, path: Path, level: nat)
    requires level <= s.nlevel
    ensures var dirs := PowerSum(s.ndir, s.nlevel - level + 1);
            && Directories(Tree(s, path, level)) == dirs
            && |Tree(s, path, level)| == dirs + s.nfile * (1 + dirs)
    decreases s.nlevel - level, 2, 0
  {
    BranchesTotals(s, path, level, s.ndir);
    PowerSumFolds(s.ndir, s.nlevel - level + 1);
    var files := Files(path, level, s.ndir, s.nfile);
    DirectoriesConcat(Branches(s, path, level, s.ndir), files);
    NoDirectories(files);
    Distribute(s.nfile, 1, PowerSum(s.ndir, s.nlevel - level + 1));
  }

  // ---------------------------------------------------------------- distinct paths

  /** Strictly below `path`. */
  ghost predicate Below(path: Path, c: Created) {
    |path| < |c.path| && c.path[..|path|] == path
  }

  ghost predicate AllBelow(path: Path, cs: seq<Created>) {
    forall i :: 0 <= i < |cs| ==> Below(path, cs[i])
  }

  ghost predicate Distinct(cs: seq<Created>) {
    forall i, j :: 0 <= i < j < |cs| ==> cs[i].path != cs[j].path
  }

  /** The name just below `path`. */
  function Next(path: Path, c: Created): Name
    requires |path| < |c.path|
  {
    c.path[|path|]
  }

  ghost predicate In(path: Path, level: nat, lo: nat, hi: nat, cs: seq<Created>) {
    forall i :: 0 <= i < |cs| ==>
      Below(path, cs[i]) && Next(path, cs[i]).kind == D && Next(path, cs[i]).level == level && lo <= Next(path, cs[i]).dir < hi
  }

  lemma BelowSub(path: Path, level: nat, d: nat, c: Created)
    requires Below(SubPath(path, level, d), c) || c.path == SubPath(path, level, d)
    ensures Below(path, c) && Next(path, c) == Name(D, level, d, 0)
  {
    var sub := SubPath(path, level, d);
    assert c.path[..|sub|] == sub;
    assert c.path[..|path|] == sub[..|path|] == path;
    assert sub[|path|] == c.path[|path|];
  }

  lemma {:induction false} BranchDistinct(s: Settings, path: Path, level: nat, d: nat)
    requires level <= s.nlevel
    ensures In(path, level, d, d + 1, Branch(s, path, level, d)) && Distinct(Branch(s, path, level, d))
    decreases s.nlevel - level, 0, 0
  {
    var dname := SubPath(path, level, d);
    var rest := if level == s.nlevel then Files(dname, level + 1, d, s.nfile) else Tree(s, dname, level + 1);
    if level < s.nlevel {
      TreeDistinct(s, dname, level + 1);
    } else {
      FilesDistinct(dname, level + 1, d, s.nfile);
    }
    Prefixed(path, level, d, rest);
  }

  lemma Prefixed(path: Path, level: nat, d: nat, rest: seq<Created>)
    requires AllBelow(SubPath(path, level, d), rest) && Distinct(rest)
    ensures In(path, level, d, d + 1, [Directory(SubPath(path, level, d))] + rest)
    ensures Distinct([Directory(SubPath(path, level, d))] + rest)
  {
    var all := [Directory(SubPath(path, level, d))] + rest;
    forall i | 0 <= i < |all|
      ensures Below(path, all[i]) && Next(path, all[i]) == Name(D, level, d, 0)
    {
      assert i > 0 ==> all[i] == rest[i - 1];
      BelowSub(path, level, d, all[i]);
    }
    forall i, j | 0 <= i < j < |all|
      ensures all[i].path != all[j].path
    {
      assert all[j] == rest[j - 1];
      assert i > 0 ==> all[i] == rest[i - 1];
    }
  }

  lemma FilesDistinct(path: Path, level: nat, dir: nat, n: nat)
    ensures AllBelow(path, Files(path, level, dir, n)) && Distinct(Files(path, level, dir, n))
  {
    var fs := Files(path, level, dir, n);
    forall i, j | 0 <= i < j < |fs|
      ensures fs[i].path != fs[j].path
    {
      assert fs[i].path[|path|].file == i && fs[j].path[|path|].file == j;
    }
  }

  lemma {:induction false} BranchesDistinct(s: Settings, path: Path, level: nat, n: nat)
    requires level <= s.nlevel
    ensures In(path, level, 0, n, Branches(s, path, level, n)) && Distinct(Branches(s, path, level, n))
    decreases s.nlevel - level, 1, n
  {
    if n > 0 {
      BranchesDistinct(s, path, level, n - 1);
      BranchDistinct(s, path, level, n - 1);
      hide Branches, Branch;
      Together(path, Branches(s, path, level, n - 1), Branch(s, path, level, n - 1));
    }
  }

  /** Lists whose paths part ways right below `path`. */
  lemma Together(path: Path, a: seq<Created>, b: seq<Created>)
    requires AllBelow(path, a) && AllBelow(path, b) && Distinct(a) && Distinct(b)
    requires forall i, j :: 0 <= i < |a| && 0 <= j < |b| ==> Next(path, a[i]) != Next(path, b[j])
    ensures Distinct(a + b) && AllBelow(path, a + b)
  {
    var all := a + b;
    forall i, j | 0 <= i < j < |all|
      ensures all[i].path != all[j].path
    {
      if i < |a| <= j {
        assert Next(path, a[i]) != Next(path, b[j - |a|]);
      }
    }
  }

  /** No path is created twice, and all are strictly below the directory. */
  lemma {:induction false} TreeDistinct(s: Settings, path: Path, level: nat)
    requires level <= s.nlevel
    ensures AllBelow(path, Tree(s, path, level)) && Distinct(Tree(s, path, level))
    decreases s.nlevel - level, 2, 0
  {
    BranchesDistinct(s, path, level, s.ndir);
    FilesDistinct(path, level, s.ndir, s.nfile);
    var fs := Files(path, level, s.ndir, s.nfile);
    assert forall i :: 0 <= i < |fs| ==> Next(path, fs[i]).kind == F;
    Together(path, Branches(s, path, level, s.ndir), fs);
  }

  // ---------------------------------------------------------------- what each directory gets

  function Direct(c: Created, p: Path, dir: bool): nat {
    if c.Directory? == dir && |c.path| == |p| + 1 && c.path[..|p|] == p then 1 else 0
  }

  /** How many directories (`dir`) or files are created directly in `p`. */
  function Children(cs: seq<Created>, p: Path, dir: bool): nat {
    if cs == [] then 0 else Direct(cs[0], p, dir) + Children(cs[1..], p, dir)
  }

  lemma {:induction false} ChildrenConcat(a: seq<Created>, b: seq<Created>, p: Path, dir: bool)
    ensures Children(a + b, p, dir) == Children(a, p, dir) + Children(b, p, dir)
  {
    if a == [] {
      assert a + b == b;
    } else {
      assert (a + b)[0] == a[0] && (a + b)[1..] == a[1..] + b;
      ChildrenConcat(a[1..], b, p, dir);
    }
  }

  lemma {:induction false} FilesAreChildren(cs: seq<Created>, home: Path, p: Path)
    requires forall i :: 0 <= i < |cs| ==> cs[i].File? && |cs[i].path| == |home| + 1 && cs[i].path[..|home|] == home
    ensures Children(cs, p, false) == (if p == home then |cs| else 0) && Children(cs, p, true) == 0
  {
    if cs != [] {
      FilesAreChildren(cs[1..], home, p);
    }
  }

  lemma FilesChildren(path: Path, level: nat, dir: nat, n: nat, p: Path)
    ensures Children(Files(path, level, dir, n), p, false) == (if p == path then n else 0)
    ensures Children(Files(path, level, dir, n), p, true) == 0
    ensures Directory(p) !in Files(path, level, dir, n)
  {
    FilesAreChildren(Files(path, level, dir, n), path, p);
  }

  lemma {:induction false} BranchChildren(s: Settings, path: Path, level: nat, d: nat, p: Path)
    requires level <= s.nlevel
    ensures var b := Branch(s, path, level, d);
            && Children(b, p, false) == (if Directory(p) in b then s.nfile else 0)
            && Children(b, p, true) == (if p == path then 1
                                        else if Directory(p) in b && |p| <= |path| + s.nlevel - level then s.ndir else 0)
    decreases s.nlevel - level, 0, 0
  {
    var dname := SubPath(path, level, d);
    var head, rest := [Directory(dname)], if level == s.nlevel then Files(dname, level + 1, d, s.nfile) else Tree(s, dname, level + 1);
    assert dname[..|path|] == path;
    HeadChildren(head, dname, path, p);
    ChildrenConcat(head, rest, p, false);
    ChildrenConcat(head, rest, p, true);
    assert Directory(p) in Branch(s, path, level, d) <==> p == dname || Directory(p) in rest;
    if level == s.nlevel {
      FilesChildren(dname, level + 1, d, s.nfile, p);
    } else {
      TreeChildren(s, dname, level + 1, p);
      TreeDistinct(s, dname, level + 1);
    }
  }

  lemma HeadChildren(head: seq<Created>, dname: Path, path: Path, p: Path)
    requires head == [Directory(dname)] && |dname| == |path| + 1 && dname[..|path|] == path
    ensures Children(head, p, false) == 0 && Children(head, p, true) == if p == path then 1 else 0
  {
    assert head[1..] == [];
    assert Children(head[1..], p, true) == 0 && Children(head[1..], p, false) == 0;
  }

  lemma {:induction false} BranchesChildren(s: Settings, path: Path, level: nat, n: nat, p: Path)
    requires level <= s.nlevel
    ensures var bs := Branches(s, path, level, n);
            && Children(bs, p, false) == (if Directory(p) in bs then s.nfile else 0)
            && Children(bs, p, true) == (if p == path then n
                                         else if Directory(p) in bs && |p| <= |path| + s.nlevel - level then s.ndir else 0)
    decreases s.nlevel - level, 1, n
  {
    if n > 0 {
      BranchesChildren(s, path, level, n - 1, p);
      BranchChildren(s, path, level, n - 1, p);
      BranchesDistinct(s, path, level, n - 1);
      BranchDistinct(s, path, level, n - 1);
      var bs, b := Branches(s, path, level, n - 1), Branch(s, path, level, n - 1);
      assert Branches(s, path, level, n) == bs + b;
      hide Branches, Branch, Children;
      ChildrenConcat(bs, b, p, false);
      ChildrenConcat(bs, b, p, true);
      NotInBoth(path, level, n - 1, bs, b, p);
    }
  }

  lemma NotInBoth(path: Path, level: nat, d: nat, bs: seq<Created>, b: seq<Created>, p: Path)
    requires In(path, level, 0, d, bs) && In(path, level, d, d + 1, b)
    ensures !(Directory(p) in bs && Directory(p) in b)
  {
    assert Directory(p) in bs ==> Next(path, Directory(p)).dir < d;
    assert Directory(p) in b ==> Next(path, Directory(p)).dir == d;
  }

  /** The directory itself and every directory created below it gets exactly nfile files;
      each above the last level gets exactly ndir directories, those of the last none. */
  lemma {:induction false} TreeChildren(s: Settings, path: Path, level: nat, p: Path)
    requires level <= s.nlevel
    ensures var t := Tree(s, path, level);
            && Children(t, p, false) == (if p == path || Directory(p) in t then s.nfile else 0)
            && Children(t, p, true) == (if p == path || (Directory(p) in t && |p| <= |path| + s.nlevel - level) then s.ndir else 0)
    decreases s.nlevel - level, 2, 0
  {
    BranchesChildren(s, path, level, s.ndir, p);
    FilesChildren(path, level, s.ndir, s.nfile, p);
    BranchesDistinct(s, path, level, s.ndir);
    ChildrenConcat(Branches(s, path, level, s.ndir), Files(path, level, s.ndir, s.nfile), p, false);
    ChildrenConcat(Branches(s, path, level, s.ndir), Files(path, level, s.ndir, s.nfile), p, true);
    assert Directory(p) in Tree(s, path, level) <==> Directory(p) in Branches(s, path, level, s.ndir);
  }

  // ---------------------------------------------------------------- the names

  /** What the last name of a created path says: a directory's level is its depth and its
      number counts from 0; a file of a directory above the last level is named after the
      directory's depth and the count of its subdirectories, a file of a leaf after one level
      more and the leaf's own number. */
  ghost predicate Named(s: Settings, base: nat, c: Created) {
    && |c.path| > 0
    && var last, level := c.path[|c.path| - 1], base + |c.path| - 1;
       if c.Directory? then last == Name(D, level, last.dir, 0) && last.dir < s.ndir && level <= s.nlevel
       else
         && last == Name(F, level, last.dir, last.file) && last.file < s.nfile
         && (level <= s.nlevel ==> last.dir == s.ndir)
         && (level > s.nlevel ==> |c.path| > 1 && last.dir == c.path[|c.path| - 2].dir && level == s.nlevel + 1)
  }

  ghost predicate AllNamed(s: Settings, base: nat, cs: seq<Created>) {
    forall i :: 0 <= i < |cs| ==> Named(s, base, cs[i])
  }

  lemma {:induction false} BranchNamed(s: Settings, base: nat, path: Path, level: nat, d: nat)
    requires level <= s.nlevel && base + |path| == level && d < s.ndir
    ensures AllNamed(s, base, Branch(s, path, level, d))
    decreases s.nlevel - level, 0, 0
  {
    var dname := SubPath(path, level, d);
    var rest := if level == s.nlevel then Files(dname, level + 1, d, s.nfile) else Tree(s, dname, level + 1);
    if level < s.nlevel {
      TreeNamed(s, base, dname, level + 1);
    }
    var all := [Directory(dname)] + rest;
    forall i | 0 <= i < |all|
      ensures Named(s, base, all[i])
    {
      assert i > 0 ==> all[i] == rest[i - 1];
    }
  }

  lemma {:induction false} BranchesNamed(s: Settings, base: nat, path: Path, level: nat, n: nat)
    requires level <= s.nlevel && base + |path| == level && n <= s.ndir
    ensures AllNamed(s, base, Branches(s, path, level, n))
    decreases s.nlevel - level, 1, n
  {
    if n > 0 {
      BranchesNamed(s, base, path, level, n - 1);
      BranchNamed(s, base, path, level, n - 1);
    }
  }

  /** Every name in the tree says where it stands; with an empty path and level 1 the base
      is 1. */
  lemma {:induction false} TreeNamed(s: Settings, base: nat, path: Path, level: nat)
    requires level <= s.nlevel && base + |path| == level
    ensures AllNamed(s, base, Tree(s, path, level))
    decreases s.nlevel - level, 2, 0
  {
    BranchesNamed(s, base, path, level, s.ndir);
    var fs := Files(path, level, s.ndir, s.nfile);
    assert forall i :: 0 <= i < |fs| ==> Named(s, base, fs[i]);
  }

  // ---------------------------------------------------------------- names as text

  function Text(name: Name): (t: string)
    ensures t != ""
  {
    [if name.kind == D then 'D' else 'F'] + ("-l" + (Decimal(name.level) + ("d" + (Decimal(name.dir) + ("f" + Decimal(name.file))))))
  }

  function Texts(path: Path): (r: seq<string>)
    ensures |r| == |path|
    ensures forall i :: 0 <= i < |path| ==> r[i] == Text(path[i])
  {
    seq(|path|, i requires 0 <= i < |path| => Text(path[i]))
  }

  /** The path below the base directory, as the system calls get it. */
  function PathText(path: Path): string {
    WordList.Join('/', Texts(path))
  }

  /** A number is read back from the text it starts. */
  lemma NumberFirst(a: nat, s: string, b: nat, t: string)
    requires s == "" || !IsDigit(s[0])
    requires t == "" || !IsDigit(t[0])
    requires Decimal(a) + s == Decimal(b) + t
    ensures a == b && s == t
  {
    ReadsDecimal(a, s);
    ReadsDecimal(b, t);
  }

  lemma SameTail<T>(a: seq<T>, s: seq<T>, b: seq<T>, t: seq<T>)
    requires |a| == |b| && a + s == b + t
    ensures a == b && s == t
  {
    assert (a + s)[..|a|] == a && (b + t)[..|a|] == b;
    assert (a + s)[|a|..] == s && (b + t)[|a|..] == t;
  }

  lemma TextInjective(x: Name, y: Name)
    requires Text(x) == Text(y)
    ensures x == y
  {
    hide Decimal;
    var xf, yf := "f" + Decimal(x.file), "f" + Decimal(y.file);
    var xd, yd := "d" + (Decimal(x.dir) + xf), "d" + (Decimal(y.dir) + yf);
    SameTail([if x.kind == D then 'D' else 'F'], "-l" + (Decimal(x.level) + xd), [if y.kind == D then 'D' else 'F'], "-l" + (Decimal(y.level) + yd));
    SameTail("-l", Decimal(x.level) + xd, "-l", Decimal(y.level) + yd);
    NumberFirst(x.level, xd, y.level, yd);
    SameTail("d", Decimal(x.dir) + xf, "d", Decimal(y.dir) + yf);
    NumberFirst(x.dir, xf, y.dir, yf);
    SameTail("f", Decimal(x.file), "f", Decimal(y.file));
    DecimalInjective(x.file, y.file);
  }

  /** The text of a name, in full. */
  lemma TextOfName()
    ensures Text(Name(D, 1, 0, 0)) == "D-l1d0f0"
    ensures Text(Name(F, 2, 10, 3)) == "F-l2d10f3"
  {
    assert Decimal(0) == "0" && Decimal(1) == "1" && Decimal(2) == "2" && Decimal(3) == "3" && Decimal(10) == "10";
  }

  lemma TextsAreWords(path: Path)
    ensures WordList.AreWords('/', Texts(path))
  {
    forall i | 0 <= i < |path|
      ensures '/' !in Text(path[i])
    {
      var n := path[i];
      assert '/' !in Decimal(n.level) && '/' !in Decimal(n.dir) && '/' !in Decimal(n.file);
    }
  }

  /** Different paths have different texts, so no system call names a file twice. */
  lemma PathTextInjective(p: Path, q: Path)
    requires PathText(p) == PathText(q)
    ensures p == q
  {
    TextsAreWords(p);
    TextsAreWords(q);
    WordList.WordsOfJoin('/', Texts(p));
    WordList.WordsOfJoin('/', Texts(q));
    assert |p| == |q|;
    forall i | 0 <= i < |p|
      ensures p[i] == q[i]
    {
      assert Texts(p)[i] == Texts(q)[i];
      TextInjective(p[i], q[i]);
    }
  }
}
