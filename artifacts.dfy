/**
 * The output directory and the files a run hands back (main.py, `run_code`):
 * the explicit `FILES_TO_SEND` list, the directory snapshot before and
 * after the run, and the naming rule of captured charts.
 */
module Artifacts {
  import opened Text
  import opened Wrappers
  import opened Lists

  /** What a path names on disk. */
  datatype Node = FileNode | DirNode(names: set<string>)

  /** The part of the filesystem the model sees: existing paths and what they are. */
  type FileSystem = map<string, Node>

  predicate IsFile(fs: FileSystem, p: string) {
    p in fs && fs[p].FileNode?
  }

  /**
   * `os.listdir(d)`: the names in a directory; listing a missing path or a
   * path that is not a directory raises (`None`).
   */
  function ListDir(fs: FileSystem, d: string): (r: Option<set<string>>)
    ensures r.Some? <==> d in fs && fs[d].DirNode?
    ensures r.Some? ==> r.value == fs[d].names
  {
    if d !in fs then None
    else match fs[d]
      case FileNode => None
      case DirNode(names) => Some(names)
  }

  /**
   * `set(os.listdir(d)) if os.path.exists(d) else set()`: a missing directory
   * lists as empty; listing a path that is not a directory raises (`None`).
   */
  function ListNames(fs: FileSystem, d: string): (r: Option<set<string>>)
    ensures d !in fs ==> r == Some({})
    ensures d in fs ==> r == ListDir(fs, d)
  {
    if d !in fs then Some({}) else ListDir(fs, d)
  }

  // ---------------------------------------------------------------------
  // POSIX path helpers
  // ---------------------------------------------------------------------

  /** `os.path.join(d, f)` on POSIX. */
  function Join(d: string, f: string): string
  {
    if |f| > 0 && f[0] == '/' then f
    else if d == "" || d[|d| - 1] == '/' then d + f
    else d + "/" + f
  }

  /** Index of the last occurrence of `c` in `s`, or -1. */
  function LastIndexOf(s: string, c: char): (k: int)
    ensures -1 <= k < |s|
    ensures k >= 0 ==> s[k] == c
    ensures forall i :: k < i < |s| ==> s[i] != c
  {
    if |s| == 0 then -1
    else if s[|s| - 1] == c then |s| - 1
    else LastIndexOf(s[..|s| - 1], c)
  }

  lemma SuffixAvoids(p: string, k: int, c: char)
    requires -1 <= k < |p|
    requires forall i :: k < i < |p| ==> p[i] != c
    ensures c !in p[k + 1..]
  {
    var b := p[k + 1..];
    forall j | 0 <= j < |b| ensures b[j] != c {
      assert b[j] == p[k + 1 + j];
    }
  }

  /** `os.path.basename(p)`: what follows the last `/`. */
  function Basename(p: string): (b: string)
    ensures '/' !in b
  {
    var k := LastIndexOf(p, '/');
    SuffixAvoids(p, k, '/');
    p[k + 1..]
  }

  /** `t` has a character other than `.` before index `k`. */
  predicate HasNonDotBefore(t: string, k: int)
  {
    exists i :: 0 <= i < k && i < |t| && t[i] != '.'
  }

  /** `os.path.splitext(b)[0]` for a name `b` without `/`. */
  function SplitextRoot(b: string): string
  {
    var k := LastIndexOf(b, '.');
    if k >= 0 && HasNonDotBefore(b, k) then b[..k] else b
  }

  /** The base name `plt.savefig(fname)` passes on: `plot` unless `fname` is a string. */
  function SavefigBase(fname: Option<string>): (r: string)
    ensures '/' !in r
  {
    match fname
    case None => "plot"
    case Some(f) =>
      var b := Basename(f);
      assert forall i :: 0 <= i < |SplitextRoot(b)| ==> SplitextRoot(b)[i] == b[i];
      SplitextRoot(b)
  }

  lemma LastIndexOfAppend(s: string, t: string, c: char)
    requires c !in t && |s| > 0 && s[|s| - 1] == c
    ensures LastIndexOf(s + t, c) == |s| - 1
  {
    var k := LastIndexOf(s + t, c);
    assert (s + t)[|s| - 1] == c;
    assert forall i :: |s| <= i < |s + t| ==> (s + t)[i] == t[i - |s|];
  }

  lemma LastIndexOfAbsent(t: string, c: char)
    requires c !in t
    ensures LastIndexOf(t, c) == -1
  {
  }

  /** The basename of a joined path is the name that was joined. */
  lemma BasenameJoin(d: string, f: string)
    requires '/' !in f
    ensures Basename(Join(d, f)) == f
  {
    if d == "" {
      LastIndexOfAbsent(f, '/');
      assert Join(d, f) == f;
      assert f[0..] == f;
    } else if d[|d| - 1] == '/' {
      LastIndexOfAppend(d, f, '/');
      assert (d + f)[|d|..] == f;
    } else {
      LastIndexOfAppend(d + "/", f, '/');
      assert d + "/" + f == (d + "/") + f;
      assert ((d + "/") + f)[|d| + 1..] == f;
    }
  }

  /** Distinct directory entries join to distinct paths. */
  lemma JoinInjective(d: string, f: string, g: string)
    requires '/' !in f && '/' !in g
    requires Join(d, f) == Join(d, g)
    ensures f == g
  {
    BasenameJoin(d, f);
    BasenameJoin(d, g);
  }

  /** `splitext` removes exactly the last extension of a name such as `chart.v2.svg`. */
  lemma SplitextRootOfExtension(root: string, ext: string)
    requires '.' !in ext
    requires HasNonDotBefore(root, |root|)
    ensures SplitextRoot(root + "." + ext) == root
  {
    var b := root + "." + ext;
    assert b == (root + ".") + ext;
    LastIndexOfAppend(root + ".", ext, '.');
    var i :| 0 <= i < |root| && root[i] != '.';
    assert b[i] == root[i];
    assert b[..|root|] == root;
  }

  /** A name without an extension, or with only leading dots, is its own root. */
  lemma SplitextRootWithoutExtension(b: string)
    requires '.' !in b || forall i :: 0 <= i < LastIndexOf(b, '.') ==> b[i] == '.'
    ensures SplitextRoot(b) == b
  {
  }

  // ---------------------------------------------------------------------
  // The artifact list
  // ---------------------------------------------------------------------

  /** An element of `FILES_TO_SEND`: user code may append anything, not only strings. */
  datatype Entry = PathEntry(path: string) | OtherEntry

  function Entries(ps: seq<string>): (r: seq<Entry>)
    ensures |r| == |ps|
    ensures forall i :: 0 <= i < |ps| ==> r[i] == PathEntry(ps[i])
  {
    if ps == [] then [] else [PathEntry(ps[0])] + Entries(ps[1..])
  }

  /**
   * The explicit list filtered to strings naming existing regular files,
   * in their order (main.py:836-839).
   */
  function ExistingFiles(explicit: seq<Entry>, fs: FileSystem): (r: seq<string>)
    ensures |r| <= |explicit|
    ensures forall p :: p in r <==> PathEntry(p) in explicit && IsFile(fs, p)
  {
    if explicit == [] then []
    else
      var rest := ExistingFiles(explicit[1..], fs);
      assert explicit == [explicit[0]] + explicit[1..];
      match explicit[0]
      case PathEntry(p) => if IsFile(fs, p) then [p] + rest else rest
      case OtherEntry => rest
  }

  /** The filtered explicit list keeps the order of the explicit list. */
  lemma {:induction false} ExistingFilesInOrder(explicit: seq<Entry>, fs: FileSystem)
    ensures IsSubsequence(Entries(ExistingFiles(explicit, fs)), explicit)
  {
    if explicit != [] {
      var rest := ExistingFiles(explicit[1..], fs);
      ExistingFilesInOrder(explicit[1..], fs);
      assert explicit == [explicit[0]] + explicit[1..];
      if explicit[0].PathEntry? && IsFile(fs, explicit[0].path) {
        assert Entries([explicit[0].path] + rest) == [explicit[0]] + Entries(rest);
        SubsequenceCons(explicit[0], Entries(rest), explicit[1..]);
      } else {
        SubsequenceSkip(explicit[0], Entries(rest), explicit[1..]);
      }
    }
  }

  /** The paths a set of new directory entries stands for. */
  function Discovered(d: string, names: set<string>): set<string>
  {
    set f | f in names :: Join(d, f)
  }

  predicate NoSlash(names: set<string>) {
    forall f :: f in names ==> '/' !in f
  }

  predicate Distinct(ps: seq<string>) {
    forall i, j :: 0 <= i < j < |ps| ==> ps[i] != ps[j]
  }

  /**
   * `all` starts with the explicit files `e` and then holds, each once when
   * no name contains `/`, exactly the paths of the entries `done` (out of the
   * new entries `added`) that are not already in `e`.
   */
  ghost predicate Collected(dir: string, e: seq<string>, added: set<string>, done: set<string>, all: seq<string>)
  {
    |e| <= |all| && all[..|e|] == e &&
    (forall p :: p in all[|e|..] <==> p in Discovered(dir, done) && p !in e) &&
    |all| - |e| <= |done| &&
    (NoSlash(added) ==> Distinct(all[|e|..]))
  }

  lemma CollectStep(dir: string, e: seq<string>, added: set<string>, done: set<string>, all: seq<string>, f: string)
    requires done <= added && f in added && f !in done
    requires Collected(dir, e, added, done, all)
    ensures Join(dir, f) in e ==> Collected(dir, e, added, done + {f}, all)
    ensures Join(dir, f) !in e ==> Collected(dir, e, added, done + {f}, all + [Join(dir, f)])
  {
    DiscoveredAdd(dir, done, f);
    if Join(dir, f) in e {
      assert |done| <= |done + {f}|;
    } else {
      CollectStepNew(dir, e, added, done, all, f);
    }
  }

  lemma DiscoveredAdd(dir: string, done: set<string>, f: string)
    ensures Discovered(dir, done + {f}) == Discovered(dir, done) + {Join(dir, f)}
  {
  }

  lemma CollectStepNew(dir: string, e: seq<string>, added: set<string>, done: set<string>, all: seq<string>, f: string)
    requires done <= added && f in added && f !in done && Join(dir, f) !in e
    requires Collected(dir, e, added, done, all)
    requires Discovered(dir, done + {f}) == Discovered(dir, done) + {Join(dir, f)}
    ensures Collected(dir, e, added, done + {f}, all + [Join(dir, f)])
  {
    var p := Join(dir, f);
    var tail := all[|e|..];
    var all' := all + [p];
    assert all'[..|e|] == e;
    assert all'[|e|..] == tail + [p];
    assert |done + {f}| == |done| + 1;
    if NoSlash(added) {
      if p in tail {
        var g :| g in done && Join(dir, g) == p;
        JoinInjective(dir, f, g);
      }
      DistinctAppend(tail, p);
    }
  }

  lemma DistinctAppend(ps: seq<string>, p: string)
    requires Distinct(ps) && p !in ps
    ensures Distinct(ps + [p])
  {
    var qs := ps + [p];
    forall i, j | 0 <= i < j < |qs| ensures qs[i] != qs[j] {
      assert qs[i] == ps[i];
      if j < |ps| { assert qs[j] == ps[j]; }
    }
  }

  lemma CollectStart(dir: string, e: seq<string>, added: set<string>)
    ensures Collected(dir, e, added, {}, e)
  {
    assert e[|e|..] == [];
    assert Discovered(dir, {}) == {};
  }

  lemma CollectDone(dir: string, e: seq<string>, added: set<string>, all: seq<string>)
    requires Collected(dir, e, added, added, all)
    ensures forall f :: f in added ==> Join(dir, f) in all
  {
    forall f | f in added ensures Join(dir, f) in all {
      var p := Join(dir, f);
      assert p in Discovered(dir, added);
      if p in e {
        var i :| 0 <= i < |e| && e[i] == p;
        assert all[i] == p;
      } else {
        assert p in all[|e|..];
      }
    }
  }

  /**
   * The result list of a run that completed (main.py:836-853): the existing
   * explicit files first, then the path of every directory entry that was
   * not there before, unless the explicit list already holds it.  When the
   * filtered explicit list is empty the source takes its second branch,
   * which is the same computation with nothing to skip.
   */
  method CollectArtifacts(dir: string, explicit: seq<Entry>, before: set<string>, fs: FileSystem)
    returns (r: Option<seq<string>>)
    ensures r.None? <==> ListNames(fs, dir).None?
    ensures r.Some? ==>
      Collected(dir, ExistingFiles(explicit, fs), ListNames(fs, dir).value - before,
                ListNames(fs, dir).value - before, r.value)
    ensures r.Some? ==> forall f :: f in ListNames(fs, dir).value - before ==> Join(dir, f) in r.value
  {
    var e := ExistingFiles(explicit, fs);
    var after := ListNames(fs, dir);
    if after.None? {
      return None;
    }
    var added := after.value - before;
    var all := e;
    var rest := added;
    CollectStart(dir, e, added);
    assert added - rest == {};
    while rest != {}
      invariant rest <= added
      invariant Collected(dir, e, added, added - rest, all)
      decreases |rest|
    {
      var f :| f in rest;
      var p := Join(dir, f);
      CollectStep(dir, e, added, added - rest, all, f);
      assert (added - rest) + {f} == added - (rest - {f});
      if p !in e {
        all := all + [p];
      }
      rest := rest - {f};
    }
    assert added - rest == added;
    CollectDone(dir, e, added, all);
    return Some(all);
  }

  /** Nothing the run left in the directory is lost, and no explicit file is dropped. */
  lemma ArtifactsComplete(dir: string, explicit: seq<Entry>, fs: FileSystem, all: seq<string>, before: set<string>)
    requires ListNames(fs, dir).Some?
    requires |ExistingFiles(explicit, fs)| <= |all| && all[..|ExistingFiles(explicit, fs)|] == ExistingFiles(explicit, fs)
    requires forall f :: f in ListNames(fs, dir).value - before ==> Join(dir, f) in all
    ensures forall p :: PathEntry(p) in explicit && IsFile(fs, p) ==> p in all
    ensures forall p :: p in Discovered(dir, ListNames(fs, dir).value - before) ==> p in all
  {
    var e := ExistingFiles(explicit, fs);
    forall p | PathEntry(p) in explicit && IsFile(fs, p) ensures p in all {
      assert p in e;
      var i :| 0 <= i < |e| && e[i] == p;
      assert all[i] == p;
    }
  }

  // ---------------------------------------------------------------------
  // Chart capture (`save_and_close_current_fig`)
  // ---------------------------------------------------------------------

  /** `f"{base}_{timestamp}_{count}.png"`. */
  function ChartName(base: string, stamp: string, count: nat): string
  {
    base + "_" + stamp + "_" + NatToString(count) + ".png"
  }

  /** A chart name starts with its base and ends in `.png`. */
  lemma ChartNameShape(base: string, stamp: string, count: nat)
    ensures |ChartName(base, stamp, count)| > |base| + 5
    ensures ChartName(base, stamp, count)[..|base|] == base
    ensures ChartName(base, stamp, count)[|base|] == '_'
    ensures ChartName(base, stamp, count)[|ChartName(base, stamp, count)| - 4..] == ".png"
  {
    var n := ChartName(base, stamp, count);
    assert n == base + ("_" + stamp + "_" + NatToString(count) + ".png");
    assert n == (base + "_" + stamp + "_" + NatToString(count)) + ".png";
  }

  /** Charts with the same base and timestamp but different entry counts get different names. */
  lemma ChartNamesDistinct(base: string, stamp: string, m: nat, n: nat)
    requires m != n
    ensures ChartName(base, stamp, m) != ChartName(base, stamp, n)
  {
    var p := base + "_" + stamp + "_";
    var a := NatToString(m);
    var b := NatToString(n);
    assert ChartName(base, stamp, m) == p + a + ".png";
    assert ChartName(base, stamp, n) == p + b + ".png";
    if p + a + ".png" == p + b + ".png" {
      assert |a| == |b|;
      assert forall i :: 0 <= i < |a| ==> a[i] == (p + a + ".png")[|p| + i] == (p + b + ".png")[|p| + i] == b[i];
      assert a == b;
      NatToStringInjective(m, n);
      assert false;
    }
  }

  /**
   * The state a chart capture touches while user code runs: the files on
   * disk, the explicit list and the captured standard output.
   */
  class ChartSession {
    const saveDir: string
    var fs: FileSystem
    var explicit: seq<Entry>
    var stdout: string

    constructor (saveDir: string, fs: FileSystem)
      ensures this.saveDir == saveDir && this.fs == fs
      ensures explicit == [] && stdout == ""
    {
      this.saveDir := saveDir;
      this.fs := fs;
      explicit := [];
      stdout := "";
    }

    /** The directory holds exactly the names `names`, as a directory. */
    predicate DirHolds(names: set<string>)
      reads this
    {
      saveDir in fs && fs[saveDir] == DirNode(names)
    }

    /**
     * `save_and_close_current_fig(base)` (main.py:731-752).  A figure without
     * axes is closed and nothing else happens.  Otherwise the chart is named
     * after the number of entries in the output directory; `raised` reports
     * that listing the directory failed, including when it does not exist
     * (there is no existence fallback here, unlike the snapshots around the
     * run): the exception reaches the user's code and nothing is saved.  `saveError` is what `savefig` raised, if anything: on success
     * the file appears in the directory, its path is announced and appended
     * to the explicit list; on failure only the failure is announced.
     */
    method SaveAndCloseCurrentFig(base: string, hasAxes: bool, stamp: string, saveError: Option<string>)
      returns (raised: bool)
      modifies this
      ensures !hasAxes ==> !raised && fs == old(fs) && explicit == old(explicit) && stdout == old(stdout)
      ensures hasAxes && old(ListDir(fs, saveDir)).None? ==>
        raised && fs == old(fs) && explicit == old(explicit) && stdout == old(stdout)
      ensures hasAxes && old(ListDir(fs, saveDir)).Some? ==>
        var count := |old(ListDir(fs, saveDir)).value|;
        var path := Join(saveDir, ChartName(base, stamp, count));
        !raised &&
        match saveError
        case None =>
          explicit == old(explicit) + [PathEntry(path)] &&
          stdout == old(stdout) + "[图表已保存: " + path + "]\n" &&
          fs == old(fs)[saveDir := DirNode(old(ListDir(fs, saveDir)).value + {ChartName(base, stamp, count)})][path := FileNode]
        case Some(err) =>
          explicit == old(explicit) && fs == old(fs) &&
          stdout == old(stdout) + "[保存图表失败: " + err + "]\n"
    {
      if !hasAxes {
        return false;
      }
      var listing := ListDir(fs, saveDir);
      if listing.None? {
        return true;
      }
      var filename := ChartName(base, stamp, |listing.value|);
      var filepath := Join(saveDir, filename);
      match saveError {
        case None =>
          fs := fs[saveDir := DirNode(listing.value + {filename})][filepath := FileNode];
          stdout := stdout + "[图表已保存: " + filepath + "]\n";
          explicit := explicit + [PathEntry(filepath)];
        case Some(err) =>
          stdout := stdout + "[保存图表失败: " + err + "]\n";
      }
      return false;
    }
  }

  /**
   * Two charts saved one after the other with the same base and timestamp
   * do not overwrite each other: the second sees one more directory entry.
   */
  lemma SuccessiveChartsDistinct(names: set<string>, base: string, stamp: string)
    requires ChartName(base, stamp, |names|) !in names
    ensures |names + {ChartName(base, stamp, |names|)}| == |names| + 1
    ensures ChartName(base, stamp, |names| + 1) != ChartName(base, stamp, |names|)
  {
    ChartNamesDistinct(base, stamp, |names| + 1, |names|);
  }
}
