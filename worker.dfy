/**
 * The execution worker of main.py (`_execute_code_safely` and its inner
 * `run_code`): the namespace user code runs in, the library catalog and
 * its filtering for non-admin callers, the snapshots of the output
 * directory around the run, and the shapes of the three outcomes
 * (completed, raised, timed out).  Running the code itself is an abstract
 * step whose effect is a parameter.
 */
module Worker {
  import opened Text
  import opened Wrappers
  import opened Lists
  import opened Artifacts

  // ---------------------------------------------------------------------
  // The library catalog
  // ---------------------------------------------------------------------

  /** A library offered to user code: the module imported and the global name it is bound to. */
  datatype CatalogEntry = CatalogEntry(name: string, alias: string)

  /** `libs_to_inject` (main.py:757-789), in its order. */
  const Catalog: seq<CatalogEntry> := [
    CatalogEntry("numpy", "np"), CatalogEntry("pandas", "pd"), CatalogEntry("scipy", "scipy"),
    CatalogEntry("statsmodels", "statsmodels"),
    CatalogEntry("requests", "requests"), CatalogEntry("aiohttp", "aiohttp"), CatalogEntry("urllib", "urllib"),
    CatalogEntry("socket", "socket"),
    CatalogEntry("seaborn", "sns"), CatalogEntry("plotly", "plotly"), CatalogEntry("bokeh", "bokeh"),
    CatalogEntry("openpyxl", "openpyxl"), CatalogEntry("docx", "docx"), CatalogEntry("fpdf", "fpdf"),
    CatalogEntry("json", "json"), CatalogEntry("yaml", "yaml"), CatalogEntry("csv", "csv"), CatalogEntry("pickle", "pickle"),
    CatalogEntry("sqlite3", "sqlite3"), CatalogEntry("pymongo", "pymongo"), CatalogEntry("sqlalchemy", "sqlalchemy"),
    CatalogEntry("psycopg2", "psycopg2"),
    CatalogEntry("PIL", "PIL"), CatalogEntry("cv2", "cv2"), CatalogEntry("imageio", "imageio"),
    CatalogEntry("datetime", "datetime"), CatalogEntry("time", "time"), CatalogEntry("calendar", "calendar"),
    CatalogEntry("hashlib", "hashlib"), CatalogEntry("hmac", "hmac"), CatalogEntry("secrets", "secrets"),
    CatalogEntry("base64", "base64"), CatalogEntry("cryptography", "cryptography"),
    CatalogEntry("re", "re"), CatalogEntry("string", "string"), CatalogEntry("textwrap", "textwrap"),
    CatalogEntry("difflib", "difflib"), CatalogEntry("nltk", "nltk"), CatalogEntry("jieba", "jieba"),
    CatalogEntry("os", "os"), CatalogEntry("sys", "sys"), CatalogEntry("shutil", "shutil"), CatalogEntry("zipfile", "zipfile"),
    CatalogEntry("tarfile", "tarfile"), CatalogEntry("pathlib", "pathlib"), CatalogEntry("subprocess", "subprocess"),
    CatalogEntry("sympy", "sympy"), CatalogEntry("math", "math"), CatalogEntry("statistics", "statistics"),
    CatalogEntry("random", "random"), CatalogEntry("decimal", "decimal"), CatalogEntry("fractions", "fractions"),
    CatalogEntry("itertools", "itertools"), CatalogEntry("collections", "collections"),
    CatalogEntry("functools", "functools"), CatalogEntry("operator", "operator"), CatalogEntry("copy", "copy"),
    CatalogEntry("uuid", "uuid")
  ]

  /** The entries whose lower-cased module name is not restricted, in order. */
  function Unrestricted(catalog: seq<CatalogEntry>, restricted: seq<string>): (r: seq<CatalogEntry>)
    ensures forall e :: e in r <==> e in catalog && Lower(e.name) !in restricted
  {
    if catalog == [] then []
    else
      assert catalog == [catalog[0]] + catalog[1..];
      (if Lower(catalog[0].name) !in restricted then [catalog[0]] else []) + Unrestricted(catalog[1..], restricted)
  }

  /** The filter keeps the catalog's order. */
  lemma {:induction false} UnrestrictedInOrder(catalog: seq<CatalogEntry>, restricted: seq<string>)
    ensures IsSubsequence(Unrestricted(catalog, restricted), catalog)
  {
    if catalog != [] {
      UnrestrictedInOrder(catalog[1..], restricted);
      assert catalog == [catalog[0]] + catalog[1..];
      var rest := Unrestricted(catalog[1..], restricted);
      if Lower(catalog[0].name) !in restricted {
        assert Unrestricted(catalog, restricted) == [catalog[0]] + rest;
        SubsequenceCons(catalog[0], rest, catalog[1..]);
      } else {
        assert Unrestricted(catalog, restricted) == rest;
        SubsequenceSkip(catalog[0], rest, catalog[1..]);
      }
    }
  }

  /**
   * The catalog offered to a caller (main.py:790-792): a non-admin caller
   * with restricted libraries configured loses the restricted ones.
   */
  function FilterCatalog(catalog: seq<CatalogEntry>, isAdmin: bool, restricted: seq<string>): (r: seq<CatalogEntry>)
    ensures isAdmin || restricted == [] ==> r == catalog
    ensures !isAdmin && restricted != [] ==>
      forall e :: e in r <==> e in catalog && Lower(e.name) !in restricted
  {
    if !isAdmin && restricted != [] then Unrestricted(catalog, restricted) else catalog
  }

  lemma FilterCatalogInOrder(catalog: seq<CatalogEntry>, isAdmin: bool, restricted: seq<string>)
    ensures IsSubsequence(FilterCatalog(catalog, isAdmin, restricted), catalog)
  {
    if !isAdmin && restricted != [] {
      UnrestrictedInOrder(catalog, restricted);
    } else {
      SubsequenceReflexive(catalog);
    }
  }

  lemma {:induction false} SubsequenceReflexive<T>(xs: seq<T>)
    ensures IsSubsequence(xs, xs)
  {
    if xs != [] {
      SubsequenceReflexive(xs[1..]);
      SubsequenceCons(xs[0], xs[1..], xs[1..]);
      assert [xs[0]] + xs[1..] == xs;
    }
  }

  // ---------------------------------------------------------------------
  // The namespace of the run
  // ---------------------------------------------------------------------

  /** What a global name of the run is bound to. */
  datatype Value =
    | ModuleValue(moduleName: string)
    | MemberValue(moduleName: string, member: string)
    | BuiltinsValue
    | PrintValue
    | SaveDirValue(path: string)
    | FilesToSendValue
    | ImageUrlsValue(urls: seq<string>)

  /** The names every run gets (main.py:616-623), and `matplotlib`/`plt` when matplotlib imports. */
  function BaseGlobals(dir: string, imageUrls: Option<seq<string>>, importable: set<string>): map<string, Value>
  {
    var urls := if imageUrls.Some? then imageUrls.value else [];
    var base := map[
      "__builtins__" := BuiltinsValue, "print" := PrintValue, "SAVE_DIR" := SaveDirValue(dir),
      "FILES_TO_SEND" := FilesToSendValue, "img_url" := ImageUrlsValue(urls), "io" := ModuleValue("io")];
    if "matplotlib" in importable
    then base["matplotlib" := ModuleValue("matplotlib")]["plt" := ModuleValue("matplotlib.pyplot")]
    else base
  }

  /** `alias or lib_name`: the name a catalog module is bound to. */
  function BindName(e: CatalogEntry): string {
    if e.alias != "" then e.alias else e.name
  }

  /** The names bound by the special imports (main.py:799-812) when their packages import. */
  function SpecialGlobals(importable: set<string>): map<string, Value>
  {
    var bs := if "bs4" in importable then map["BeautifulSoup" := MemberValue("bs4", "BeautifulSoup")] else map[];
    var pil := if "PIL" in importable then map["Image" := MemberValue("PIL", "Image")] else map[];
    var du := if "dateutil" in importable
      then map["dateutil_parser" := MemberValue("dateutil", "parser"), "dateutil" := ModuleValue("dateutil")]
      else map[];
    bs + pil + du
  }

  /**
   * What `k` may be bound to when user code starts: a base name with its
   * base value, a special name with its value, or the alias of an offered,
   * importable catalog module bound to that module.
   */
  ghost predicate BoundAs(g: map<string, Value>, k: string, base: map<string, Value>, special: map<string, Value>,
                          offered: seq<CatalogEntry>, importable: set<string>)
    requires k in g
  {
    (k in special && g[k] == special[k]) ||
    (k !in special && k in base && g[k] == base[k]) ||
    (k !in special && exists e :: e in offered && e.name in importable && BindName(e) == k && g[k] == ModuleValue(e.name))
  }

  /**
   * `exec_globals` as it stands when user code starts (main.py:616-812):
   * the base names, then every offered catalog module that imports under
   * its alias, then the special imports.  `importable` is the set of
   * packages whose import succeeds.
   */
  method BuildGlobals(dir: string, imageUrls: Option<seq<string>>, catalog: seq<CatalogEntry>, isAdmin: bool,
                      restricted: seq<string>, importable: set<string>)
    returns (g: map<string, Value>)
    ensures forall k :: k in BaseGlobals(dir, imageUrls, importable) ==> k in g
    ensures forall k :: k in SpecialGlobals(importable) ==> k in g && g[k] == SpecialGlobals(importable)[k]
    ensures forall e :: e in FilterCatalog(catalog, isAdmin, restricted) && e.name in importable ==> BindName(e) in g
    ensures forall k :: k in g ==>
      BoundAs(g, k, BaseGlobals(dir, imageUrls, importable), SpecialGlobals(importable),
              FilterCatalog(catalog, isAdmin, restricted), importable)
  {
    var offered := FilterCatalog(catalog, isAdmin, restricted);
    var base := BaseGlobals(dir, imageUrls, importable);
    var special := SpecialGlobals(importable);
    g := base;
    var i := 0;
    while i < |offered|
      invariant 0 <= i <= |offered|
      invariant forall k :: k in base ==> k in g
      invariant forall e :: e in offered[..i] && e.name in importable ==> BindName(e) in g
      invariant forall k :: k in g ==>
        (k in base && g[k] == base[k]) ||
        exists e :: e in offered[..i] && e.name in importable && BindName(e) == k && g[k] == ModuleValue(e.name)
    {
      var e := offered[i];
      assert offered[..i + 1] == offered[..i] + [e];
      if e.name in importable {
        g := g[BindName(e) := ModuleValue(e.name)];
      }
      i := i + 1;
    }
    assert offered[..i] == offered;
    g := g + special;
  }

  /**
   * For a non-admin caller with restricted libraries, a name bound to a
   * restricted module is one of the fixed names of the namespace (the base
   * names and the special imports, which are never filtered: `Image` from
   * a restricted `PIL` is still bound).
   */
  lemma RestrictedModuleNotOffered(g: map<string, Value>, k: string, base: map<string, Value>, special: map<string, Value>,
                                   catalog: seq<CatalogEntry>, restricted: seq<string>, importable: set<string>)
    requires restricted != []
    requires k in g && BoundAs(g, k, base, special, FilterCatalog(catalog, false, restricted), importable)
    requires g[k].ModuleValue? && Lower(g[k].moduleName) in restricted
    ensures k in base || k in special
  {
  }

  /** The special import of `Image` ignores the restriction on `PIL`. */
  lemma SpecialImportIgnoresRestriction(importable: set<string>)
    requires "PIL" in importable
    ensures "Image" in SpecialGlobals(importable)
    ensures SpecialGlobals(importable)["Image"] == MemberValue("PIL", "Image")
  {
  }

  // ---------------------------------------------------------------------
  // Outcomes
  // ---------------------------------------------------------------------

  /** The result dictionary of `_execute_code_safely`. */
  datatype Outcome = Outcome(success: bool, output: Option<string>, error: Option<string>, filePaths: seq<string>)

  /** What running the user's code did, as far as the worker can observe it. */
  datatype ExecEffect =
    | Completed(stdout: string, appended: seq<Entry>, fsAfter: FileSystem)
    | Raised(partialStdout: string, trace: string)

  /**
   * What `run_code` ends with: an outcome, or an exception that escapes it
   * because listing the output directory before the run failed.
   */
  datatype RunResult = Returned(outcome: Outcome) | SnapshotFailed

  /** The error text of a run that exceeded the time limit. */
  function TimeoutText(seconds: nat): string {
    "代码执行超时（超过 " + NatToString(seconds) + " 秒）"
  }

  /** The outcome shapes every returned result has. */
  predicate WellShaped(o: Outcome) {
    (o.success ==> o.error.None? && o.output.Some?) &&
    (!o.success ==> o.error.Some? && o.filePaths == [])
  }

  /**
   * What `run_code` may end with, given the output directory before the
   * run, what executing the code did and the traceback of a failing listing
   * after the run (main.py:611, 836-881).  A listing that fails before the
   * run escapes as an exception; an exception in the code gives its
   * traceback, its partial output and no files; a listing that fails after
   * the run gives a failure with that traceback; otherwise the run
   * succeeds with its output and the collected files.  The order in which
   * new names are visited is Python's set order, so the file list is given
   * by `Collected` rather than computed.
   */
  ghost predicate RunSpec(dir: string, fsBefore: FileSystem, effect: ExecEffect, listingTrace: string, r: RunResult)
  {
    if ListNames(fsBefore, dir).None? then r == SnapshotFailed
    else
      r.Returned? &&
      match effect
      case Raised(partial, trace) =>
        r.outcome == Outcome(false, Some(partial), Some(trace), [])
      case Completed(stdout, appended, fsAfter) =>
        if ListNames(fsAfter, dir).None? then
          r.outcome == Outcome(false, Some(stdout), Some(listingTrace), [])
        else
          var added := ListNames(fsAfter, dir).value - ListNames(fsBefore, dir).value;
          r.outcome.success && r.outcome.output == Some(stdout) && r.outcome.error.None? &&
          Collected(dir, ExistingFiles(appended, fsAfter), added, added, r.outcome.filePaths) &&
          forall f :: f in added ==> Join(dir, f) in r.outcome.filePaths
  }

  /** Every result `run_code` returns has the success or the failure shape. */
  lemma RunSpecWellShaped(dir: string, fsBefore: FileSystem, effect: ExecEffect, listingTrace: string, r: RunResult)
    requires RunSpec(dir, fsBefore, effect, listingTrace, r)
    ensures r.SnapshotFailed? <==> ListNames(fsBefore, dir).None?
    ensures r.Returned? ==> WellShaped(r.outcome)
    ensures r.Returned? && !r.outcome.success ==> r.outcome.filePaths == []
  {
  }

  /**
   * `run_code` (main.py:606-887).  `effect` is what executing the code did;
   * `listingTrace` is the traceback reported if listing the directory after
   * the run raises.  The namespace the code ran in is returned alongside.
   */
  method RunCode(dir: string, imageUrls: Option<seq<string>>, catalog: seq<CatalogEntry>, isAdmin: bool, restricted: seq<string>,
                 importable: set<string>, fsBefore: FileSystem, effect: ExecEffect, listingTrace: string)
    returns (r: RunResult, globals: map<string, Value>)
    ensures RunSpec(dir, fsBefore, effect, listingTrace, r)
    ensures r.SnapshotFailed? <==> ListNames(fsBefore, dir).None?
    ensures r.Returned? ==> WellShaped(r.outcome)
  {
    var before := ListNames(fsBefore, dir);
    globals := map[];
    if before.None? {
      return SnapshotFailed, globals;
    }
    globals := BuildGlobals(dir, imageUrls, catalog, isAdmin, restricted, importable);
    match effect {
      case Raised(partial, trace) =>
        r := Returned(Outcome(false, Some(partial), Some(trace), []));
      case Completed(stdout, appended, fsAfter) =>
        var files := CollectArtifacts(dir, appended, before.value, fsAfter);
        if files.None? {
          r := Returned(Outcome(false, Some(stdout), Some(listingTrace), []));
        } else {
          r := Returned(Outcome(true, Some(stdout), None, files.value));
        }
    }
  }

  /**
   * `_execute_code_safely` (main.py:889-898): the run races the time limit;
   * `timedOut` says which side won.  The worker thread of a timed-out run
   * is not stopped, and its effects are not modelled.
   */
  method ExecuteCodeSafely(timeoutSeconds: nat, timedOut: bool, dir: string, imageUrls: Option<seq<string>>,
                           catalog: seq<CatalogEntry>, isAdmin: bool, restricted: seq<string>, importable: set<string>,
                           fsBefore: FileSystem, effect: ExecEffect, listingTrace: string)
    returns (r: RunResult)
    ensures r.Returned? ==> WellShaped(r.outcome)
    ensures timedOut ==> r == Returned(Outcome(false, None, Some(TimeoutText(timeoutSeconds)), []))
    ensures !timedOut ==> RunSpec(dir, fsBefore, effect, listingTrace, r)
    ensures !timedOut ==> (r.SnapshotFailed? <==> ListNames(fsBefore, dir).None?)
    ensures r.Returned? && !r.outcome.success ==> r.outcome.filePaths == []
  {
    if timedOut {
      return Returned(Outcome(false, None, Some(TimeoutText(timeoutSeconds)), []));
    }
    var globals;
    r, globals := RunCode(dir, imageUrls, catalog, isAdmin, restricted, importable, fsBefore, effect, listingTrace);
  }

  // ---------------------------------------------------------------------
  // Output truncation for the chat reply
  // ---------------------------------------------------------------------

  /** `s[:n]` in Python, where a negative `n` counts from the end. */
  function PrefixSlice(s: string, n: int): (r: string)
    ensures |r| <= |s|
    ensures r == s[..|r|]
    ensures n >= 0 ==> |r| == if n < |s| then n else |s|
    ensures n < 0 ==> |r| == if |s| + n > 0 then |s| + n else 0
  {
    if n >= 0 then (if n < |s| then s[..n] else s)
    else if |s| + n > 0 then s[..|s| + n] else []
  }

  const TruncationMarker: string := "\n...(内容已截断)"

  /** main.py:424-425: output longer than the limit is cut and marked. */
  function Truncate(output: string, maxLength: int): string
  {
    if |output| > maxLength then PrefixSlice(output, maxLength) + TruncationMarker else output
  }

  /** Output within the limit is kept whole; longer output keeps exactly its first `maxLength` characters. */
  lemma TruncateWithinLimit(output: string, maxLength: nat)
    ensures |output| <= maxLength ==> Truncate(output, maxLength) == output
    ensures |output| > maxLength ==>
      Truncate(output, maxLength) == output[..maxLength] + TruncationMarker
    ensures |Truncate(output, maxLength)| <= maxLength + |TruncationMarker|
  {
  }

  /** A negative limit always truncates, dropping that many characters from the end. */
  lemma TruncateNegativeLimit(output: string, maxLength: int)
    requires maxLength < 0
    ensures Truncate(output, maxLength) ==
      (if |output| + maxLength > 0 then output[..|output| + maxLength] else "") + TruncationMarker
  {
  }
}
