/**
 * The permission check and the advisory policy gate of `execute_python_code`
 * (main.py): who may run code at all, and which restricted keywords and
 * libraries a non-admin caller's code is screened for.  The screening is
 * textual; it is not a sandbox.
 */
module Policy {
  import opened Text
  import Config

  // ---------------------------------------------------------------------
  // The import-line regular expression
  //   ^(\s*(import|from)\s+<lib>\b)   with IGNORECASE | MULTILINE
  // ---------------------------------------------------------------------

  /** `^` under MULTILINE: the start of the text or just after a `\n`. */
  predicate LineStart(code: string, p: int) {
    p == 0 || (0 < p <= |code| && code[p - 1] == '\n')
  }

  /** `w` occurs at index `i` of `code`, ignoring (ASCII) case. */
  predicate CiAt(code: string, i: int, w: string) {
    0 <= i && i + |w| <= |code| && Lower(code[i..i + |w|]) == Lower(w)
  }

  predicate WordAt(code: string, i: int) {
    0 <= i < |code| && IsWordChar(code[i])
  }

  /** `\b` at position `i`: a word character on exactly one side. */
  predicate Boundary(code: string, i: int) {
    WordAt(code, i - 1) != WordAt(code, i)
  }

  /** `\s+<lib>\b` matches starting at index `j`. */
  predicate LibAfter(code: string, j: int, lib: string) {
    exists m :: 0 <= j < m <= |code| && AllSpace(code[j..m]) && CiAt(code, m, lib) && Boundary(code, m + |lib|)
  }

  /** `(import|from)\s+<lib>\b` matches starting at index `k`. */
  predicate StatementAt(code: string, k: int, lib: string) {
    (CiAt(code, k, "import") && LibAfter(code, k + 6, lib)) ||
    (CiAt(code, k, "from") && LibAfter(code, k + 4, lib))
  }

  /** `pattern_import.search(code)` finds a match. */
  predicate ImportLineMatch(code: string, lib: string) {
    exists p, k :: 0 <= p <= k <= |code| && LineStart(code, p) && AllSpace(code[p..k]) && StatementAt(code, k, lib)
  }

  // ---------------------------------------------------------------------
  // The two screening rules and the set of matched terms
  // ---------------------------------------------------------------------

  /** A keyword matches when it is non-empty and a substring of the lower-cased code. */
  predicate KeywordHit(code: string, kw: string) {
    kw != "" && Contains(Lower(code), kw)
  }

  /** A library matches by an import line or by the text `<lib>.` in the lower-cased code. */
  predicate LibraryHit(code: string, lib: string) {
    lib != "" && (ImportLineMatch(code, Lower(lib)) || Contains(Lower(code), Lower(lib) + "."))
  }

  /** The terms reported for `code`: matching keywords as written, matching libraries lower-cased. */
  function MatchedTerms(code: string, keywords: seq<string>, libraries: seq<string>): set<string>
  {
    KeywordHits(code, keywords) + LibraryHits(code, libraries)
  }

  function KeywordHits(code: string, keywords: seq<string>): set<string> {
    set kw | kw in keywords && KeywordHit(code, kw)
  }

  function LibraryHits(code: string, libraries: seq<string>): set<string> {
    set lib | lib in libraries && LibraryHit(code, lib) :: Lower(lib)
  }

  /** A term is reported exactly when it is a matching keyword or a matching library, lower-cased. */
  lemma MatchedTermsMembers(code: string, keywords: seq<string>, libraries: seq<string>)
    ensures forall t :: t in MatchedTerms(code, keywords, libraries) <==>
      (t in keywords && KeywordHit(code, t)) ||
      (exists lib :: lib in libraries && LibraryHit(code, lib) && Lower(lib) == t)
  {
  }

  lemma KeywordHitsStep(code: string, keywords: seq<string>, i: int)
    requires 0 <= i < |keywords|
    ensures KeywordHits(code, keywords[..i + 1]) ==
      KeywordHits(code, keywords[..i]) + (if KeywordHit(code, keywords[i]) then {keywords[i]} else {})
  {
    assert keywords[..i + 1] == keywords[..i] + [keywords[i]];
  }

  lemma LibraryHitsStep(code: string, libraries: seq<string>, j: int)
    requires 0 <= j < |libraries|
    ensures LibraryHits(code, libraries[..j + 1]) ==
      LibraryHits(code, libraries[..j]) + (if LibraryHit(code, libraries[j]) then {Lower(libraries[j])} else {})
  {
    assert libraries[..j + 1] == libraries[..j] + [libraries[j]];
  }

  /**
   * The screening loops of main.py: every keyword, then every library,
   * adding each hit to `matched`.
   */
  method Screen(code: string, keywords: seq<string>, libraries: seq<string>) returns (matched: set<string>)
    ensures matched == MatchedTerms(code, keywords, libraries)
  {
    var codeLower := Lower(code);
    matched := {};
    var i := 0;
    while i < |keywords|
      invariant 0 <= i <= |keywords|
      invariant matched == KeywordHits(code, keywords[..i])
    {
      var kw := keywords[i];
      KeywordHitsStep(code, keywords, i);
      if kw != "" && Contains(codeLower, kw) {
        matched := matched + {kw};
      }
      i := i + 1;
    }
    assert keywords[..i] == keywords;
    ghost var fromKeywords := matched;
    var j := 0;
    while j < |libraries|
      invariant 0 <= j <= |libraries|
      invariant matched == fromKeywords + LibraryHits(code, libraries[..j])
    {
      var lib := libraries[j];
      LibraryHitsStep(code, libraries, j);
      if lib != "" {
        var libLower := Lower(lib);
        if ImportLineMatch(code, libLower) {
          matched := matched + {libLower};
        }
        if Contains(codeLower, libLower + ".") {
          matched := matched + {libLower};
        }
      }
      j := j + 1;
    }
    assert libraries[..j] == libraries;
  }

  // ---------------------------------------------------------------------
  // Sorting the matched terms for the rejection text
  // ---------------------------------------------------------------------

  predicate StrictlySorted(xs: seq<string>) {
    forall i, j :: 0 <= i < j < |xs| ==> LexLt(xs[i], xs[j])
  }

  /** `x` is the least element of `s` in code-point order. */
  predicate IsLeast(x: string, s: set<string>) {
    x in s && forall y :: y in s ==> LexLe(x, y)
  }

  lemma {:induction false} MinimumExists(s: set<string>)
    requires s != {}
    ensures exists x :: IsLeast(x, s)
    decreases |s|
  {
    var z :| z in s;
    if s == {z} {
      LexLeReflexive(z);
      assert IsLeast(z, s);
    } else {
      var rest := s - {z};
      MinimumExists(rest);
      var m :| IsLeast(m, rest);
      LexLeTotal(m, z);
      if LexLe(m, z) {
        LeastOfAdded(m, rest, z);
      } else {
        forall y | y in rest ensures LexLe(z, y) {
          LexLeTransitive(z, m, y);
        }
        LexLeReflexive(z);
        assert IsLeast(z, rest + {z});
      }
      assert rest + {z} == s;
    }
  }

  lemma LeastOfAdded(m: string, rest: set<string>, z: string)
    requires IsLeast(m, rest) && LexLe(m, z)
    ensures IsLeast(m, rest + {z})
  {
  }

  /** `sorted(matched)`: the terms in increasing code-point order, each once. */
  method SortTerms(s: set<string>) returns (r: seq<string>)
    ensures StrictlySorted(r)
    ensures forall t :: t in r <==> t in s
    ensures |r| == |s|
  {
    r := [];
    var rest := s;
    while rest != {}
      invariant rest <= s
      invariant StrictlySorted(r)
      invariant forall t :: t in r <==> t in s && t !in rest
      invariant forall i, y :: 0 <= i < |r| && y in rest ==> LexLt(r[i], y)
      invariant |r| + |rest| == |s|
      decreases |rest|
    {
      MinimumExists(rest);
      var x :| IsLeast(x, rest);
      forall y | y in rest - {x} ensures LexLt(x, y) { }
      r := r + [x];
      rest := rest - {x};
    }
  }

  lemma SortedHeadLeast(a: seq<string>, t: string)
    requires StrictlySorted(a) && a != [] && t in a
    ensures LexLe(a[0], t)
  {
    var i :| 0 <= i < |a| && a[i] == t;
    if i == 0 { LexLeReflexive(t); }
  }

  /** Two strictly sorted lists with the same elements are equal. */
  lemma {:induction false} SortedUnique(a: seq<string>, b: seq<string>)
    requires StrictlySorted(a) && StrictlySorted(b)
    requires forall t :: t in a <==> t in b
    ensures a == b
    decreases |a|
  {
    assert a == [] <==> b == [] by {
      assert a != [] ==> a[0] in b;
      assert b != [] ==> b[0] in a;
    }
    if a != [] {
      SortedHeadLeast(a, b[0]);
      SortedHeadLeast(b, a[0]);
      LexLeAntisymmetric(a[0], b[0]);
      forall t ensures t in a[1..] <==> t in b[1..] {
        if t in a[1..] {
          var i :| 1 <= i < |a| && a[i] == t;
          assert LexLt(a[0], t);
          assert t in b;
          var i' :| 0 <= i' < |b| && b[i'] == t;
          assert b[1..][i' - 1] == t;
        }
        if t in b[1..] {
          var i :| 1 <= i < |b| && b[i] == t;
          assert LexLt(b[0], t);
          assert t in a;
          var i' :| 0 <= i' < |a| && a[i'] == t;
          assert a[1..][i' - 1] == t;
        }
      }
      SortedUnique(a[1..], b[1..]);
      assert a == [a[0]] + a[1..] && b == [b[0]] + b[1..];
    }
  }

  // ---------------------------------------------------------------------
  // The gate
  // ---------------------------------------------------------------------

  /** What the gate decides before any execution takes place. */
  datatype Decision =
    | PermissionDenied
    | Blocked(terms: seq<string>)
    | Cleared

  /** The reply given to a caller who may not run code at all. */
  const PermissionDeniedText: string :=
    "❌ 权限验证失败：用户不是管理员，无权限运行代码。请联系管理员获取权限。操作已终止，无需重复尝试。"

  /** The reply listing the blocked terms, joined by `、`. */
  function BlockedText(terms: seq<string>): string {
    "❌ 安全策略阻止执行：检测到非管理员代码包含危险操作或库。\n被拦截项：" + JoinWith(terms, "、") +
    "\n如需调整，请在插件配置的 `restricted_keywords` 或 `restricted_libraries` 中修改。"
  }

  /** The caller is screened: not an admin, and non-admin safety is on. */
  predicate Screened(settings: Config.Settings, role: string) {
    role != "admin" && settings.nonAdminSafetyEnabled
  }

  predicate Permitted(settings: Config.Settings, role: string) {
    settings.allowAllUsers || role == "admin"
  }

  /** The permission check and policy gate at the start of `execute_python_code`. */
  method Gate(settings: Config.Settings, role: string, code: string) returns (d: Decision)
    ensures d.PermissionDenied? <==> !Permitted(settings, role)
    ensures d.Blocked? <==>
      Permitted(settings, role) && Screened(settings, role) &&
      MatchedTerms(code, settings.restrictedKeywords, settings.restrictedLibraries) != {}
    ensures d.Blocked? ==> StrictlySorted(d.terms) && d.terms != []
    ensures d.Blocked? ==>
      forall t :: t in d.terms <==> t in MatchedTerms(code, settings.restrictedKeywords, settings.restrictedLibraries)
  {
    if !settings.allowAllUsers && role != "admin" {
      return PermissionDenied;
    }
    if role != "admin" && settings.nonAdminSafetyEnabled {
      var matched := Screen(code, settings.restrictedKeywords, settings.restrictedLibraries);
      if matched != {} {
        var details := SortTerms(matched);
        return Blocked(details);
      }
    }
    return Cleared;
  }

  // ---------------------------------------------------------------------
  // Properties of the screening
  // ---------------------------------------------------------------------

  /** With nothing configured, every caller who passes the permission check is cleared. */
  lemma NothingConfiguredClearsEverything(code: string)
    ensures MatchedTerms(code, [], []) == {}
  {
  }

  /** Configuring more terms never lets through code that was blocked before. */
  lemma MoreTermsBlockMore(code: string, kws: seq<string>, libs: seq<string>, kws': seq<string>, libs': seq<string>)
    ensures MatchedTerms(code, kws, libs) <= MatchedTerms(code, kws + kws', libs + libs')
  {
    forall t | t in MatchedTerms(code, kws, libs) ensures t in MatchedTerms(code, kws + kws', libs + libs') {
      if !(t in kws && KeywordHit(code, t)) {
        var lib :| lib in libs && LibraryHit(code, lib) && Lower(lib) == t;
        assert lib in libs + libs';
      }
    }
  }

  lemma LowerPreservesClasses(c: char)
    ensures IsSpace(LowerChar(c)) == IsSpace(c)
    ensures IsWordChar(LowerChar(c)) == IsWordChar(c)
    ensures (LowerChar(c) == '\n') == (c == '\n')
  {
  }

  lemma LowerSliceTwice(code: string, i: int, j: int)
    requires 0 <= i <= j <= |code|
    ensures Lower(Lower(code)[i..j]) == Lower(code[i..j])
  {
    LowerSlice(code, i, j);
    LowerIsLower(code[i..j]);
    LowerOfNoUpper(Lower(code[i..j]));
  }

  lemma AllSpaceLower(code: string, i: int, j: int)
    requires 0 <= i <= j <= |code|
    ensures AllSpace(Lower(code)[i..j]) == AllSpace(code[i..j])
  {
    forall k | i <= k < j ensures IsSpace(Lower(code)[k]) == IsSpace(code[k]) {
      LowerPreservesClasses(code[k]);
    }
    assert forall k :: 0 <= k < j - i ==> Lower(code)[i..j][k] == Lower(code)[k + i] && code[i..j][k] == code[k + i];
  }

  lemma BoundaryLower(code: string, i: int)
    ensures Boundary(Lower(code), i) == Boundary(code, i)
  {
    if 0 <= i < |code| { LowerPreservesClasses(code[i]); }
    if 0 <= i - 1 < |code| { LowerPreservesClasses(code[i - 1]); }
  }

  /** The body of `LibAfter` for one witness `m` does not see case. */
  lemma LibAtLower(code: string, j: int, m: int, lib: string)
    requires 0 <= j < m <= |code|
    ensures AllSpace(Lower(code)[j..m]) == AllSpace(code[j..m])
    ensures CiAt(Lower(code), m, lib) == CiAt(code, m, lib)
    ensures Boundary(Lower(code), m + |lib|) == Boundary(code, m + |lib|)
  {
    AllSpaceLower(code, j, m);
    if m + |lib| <= |code| { LowerSliceTwice(code, m, m + |lib|); }
    BoundaryLower(code, m + |lib|);
  }

  lemma LibAfterLower(code: string, j: int, lib: string)
    ensures LibAfter(Lower(code), j, lib) == LibAfter(code, j, lib)
  {
    var low := Lower(code);
    if LibAfter(code, j, lib) {
      var m :| 0 <= j < m <= |code| && AllSpace(code[j..m]) && CiAt(code, m, lib) && Boundary(code, m + |lib|);
      LibAtLower(code, j, m, lib);
    }
    if LibAfter(low, j, lib) {
      var m :| 0 <= j < m <= |low| && AllSpace(low[j..m]) && CiAt(low, m, lib) && Boundary(low, m + |lib|);
      LibAtLower(code, j, m, lib);
    }
  }

  lemma StatementLower(code: string, k: int, lib: string)
    ensures StatementAt(Lower(code), k, lib) == StatementAt(code, k, lib)
  {
    LibAfterLower(code, k + 6, lib);
    LibAfterLower(code, k + 4, lib);
    if 0 <= k && k + 6 <= |code| { LowerSliceTwice(code, k, k + 6); }
    if 0 <= k && k + 4 <= |code| { LowerSliceTwice(code, k, k + 4); }
  }

  lemma LineStartLower(code: string, p: int)
    ensures LineStart(Lower(code), p) == LineStart(code, p)
  {
    if 0 < p <= |code| { LowerPreservesClasses(code[p - 1]); }
  }

  lemma ImportLineMatchLower(code: string, lib: string)
    ensures ImportLineMatch(Lower(code), lib) == ImportLineMatch(code, lib)
  {
    var low := Lower(code);
    if ImportLineMatch(code, lib) {
      var p, k :| 0 <= p <= k <= |code| && LineStart(code, p) && AllSpace(code[p..k]) && StatementAt(code, k, lib);
      LineStartLower(code, p);
      AllSpaceLower(code, p, k);
      StatementLower(code, k, lib);
    }
    if ImportLineMatch(low, lib) {
      var p, k :| 0 <= p <= k <= |low| && LineStart(low, p) && AllSpace(low[p..k]) && StatementAt(low, k, lib);
      LineStartLower(code, p);
      AllSpaceLower(code, p, k);
      StatementLower(code, k, lib);
    }
  }

  /** Screening ignores case: code and its lower-cased form match the same terms. */
  lemma ScreeningIgnoresCase(code: string, keywords: seq<string>, libraries: seq<string>)
    ensures MatchedTerms(Lower(code), keywords, libraries) == MatchedTerms(code, keywords, libraries)
  {
    LowerIsLower(code);
    LowerOfNoUpper(Lower(code));
    forall lib | lib in libraries ensures LibraryHit(Lower(code), lib) == LibraryHit(code, lib) {
      ImportLineMatchLower(code, Lower(lib));
    }
  }
}
