/**
 * The query side of the execution history table (database.py,
 * `get_execution_history`): the filters, how they become a WHERE clause
 * with positional parameters, what that clause selects under SQLite's
 * rules, the normalisation of `datetime-local` bounds, and the paging
 * arithmetic.
 */
module HistoryQuery {
  import opened Text
  import opened Wrappers

  /** One row of `execution_history`; `filePaths` is the stored JSON text. */
  datatype Row = Row(
    id: int,
    senderId: string,
    senderName: string,
    code: string,
    description: Option<string>,
    success: bool,
    output: Option<string>,
    errorMsg: Option<string>,
    filePaths: Option<string>,
    executionTime: Option<real>,
    createdAt: string)

  /** The optional filters of a history query. */
  datatype Filter = Filter(
    senderId: Option<string>,
    keyword: Option<string>,
    success: Option<bool>,
    startTime: Option<string>,
    endTime: Option<string>)

  /** Python truthiness of an optional string: present and non-empty. */
  predicate Given(s: Option<string>) {
    s.Some? && s.value != ""
  }

  // ---------------------------------------------------------------------
  // LIKE
  // ---------------------------------------------------------------------

  /**
   * SQLite's `t LIKE p`: `%` matches any run of characters, `_` any one
   * character, and letters compare without regard to ASCII case.
   */
  predicate Like(p: string, t: string)
    decreases |p| + |t|
  {
    if p == [] then t == []
    else if p[0] == '%' then Like(p[1..], t) || (t != [] && Like(p, t[1..]))
    else t != [] && (p[0] == '_' || LowerChar(p[0]) == LowerChar(t[0])) && Like(p[1..], t[1..])
  }

  /** The pattern `%kw%` a search keyword is turned into. */
  function SearchPattern(kw: string): string {
    "%" + kw + "%"
  }

  predicate NoWildcards(s: string) {
    '%' !in s && '_' !in s
  }

  /** `kw` occurs in `t` at `i`, ignoring ASCII case. */
  predicate CiOccursAt(t: string, kw: string, i: int) {
    0 <= i && i + |kw| <= |t| && Lower(t[i..i + |kw|]) == Lower(kw)
  }

  lemma {:induction false} LikeAnything(t: string)
    ensures Like("%", t)
    decreases |t|
  {
    assert "%"[1..] == [];
    if t != [] { LikeAnything(t[1..]); }
  }

  /** `q%` matches exactly the texts that start with `q`, ignoring case. */
  lemma {:induction false} LikePrefix(q: string, t: string)
    requires NoWildcards(q)
    ensures Like(q + "%", t) <==> |q| <= |t| && Lower(t[..|q|]) == Lower(q)
    decreases |q|
  {
    if q == [] {
      assert q + "%" == "%";
      LikeAnything(t);
      assert t[..0] == [];
    } else {
      var p := q + "%";
      assert p[0] == q[0] && p[1..] == q[1..] + "%";
      assert q[0] != '%' && q[0] != '_';
      if t != [] {
        LikePrefix(q[1..], t[1..]);
        if |q| <= |t| {
          assert t[..|q|] == [t[0]] + t[1..][..|q| - 1];
          assert q == [q[0]] + q[1..];
          LowerEqCons(t[0], t[1..][..|q| - 1], q[0], q[1..]);
        }
      }
    }
  }

  /** Two strings agree in lower case exactly when their heads and their tails do. */
  lemma LowerEqCons(a: char, x: string, b: char, y: string)
    ensures Lower([a] + x) == Lower([b] + y) <==> LowerChar(a) == LowerChar(b) && Lower(x) == Lower(y)
  {
    LowerConcat([a], x);
    LowerConcat([b], y);
    assert Lower([a]) == [LowerChar(a)];
    assert Lower([b]) == [LowerChar(b)];
    if Lower([a] + x) == Lower([b] + y) {
      assert ([LowerChar(a)] + Lower(x))[0] == ([LowerChar(b)] + Lower(y))[0];
      assert ([LowerChar(a)] + Lower(x))[1..] == Lower(x);
      assert ([LowerChar(b)] + Lower(y))[1..] == Lower(y);
    }
  }

  /** `%r` matches when `r` matches some suffix. */
  lemma {:induction false} LikeSuffix(r: string, t: string)
    ensures Like("%" + r, t) <==> exists i :: 0 <= i <= |t| && Like(r, t[i..])
    decreases |t|
  {
    var p := "%" + r;
    assert p[0] == '%' && p[1..] == r;
    assert t[0..] == t;
    if t != [] {
      LikeSuffix(r, t[1..]);
      if exists i :: 0 <= i <= |t[1..]| && Like(r, t[1..][i..]) {
        var i :| 0 <= i <= |t[1..]| && Like(r, t[1..][i..]);
        assert t[1..][i..] == t[i + 1..];
      }
      if exists i :: 0 <= i <= |t| && Like(r, t[i..]) {
        var i :| 0 <= i <= |t| && Like(r, t[i..]);
        if i > 0 { assert t[1..][i - 1..] == t[i..]; }
      }
    }
  }

  /**
   * For a keyword without `%` or `_`, the search pattern `%kw%` matches
   * exactly the texts that contain the keyword, ignoring ASCII case.
   */
  lemma SearchIsContainment(kw: string, t: string)
    requires NoWildcards(kw)
    ensures Like(SearchPattern(kw), t) <==> exists i :: CiOccursAt(t, kw, i)
  {
    assert SearchPattern(kw) == "%" + (kw + "%");
    LikeSuffix(kw + "%", t);
    forall i | 0 <= i <= |t| ensures Like(kw + "%", t[i..]) <==> CiOccursAt(t, kw, i) {
      LikePrefix(kw, t[i..]);
      if i + |kw| <= |t| { assert t[i..][..|kw|] == t[i..i + |kw|]; }
    }
    if exists i :: CiOccursAt(t, kw, i) {
      var i :| CiOccursAt(t, kw, i);
      assert Like(kw + "%", t[i..]);
    }
  }

  /** An unescaped `_` in a keyword matches any character, so the search finds more than the keyword. */
  lemma UnderscoreMatchesAnyCharacter()
    ensures Like(SearchPattern("a_c"), "abc")
    ensures !(exists i :: CiOccursAt("abc", "a_c", i))
  {
    var t := "abc";
    assert SearchPattern("a_c") == "%a_c%";
    assert Like("%", []) by { LikeAnything([]); }
    assert Like("c%", "c") by { assert "c%"[1..] == "%" && "c"[1..] == []; }
    assert Like("_c%", "bc") by { assert "_c%"[1..] == "c%" && "bc"[1..] == "c"; }
    assert Like("a_c%", "abc") by { assert "a_c%"[1..] == "_c%" && "abc"[1..] == "bc"; }
    assert "%a_c%"[1..] == "a_c%";
    forall i ensures !CiOccursAt(t, "a_c", i) {
      if 0 <= i && i + 3 <= |t| {
        assert i == 0 && t[0..3] == t;
        assert Lower(t)[1] == 'b';
        assert Lower("a_c")[1] == '_';
      }
    }
  }

  // ---------------------------------------------------------------------
  // Time bounds
  // ---------------------------------------------------------------------

  /**
   * A time bound: `T` becomes a space, and a bare minute (sixteen characters
   * after the replacement) gets the given seconds appended (database.py:146-155).
   * The start bound appends `:00`, the end bound `:59`.
   */
  function NormalizeBound(s: string, seconds: string): (r: string)
    requires 'T' !in seconds
    ensures 'T' !in r
    ensures |r| >= |s| && r[..|s|] == ReplaceChar(s, 'T', ' ')
    ensures |s| == 16 ==> |r| == 16 + |seconds| && r[16..] == seconds
    ensures |s| != 16 ==> |r| == |s|
  {
    ReplaceCharSpec(s, 'T', ' ');
    var c := ReplaceChar(s, 'T', ' ');
    if |c| == 16 then c + seconds else c
  }

  function NormalizeStart(s: string): string {
    NormalizeBound(s, ":00")
  }

  function NormalizeEnd(s: string): string {
    NormalizeBound(s, ":59")
  }

  /** A `datetime-local` value: `YYYY-MM-DDTHH:mm`, sixteen characters with the `T` at index 10. */
  predicate DatetimeLocal(s: string) {
    |s| == 16 && s[10] == 'T' && forall i :: 0 <= i < 16 && i != 10 ==> s[i] != 'T'
  }

  lemma ReplaceDatetimeLocal(s: string)
    requires DatetimeLocal(s)
    ensures ReplaceChar(s, 'T', ' ') == s[..10] + " " + s[11..]
  {
    var c := ReplaceChar(s, 'T', ' ');
    var d := s[..10] + " " + s[11..];
    assert |c| == |d|;
    forall i | 0 <= i < 16 ensures c[i] == d[i] {
      if i < 10 { assert d[i] == s[i]; }
      else if i > 10 { assert d[i] == s[i]; }
    }
  }

  /**
   * Both bounds built from the same `datetime-local` minute take in every
   * stored timestamp of that minute (`YYYY-MM-DD HH:mm:SS`, seconds 00-59).
   */
  lemma MinuteBoundsInclusive(s: string, sec0: char, sec1: char)
    requires DatetimeLocal(s)
    requires '0' <= sec0 <= '5' && '0' <= sec1 <= '9'
    ensures LexLe(NormalizeStart(s), s[..10] + " " + s[11..] + ":" + [sec0, sec1])
    ensures LexLe(s[..10] + " " + s[11..] + ":" + [sec0, sec1], NormalizeEnd(s))
  {
    ReplaceDatetimeLocal(s);
    var p := s[..10] + " " + s[11..];
    var ts := p + ":" + [sec0, sec1];
    assert NormalizeStart(s) == p + ":00";
    assert NormalizeEnd(s) == p + ":59";
    assert ts == p + (":" + [sec0, sec1]);
    assert p + ":00" == p + ":00";
    LexLeCommonPrefix(p, ":00", ":" + [sec0, sec1]);
    LexLeCommonPrefix(p, ":" + [sec0, sec1], ":59");
    assert LexLe(":00", ":" + [sec0, sec1]) by {
      assert (":00")[1..] == "00" && (":" + [sec0, sec1])[1..] == [sec0, sec1];
      assert "00"[1..] == "0" && [sec0, sec1][1..] == [sec1];
      assert "0"[1..] == [] && [sec1][1..] == [];
    }
    assert LexLe(":" + [sec0, sec1], ":59") by {
      assert (":59")[1..] == "59" && (":" + [sec0, sec1])[1..] == [sec0, sec1];
      assert "59"[1..] == "9" && [sec0, sec1][1..] == [sec1];
      assert "9"[1..] == [] && [sec1][1..] == [];
    }
  }

  // ---------------------------------------------------------------------
  // The WHERE clause
  // ---------------------------------------------------------------------

  /** The conditions the query may use, in the order the query builds them. */
  datatype Cond = SenderIs | KeywordLike | SuccessIs | CreatedFrom | CreatedUntil

  /** A bound parameter: text, or a Python `bool` (which SQLite stores as 1 or 0). */
  datatype Param = TextParam(text: string) | BoolParam(flag: bool)

  function CondText(c: Cond): string {
    match c
    case SenderIs => "sender_id = ?"
    case KeywordLike => "(code LIKE ?" + " OR description LIKE ?" + " OR sender_name LIKE ?)"
    case SuccessIs => "success = ?"
    case CreatedFrom => "created_at >= ?"
    case CreatedUntil => "created_at <= ?"
  }

  function Placeholders(c: Cond): nat {
    if c == KeywordLike then 3 else 1
  }

  /** The filter asks for condition `c`. */
  predicate Active(c: Cond, f: Filter) {
    match c
    case SenderIs => Given(f.senderId)
    case KeywordLike => Given(f.keyword)
    case SuccessIs => f.success.Some?
    case CreatedFrom => Given(f.startTime)
    case CreatedUntil => Given(f.endTime)
  }

  function Piece(c: Cond, f: Filter): seq<Cond> {
    if Active(c, f) then [c] else []
  }

  /** The conditions of a filter (database.py:131-157). */
  function Conditions(f: Filter): seq<Cond> {
    Piece(SenderIs, f) + Piece(KeywordLike, f) + Piece(SuccessIs, f) + Piece(CreatedFrom, f) + Piece(CreatedUntil, f)
  }

  function TextOf(o: Option<string>): string {
    if o.Some? then o.value else ""
  }

  /** The parameters condition `c` contributes for filter `f`. */
  function CondParams(c: Cond, f: Filter): (ps: seq<Param>)
    ensures |ps| == Placeholders(c)
  {
    match c
    case SenderIs => [TextParam(TextOf(f.senderId))]
    case KeywordLike =>
      var k := SearchPattern(TextOf(f.keyword));
      [TextParam(k), TextParam(k), TextParam(k)]
    case SuccessIs => [BoolParam(f.success == Some(true))]
    case CreatedFrom => [TextParam(NormalizeStart(TextOf(f.startTime)))]
    case CreatedUntil => [TextParam(NormalizeEnd(TextOf(f.endTime)))]
  }

  function AllParams(cs: seq<Cond>, f: Filter): seq<Param> {
    if cs == [] then [] else CondParams(cs[0], f) + AllParams(cs[1..], f)
  }

  /** The parameter list of a filter, in the order of its conditions. */
  function Params(f: Filter): seq<Param> {
    AllParams(Conditions(f), f)
  }

  lemma {:induction false} AllParamsAppend(a: seq<Cond>, b: seq<Cond>, f: Filter)
    ensures AllParams(a + b, f) == AllParams(a, f) + AllParams(b, f)
    decreases |a|
  {
    if a == [] {
      assert a + b == b;
    } else {
      assert (a + b)[0] == a[0] && (a + b)[1..] == a[1..] + b;
      AllParamsAppend(a[1..], b, f);
    }
  }

  /** `"WHERE " + " AND ".join(conditions) if conditions else ""`. */
  function WhereClause(cs: seq<Cond>): string {
    if cs == [] then "" else "WHERE " + JoinWith(CondTexts(cs), " AND ")
  }

  function CondTexts(cs: seq<Cond>): (r: seq<string>)
    ensures |r| == |cs|
    ensures forall i :: 0 <= i < |cs| ==> r[i] == CondText(cs[i])
  {
    if cs == [] then [] else [CondText(cs[0])] + CondTexts(cs[1..])
  }

  function CountChar(s: string, c: char): nat {
    if s == [] then 0 else (if s[0] == c then 1 else 0) + CountChar(s[1..], c)
  }

  lemma {:induction false} CountCharConcat(a: string, b: string, c: char)
    ensures CountChar(a + b, c) == CountChar(a, c) + CountChar(b, c)
  {
    if a != [] {
      assert (a + b)[0] == a[0] && (a + b)[1..] == a[1..] + b;
      CountCharConcat(a[1..], b, c);
    } else {
      assert a + b == b;
    }
  }

  lemma {:induction false} CountCharAbsent(s: string, c: char)
    requires c !in s
    ensures CountChar(s, c) == 0
  {
    if s != [] { CountCharAbsent(s[1..], c); }
  }

  /** Text with one `?`, between two pieces without one. */
  lemma OnePlaceholder(a: string, b: string)
    requires '?' !in a && '?' !in b
    ensures CountChar(a + "?" + b, '?') == 1
  {
    CountCharConcat(a + "?", b, '?');
    CountCharConcat(a, "?", '?');
    CountCharAbsent(a, '?');
    CountCharAbsent(b, '?');
  }

  lemma CondTextPlaceholders(c: Cond)
    ensures CountChar(CondText(c), '?') == Placeholders(c)
  {
    match c {
      case SenderIs => EndsInPlaceholder("sender_id = ", "sender_id = ?");
      case SuccessIs => EndsInPlaceholder("success = ", "success = ?");
      case CreatedFrom => EndsInPlaceholder("created_at >= ", "created_at >= ?");
      case CreatedUntil => EndsInPlaceholder("created_at <= ", "created_at <= ?");
      case KeywordLike => KeywordPlaceholders();
    }
  }

  /** A condition text made of placeholder-free text and one final `?`. */
  lemma EndsInPlaceholder(a: string, text: string)
    requires '?' !in a && text == a + "?"
    ensures CountChar(text, '?') == 1
  {
    assert text == a + "?" + "";
    OnePlaceholder(a, "");
  }

  lemma KeywordPlaceholders()
    ensures CountChar(CondText(KeywordLike), '?') == 3
  {
    var a, b, c, d := "(code LIKE ", " OR description LIKE ", " OR sender_name LIKE ", ")";
    assert CondText(KeywordLike) == (a + "?" + "") + (b + "?" + "") + (c + "?" + d);
    ThreePlaceholders(a, b, c, d);
  }

  lemma ThreePlaceholders(a: string, b: string, c: string, d: string)
    requires '?' !in a && '?' !in b && '?' !in c && '?' !in d
    ensures CountChar((a + "?" + "") + (b + "?" + "") + (c + "?" + d), '?') == 3
  {
    OnePlaceholder(a, "");
    OnePlaceholder(b, "");
    OnePlaceholder(c, d);
    CountCharConcat((a + "?" + "") + (b + "?" + ""), c + "?" + d, '?');
    CountCharConcat(a + "?" + "", b + "?" + "", '?');
  }

  function TotalPlaceholders(cs: seq<Cond>): nat {
    if cs == [] then 0 else Placeholders(cs[0]) + TotalPlaceholders(cs[1..])
  }

  lemma {:induction false} JoinPlaceholders(cs: seq<Cond>)
    requires cs != []
    ensures CountChar(JoinWith(CondTexts(cs), " AND "), '?') == TotalPlaceholders(cs)
  {
    CondTextPlaceholders(cs[0]);
    if |cs| > 1 {
      JoinPlaceholders(cs[1..]);
      assert CondTexts(cs)[1..] == CondTexts(cs[1..]);
      CountAroundAnd(CondText(cs[0]), JoinWith(CondTexts(cs[1..]), " AND "));
    }
  }

  /** ` AND ` adds no placeholder. */
  lemma CountAroundAnd(a: string, b: string)
    ensures CountChar(a + " AND " + b, '?') == CountChar(a, '?') + CountChar(b, '?')
  {
    CountCharConcat(a + " AND ", b, '?');
    CountCharConcat(a, " AND ", '?');
    CountCharAbsent(" AND ", '?');
  }

  lemma {:induction false} AllParamsLength(cs: seq<Cond>, f: Filter)
    ensures |AllParams(cs, f)| == TotalPlaceholders(cs)
  {
    if cs != [] { AllParamsLength(cs[1..], f); }
  }

  /** The clause has as many `?` placeholders as there are parameters. */
  lemma PlaceholdersMatchParams(f: Filter)
    ensures CountChar(WhereClause(Conditions(f)), '?') == |Params(f)|
  {
    var cs := Conditions(f);
    AllParamsLength(cs, f);
    if cs != [] {
      JoinPlaceholders(cs);
      CountCharConcat("WHERE ", JoinWith(CondTexts(cs), " AND "), '?');
      CountCharAbsent("WHERE ", '?');
    }
  }

  /** No filter, no clause: the query then covers the whole table. */
  lemma NoFilterNoClause()
    ensures WhereClause(Conditions(Filter(None, None, None, None, None))) == ""
    ensures Params(Filter(None, None, None, None, None)) == []
  {
    var f := Filter(None, None, None, None, None);
    assert Conditions(f) == [];
  }

  /** A search keyword contributes its pattern three times, for code, description and sender name. */
  lemma KeywordParams(f: Filter)
    requires Given(f.keyword) && !Given(f.senderId)
    ensures |Params(f)| >= 3
    ensures Params(f)[..3] == [TextParam(SearchPattern(f.keyword.value)), TextParam(SearchPattern(f.keyword.value)),
                               TextParam(SearchPattern(f.keyword.value))]
  {
    var cs := Conditions(f);
    assert cs == [KeywordLike] + (Piece(SuccessIs, f) + Piece(CreatedFrom, f) + Piece(CreatedUntil, f));
    AllParamsAppend([KeywordLike], cs[1..], f);
    assert AllParams([KeywordLike], f) == CondParams(KeywordLike, f);
  }

  function CondRank(c: Cond): nat {
    match c
    case SenderIs => 0
    case KeywordLike => 1
    case SuccessIs => 2
    case CreatedFrom => 3
    case CreatedUntil => 4
  }

  /** The conditions always appear in the fixed order sender, keyword, success, start, end. */
  lemma ConditionsInOrder(f: Filter, i: int, j: int)
    requires 0 <= i < j < |Conditions(f)|
    ensures CondRank(Conditions(f)[i]) < CondRank(Conditions(f)[j])
  {
  }

  /** Exactly the conditions the filter asks for appear. */
  lemma ConditionsPresent(f: Filter, c: Cond)
    ensures c in Conditions(f) <==> Active(c, f)
  {
  }

  // ---------------------------------------------------------------------
  // What the clause selects
  // ---------------------------------------------------------------------

  /**
   * One condition over a row, with its parameters bound.  A NULL
   * description makes its LIKE unknown, which the OR of the other two
   * columns decides; a text parameter never equals the integer column
   * `success`, and a boolean never equals a text column.
   */
  predicate EvalCond(c: Cond, ps: seq<Param>, row: Row)
    requires |ps| == Placeholders(c)
  {
    match c
    case SenderIs => ps[0] == TextParam(row.senderId)
    case KeywordLike =>
      (ps[0].TextParam? && Like(ps[0].text, row.code)) ||
      (ps[1].TextParam? && row.description.Some? && Like(ps[1].text, row.description.value)) ||
      (ps[2].TextParam? && Like(ps[2].text, row.senderName))
    case SuccessIs => ps[0] == BoolParam(row.success)
    case CreatedFrom => ps[0].TextParam? && LexLe(ps[0].text, row.createdAt)
    case CreatedUntil => ps[0].TextParam? && LexLe(row.createdAt, ps[0].text)
  }

  /** The clause's conditions, joined by AND, consuming the parameters left to right. */
  predicate EvalConds(cs: seq<Cond>, ps: seq<Param>, row: Row)
  {
    if cs == [] then true
    else
      var n := Placeholders(cs[0]);
      n <= |ps| && EvalCond(cs[0], ps[..n], row) && EvalConds(cs[1..], ps[n..], row)
  }

  /** The search keyword occurs, as a LIKE pattern, in the code, description or sender name. */
  predicate KeywordFound(kw: string, row: Row) {
    Like(SearchPattern(kw), row.code) ||
    (row.description.Some? && Like(SearchPattern(kw), row.description.value)) ||
    Like(SearchPattern(kw), row.senderName)
  }

  /** What a filter means for a row, stated directly on the filter. */
  predicate Matches(row: Row, f: Filter) {
    (Given(f.senderId) ==> row.senderId == f.senderId.value) &&
    (Given(f.keyword) ==> KeywordFound(f.keyword.value, row)) &&
    (f.success.Some? ==> row.success == f.success.value) &&
    (Given(f.startTime) ==> LexLe(NormalizeStart(f.startTime.value), row.createdAt)) &&
    (Given(f.endTime) ==> LexLe(row.createdAt, NormalizeEnd(f.endTime.value)))
  }

  /** Evaluating a concatenation of conditions is evaluating both parts. */
  lemma {:induction false} EvalAppend(a: seq<Cond>, b: seq<Cond>, f: Filter, row: Row)
    ensures EvalConds(a + b, AllParams(a + b, f), row) <==>
      EvalConds(a, AllParams(a, f), row) && EvalConds(b, AllParams(b, f), row)
    decreases |a|
  {
    AllParamsAppend(a, b, f);
    if a == [] {
      assert a + b == b;
    } else {
      var head := CondParams(a[0], f);
      var ps := AllParams(a + b, f);
      assert (a + b)[0] == a[0] && (a + b)[1..] == a[1..] + b;
      assert ps == head + AllParams(a[1..] + b, f);
      assert ps[..|head|] == head;
      assert ps[|head|..] == AllParams(a[1..] + b, f);
      var qs := AllParams(a, f);
      assert qs == head + AllParams(a[1..], f);
      assert qs[..|head|] == head;
      assert qs[|head|..] == AllParams(a[1..], f);
      EvalAppend(a[1..], b, f, row);
    }
  }

  /** One piece of the clause means its conjunct of `Matches`. */
  lemma EvalPiece(c: Cond, f: Filter, row: Row)
    ensures EvalConds(Piece(c, f), AllParams(Piece(c, f), f), row) <==>
      (Active(c, f) ==>
        match c
        case SenderIs => row.senderId == f.senderId.value
        case KeywordLike => KeywordFound(f.keyword.value, row)
        case SuccessIs => row.success == f.success.value
        case CreatedFrom => LexLe(NormalizeStart(f.startTime.value), row.createdAt)
        case CreatedUntil => LexLe(row.createdAt, NormalizeEnd(f.endTime.value)))
  {
    if Active(c, f) {
      var ps := AllParams([c], f);
      assert [c][0] == c && [c][1..] == [];
      assert ps == CondParams(c, f) + AllParams([], f);
      assert ps[..Placeholders(c)] == CondParams(c, f);
    }
  }

  /** The WHERE clause with its bound parameters selects exactly the rows the filter describes. */
  lemma WhereMeansMatches(f: Filter, row: Row)
    ensures EvalConds(Conditions(f), Params(f), row) <==> Matches(row, f)
  {
    var s := Piece(SenderIs, f);
    var k := Piece(KeywordLike, f);
    var u := Piece(SuccessIs, f);
    var a := Piece(CreatedFrom, f);
    var e := Piece(CreatedUntil, f);
    EvalAppend(s + k + u + a, e, f, row);
    EvalAppend(s + k + u, a, f, row);
    EvalAppend(s + k, u, f, row);
    EvalAppend(s, k, f, row);
    EvalPiece(SenderIs, f, row);
    EvalPiece(KeywordLike, f, row);
    EvalPiece(SuccessIs, f, row);
    EvalPiece(CreatedFrom, f, row);
    EvalPiece(CreatedUntil, f, row);
  }

  /**
   * The WHERE clause and its parameters (database.py:128-159), built by
   * appending to two lists as the source does.
   */
  method BuildWhere(f: Filter) returns (clause: string, params: seq<Param>)
    ensures clause == WhereClause(Conditions(f)) && params == Params(f)
    ensures CountChar(clause, '?') == |params|
  {
    var conds: seq<Cond> := [];
    params := [];
    if Given(f.senderId) {
      Extend(conds, params, SenderIs, f, [TextParam(f.senderId.value)]);
      conds, params := conds + [SenderIs], params + [TextParam(f.senderId.value)];
    }
    ghost var upTo := Piece(SenderIs, f);
    assert conds == upTo;
    if Given(f.keyword) {
      var pattern := SearchPattern(f.keyword.value);
      Extend(conds, params, KeywordLike, f, [TextParam(pattern), TextParam(pattern), TextParam(pattern)]);
      conds, params := conds + [KeywordLike], params + [TextParam(pattern), TextParam(pattern), TextParam(pattern)];
    }
    upTo := upTo + Piece(KeywordLike, f);
    assert conds == upTo;
    if f.success.Some? {
      Extend(conds, params, SuccessIs, f, [BoolParam(f.success.value)]);
      conds, params := conds + [SuccessIs], params + [BoolParam(f.success.value)];
    }
    upTo := upTo + Piece(SuccessIs, f);
    assert conds == upTo;
    if Given(f.startTime) {
      Extend(conds, params, CreatedFrom, f, [TextParam(NormalizeStart(f.startTime.value))]);
      conds, params := conds + [CreatedFrom], params + [TextParam(NormalizeStart(f.startTime.value))];
    }
    upTo := upTo + Piece(CreatedFrom, f);
    assert conds == upTo;
    if Given(f.endTime) {
      Extend(conds, params, CreatedUntil, f, [TextParam(NormalizeEnd(f.endTime.value))]);
      conds, params := conds + [CreatedUntil], params + [TextParam(NormalizeEnd(f.endTime.value))];
    }
    upTo := upTo + Piece(CreatedUntil, f);
    assert conds == upTo;
    assert upTo == Conditions(f);
    clause := if conds != [] then "WHERE " + JoinWith(CondTexts(conds), " AND ") else "";
    PlaceholdersMatchParams(f);
  }

  /** Appending one condition with its parameters keeps the parameter list in step. */
  lemma Extend(conds: seq<Cond>, params: seq<Param>, c: Cond, f: Filter, extra: seq<Param>)
    requires params == AllParams(conds, f) && extra == CondParams(c, f)
    ensures params + extra == AllParams(conds + [c], f)
  {
    AllParamsAppend(conds, [c], f);
    assert [c][0] == c && [c][1..] == [];
  }


  // ---------------------------------------------------------------------
  // Paging
  // ---------------------------------------------------------------------

  /** `(page - 1) * page_size` (database.py:125). */
  function Offset(page: int, pageSize: int): int {
    (page - 1) * pageSize
  }

  /** Python's `a // b`, which rounds toward negative infinity. */
  function FloorDiv(a: int, b: int): (q: int)
    requires b != 0
    ensures b > 0 ==> q * b <= a < q * b + b
    ensures b < 0 ==> q * b >= a > q * b + b
  {
    if b > 0 then a / b else (-a) / (-b)
  }

  /** `(total_count + page_size - 1) // page_size`; a page size of 0 raises. */
  function TotalPages(total: nat, pageSize: int): Result<int>
  {
    if pageSize == 0 then Failure("integer division or modulo by zero")
    else Success(FloorDiv(total + pageSize - 1, pageSize))
  }

  /** With a positive page size the page count is the ceiling of total / size. */
  lemma TotalPagesIsCeiling(total: nat, pageSize: int)
    requires pageSize > 0
    ensures TotalPages(total, pageSize).Success?
    ensures var n := TotalPages(total, pageSize).value;
      n >= 0 && n * pageSize >= total && (total > 0 ==> (n - 1) * pageSize < total)
    ensures total == 0 ==> TotalPages(total, pageSize).value == 0
  {
  }

  /**
   * `LIMIT limit OFFSET offset` over an ordered result: a negative offset
   * counts as zero and a negative limit as no limit.
   */
  function Window<T>(xs: seq<T>, limit: int, offset: int): (r: seq<T>)
    ensures limit >= 0 ==> |r| <= limit
    ensures WindowStart(|xs|, offset) + |r| <= |xs|
    ensures r == xs[WindowStart(|xs|, offset)..WindowStart(|xs|, offset) + |r|]
    ensures limit >= 0 && WindowStart(|xs|, offset) + limit <= |xs| ==> |r| == limit
  {
    var rest := xs[WindowStart(|xs|, offset)..];
    if limit < 0 || limit >= |rest| then rest else rest[..limit]
  }

  /** Where the window starts: the offset, clamped to the result. */
  function WindowStart(n: nat, offset: int): (s: nat)
    ensures s <= n
  {
    if offset < 0 then 0 else if offset > n then n else offset
  }

  /** With a positive page size, record `i` of the ordered result is on page `i / size + 1`, at `i % size`. */
  lemma RecordOnItsPage<T>(xs: seq<T>, i: int, pageSize: int)
    requires 0 <= i < |xs| && pageSize > 0
    ensures var page := i / pageSize + 1;
      var w := Window(xs, pageSize, Offset(page, pageSize));
      i % pageSize < |w| && w[i % pageSize] == xs[i]
  {
    var q, r := i / pageSize, i % pageSize;
    assert q * pageSize + r == i && 0 <= r < pageSize;
    assert q * pageSize >= 0;
    assert Offset(q + 1, pageSize) == q * pageSize;
    WindowAt(xs, q * pageSize, r, pageSize);
  }

  /** Item `r` of the window of `size` items starting at `start` is `xs[start + r]`. */
  lemma WindowAt<T>(xs: seq<T>, start: int, r: int, size: int)
    requires 0 <= start && 0 <= r < size && start + r < |xs|
    ensures r < |Window(xs, size, start)| && Window(xs, size, start)[r] == xs[start + r]
  {
    assert WindowStart(|xs|, start) == start;
  }

  /** Consecutive pages do not overlap: page `p + 1` starts where page `p` ends. */
  lemma PagesAdjacent(page: int, pageSize: int)
    requires page >= 1 && pageSize > 0
    ensures Offset(page + 1, pageSize) == Offset(page, pageSize) + pageSize
  {
  }
}
