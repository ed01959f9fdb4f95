/**
 * The plugin's configuration: the restriction lists and how a raw
 * configuration value is turned into a list of clean, lower-case terms
 * (`_normalize_list_config` in main.py).
 */
module Config {
  import opened Text

  /** What `str(v)` gives for one element of a configured list. */
  datatype Element = Str(text: string) | StrRaises

  /**
   * A raw configuration value: a list, a string, or anything else
   * (including a missing key, which `config.get` returns as `None`).
   */
  datatype ConfigValue = ListValue(items: seq<Element>) | StringValue(s: string) | OtherValue

  /** The keywords screened when `restricted_keywords` is not configured. */
  const DefaultKeywords: seq<string> :=
    ["os.system", "subprocess", "popen", "shell=true", "eval(", "exec(",
     "shutil.rmtree", "os.remove(", "os.rmdir("]

  /** The libraries screened when `restricted_libraries` is not configured. */
  const DefaultLibraries: seq<string> := ["subprocess", "socket", "ctypes", "psutil", "paramiko"]

  /** The settings of the plugin that the execution engine reads. */
  datatype Settings = Settings(
    timeoutSeconds: nat,
    maxOutputLength: int,
    allowAllUsers: bool,
    nonAdminSafetyEnabled: bool,
    restrictedKeywords: seq<string>,
    restrictedLibraries: seq<string>,
    outputDir: string)

  /** A term kept by the cleaning: stripped, non-empty. */
  predicate Kept(x: string) { Strip(x) != "" }

  /** Strip each entry, drop the empty ones, lower-case the rest, in order. */
  function Clean(xs: seq<string>): (r: seq<string>)
    ensures |r| <= |xs|
  {
    if xs == [] then [] else CleanOne(xs[0]) + Clean(xs[1..])
  }

  /** What cleaning makes of one entry: its stripped, lower-cased text, or nothing. */
  function CleanOne(x: string): seq<string> {
    if Kept(x) then [Lower(Strip(x))] else []
  }

  function Texts(items: seq<Element>): (r: seq<string>)
    requires forall k :: 0 <= k < |items| ==> items[k].Str?
    ensures |r| == |items|
    ensures forall k :: 0 <= k < |items| ==> r[k] == items[k].text
  {
    if items == [] then [] else [items[0].text] + Texts(items[1..])
  }

  function LowerAll(xs: seq<string>): (r: seq<string>)
    ensures |r| == |xs|
    ensures forall k :: 0 <= k < |xs| ==> r[k] == Lower(xs[k])
  {
    if xs == [] then [] else [Lower(xs[0])] + LowerAll(xs[1..])
  }

  /** `value.replace("\n", ",").split(",")`: the pieces of a configured string. */
  function Pieces(s: string): seq<string>
  {
    Split(ReplaceChar(s, '\n', ','), ',')
  }

  /** `_normalize_list_config(value, default)`. */
  function NormalizeListConfig(value: ConfigValue, default: seq<string>): (r: seq<string>)
  {
    match value
    case ListValue(items) =>
      if exists k :: 0 <= k < |items| && items[k].StrRaises? then LowerAll(default)
      else Clean(Texts(items))
    case StringValue(s) => Clean(Pieces(s))
    case OtherValue => LowerAll(default)
  }

  /** A term that `Clean` can produce: non-empty, lower-case, no surrounding whitespace. */
  predicate CleanTerm(t: string) {
    t != [] && NoUpper(t) && !IsSpace(t[0]) && !IsSpace(t[|t| - 1])
  }

  lemma StripTrimmed(s: string)
    requires s == [] || (!IsSpace(s[0]) && !IsSpace(s[|s| - 1]))
    ensures Strip(s) == s
  {
    if s != [] {
      assert LeadingSpace(s) == 0;
      assert s[0..] == s;
      assert TrailingSpace(s) == 0;
    }
  }

  lemma LowerStripClean(x: string)
    requires Kept(x)
    ensures CleanTerm(Lower(Strip(x)))
  {
    var t := Strip(x);
    LowerIsLower(t);
    assert Lower(t)[0] == LowerChar(t[0]);
    assert Lower(t)[|t| - 1] == LowerChar(t[|t| - 1]);
  }

  /** Every term of a cleaned list is a clean term. */
  lemma {:induction false} CleanTerms(xs: seq<string>)
    ensures forall k :: 0 <= k < |Clean(xs)| ==> CleanTerm(Clean(xs)[k])
  {
    if xs != [] {
      CleanTerms(xs[1..]);
      if Kept(xs[0]) { LowerStripClean(xs[0]); }
    }
  }

  /** Entry `x` is kept by the cleaning and becomes the term `t`. */
  predicate CleansTo(x: string, t: string) {
    Kept(x) && Lower(Strip(x)) == t
  }

  /** A term is in the cleaned list exactly when some entry cleans to it. */
  lemma {:induction false} CleanMembers(xs: seq<string>, t: string)
    ensures t in Clean(xs) <==> exists k :: 0 <= k < |xs| && CleansTo(xs[k], t)
  {
    if xs != [] {
      var tail := xs[1..];
      CleanMembers(tail, t);
      assert Clean(xs) == CleanOne(xs[0]) + Clean(tail);
      assert t in Clean(xs) <==> t in CleanOne(xs[0]) || t in Clean(tail);
      assert t in CleanOne(xs[0]) <==> CleansTo(xs[0], t);
      if t in Clean(tail) {
        var k :| 0 <= k < |tail| && CleansTo(tail[k], t);
        assert xs[k + 1] == tail[k];
      }
      if exists k :: 0 <= k < |xs| && CleansTo(xs[k], t) {
        var k :| 0 <= k < |xs| && CleansTo(xs[k], t);
        if k > 0 { assert tail[k - 1] == xs[k]; }
      }
    }
  }

  /** Cleaning keeps the order of the entries: it distributes over concatenation. */
  lemma {:induction false} CleanAppend(xs: seq<string>, ys: seq<string>)
    ensures Clean(xs + ys) == Clean(xs) + Clean(ys)
  {
    if xs == [] {
      assert xs + ys == ys;
    } else {
      assert (xs + ys)[0] == xs[0];
      assert (xs + ys)[1..] == xs[1..] + ys;
      CleanAppend(xs[1..], ys);
    }
  }

  lemma LowerTwice(s: string)
    ensures Lower(Lower(s)) == Lower(s)
  {
    LowerIsLower(s);
    LowerOfNoUpper(Lower(s));
  }

  /** Cleaning an already cleaned list changes nothing. */
  lemma {:induction false} CleanIdempotent(xs: seq<string>)
    ensures Clean(Clean(xs)) == Clean(xs)
  {
    if xs != [] {
      CleanIdempotent(xs[1..]);
      var head := CleanOne(xs[0]);
      assert Clean(xs) == head + Clean(xs[1..]);
      CleanAppend(head, Clean(xs[1..]));
      if Kept(xs[0]) {
        var t := Lower(Strip(xs[0]));
        LowerStripClean(xs[0]);
        StripTrimmed(t);
        LowerTwice(Strip(xs[0]));
        assert Clean(head) == [t] + Clean([]);
      }
    }
  }

  /** Splitting a comma-joined list of comma-free entries gives back the entries. */
  lemma {:induction false} SplitJoin(xs: seq<string>)
    requires |xs| >= 1
    requires forall k :: 0 <= k < |xs| ==> ',' !in xs[k]
    ensures Split(JoinWith(xs, ","), ',') == xs
  {
    if |xs| == 1 {
      var k := IndexOf(xs[0], ',');
      assert k == |xs[0]|;
    } else {
      var rest := JoinWith(xs[1..], ",");
      var s := xs[0] + "," + rest;
      assert JoinWith(xs, ",") == s;
      var k := IndexOf(s, ',');
      assert s[|xs[0]|] == ',';
      assert forall i :: 0 <= i < |xs[0]| ==> s[i] == xs[0][i];
      assert k == |xs[0]|;
      assert s[..k] == xs[0];
      assert s[k + 1..] == rest;
      SplitJoin(xs[1..]);
    }
  }

  lemma ReplaceAbsent(s: string, a: char, b: char)
    requires a !in s
    ensures ReplaceChar(s, a, b) == s
  {
  }

  lemma {:induction false} JoinWithout(xs: seq<string>, c: char)
    requires forall k :: 0 <= k < |xs| ==> c !in xs[k]
    requires c != ','
    ensures c !in JoinWith(xs, ",")
  {
    if |xs| > 1 { JoinWithout(xs[1..], c); }
  }

  /**
   * Configuring the terms as one comma-separated string or as a list of
   * strings gives the same normalised list, as long as no entry itself
   * contains a comma or a newline.
   */
  lemma StringAndListAgree(xs: seq<string>, items: seq<Element>)
    requires |xs| >= 1 && |items| == |xs|
    requires forall k :: 0 <= k < |xs| ==> items[k] == Str(xs[k])
    requires forall k :: 0 <= k < |xs| ==> ',' !in xs[k] && '\n' !in xs[k]
    ensures NormalizeListConfig(StringValue(JoinWith(xs, ",")), []) == NormalizeListConfig(ListValue(items), [])
  {
    StringSide(xs);
    ListSide(xs, items);
  }

  lemma StringSide(xs: seq<string>)
    requires |xs| >= 1
    requires forall k :: 0 <= k < |xs| ==> ',' !in xs[k] && '\n' !in xs[k]
    ensures NormalizeListConfig(StringValue(JoinWith(xs, ",")), []) == Clean(xs)
  {
    var joined := JoinWith(xs, ",");
    JoinWithout(xs, '\n');
    ReplaceAbsent(joined, '\n', ',');
    SplitJoin(xs);
    assert Pieces(joined) == xs;
  }

  lemma ListSide(xs: seq<string>, items: seq<Element>)
    requires |items| == |xs|
    requires forall k :: 0 <= k < |xs| ==> items[k] == Str(xs[k])
    ensures NormalizeListConfig(ListValue(items), []) == Clean(xs)
  {
    assert !exists k :: 0 <= k < |items| && items[k].StrRaises?;
    assert Texts(items) == xs;
  }

  /** A list value with an element whose `str()` raises gives the lower-cased default. */
  lemma RaisingElementGivesDefault(items: seq<Element>, default: seq<string>, k: nat)
    requires k < |items| && items[k].StrRaises?
    ensures NormalizeListConfig(ListValue(items), default) == LowerAll(default)
  {
  }

  lemma StripLowerAvoids(x: string, c: char)
    requires c !in x && !('a' <= c <= 'z')
    ensures c !in Lower(Strip(x))
  {
    StripIsSlice(x);
    var a, b :| 0 <= a <= b <= |x| && Strip(x) == x[a..b] && AllSpace(x[..a]) && AllSpace(x[b..]);
    SliceAvoids(x, a, b, c);
    LowerAvoids(Strip(x), c);
  }

  lemma SliceAvoids(x: string, a: int, b: int, c: char)
    requires c !in x && 0 <= a <= b <= |x|
    ensures c !in x[a..b]
  {
    forall i | 0 <= i < b - a ensures x[a..b][i] != c {
      assert x[a..b][i] == x[a + i];
    }
  }

  /** Lower-casing introduces only lower-case letters. */
  lemma LowerAvoids(t: string, c: char)
    requires c !in t && !('a' <= c <= 'z')
    ensures c !in Lower(t)
  {
    forall i | 0 <= i < |t| ensures Lower(t)[i] != c {
      LowerAt(t, i);
    }
  }

  /** Cleaning never introduces a character that no entry contains. */
  lemma {:induction false} CleanAvoids(xs: seq<string>, c: char)
    requires forall k :: 0 <= k < |xs| ==> c !in xs[k]
    requires !('a' <= c <= 'z')
    ensures forall k :: 0 <= k < |Clean(xs)| ==> c !in Clean(xs)[k]
  {
    if xs != [] {
      CleanAvoids(xs[1..], c);
      if Kept(xs[0]) { StripLowerAvoids(xs[0], c); }
    }
  }

  /** The terms a string value yields never contain a separator. */
  lemma StringTermsHaveNoSeparator(s: string)
    ensures forall k :: 0 <= k < |Clean(Pieces(s))| ==> ',' !in Clean(Pieces(s))[k]
  {
    CleanAvoids(Pieces(s), ',');
  }
}
