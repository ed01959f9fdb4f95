/**
 * Worked instances of the screening rules: which import statements the
 * import-line pattern recognises and which it does not.
 */
module PolicyExamples {
  import opened Text
  import opened Policy
  import Config

  /** A plain `import` of a restricted library matches the import-line pattern. */
  lemma PlainImportMatches()
    ensures ImportLineMatch("import subprocess", "subprocess")
  {
    var code := "import subprocess";
    assert code[0..0] == [];
    assert code[0..6] == "import";
    assert code[6..7] == " ";
    assert code[7..17] == "subprocess";
    assert Lower("subprocess") == "subprocess" by { LowerOfNoUpper("subprocess"); }
    assert Lower("import") == "import" by { LowerOfNoUpper("import"); }
    assert LibAfter(code, 6, "subprocess");
    assert StatementAt(code, 0, "subprocess");
  }

  /** `from <lib> import ...` on an indented later line matches too, in any case. */
  lemma IndentedFromImportMatches()
    ensures ImportLineMatch("x = 1\n  FROM socket import socket", "socket")
  {
    var code := "x = 1\n  FROM socket import socket";
    IndentedFromKeyword(code);
    IndentedFromLibrary(code);
    assert LibAfter(code, 12, "socket");
    assert StatementAt(code, 8, "socket");
  }

  lemma IndentedFromKeyword(code: string)
    requires code == "x = 1\n  FROM socket import socket"
    ensures LineStart(code, 6) && AllSpace(code[6..8]) && CiAt(code, 8, "from")
  {
    assert code[5] == '\n';
    assert code[6] == ' ' && code[7] == ' ';
    SliceChars(code, 6, "  ");
    assert code[8] == 'F' && code[9] == 'R' && code[10] == 'O' && code[11] == 'M';
    SliceChars(code, 8, "FROM");
    assert Lower("FROM") == "from";
    LowerOfNoUpper("from");
  }

  lemma IndentedFromLibrary(code: string)
    requires code == "x = 1\n  FROM socket import socket"
    ensures AllSpace(code[12..13]) && CiAt(code, 13, "socket") && Boundary(code, 19)
  {
    assert code[12] == ' ';
    SliceChars(code, 12, " ");
    assert code[13] == 's' && code[14] == 'o' && code[15] == 'c' && code[16] == 'k' && code[17] == 'e' && code[18] == 't';
    SliceChars(code, 13, "socket");
    LowerOfNoUpper("socket");
    assert code[19] == ' ';
  }

  /** A slice whose characters are known one by one equals the literal they spell. */
  lemma SliceChars(code: string, i: nat, w: string)
    requires i + |w| <= |code|
    requires forall n :: 0 <= n < |w| ==> code[i + n] == w[n]
    ensures code[i..i + |w|] == w
  {
  }

  /** The characters of a whitespace slice, one by one. */
  lemma SpacesAt(code: string, i: int, j: int)
    requires 0 <= i <= j <= |code| && AllSpace(code[i..j])
    ensures forall n :: i <= n < j ==> IsSpace(code[n])
  {
    assert forall n :: i <= n < j ==> code[i..j][n - i] == code[n];
  }

  /** A restricted name that is only the prefix of the imported module is not a match. */
  lemma LongerModuleNameDoesNotMatch()
    ensures !ImportLineMatch("import subprocess2", "subprocess")
  {
    var code := "import subprocess2";
    assert '\n' !in code;
    forall p, k | 0 <= p <= k <= |code| && LineStart(code, p) && AllSpace(code[p..k])
      ensures !StatementAt(code, k, "subprocess")
    {
      assert p == 0;
      SpacesAt(code, p, k);
      assert !IsSpace(code[0]);
      assert k == 0;
      SliceChars(code, 0, "import");
      LowerOfNoUpper("import");
      assert Lower(code[0..4])[0] == 'i';
      forall m | 0 <= 6 < m <= |code| && AllSpace(code[6..m])
        ensures !Boundary(code, m + 10)
      {
        SpacesAt(code, 6, m);
        assert !IsSpace(code[7]);
        assert m == 7;
        assert code[16] == 's' && code[17] == '2';
      }
    }
  }

  lemma ImportListNoImportLine()
    ensures !ImportLineMatch("import os, subprocess", "subprocess")
  {
    var code := "import os, subprocess";
    assert '\n' !in code;
    forall p, k | 0 <= p <= k <= |code| && LineStart(code, p) && AllSpace(code[p..k])
      ensures !StatementAt(code, k, "subprocess")
    {
      assert p == 0;
      SpacesAt(code, p, k);
      assert !IsSpace(code[0]);
      assert k == 0;
      assert Lower(code[0..4])[0] == 'i';
      forall m | 0 <= 6 < m <= |code| && AllSpace(code[6..m])
        ensures !CiAt(code, m, "subprocess")
      {
        SpacesAt(code, 6, m);
        assert !IsSpace(code[7]);
        assert m == 7;
        assert Lower(code[7..17])[0] == 'o';
      }
    }
  }

  lemma ImportListNoAttribute()
    ensures !Contains("import os, subprocess", "subprocess.")
  {
    var code := "import os, subprocess";
    forall i | 0 <= i <= |code| ensures !OccursAt(code, "subprocess.", i) {
      if i + 11 <= 21 {
        assert code[i..i + 11][10] == code[i + 10];
      }
    }
  }

  /**
   * Only the first module of an import list is examined by the import-line
   * pattern, and `<lib>.` does not occur either, so the library rule alone
   * lets `import os, subprocess` through.  (With the default settings the
   * keyword `subprocess` still catches it.)
   */
  lemma ImportListEscapesLibraryRule()
    ensures !LibraryHit("import os, subprocess", "subprocess")
    ensures KeywordHit("import os, subprocess", "subprocess")
  {
    var code := "import os, subprocess";
    assert NoUpper(code);
    LowerOfNoUpper(code);
    LowerOfNoUpper("subprocess");
    ImportListNoImportLine();
    ImportListNoAttribute();
    assert "subprocess" + "." == "subprocess.";
    assert code[11..21] == "subprocess";
    assert OccursAt(code, "subprocess", 11);
  }

  /** The scenario `import subprocess` with the default lists is blocked for `subprocess`. */
  lemma DefaultListsBlockImportSubprocess()
    ensures "subprocess" in MatchedTerms("import subprocess", Config.DefaultKeywords, Config.DefaultLibraries)
  {
    var code := "import subprocess";
    LowerOfNoUpper(code);
    assert code[7..17] == "subprocess";
    assert OccursAt(Lower(code), "subprocess", 7);
    assert KeywordHit(code, "subprocess");
    assert Config.DefaultKeywords[1] == "subprocess";
  }

  /** Attribute access on a restricted module is caught without any import line. */
  lemma AttributeAccessMatches()
    ensures LibraryHit("s = socket.socket()", "socket")
  {
    var code := "s = socket.socket()";
    LowerOfNoUpper(code);
    LowerOfNoUpper("socket");
    assert code[4..11] == "socket.";
    assert "socket" + "." == "socket.";
    assert OccursAt(Lower(code), "socket.", 4);
  }
}
