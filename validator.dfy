/** The input-validation library: three deny-list detectors, the sanitiser,
 *  and the phone, password and phone-normalisation rules. */
module Validator {
  import opened JavaLang

  // ---------------------------------------------------------------------
  // Deny-list detectors

  /** PATH_TRAVERSAL_PATTERN, one literal per alternative. The first
   *  alternative escapes its bar, so it is the seven characters ..\|../; the
   *  last is a dot followed by two backslashes. Case matters. */
  const TraversalAlternatives: seq<string> := ["..\\|../", "../", ".\\\\"]

  /** SQL_INJECTION_PATTERN, one literal per alternative. The alternatives
   *  written as a slash and a starred backslash, and as a starred backslash
   *  and a slash, each match a lone slash, so both appear here as "/". */
  const SqlAlternatives: seq<string> :=
    ["'", "--", "/", "/", ";", "exec", "drop", "create", "alter", "delete",
     "insert", "select", "union", "script", "<script", "javascript:"]

  /** XSS_PATTERN, one literal per alternative. */
  const XssAlternatives: seq<string> :=
    ["<script", "javascript:", "vbscript:", "onload", "onerror", "onmouseover",
     "<iframe", "<embed", "<object", "<form", "document.cookie"]

  /** The SQL keywords of the deny-list. */
  const SqlKeywords: seq<string> :=
    ["exec", "drop", "create", "alter", "delete", "insert", "select", "union", "script"]

  /** find() with PATH_TRAVERSAL_PATTERN; null is never flagged. */
  predicate ContainsPathTraversal(input: Option<string>)
  {
    input.Some? && ContainsAny(input.value, TraversalAlternatives)
  }

  /** find() with SQL_INJECTION_PATTERN, ASCII case-insensitive. */
  predicate ContainsSqlInjection(input: Option<string>)
  {
    input.Some? &&
    exists k :: 0 <= k < |SqlAlternatives| && ContainsIgnoreCase(input.value, SqlAlternatives[k])
  }

  /** find() with XSS_PATTERN, ASCII case-insensitive. */
  predicate ContainsXss(input: Option<string>)
  {
    input.Some? &&
    exists k :: 0 <= k < |XssAlternatives| && ContainsIgnoreCase(input.value, XssAlternatives[k])
  }

  /** isValidInput: null passes; anything a detector flags fails. */
  predicate IsValidInput(input: Option<string>)
  {
    input.None? ||
    (!ContainsPathTraversal(input) && !ContainsSqlInjection(input) && !ContainsXss(input))
  }

  /** The path-traversal detector flags exactly the strings containing ../
   *  or a dot followed by two backslashes. */
  lemma PathTraversalExactly(s: string)
    ensures ContainsPathTraversal(Some(s)) <==> Contains(s, "../") || Contains(s, ".\\\\")
  {
    if Contains(s, "..\\|../") {
      assert "..\\|../"[4..7] == "../";
      ContainsAt("..\\|../", "../", 4);
      ContainsTrans(s, "..\\|../", "../");
    }
    if Contains(s, "../") {
      assert Contains(s, TraversalAlternatives[1]);
    }
    if Contains(s, ".\\\\") {
      assert Contains(s, TraversalAlternatives[2]);
    }
  }

  /** A dot-dot-backslash sequence on its own is not flagged. */
  lemma BackslashTraversalMissed()
    ensures !ContainsPathTraversal(Some("..\\"))
  {
    ContainsChars("..\\", "../", '/');
    ContainsChars("..\\", "..\\|../", '/');
    assert ".\\\\"[1] == '\\' && "..\\"[1] == '.';
    assert !Contains("..\\"[1..], ".\\\\");
  }

  /** Lower-casing changes only the letters A-Z. */
  lemma LowerOfNoCapitals(w: string)
    requires forall i :: 0 <= i < |w| ==> !('A' <= w[i] <= 'Z')
    ensures Lower(w) == w
  {
  }

  /** For a pattern without letters, the case-insensitive find is the plain find. */
  lemma ContainsLowerNoLetters(s: string, w: string)
    requires forall i :: 0 <= i < |w| ==> !('A' <= w[i] <= 'Z') && !('a' <= w[i] <= 'z')
    ensures ContainsIgnoreCase(s, w) <==> Contains(s, w)
  {
    LowerOfNoCapitals(w);
    ContainsLower(s, w);
    if Contains(Lower(s), w) {
      var i := ContainsWitness(Lower(s), w);
      forall j | 0 <= j < |w|
        ensures s[i + j] == w[j]
      {
        assert Lower(s)[i + j] == w[j];
      }
      assert s[i..i + |w|] == w;
      ContainsAt(s, w, i);
    }
  }

  /** The two script alternatives are subsumed by the keyword script. */
  lemma ScriptSubsumes(s: string)
    ensures ContainsIgnoreCase(s, "<script") ==> ContainsIgnoreCase(s, "script")
    ensures ContainsIgnoreCase(s, "javascript:") ==> ContainsIgnoreCase(s, "script")
  {
    var script := "script";
    LowerOfNoCapitals(script);
    LowerOfNoCapitals("<script");
    LowerOfNoCapitals("javascript:");
    assert "<script"[1..7] == script;
    ContainsAt("<script", script, 1);
    ContainsTrans(Lower(s), "<script", script);
    assert "javascript:"[4..10] == script;
    ContainsAt("javascript:", script, 4);
    ContainsTrans(Lower(s), "javascript:", script);
  }

  /** A one-character pattern without letters is found, in any case,
   *  exactly when the character occurs. */
  lemma SymbolAlternative(s: string, c: char)
    requires !('A' <= c <= 'Z') && !('a' <= c <= 'z')
    ensures ContainsIgnoreCase(s, [c]) <==> c in s
  {
    ContainsLowerNoLetters(s, [c]);
    ContainsChar(s, c);
  }

  /** The first five SQL alternatives are the punctuation ones. */
  lemma SqlPunctuationAlternatives(s: string)
    ensures (exists k :: 0 <= k < 5 && ContainsIgnoreCase(s, SqlAlternatives[k])) <==>
      ('\'' in s || '/' in s || ';' in s || Contains(s, "--"))
  {
    assert SqlAlternatives[0] == ['\''] && SqlAlternatives[2] == ['/'] && SqlAlternatives[3] == ['/'];
    assert SqlAlternatives[4] == [';'] && SqlAlternatives[1] == "--";
    SymbolAlternative(s, '\'');
    SymbolAlternative(s, '/');
    SymbolAlternative(s, ';');
    ContainsLowerNoLetters(s, "--");
  }

  /** The remaining eleven are the keywords, and the two script forms the
   *  keyword script already covers. */
  lemma SqlKeywordAlternatives(s: string)
    ensures (exists k :: 5 <= k < |SqlAlternatives| && ContainsIgnoreCase(s, SqlAlternatives[k])) <==>
      (exists k :: 0 <= k < |SqlKeywords| && ContainsIgnoreCase(s, SqlKeywords[k]))
  {
    assert forall k | 0 <= k < |SqlKeywords| :: SqlKeywords[k] == SqlAlternatives[k + 5];
    if exists k :: 5 <= k < |SqlAlternatives| && ContainsIgnoreCase(s, SqlAlternatives[k]) {
      var k :| 5 <= k < |SqlAlternatives| && ContainsIgnoreCase(s, SqlAlternatives[k]);
      if k < 14 {
        assert ContainsIgnoreCase(s, SqlKeywords[k - 5]);
      } else {
        ScriptSubsumes(s);
        assert SqlAlternatives[14] == "<script" && SqlAlternatives[15] == "javascript:";
        assert ContainsIgnoreCase(s, SqlKeywords[8]);
      }
    }
    if exists k :: 0 <= k < |SqlKeywords| && ContainsIgnoreCase(s, SqlKeywords[k]) {
      var k :| 0 <= k < |SqlKeywords| && ContainsIgnoreCase(s, SqlKeywords[k]);
      assert ContainsIgnoreCase(s, SqlAlternatives[k + 5]);
    }
  }

  /** A quote, slash, semicolon, double hyphen, or a keyword of the list in
   *  any ASCII case. */
  predicate HasSqlReason(s: string)
  {
    '\'' in s || '/' in s || ';' in s || Contains(s, "--") ||
    exists k :: 0 <= k < |SqlKeywords| && ContainsIgnoreCase(s, SqlKeywords[k])
  }

  /** Whatever the SQL detector flags has a quote, slash, semicolon, double
   *  hyphen or keyword in it. */
  lemma SqlFlaggedHasReason(s: string)
    ensures ContainsSqlInjection(Some(s)) ==> HasSqlReason(s)
  {
    if ContainsSqlInjection(Some(s)) {
      var k :| 0 <= k < |SqlAlternatives| && ContainsIgnoreCase(s, SqlAlternatives[k]);
      if k < 5 {
        SqlPunctuationAlternatives(s);
      } else {
        SqlKeywordAlternatives(s);
      }
    }
  }

  /** A quote, slash, semicolon, double hyphen or keyword is always flagged. */
  lemma SqlReasonIsFlagged(s: string)
    ensures HasSqlReason(s) ==> ContainsSqlInjection(Some(s))
  {
    SqlPunctuationAlternatives(s);
    SqlKeywordAlternatives(s);
  }

  /** The SQL detector flags exactly the strings with a quote, a slash, a
   *  semicolon, a double hyphen, or a keyword of the list in any ASCII case. */
  lemma SqlInjectionExactly(s: string)
    ensures ContainsSqlInjection(Some(s)) <==> HasSqlReason(s)
  {
    SqlFlaggedHasReason(s);
    SqlReasonIsFlagged(s);
  }

  /** The two script alternatives of the XSS pattern are SQL alternatives
   *  too, so the XSS detector adds only its other nine alternatives. */
  lemma XssScriptFormsAreSql(s: string)
    ensures ContainsIgnoreCase(s, XssAlternatives[0]) ==> ContainsSqlInjection(Some(s))
    ensures ContainsIgnoreCase(s, XssAlternatives[1]) ==> ContainsSqlInjection(Some(s))
  {
    ScriptSubsumes(s);
    assert SqlKeywords[8] == "script";
    SqlReasonIsFlagged(s);
  }

  /** isValidInput exactly: null passes, and a string passes when it has no
   *  traversal sequence, no SQL reason and none of the nine XSS alternatives
   *  beyond the two script forms. */
  lemma ValidInputExactly(s: string)
    ensures IsValidInput(None)
    ensures IsValidInput(Some(s)) <==>
      && !Contains(s, "../") && !Contains(s, ".\\\\")
      && !HasSqlReason(s)
      && !(exists k :: 2 <= k < |XssAlternatives| && ContainsIgnoreCase(s, XssAlternatives[k]))
  {
    PathTraversalExactly(s);
    SqlInjectionExactly(s);
    XssScriptFormsAreSql(s);
  }

  /** Input that passes isValidInput has no quote, slash, semicolon or
   *  double hyphen, and no script tag opener in any case. */
  lemma ValidInputExcludes(s: string)
    ensures IsValidInput(Some(s)) ==>
      '\'' !in s && '/' !in s && ';' !in s && !Contains(s, "--") &&
      !ContainsIgnoreCase(s, "<script") && !Contains(s, "../")
  {
    SqlInjectionExactly(s);
    PathTraversalExactly(s);
    assert XssAlternatives[0] == "<script";
  }

  /** The classic quote-and-comment injection is flagged by the SQL pattern,
   *  so it is not valid input. */
  lemma QuoteInjectionIsFlagged()
    ensures ContainsSqlInjection(Some("Robert'); DROP TABLE users;--"))
    ensures !IsValidInput(Some("Robert'); DROP TABLE users;--"))
  {
    var attack := "Robert'); DROP TABLE users;--";
    assert attack[6] == '\'';
    SqlInjectionExactly(attack);
  }

  /** A script tag is flagged in any ASCII case. */
  lemma UpperCaseScriptIsFlagged()
    ensures ContainsXss(Some("<SCRIPT>alert(1)</SCRIPT>"))
  {
    var tag := "<SCRIPT>alert(1)</SCRIPT>";
    assert Lower(tag)[0..7] == "<script";
    ContainsAt(Lower(tag), "<script", 0);
    LowerOfNoCapitals("<script");
    assert ContainsIgnoreCase(tag, XssAlternatives[0]);
  }

  // ---------------------------------------------------------------------
  // Sanitiser

  /** sanitizeInput: four literal rewrites, then trim. */
  function SanitizeInput(input: Option<string>): (r: Option<string>)
    ensures r.None? <==> input.None?
  {
    match input
    case None => None
    case Some(s) =>
      var s1 := ReplaceAll(s, "<script", "&lt;script");
      var s2 := ReplaceAll(s1, "</script>", "&lt;/script&gt;");
      var s3 := ReplaceAll(s2, "javascript:", "javascript_");
      var s4 := ReplaceAll(s3, "vbscript:", "vbscript_");
      Some(Trim(s4))
  }

  /** The sanitised text is trimmed and holds no lower-case script opener;
   *  it can still hold an upper-case one. */
  lemma SanitizeInputRemovesScriptOpener(s: string)
    ensures IsTrimmed(SanitizeInput(Some(s)).value)
    ensures !Contains(SanitizeInput(Some(s)).value, "<script")
  {
    var w := "<script";
    var s1 := ReplaceAll(s, w, "&lt;script");
    var s2 := ReplaceAll(s1, "</script>", "&lt;/script&gt;");
    var s3 := ReplaceAll(s2, "javascript:", "javascript_");
    var s4 := ReplaceAll(s3, "vbscript:", "vbscript_");
    assert w[1..] == "script";
    ReplaceAllExcludes(s, w, "&lt;script", w);
    ReplaceAllExcludes(s1, "</script>", "&lt;/script&gt;", w);
    ReplaceAllExcludes(s2, "javascript:", "javascript_", w);
    ReplaceAllExcludes(s3, "vbscript:", "vbscript_", w);
    TrimContains(s4, w);
  }

  /** The rewrites are case-sensitive: an upper-case tag passes through. */
  lemma SanitizeInputKeepsUpperCase()
    ensures SanitizeInput(Some("<SCRIPT>")) == Some("<SCRIPT>")
  {
    var s := "<SCRIPT>";
    ContainsChars(s, "<script", 's');
    ReplaceAllAbsent(s, "<script", "&lt;script");
    ContainsChars(s, "</script>", 's');
    ReplaceAllAbsent(s, "</script>", "&lt;/script&gt;");
    ContainsChars(s, "javascript:", 'j');
    ReplaceAllAbsent(s, "javascript:", "javascript_");
    ContainsChars(s, "vbscript:", 'v');
    ReplaceAllAbsent(s, "vbscript:", "vbscript_");
    TrimOfTrimmed(s);
  }

  // ---------------------------------------------------------------------
  // Phone numbers

  /** ^09[0-9]{8}$ and ^07[0-9]{8}$. */
  predicate IsLocalNumber(t: string, prefix: string)
  {
    |t| == 10 && t[..2] == prefix && AllDigits(t[2..])
  }

  /** ^\+251[0-9]{9}$. */
  predicate IsInternationalNumber(t: string)
  {
    |t| == 13 && t[..4] == "+251" && AllDigits(t[4..])
  }

  predicate MatchesPhonePattern(t: string)
  {
    IsLocalNumber(t, "09") || IsLocalNumber(t, "07") || IsInternationalNumber(t)
  }

  /** isValidPhone: the trimmed text matches one of the three patterns
   *  (the blank test in front of them excludes nothing more). */
  function IsValidPhone(phone: Option<string>): (ok: bool)
    ensures ok <==> phone.Some? && MatchesPhonePattern(Trim(phone.value))
  {
    if phone.None? || IsBlank(phone.value) then false
    else MatchesPhonePattern(Trim(phone.value))
  }

  /** formatPhone: trim, then rewrite a leading +251 as 0. */
  function FormatPhone(phone: Option<string>): (r: Option<string>)
    ensures r.None? <==> phone.None?
    ensures r.Some? ==> IsTrimmed(r.value) && |r.value| <= |phone.value|
  {
    match phone
    case None => None
    case Some(p) =>
      var t := Trim(p);
      if StartsWith(t, "+251") then Some("0" + t[4..]) else Some(t)
  }

  /** Normalising twice is normalising once. */
  lemma FormatPhoneIdempotent(phone: Option<string>)
    ensures FormatPhone(FormatPhone(phone)) == FormatPhone(phone)
  {
    if phone.Some? {
      var t := Trim(phone.value);
      var r := FormatPhone(phone).value;
      TrimOfTrimmed(r);
      if StartsWith(t, "+251") {
        assert r[0] == '0';
      } else {
        assert r == t;
      }
    }
  }

  /** The international form normalises to 0 and its nine digits. */
  lemma FormatInternational(t: string)
    requires IsTrimmed(t) && IsInternationalNumber(t)
    ensures var r := FormatPhone(Some(t)).value; |r| == 10 && r[0] == '0' && AllDigits(r)
  {
    TrimOfTrimmed(t);
    assert StartsWith(t, "+251");
  }

  /** A local form is left as it is. */
  lemma FormatLocal(t: string)
    requires IsTrimmed(t) && (IsLocalNumber(t, "09") || IsLocalNumber(t, "07"))
    ensures var r := FormatPhone(Some(t)).value; |r| == 10 && r[0] == '0' && AllDigits(r)
  {
    TrimOfTrimmed(t);
    assert t[0] == '0' && t[1] != '+';
    assert !StartsWith(t, "+251");
    assert t == t[..2] + t[2..];
  }

  /** A valid number normalises to ten ASCII digits beginning with 0. */
  lemma FormatValidPhone(s: string)
    ensures IsValidPhone(Some(s)) ==>
      var r := FormatPhone(Some(s)).value;
      |r| == 10 && r[0] == '0' && AllDigits(r)
  {
    var t := Trim(s);
    TrimOfTrimmed(t);
    assert FormatPhone(Some(s)) == FormatPhone(Some(t));
    if IsInternationalNumber(t) {
      FormatInternational(t);
    } else if IsLocalNumber(t, "09") || IsLocalNumber(t, "07") {
      FormatLocal(t);
    }
  }

  /** The international and local spellings of one subscriber normalise to
   *  the same key; the international one is always accepted, the local one
   *  only when the subscriber digits begin with 9 or 7. */
  lemma InternationalAndLocalShareKey(d: string)
    requires |d| == 9 && AllDigits(d)
    ensures FormatPhone(Some("+251" + d)) == FormatPhone(Some("0" + d)) == Some("0" + d)
    ensures IsValidPhone(Some("+251" + d))
    ensures IsValidPhone(Some("0" + d)) <==> d[0] == '9' || d[0] == '7'
  {
    InternationalSpelling(d);
    LocalSpelling(d);
  }

  lemma InternationalSpelling(d: string)
    requires |d| == 9 && AllDigits(d)
    ensures FormatPhone(Some("+251" + d)) == Some("0" + d)
    ensures IsValidPhone(Some("+251" + d))
  {
    var i := "+251" + d;
    assert !IsSpace(i[0]) && !IsSpace(i[12]);
    TrimOfTrimmed(i);
    assert i[..4] == "+251" && i[4..] == d;
    assert IsInternationalNumber(i);
  }

  lemma LocalSpelling(d: string)
    requires |d| == 9 && AllDigits(d)
    ensures FormatPhone(Some("0" + d)) == Some("0" + d)
    ensures IsValidPhone(Some("0" + d)) <==> d[0] == '9' || d[0] == '7'
  {
    var l := "0" + d;
    LocalSpellingTrimmed(d);
    assert l[0] != "+251"[0];
    LocalSpellingMatches(d);
  }

  lemma LocalSpellingTrimmed(d: string)
    requires |d| == 9 && AllDigits(d)
    ensures Trim("0" + d) == "0" + d
  {
    var l := "0" + d;
    assert !IsSpace(l[0]) && !IsSpace(l[9]);
    TrimOfTrimmed(l);
  }

  lemma LocalSpellingMatches(d: string)
    requires |d| == 9 && AllDigits(d)
    ensures MatchesPhonePattern("0" + d) <==> d[0] == '9' || d[0] == '7'
  {
    var l := "0" + d;
    assert |l| != 13;
    assert l[..2] == ['0', d[0]];
    assert l[2..] == d[1..];
  }

  /** An accepted international number can normalise to a key the phone
   *  rule itself rejects. */
  lemma FormatPhoneCanLeaveInvalid()
    ensures IsValidPhone(Some("+251812345678"))
    ensures FormatPhone(Some("+251812345678")) == Some("0812345678")
    ensures !IsValidPhone(Some("0812345678"))
  {
    var d := "812345678";
    assert "+251" + d == "+251812345678";
    assert "0" + d == "0812345678";
    InternationalAndLocalShareKey(d);
  }

  // ---------------------------------------------------------------------
  // Passwords

  /** \s of java.util.regex: space, tab, newline, vertical tab, form feed, return. */
  predicate IsRegexWhitespace(c: char)
  {
    c == ' ' || c == '\t' || c == '\n' || c == '\U{B}' || c == '\U{C}' || c == '\r'
  }

  /** The characters "." does not match without DOTALL. */
  predicate IsLineTerminator(c: char)
  {
    c == '\n' || c == '\r' || c == '\U{85}' || c == '\U{2028}' || c == '\U{2029}'
  }

  /** PASSWORD_PATTERN under matches(): six or more characters, at least one
   *  digit, one lower-case and one upper-case ASCII letter, and no regex
   *  whitespace or line terminator anywhere. */
  predicate MatchesPasswordPattern(s: string)
  {
    && |s| >= 6
    && (exists i :: 0 <= i < |s| && IsAsciiDigit(s[i]))
    && (exists i :: 0 <= i < |s| && 'a' <= s[i] <= 'z')
    && (exists i :: 0 <= i < |s| && 'A' <= s[i] <= 'Z')
    && (forall i :: 0 <= i < |s| ==> !IsRegexWhitespace(s[i]) && !IsLineTerminator(s[i]))
  }

  /** isValidPassword: the pattern decides (a blank password never has the
   *  digit it asks for). */
  function IsValidPassword(password: Option<string>): (ok: bool)
    ensures ok <==> password.Some? && MatchesPasswordPattern(password.value)
  {
    if password.None? then false
    else
      BlankIffAllSpace(password.value);
      if IsBlank(password.value) then false
      else MatchesPasswordPattern(password.value)
  }

  /** A valid password is never blank, so it also passes the handlers'
   *  required-field test. */
  lemma ValidPasswordNotBlank(s: string)
    ensures IsValidPassword(Some(s)) ==> !IsBlank(s)
  {
    BlankIffAllSpace(s);
  }

  /** A password without a capital letter is refused. */
  lemma PasswordWithoutCapitalRefused()
    ensures !IsValidPassword(Some("abc123"))
  {
    var weak := "abc123";
    assert forall i :: 0 <= i < |weak| ==> !('A' <= weak[i] <= 'Z');
  }

  /** A password meeting every demand is accepted. */
  lemma StrongPasswordAccepted()
    ensures IsValidPassword(Some("Abcdef1"))
  {
    var good := "Abcdef1";
    assert IsAsciiDigit(good[6]) && 'a' <= good[1] <= 'z' && 'A' <= good[0] <= 'Z';
    assert forall i :: 0 <= i < |good| ==> !IsRegexWhitespace(good[i]) && !IsLineTerminator(good[i]);
  }
}
