// The INSERT header pattern of scripts/ci/check-sql-interpolation-safety.ts: it matches exactly the
// headers that are printed, in any case and with any white space where the pattern has some, up to the
// first tuple; and on text that holds no header of its own, or that ends before one is complete, it
// matches nowhere. No step of the match leaves a choice.
module SqlHeaderMatch {
  import opened Options
  import opened SqlLexer
  import opened SqlMaskLaws
  import opened SqlArity
  import opened SqlPrint

  // ----------------------------------------------------------- matching the header

  // A header whose gaps are white space, not empty where the pattern asks for some.
  predicate White(s: Insert) {
    && AllSpace(s.afterVerb) && s.afterVerb != "" && AllSpace(s.afterInto) && s.afterInto != ""
    && AllSpace(s.beforeColumns) && AllSpace(s.beforeValues) && AllSpace(s.beforeRows)
    && (s.clause.Some? ==> WhiteClause(s.clause.value))
  }

  predicate WhiteClause(c: Clause) {
    AllSpace(c.afterWord) && c.afterWord != "" && AllSpace(c.afterConflict) && c.afterConflict != ""
  }

  predicate WordedClause(c: Clause) {
    IsKeyword(c.word, "OR") && IsConflict(c.conflict)
  }

  lemma {:induction false} KeywordHere(w: string, keyword: string, r: string)
    requires IsKeyword(w, keyword) && AllUpper(keyword)
    ensures Keyword(w + r, keyword) == Some(r)
  {
    InAnyCase(w, keyword);
    if w == "" {
      assert w + r == r;
    } else {
      assert IsKeyword(w[1..], keyword[1..]) && AllUpper(keyword[1..]);
      hide Suffix, IsKeyword;
      KeywordHere(w[1..], keyword[1..], r);
      TailOfConcat(w, r);
    }
  }

  lemma WordIsNotEmpty(w: string, keyword: string)
    requires IsKeyword(w, keyword) && keyword != ""
    ensures w != ""
  {
  }

  // A word in any case is made of letters, and so holds no white space.
  lemma KeywordIsNoSpace(w: string, keyword: string, r: string)
    requires IsKeyword(w, keyword) && AllUpper(keyword) && w != ""
    ensures w + r != "" && !IsSpace((w + r)[0])
  {
    InAnyCase(w, keyword);
  }

  lemma {:induction false} WordHere(w: string, r: string)
    requires AllWord(w) && (r == "" || !IsWord(r[0]))
    ensures SkipWord(w + r) == r
  {
    if w == "" {
      assert w + r == r;
    } else {
      assert (w + r)[0] == w[0] && (w + r)[1..] == w[1..] + r;
      WordHere(w[1..], r);
    }
  }

  lemma {:induction false} NoParensStep(m: string)
    requires m != ""
    ensures NoParens(m) == if m[0] == '(' || m[0] == ')' then "" else [m[0]] + NoParens(m[1..])
  {
    hide Suffix;
  }

  lemma {:induction false} NoParensHere(m: string, r: string)
    requires ParenFree(m) && r != "" && r[0] == ')'
    ensures NoParens(m + r) == m
  {
    if m == "" {
      assert m + r == r;
    } else {
      assert (m + r)[0] == m[0] && (m + r)[1..] == m[1..] + r;
      NoParensHere(m[1..], r);
      NoParensStep(m + r);
      assert [m[0]] + m[1..] == m;
    }
  }

  // A word does not match where its first or second letter differs.
  lemma {:induction false} KeywordMisses(m: string, w: string)
    requires |w| > 1 && |m| > 1
    requires Upper(m[0]) != w[0] || Upper(m[1]) != w[1]
    ensures Keyword(m, w) == None
  {
    hide Suffix;
  }

  // The first two letters tell the conflict words apart.
  lemma ConflictLetters(w: string)
    requires IsConflict(w)
    ensures |w| > 1 && 'A' <= Upper(w[0]) <= 'Z'
    ensures IsKeyword(w, "IGNORE") ==> Upper(w[0]) == 'I' && Upper(w[1]) == 'G'
    ensures IsKeyword(w, "REPLACE") ==> Upper(w[0]) == 'R' && Upper(w[1]) == 'E'
    ensures IsKeyword(w, "ABORT") ==> Upper(w[0]) == 'A' && Upper(w[1]) == 'B'
    ensures IsKeyword(w, "FAIL") ==> Upper(w[0]) == 'F' && Upper(w[1]) == 'A'
    ensures IsKeyword(w, "ROLLBACK") ==> Upper(w[0]) == 'R' && Upper(w[1]) == 'O'
  {
    ConflictsAreUpper();
    if IsKeyword(w, "IGNORE") {
      InAnyCase(w, "IGNORE");
    } else if IsKeyword(w, "REPLACE") {
      InAnyCase(w, "REPLACE");
    } else if IsKeyword(w, "ABORT") {
      InAnyCase(w, "ABORT");
    } else if IsKeyword(w, "FAIL") {
      InAnyCase(w, "FAIL");
    } else {
      InAnyCase(w, "ROLLBACK");
    }
  }

  lemma ConflictsAreUpper()
    ensures AllUpper("IGNORE") && AllUpper("REPLACE") && AllUpper("ABORT") && AllUpper("FAIL") && AllUpper("ROLLBACK")
  {
  }

  lemma KeywordsAreUpper()
    ensures AllUpper("INSERT") && AllUpper("OR") && AllUpper("INTO") && AllUpper("VALUES")
  {
  }

  lemma ConflictHere(w: string, r: string)
    requires IsConflict(w)
    ensures Conflict(w + r) == Some(r) && w != "" && !IsSpace((w + r)[0])
  {
    var m := w + r;
    ConflictsAreUpper();
    ConflictLetters(w);
    assert m[0] == w[0] && m[1] == w[1];
    hide Keyword, Suffix, IsKeyword, AllUpper;
    if IsKeyword(w, "IGNORE") {
      KeywordHere(w, "IGNORE", r);
    } else if IsKeyword(w, "REPLACE") {
      KeywordMisses(m, "IGNORE");
      KeywordHere(w, "REPLACE", r);
    } else if IsKeyword(w, "ABORT") {
      KeywordMisses(m, "IGNORE");
      KeywordMisses(m, "REPLACE");
      KeywordHere(w, "ABORT", r);
    } else if IsKeyword(w, "FAIL") {
      KeywordMisses(m, "IGNORE");
      KeywordMisses(m, "REPLACE");
      KeywordMisses(m, "ABORT");
      KeywordHere(w, "FAIL", r);
    } else {
      KeywordMisses(m, "IGNORE");
      KeywordMisses(m, "REPLACE");
      KeywordMisses(m, "ABORT");
      KeywordMisses(m, "FAIL");
      KeywordHere(w, "ROLLBACK", r);
    }
  }

  // The words between INSERT and INTO.
  lemma AfterConflictHere(c: Option<Clause>, into: string, r: string)
    requires IsKeyword(into, "INTO") && (c.Some? ==> WordedClause(c.value) && WhiteClause(c.value))
    ensures AfterConflict(ClauseText(c) + (into + r)) == into + r
    ensures ClauseText(c) + (into + r) != "" && !IsSpace((ClauseText(c) + (into + r))[0])
  {
    var rest := into + r;
    KeywordsAreUpper();
    InAnyCase(into, "INTO");
    assert rest[0] == into[0] && rest[1] == into[1];
    KeywordIsNoSpace(into, "INTO", r);
    hide Suffix, Keyword, Conflict, SkipSpaces, Spaces, AllSpace, IsSpace, IsKeyword, AllUpper, IsConflict;
    match c
    case None =>
      assert "" + rest == rest;
      KeywordMisses(rest, "OR");
    case Some(k) =>
      var d := k.afterConflict + rest;
      var e := k.conflict + d;
      var f := k.afterWord + e;
      ClauseRegroups(k, rest);
      KeywordHere(k.word, "OR", f);
      KeywordIsNoSpace(k.word, "OR", f);
      ConflictHere(k.conflict, d);
      SkipHere(k.afterWord, e);
      SkipHere(k.afterConflict, rest);
  }

  lemma ClauseRegroups(k: Clause, rest: string)
    ensures ClauseText(Some(k)) + rest == k.word + (k.afterWord + (k.conflict + (k.afterConflict + rest)))
  {
    ConcatAssociates(k.conflict, k.afterConflict, rest);
    ConcatAssociates(k.afterWord, k.conflict + k.afterConflict, rest);
    ConcatAssociates(k.word, k.afterWord + (k.conflict + k.afterConflict), rest);
  }

  lemma ParenIsNoSpace(r: string)
    ensures "(" + r != "" && !IsSpace(("(" + r)[0]) && Symbol("(" + r, '(') == Some(r)
  {
    hide Suffix;
    assert ("(" + r)[1..] == r;
  }

  // The characters of a table name, by code unit: digits, letters of either case, `_` and `.`.
  lemma WordCharacters(c: char)
    ensures IsWord(c) <==>
      0x30 <= c as int <= 0x39 || 0x41 <= c as int <= 0x5A || 0x61 <= c as int <= 0x7A || c as int in {0x5F, 0x2E}
  {
  }

  lemma SpaceIsNoWord(c: char)
    ensures IsSpace(c) ==> !IsWord(c) && Upper(c) != 'I'
    ensures !IsWord('(')
  {
  }

  lemma {:induction false} TableHere(table: string, gap: string, r: string)
    requires table != "" && AllWord(table) && AllSpace(gap) && r != "" && r[0] == '('
    ensures Word(table + (gap + r)) == Some(gap + r) && !IsSpace((table + (gap + r))[0])
  {
    var rest := gap + r;
    SpaceIsNoWord(rest[0]);
    SpaceIsNoWord(table[0]);
    assert gap != "" ==> rest[0] == gap[0];
    hide Suffix, IsWord, IsSpace;
    WordHere(table, rest);
  }

  lemma TargetHere(s: Insert, columns: string, values: string)
    requires Worded(s) && White(s)
    ensures TargetStart(TargetAs(s, columns, values)) == Some(columns + AfterColumns(s, values))
  {
    var tail := columns + AfterColumns(s, values);
    var open := "(" + tail;
    var table := s.table + (s.beforeColumns + open);
    var target := s.into + (s.afterInto + table);
    assert target == TargetAs(s, columns, values);
    KeywordsAreUpper();
    hide IsKeyword, AllUpper, IsConflict, Suffix, Keyword, SkipSpaces, Spaces, Word, Symbol, AllWord, AllSpace, IsSpace, TargetAs, AfterColumns;
    ParenIsNoSpace(tail);
    KeywordHere(s.into, "INTO", s.afterInto + table);
    TableHere(s.table, s.beforeColumns, open);
    SkipHere(s.afterInto, table);
    SkipHere(s.beforeColumns, open);
  }

  lemma HeaderStartHere(s: Insert, columns: string, values: string)
    requires Worded(s) && White(s)
    ensures HeaderStart(PrintAs(s, columns, values)) == Some(columns + AfterColumns(s, values))
  {
    var target := TargetAs(s, columns, values);
    var rest := ClauseText(s.clause) + target;
    var into := s.afterInto + (s.table + (s.beforeColumns + ("(" + (columns + AfterColumns(s, values)))));
    assert target == s.into + into;
    KeywordsAreUpper();
    hide IsKeyword, AllUpper, IsConflict, Suffix, Keyword, SkipSpaces, Spaces, Word, Symbol, AllWord, AllSpace, IsSpace, ClauseText, AfterConflict, TargetAs,
      AfterColumns, TargetStart;
    KeywordHere(s.verb, "INSERT", s.afterVerb + rest);
    AfterConflictHere(s.clause, s.into, into);
    SkipHere(s.afterVerb, rest);
    TargetHere(s, columns, values);
  }

  lemma ValuesStartHere(s: Insert, body: string)
    requires Worded(s) && White(s)
    ensures ValuesStart(s.beforeValues + (s.values + (s.beforeRows + ("(" + body)))) == Some(body)
  {
    var open := "(" + body;
    var values := s.values + (s.beforeRows + open);
    KeywordsAreUpper();
    hide Suffix, Keyword, SkipSpaces, Symbol, AllSpace, IsSpace, IsKeyword, AllUpper, IsConflict;
    WordIsNotEmpty(s.values, "VALUES");
    KeywordIsNoSpace(s.values, "VALUES", s.beforeRows + open);
    SkipHere(s.beforeValues, values);
    KeywordHere(s.values, "VALUES", s.beforeRows + open);
    ParenIsNoSpace(body);
    SkipHere(s.beforeRows, open);
  }

  lemma {:induction false} HeaderEndIs(columns: string, tail: string, rest: string, body: string)
    requires NoParens(columns + tail) == columns && tail == ")" + rest && ValuesStart(rest) == Some(body)
    ensures HeaderEnd(columns + tail) == Some(Header(columns, body))
  {
    hide NoParens, ValuesStart;
    assert (columns + tail)[|columns|..] == tail;
  }

  lemma {:induction false} HeaderEndHere(s: Insert, columns: string, body: string)
    requires Worded(s) && White(s) && ParenFree(columns)
    ensures HeaderEnd(columns + AfterColumns(s, "(" + body)) == Some(Header(columns, body))
  {
    var rest := s.beforeValues + (s.values + (s.beforeRows + ("(" + body)));
    var tail := ")" + rest;
    assert AfterColumns(s, "(" + body) == tail;
    hide *;
    ValuesStartHere(s, body);
    NoParensHere(columns, tail);
    HeaderEndIs(columns, tail, rest, body);
  }

  // A printed header is matched up to its first tuple.
  lemma {:induction false} HeaderHere(s: Insert, columns: string, body: string)
    requires Worded(s) && White(s) && ParenFree(columns)
    ensures HeaderAt(PrintAs(s, columns, "(" + body)) == Some(Header(columns, body))
  {
    hide HeaderStart, HeaderEnd, Worded, White, ParenFree, PrintAs;
    HeaderStartHere(s, columns, "(" + body);
    HeaderEndHere(s, columns, body);
  }

  // ---------------------------------------------------- only printed headers match

  lemma LetterRead(c: char, capital: char)
    requires 'A' <= capital <= 'Z'
    ensures SameLetter(c, capital) <==> Upper(c) == capital
  {
  }

  lemma KeywordLonger(c: char, w: string, capital: char, keyword: string)
    requires SameLetter(c, capital) && IsKeyword(w, keyword)
    ensures IsKeyword([c] + w, [capital] + keyword)
  {
    hide SameLetter;
  }

  lemma FirstLetter(m: string, n: nat)
    requires 0 < n <= |m|
    ensures m[..n] == [m[0]] + m[1..][..n - 1] && m == [m[0]] + m[1..]
  {
  }

  lemma {:induction false} KeywordRead(m: string, keyword: string)
    requires Keyword(m, keyword).Some? && AllUpper(keyword)
    ensures |keyword| <= |m| && IsKeyword(m[..|keyword|], keyword) && m == m[..|keyword|] + Keyword(m, keyword).value
  {
    if keyword != "" {
      assert AllUpper(keyword[1..]) && 'A' <= keyword[0] <= 'Z';
      KeywordRead(m[1..], keyword[1..]);
      LetterRead(m[0], keyword[0]);
      var w := m[1..][..|keyword| - 1];
      hide IsKeyword, SameLetter, AllUpper, Upper, Suffix;
      KeywordLonger(m[0], w, keyword[0], keyword[1..]);
      assert keyword == [keyword[0]] + keyword[1..];
      FirstLetter(m, |keyword|);
      ConcatAssociates([m[0]], w, Keyword(m, keyword).value);
    }
  }

  lemma {:induction false} SpaceLonger(c: char, g: string)
    requires IsSpace(c) && AllSpace(g)
    ensures AllSpace([c] + g)
  {
    hide IsSpace;
    assert ([c] + g)[1..] == g;
  }

  lemma {:induction false} SpacesRead(m: string) returns (g: string)
    ensures AllSpace(g) && m == g + SkipSpaces(m) && (Spaces(m).Some? ==> g != "")
  {
    hide IsSpace, Suffix;
    if m != "" && IsSpace(m[0]) {
      var h := SpacesRead(m[1..]);
      SpaceLonger(m[0], h);
      SkipSpacesStep(m);
      hide AllSpace, SkipSpaces;
      g := [m[0]] + h;
      assert m == [m[0]] + m[1..];
      ConcatAssociates([m[0]], h, SkipSpaces(m[1..]));
    } else {
      g := "";
    }
  }

  lemma {:induction false} WordLonger(c: char, w: string)
    requires IsWord(c) && AllWord(w)
    ensures AllWord([c] + w)
  {
    hide IsWord;
    assert ([c] + w)[1..] == w;
  }

  lemma {:induction false} SkipWordStep(m: string)
    ensures SkipWord(m) == if m != "" && IsWord(m[0]) then SkipWord(m[1..]) else m
  {
    hide Suffix, IsWord;
  }

  lemma {:induction false} WordRead(m: string) returns (w: string)
    ensures AllWord(w) && m == w + SkipWord(m) && (Word(m).Some? ==> w != "")
  {
    hide IsWord, Suffix;
    if m != "" && IsWord(m[0]) {
      var v := WordRead(m[1..]);
      WordLonger(m[0], v);
      SkipWordStep(m);
      hide AllWord, SkipWord;
      w := [m[0]] + v;
      assert m == [m[0]] + m[1..];
      ConcatAssociates([m[0]], v, SkipWord(m[1..]));
    } else {
      w := "";
    }
  }

  lemma {:induction false} ParenFreeLonger(c: char, m: string)
    requires c != '(' && c != ')' && ParenFree(m)
    ensures ParenFree([c] + m)
  {
    assert ([c] + m)[1..] == m;
  }

  lemma RestOf(c: char, p: string, m: string)
    requires m != "" && m[0] == c && |p| < |m| && m[1..] == p + m[1..][|p|..]
    ensures m == ([c] + p) + m[|p| + 1..]
  {
  }

  lemma {:induction false} NoParensRead(m: string)
    ensures ParenFree(NoParens(m)) && m == NoParens(m) + m[|NoParens(m)|..]
  {
    NoParensLength(m);
    if m != "" && m[0] != '(' && m[0] != ')' {
      NoParensLength(m[1..]);
      NoParensRead(m[1..]);
      NoParensStep(m);
      hide *;
      ParenFreeLonger(m[0], NoParens(m[1..]));
      RestOf(m[0], NoParens(m[1..]), m);
    } else if m != "" {
      NoParensStep(m);
    }
  }

  lemma {:induction false} NoParensLength(m: string)
    ensures |NoParens(m)| <= |m|
  {
    hide Suffix;
  }

  lemma ConflictRead(m: string) returns (w: string)
    requires Conflict(m).Some?
    ensures IsConflict(w) && m == w + Conflict(m).value
  {
    ConflictsAreUpper();
    hide Keyword, Suffix, IsKeyword, AllUpper;
    var keyword :=
      if Keyword(m, "IGNORE").Some? then "IGNORE"
      else if Keyword(m, "REPLACE").Some? then "REPLACE"
      else if Keyword(m, "ABORT").Some? then "ABORT"
      else if Keyword(m, "FAIL").Some? then "FAIL"
      else "ROLLBACK";
    KeywordRead(m, keyword);
    w := m[..|keyword|];
  }

  lemma ClauseRead(m: string) returns (c: Option<Clause>)
    ensures m == ClauseText(c) + AfterConflict(m)
    ensures c.Some? ==> WordedClause(c.value) && WhiteClause(c.value)
  {
    KeywordsAreUpper();
    hide Keyword, Conflict, SkipSpaces, AllSpace, IsSpace, Suffix, IsConflict, IsKeyword, AllUpper;
    c := None;
    if OrConflict(m).Some? {
      KeywordRead(m, "OR");
      var a := Keyword(m, "OR").value;
      var g := SpacesRead(a);
      var b := Spaces(a).value;
      var w := ConflictRead(b);
      var d := Conflict(b).value;
      var h := SpacesRead(d);
      c := Some(Clause(m[..2], g, w, h));
      ClauseRegroups(c.value, AfterConflict(m));
    } else {
      assert "" + m == m;
    }
  }

  // INTO and the table, up to the parenthesis.
  lemma TargetRead(m: string) returns (into: string, afterInto: string, table: string, beforeColumns: string)
    requires TargetStart(m).Some?
    ensures IsKeyword(into, "INTO") && AllSpace(afterInto) && afterInto != "" && AllWord(table) && table != ""
    ensures AllSpace(beforeColumns)
    ensures m == into + (afterInto + (table + (beforeColumns + ("(" + TargetStart(m).value))))
  {
    KeywordsAreUpper();
    hide AllUpper, Keyword, SkipSpaces, SkipWord, AllSpace, AllWord, IsSpace, IsWord, Suffix, IsKeyword;
    KeywordRead(m, "INTO");
    into := m[..4];
    var a := Keyword(m, "INTO").value;
    afterInto := SpacesRead(a);
    var b := Spaces(a).value;
    table := WordRead(b);
    var d := Word(b).value;
    beforeColumns := SpacesRead(d);
    OpenRead(SkipSpaces(d));
  }

  lemma OpenRead(m: string)
    requires Symbol(m, '(').Some?
    ensures m == "(" + Symbol(m, '(').value
  {
  }

  // VALUES up to the parenthesis of the first tuple.
  lemma ValuesRead(m: string) returns (beforeValues: string, values: string, beforeRows: string)
    requires ValuesStart(m).Some?
    ensures AllSpace(beforeValues) && IsKeyword(values, "VALUES") && AllSpace(beforeRows)
    ensures m == beforeValues + (values + (beforeRows + ("(" + ValuesStart(m).value)))
  {
    KeywordsAreUpper();
    hide AllUpper, Keyword, SkipSpaces, AllSpace, IsSpace, Suffix, IsKeyword;
    beforeValues := SpacesRead(m);
    var a := SkipSpaces(m);
    KeywordRead(a, "VALUES");
    values := a[..6];
    var b := Keyword(a, "VALUES").value;
    beforeRows := SpacesRead(b);
    OpenRead(SkipSpaces(b));
  }

  ghost predicate PrintedAs(m: string, s: Insert, h: Header) {
    Worded(s) && White(s) && ParenFree(h.columns) && m == PrintAs(s, h.columns, "(" + h.body)
  }

  lemma StartRead(m: string) returns (s: Insert)
    requires HeaderStart(m).Some?
    ensures IsKeyword(s.verb, "INSERT") && AllSpace(s.afterVerb) && s.afterVerb != ""
    ensures s.clause.Some? ==> WordedClause(s.clause.value) && WhiteClause(s.clause.value)
    ensures IsKeyword(s.into, "INTO") && AllSpace(s.afterInto) && s.afterInto != "" && AllWord(s.table) && s.table != ""
    ensures AllSpace(s.beforeColumns)
    ensures m == s.verb + (s.afterVerb + (ClauseText(s.clause)
      + (s.into + (s.afterInto + (s.table + (s.beforeColumns + ("(" + HeaderStart(m).value)))))))
  {
    KeywordsAreUpper();
    hide AllUpper, Keyword, SkipSpaces, AfterConflict, TargetStart, AllSpace, AllWord, IsSpace, Suffix, IsKeyword, ClauseText, WordedClause,
      WhiteClause;
    KeywordRead(m, "INSERT");
    var a := Keyword(m, "INSERT").value;
    var gap := SpacesRead(a);
    var b := Spaces(a).value;
    var clause := ClauseRead(b);
    var into, afterInto, table, beforeColumns := TargetRead(AfterConflict(b));
    s := Insert(m[..6], gap, clause, into, afterInto, table, beforeColumns, [], "", "", "", []);
  }

  lemma EndRead(m: string) returns (beforeValues: string, values: string, beforeRows: string)
    requires HeaderEnd(m).Some?
    ensures AllSpace(beforeValues) && IsKeyword(values, "VALUES") && AllSpace(beforeRows)
    ensures ParenFree(HeaderEnd(m).value.columns)
    ensures m == HeaderEnd(m).value.columns
      + (")" + (beforeValues + (values + (beforeRows + ("(" + HeaderEnd(m).value.body)))))
  {
    hide NoParens, ValuesStart, AllSpace, IsSpace, Suffix, IsKeyword, ParenFree;
    NoParensRead(m);
    var a := Symbol(m[|NoParens(m)|..], ')').value;
    beforeValues, values, beforeRows := ValuesRead(a);
    assert m[|NoParens(m)|..] == ")" + a;
  }

  lemma HeaderRead(m: string) returns (s: Insert)
    requires HeaderAt(m).Some?
    ensures PrintedAs(m, s, HeaderAt(m).value)
  {
    var start := StartRead(m);
    var beforeValues, values, beforeRows := EndRead(HeaderStart(m).value);
    s := start.(beforeValues := beforeValues, values := values, beforeRows := beforeRows);
    hide HeaderStart, HeaderEnd, AllSpace, AllWord, IsKeyword, IsConflict, ClauseText, ParenFree;
    assert HeaderStart(m).value == HeaderAt(m).value.columns + AfterColumns(s, "(" + HeaderAt(m).value.body);
  }

  // So the pattern matches a header exactly where one is printed, its words in any case, white space
  // between any two of them, and white space or none around its parentheses.
  lemma HeaderExactly(m: string, h: Header)
    ensures HeaderAt(m) == Some(h) <==> exists s :: PrintedAs(m, s, h)
  {
    hide HeaderAt, PrintAs, Worded, White, ParenFree;
    if HeaderAt(m) == Some(h) {
      var s := HeaderRead(m);
    }
    if s :| PrintedAs(m, s, h) {
      HeaderHere(s, h.columns, h.body);
    }
  }

  // ------------------------------------------------- text that cannot extend a match

  // A comma or a closing parenthesis, or nothing: no word or space goes on in it.
  predicate Stops(r: string) {
    r == "" || r[0] == ',' || r[0] == ')'
  }

  function Extend(o: Option<string>, r: string): Option<string> {
    if o.None? then None else Some(o.value + r)
  }

  lemma StopsAtWords(r: string)
    requires Stops(r) && r != ""
    ensures !IsSpace(r[0]) && !IsWord(r[0]) && r[0] != '(' && !('A' <= Upper(r[0]) <= 'Z')
  {
  }

  lemma {:induction false} KeywordExtends(y: string, w: string, r: string)
    requires AllUpper(w) && Stops(r)
    ensures Keyword(y + r, w) == Extend(Keyword(y, w), r)
  {
    if w != "" && y != "" {
      TailOfConcat(y, r);
      KeywordExtends(y[1..], w[1..], r);
    } else if w != "" {
      assert y + r == r;
      if r != "" {
        StopsAtWords(r);
      }
    }
  }

  lemma {:induction false} SkipSpacesStep(m: string)
    ensures SkipSpaces(m) == if m != "" && IsSpace(m[0]) then SkipSpaces(m[1..]) else m
  {
    hide Suffix, IsSpace;
  }

  lemma {:induction false} SkipSpacesExtends(y: string, r: string)
    requires Stops(r)
    ensures SkipSpaces(y + r) == SkipSpaces(y) + r
  {
    hide SkipSpaces, IsSpace;
    SkipSpacesStep(y);
    SkipSpacesStep(y + r);
    if y != "" {
      TailOfConcat(y, r);
      SkipSpacesExtends(y[1..], r);
    } else {
      assert y + r == r;
      if r != "" {
        StopsAtWords(r);
      }
    }
  }

  lemma SpacesExtends(y: string, r: string)
    requires Stops(r)
    ensures Spaces(y + r) == Extend(Spaces(y), r)
  {
    hide SkipSpaces, IsSpace;
    SkipSpacesExtends(y, r);
    if y == "" {
      assert y + r == r;
      if r != "" {
        StopsAtWords(r);
      }
    }
  }

  lemma {:induction false} SkipWordExtends(y: string, r: string)
    requires Stops(r)
    ensures SkipWord(y + r) == SkipWord(y) + r
  {
    hide IsWord;
    if y != "" {
      TailOfConcat(y, r);
      SkipWordExtends(y[1..], r);
    } else {
      assert y + r == r;
      if r != "" {
        StopsAtWords(r);
      }
    }
  }

  lemma WordExtends(y: string, r: string)
    requires Stops(r)
    ensures Word(y + r) == Extend(Word(y), r)
  {
    hide SkipWord, IsWord;
    SkipWordExtends(y, r);
    if y == "" {
      assert y + r == r;
      if r != "" {
        StopsAtWords(r);
      }
    }
  }

  lemma SymbolExtends(y: string, c: char, r: string)
    requires Stops(r) && (c == '(' || y != "")
    ensures Symbol(y + r, c) == Extend(Symbol(y, c), r)
  {
    if y != "" {
      TailOfConcat(y, r);
    } else {
      assert y + r == r;
    }
  }

  lemma ConflictExtends(y: string, r: string)
    requires Stops(r)
    ensures Conflict(y + r) == Extend(Conflict(y), r)
  {
    hide Keyword, Suffix;
    assert AllUpper("IGNORE") && AllUpper("REPLACE") && AllUpper("ABORT") && AllUpper("FAIL") && AllUpper("ROLLBACK");
    KeywordExtends(y, "IGNORE", r);
    KeywordExtends(y, "REPLACE", r);
    KeywordExtends(y, "ABORT", r);
    KeywordExtends(y, "FAIL", r);
    KeywordExtends(y, "ROLLBACK", r);
  }

  lemma OrConflictExtends(y: string, r: string)
    requires Stops(r)
    ensures OrConflict(y + r) == Extend(OrConflict(y), r)
    ensures AfterConflict(y + r) == AfterConflict(y) + r
  {
    assert AllUpper("OR");
    hide Keyword, Conflict, Spaces, SkipSpaces, Suffix;
    KeywordExtends(y, "OR", r);
    if Keyword(y, "OR").Some? {
      var a := Keyword(y, "OR").value;
      SpacesExtends(a, r);
      if Spaces(a).Some? {
        var b := Spaces(a).value;
        ConflictExtends(b, r);
        if Conflict(b).Some? {
          SpacesExtends(Conflict(b).value, r);
        }
      }
    }
  }

  lemma IntoExtends(y: string, r: string)
    requires Stops(r)
    ensures TargetStart(y + r) == Extend(TargetStart(y), r)
  {
    assert AllUpper("INTO");
    hide Keyword, Spaces, SkipSpaces, Word, Symbol, Suffix;
    KeywordExtends(y, "INTO", r);
    if Keyword(y, "INTO").Some? {
      var c := Keyword(y, "INTO").value;
      SpacesExtends(c, r);
      if Spaces(c).Some? {
        var d := Spaces(c).value;
        WordExtends(d, r);
        if Word(d).Some? {
          SkipSpacesExtends(Word(d).value, r);
          SymbolExtends(SkipSpaces(Word(d).value), '(', r);
        }
      }
    }
  }

  lemma HeaderStartExtends(y: string, r: string)
    requires Stops(r)
    ensures HeaderStart(y + r) == Extend(HeaderStart(y), r)
  {
    assert AllUpper("INSERT");
    hide Keyword, AfterConflict, Spaces, TargetStart, Suffix;
    KeywordExtends(y, "INSERT", r);
    if Keyword(y, "INSERT").Some? {
      var a := Keyword(y, "INSERT").value;
      SpacesExtends(a, r);
      if Spaces(a).Some? {
        var b := Spaces(a).value;
        OrConflictExtends(b, r);
        IntoExtends(AfterConflict(b), r);
      }
    }
  }

  lemma {:induction false} NoParensExtends(y: string, r: string)
    requires ')' in y
    ensures NoParens(y + r) == NoParens(y) && |NoParens(y)| < |y|
  {
    hide NoParens;
    TailOfConcat(y, r);
    NoParensStep(y);
    NoParensStep(y + r);
    if y[0] != '(' && y[0] != ')' {
      NoParensExtends(y[1..], r);
    }
  }

  lemma ValuesExtends(y: string, r: string)
    requires Stops(r)
    ensures ValuesStart(y + r) == Extend(ValuesStart(y), r)
  {
    assert AllUpper("VALUES");
    hide Keyword, SkipSpaces, Symbol, Suffix;
    SkipSpacesExtends(y, r);
    KeywordExtends(SkipSpaces(y), "VALUES", r);
    if Keyword(SkipSpaces(y), "VALUES").Some? {
      var b := Keyword(SkipSpaces(y), "VALUES").value;
      SkipSpacesExtends(b, r);
      SymbolExtends(SkipSpaces(b), '(', r);
    }
  }

  lemma HeaderEndExtends(y: string, r: string)
    requires Stops(r) && ')' in y
    ensures HeaderEnd(y + r).Some? <==> HeaderEnd(y).Some?
  {
    hide ValuesStart, Symbol, NoParens, Suffix, Stops;
    NoParensExtends(y, r);
    var n := |NoParens(y)|;
    assert (y + r)[n..] == y[n..] + r;
    SymbolExtends(y[n..], ')', r);
    if Symbol(y[n..], ')').Some? {
      ValuesExtends(Symbol(y[n..], ')').value, r);
    }
  }

  // -------------------------------------------------------- texts without a header

  predicate HeaderFree(m: string) {
    m == "" || (HeaderAt(m).None? && HeaderFree(m[1..]))
  }

  // Every end of a balanced text is balanced from some depth.
  lemma {:induction false} DepthAt(m: string, d: nat, n: nat) returns (e: nat)
    requires Balanced(m, d) && n <= |m|
    ensures Balanced(m[n..], e) && (n > 0 && m[n - 1] == '(' ==> e > 0)
  {
    if n == 0 {
      e := d;
      assert m[0..] == m;
    } else if n == 1 {
      e := d + Change(m[0]);
    } else {
      e := DepthAt(m[1..], d + Change(m[0]), n - 1);
      assert m[1..][n - 1..] == m[n..] && m[1..][n - 2] == m[n - 1];
    }
  }

  lemma {:induction false} OpenCloses(m: string, d: nat)
    requires Balanced(m, d) && d > 0
    ensures ')' in m
  {
    if m[0] != ')' {
      OpenCloses(m[1..], d + Change(m[0]));
    }
  }

  // A header that starts in a balanced text ends in it.
  lemma {:induction false} HeaderInside(y: string, d: nat, r: string)
    requires Balanced(y, d) && Stops(r)
    ensures HeaderAt(y + r).Some? <==> HeaderAt(y).Some?
  {
    hide HeaderStart, HeaderEnd, Suffix;
    HeaderStartExtends(y, r);
    if HeaderStart(y).Some? {
      var z := HeaderStart(y).value;
      HeaderStartSuffix(y);
      SuffixIs(z, y);
      var e := DepthAt(y, d, |y| - |z|);
      OpenCloses(z, e);
      HeaderEndExtends(z, r);
    }
  }

  lemma {:induction false} HeaderFreeAppend(y: string, d: nat, r: string)
    requires Balanced(y, d) && Stops(r) && HeaderFree(y) && HeaderFree(r)
    ensures HeaderFree(y + r)
  {
    if y == "" {
      assert y + r == r;
    } else {
      hide HeaderAt;
      HeaderInside(y, d, r);
      TailOfConcat(y, r);
      HeaderFreeAppend(y[1..], d + Change(y[0]), r);
    }
  }

  lemma {:induction false} HeaderFreeHead(c: string, r: string)
    requires |c| == 1 && Upper(c[0]) != 'I'
    ensures HeaderAt(c + r).None?
    ensures HeaderFree(r) ==> HeaderFree(c + r)
  {
    TailOfConcat(c, r);
    assert c[1..] + r == r;
    hide Keyword, HeaderEnd;
  }

  ghost predicate AllHeaderFree(items: seq<string>) {
    items == [] || (HeaderFree(Mask(items[0])) && AllHeaderFree(items[1..]))
  }

  ghost predicate NoInsertInside(rows: seq<Row>) {
    rows == [] || (AllHeaderFree(rows[0].items) && NoInsertInside(rows[1..]))
  }

  lemma {:induction false} HeaderFreeJoined(items: seq<string>, r: string)
    requires AllItems(items) && AllHeaderFree(items) && HeaderFree(r) && Stops(r)
    ensures HeaderFree(Joined(MaskAll(items)) + r)
  {
    hide Mask, Settled, Blank, Enclosed, Joined, MaskAll, HeaderFree;
    if items == [] {
      EmptyJoined();
      assert "" + r == r;
    } else {
      var item := Mask(items[0]);
      EnclosedBalanced(item, 0);
      MaskAllTail(items);
      if |items| == 1 {
        JoinedOne(MaskAll(items));
        HeaderFreeAppend(item, 0, r);
      } else {
        var rest := Joined(MaskAll(items[1..])) + r;
        HeaderFreeJoined(items[1..], r);
        HeaderFreeHead(",", rest);
        JoinedStep(MaskAll(items));
        ThreeParts(item, Joined(MaskAll(items[1..])), r);
        HeaderFreeAppend(item, 0, "," + rest);
      }
    }
  }

  lemma ThreeParts(a: string, b: string, c: string)
    ensures (a + ("," + b)) + c == a + ("," + (b + c))
  {
  }

  lemma EmptyJoined()
    ensures Joined(MaskAll([])) == ""
  {
  }

  lemma {:induction false} OneSpaceFree(c: char, r: string)
    requires IsSpace(c) && HeaderFree(r)
    ensures HeaderFree([c] + r)
  {
    SpaceIsNoWord(c);
    hide *;
    HeaderFreeHead([c], r);
  }

  lemma {:induction false} SpaceHeaderFree(g: string, r: string)
    requires AllSpace(g) && HeaderFree(r)
    ensures HeaderFree(g + r)
  {
    if g == "" {
      hide *;
      assert g + r == r;
    } else {
      assert IsSpace(g[0]) && AllSpace(g[1..]);
      hide *;
      SpaceHeaderFree(g[1..], r);
      OneSpaceFree(g[0], g[1..] + r);
      ConcatAssociates([g[0]], g[1..], r);
      assert g == [g[0]] + g[1..];
    }
  }

  lemma {:induction false} TupleHeaderFree(items: seq<string>, r: string)
    requires AllItems(items) && AllHeaderFree(items) && HeaderFree(r)
    ensures HeaderFree(Parenthesised(MaskAll(items)) + r)
  {
    hide Mask, HeaderFree, HeaderAt, AllItems, AllHeaderFree, Joined, MaskAll;
    var j := Joined(MaskAll(items));
    HeaderFreeHead(")", r);
    HeaderFreeJoined(items, ")" + r);
    HeaderFreeHead("(", j + (")" + r));
    assert Parenthesised(MaskAll(items)) + r == "(" + (j + (")" + r));
  }

  lemma {:induction false} RowHeaderFree(row: Row, rest: string, r: string)
    requires IsRow(row) && AllHeaderFree(row.items) && HeaderFree(rest + r)
    ensures HeaderFree(RowText(MaskedRow(row), rest) + r)
  {
    hide Mask, HeaderFree, HeaderAt, AllItems, AllHeaderFree, Parenthesised, RowText, MaskAll, Settled, AllSpace;
    var g, h := Mask(row.after), Mask(row.next);
    SpaceHeaderFree(h, rest + r);
    HeaderFreeHead(",", h + (rest + r));
    SpaceHeaderFree(g, "," + (h + (rest + r)));
    TupleHeaderFree(row.items, g + ("," + (h + (rest + r))));
    RowTextIs(MaskedRow(row), rest, r);
  }

  lemma {:induction false} RowsHeaderFree(rows: seq<Row>, r: string)
    requires AllRows(rows) && NoInsertInside(rows) && HeaderFree(r)
    ensures HeaderFree(RowsText(MaskedRows(rows)) + r)
  {
    hide IsRow, AllHeaderFree, Parenthesised, RowText, RowsText, MaskedRow, MaskedRows, HeaderFree, MaskAll;
    if rows == [] {
      EmptyRows();
      assert "" + r == r;
    } else {
      RowsStep(MaskedRows(rows));
      RowsStep(rows);
      if |rows| == 1 {
        MaskedRowIs(rows[0]);
        RowItems(rows[0]);
        TupleHeaderFree(rows[0].items, r);
      } else {
        RowsHeaderFree(rows[1..], r);
        RowHeaderFree(rows[0], RowsText(MaskedRows(rows[1..])), r);
      }
    }
  }

  lemma RowItems(row: Row)
    requires IsRow(row)
    ensures AllItems(row.items)
  {
  }

  lemma EmptyRows()
    ensures RowsText(MaskedRows([])) == ""
  {
  }
}
