// The arity check of scripts/ci/check-sql-interpolation-safety.ts on every printed INSERT: what it
// reports is what is wrong, and then what is wrong with any INSERT inside a value. Last comes the
// family of statements for which the second part is not empty though the statement is correct.
module SqlArityTheorem {
  import opened Options
  import opened SqlLexer
  import opened SqlMaskLaws
  import opened SqlArity
  import opened SqlPrint
  import opened SqlHeaderMatch
  import opened SqlHeaderApart

  function ValuesText(s: Insert): string {
    RowsText(s.rows)
  }

  function MaskedValues(s: Insert): string {
    RowsText(MaskedRows(s.rows))
  }

  // The gaps of a header, masked: comments become white space.
  function MaskClause(c: Option<Clause>): Option<Clause> {
    match c
    case None => None
    case Some(k) => Some(Clause(k.word, Mask(k.afterWord), k.conflict, Mask(k.afterConflict)))
  }

  function MaskHead(s: Insert): Insert {
    s.(afterVerb := Mask(s.afterVerb), clause := MaskClause(s.clause), afterInto := Mask(s.afterInto),
       beforeColumns := Mask(s.beforeColumns), beforeValues := Mask(s.beforeValues), beforeRows := Mask(s.beforeRows))
  }

  function MaskedPrint(s: Insert): string {
    PrintAs(MaskHead(s), Joined(MaskAll(s.columns)), MaskedValues(s))
  }

  lemma MaskedHead(s: Insert)
    requires Worded(s) && Spread(s)
    ensures Worded(MaskHead(s)) && White(MaskHead(s))
    ensures MaskHead(s).clause.Some? ==> WordedClause(MaskHead(s).clause.value) && WhiteClause(MaskHead(s).clause.value)
  {
    hide Mask, Settled, AllSpace, IsKeyword, IsConflict, AllWord;
  }

  lemma {:induction false} WordIsInert(w: string)
    requires AllWord(w)
    ensures AllInert(w)
  {
    if w != "" {
      WordIsInert(w[1..]);
      assert forall i :: 0 < i < |w| ==> w[i] == w[1..][i - 1];
    }
  }

  lemma {:induction false} ColumnsAreItems(columns: seq<string>)
    requires AllColumns(columns)
    ensures AllItems(columns) && ParenFree(Joined(MaskAll(columns)))
  {
    if columns != [] {
      hide Mask, Settled, Blank, Enclosed, Joined, MaskAll, ParenFree;
      ColumnsAreItems(columns[1..]);
      MaskAllTail(columns);
      if |columns| == 1 {
        JoinedOne(MaskAll(columns));
      } else {
        JoinedStep(MaskAll(columns));
        CommaParenFree(Joined(MaskAll(columns[1..])));
        ParenFreeAppend(Mask(columns[0]), "," + Joined(MaskAll(columns[1..])));
      }
    } else {
      EmptyJoined();
    }
  }

  lemma {:induction false} CommaParenFree(m: string)
    requires ParenFree(m)
    ensures ParenFree("," + m)
  {
    assert ("," + m)[1..] == m;
  }

  lemma {:induction false} ParenFreeAppend(a: string, b: string)
    requires ParenFree(a) && ParenFree(b)
    ensures ParenFree(a + b)
  {
    if a == "" {
      assert a + b == b;
    } else {
      TailOfConcat(a, b);
      ParenFreeAppend(a[1..], b);
    }
  }

  lemma LetterIsPlain(c: char)
    requires 'A' <= Upper(c) <= 'Z'
    ensures Inert(c) && c != '*' && c != '(' && c != ')' && c != ','
  {
  }

  // Words in any case open no token and end none.
  lemma KeywordIsInert(w: string, keyword: string, r: string)
    requires IsKeyword(w, keyword) && AllUpper(keyword) && w != ""
    ensures AllInert(w) && Separates(w + r)
  {
    InAnyCase(w, keyword);
    forall i | 0 <= i < |w|
      ensures Inert(w[i])
    {
      LetterIsPlain(w[i]);
    }
    LetterIsPlain(w[0]);
    assert (w + r)[0] == w[0];
  }

  lemma ConflictIsInert(w: string, r: string)
    requires IsConflict(w)
    ensures AllInert(w) && Separates(w + r)
  {
    ConflictLetters(w);
    ConflictsAreUpper();
    hide AllInert, AllUpper, Separates, IsKeyword;
    if IsKeyword(w, "IGNORE") {
      KeywordIsInert(w, "IGNORE", r);
    } else if IsKeyword(w, "REPLACE") {
      KeywordIsInert(w, "REPLACE", r);
    } else if IsKeyword(w, "ABORT") {
      KeywordIsInert(w, "ABORT", r);
    } else if IsKeyword(w, "FAIL") {
      KeywordIsInert(w, "FAIL", r);
    } else {
      KeywordIsInert(w, "ROLLBACK", r);
    }
  }

  lemma {:induction false} TableIsInert(w: string, r: string)
    requires AllWord(w) && w != ""
    ensures AllInert(w) && Separates(w + r)
  {
    WordIsInert(w);
    assert (w + r)[0] == w[0];
  }

  lemma ParensAreInert(r: string)
    ensures AllInert("(") && AllInert(")") && Separates("(" + r) && Separates(")" + r)
  {
  }

  lemma {:induction false} MaskAfterColumns(s: Insert, values: string)
    requires Worded(s) && Spread(s) && Separates(values)
    ensures Mask(AfterColumns(s, values)) == AfterColumns(MaskHead(s), Mask(values))
    ensures Settled(values) ==> Settled(AfterColumns(s, values))
  {
    KeywordsAreUpper();
    hide Mask, AllInert, AllUpper, Settled, IsGap, Separates, AllWord, IsKeyword, IsConflict;
    var a := s.beforeRows + values;
    var b := s.values + a;
    MaskGap(s.beforeRows, values);
    WordIsNotEmpty(s.values, "VALUES");
    KeywordIsInert(s.values, "VALUES", a);
    InertPrefix(s.values, a);
    MaskGap(s.beforeValues, b);
    ParensAreInert("");
    InertPrefix(")", s.beforeValues + b);
  }

  lemma {:induction false} MaskTarget(s: Insert, columns: string, values: string)
    requires Worded(s) && Spread(s) && Settled(columns) && Separates(values)
    ensures Mask(TargetAs(s, columns, values)) == TargetAs(MaskHead(s), Mask(columns), Mask(values))
    ensures Settled(values) ==> Settled(TargetAs(s, columns, values))
    ensures Separates(TargetAs(s, columns, values))
  {
    KeywordsAreUpper();
    var tail := AfterColumns(s, values);
    assert Separates(tail);
    hide Mask, AllInert, AllUpper, AllWord, Settled, AfterColumns, IsGap, Separates, IsKeyword, IsConflict;
    var open := "(" + (columns + tail);
    var a := s.beforeColumns + open;
    var b := s.table + a;
    MaskAfterColumns(s, values);
    MaskAppend(columns, tail);
    if Settled(values) {
      SettledAppend(columns, tail);
    }
    ParensAreInert(columns + tail);
    InertPrefix("(", columns + tail);
    MaskGap(s.beforeColumns, open);
    TableIsInert(s.table, a);
    InertPrefix(s.table, a);
    MaskGap(s.afterInto, b);
    WordIsNotEmpty(s.into, "INTO");
    KeywordIsInert(s.into, "INTO", s.afterInto + b);
    InertPrefix(s.into, s.afterInto + b);
  }

  lemma {:induction false} MaskClauseText(c: Option<Clause>, r: string)
    requires Separates(r)
    requires c.Some? ==>
      && IsKeyword(c.value.word, "OR") && IsConflict(c.value.conflict)
      && IsGap(c.value.afterWord) && IsGap(c.value.afterConflict)
    ensures Mask(ClauseText(c) + r) == ClauseText(MaskClause(c)) + Mask(r)
    ensures Settled(r) ==> Settled(ClauseText(c) + r)
    ensures Separates(ClauseText(c) + r)
  {
    KeywordsAreUpper();
    hide Mask, AllInert, AllUpper, Settled, IsGap, Separates, IsKeyword, IsConflict;
    match c
    case None =>
      assert "" + r == r && "" + Mask(r) == Mask(r);
    case Some(k) =>
      var a := k.afterConflict + r;
      var b := k.conflict + a;
      MaskGap(k.afterConflict, r);
      ConflictIsInert(k.conflict, a);
      InertPrefix(k.conflict, a);
      MaskGap(k.afterWord, b);
      WordIsNotEmpty(k.word, "OR");
      KeywordIsInert(k.word, "OR", k.afterWord + b);
      InertPrefix(k.word, k.afterWord + b);
      ClauseRegroups(k, r);
      ClauseRegroups(MaskClause(c).value, Mask(r));
  }

  lemma {:induction false} MaskPrintAs(s: Insert, columns: string, values: string)
    requires Worded(s) && Spread(s) && Settled(columns) && Separates(values)
    ensures Mask(PrintAs(s, columns, values)) == PrintAs(MaskHead(s), Mask(columns), Mask(values))
    ensures Settled(values) ==> Settled(PrintAs(s, columns, values))
  {
    KeywordsAreUpper();
    hide Mask, AllInert, AllUpper, AllWord, Settled, TargetAs, ClauseText, MaskClause, IsGap, Separates, IsKeyword, IsConflict;
    var target := TargetAs(s, columns, values);
    var a := ClauseText(s.clause) + target;
    MaskTarget(s, columns, values);
    MaskClauseText(s.clause, target);
    TargetSame(MaskHead(s), Mask(columns), Mask(values));
    MaskGap(s.afterVerb, a);
    WordIsNotEmpty(s.verb, "INSERT");
    KeywordIsInert(s.verb, "INSERT", s.afterVerb + a);
    InertPrefix(s.verb, s.afterVerb + a);
  }

  lemma TargetSame(s: Insert, columns: string, values: string)
    ensures PrintAs(s, columns, values) == s.verb + (s.afterVerb + (ClauseText(s.clause) + TargetAs(s, columns, values)))
  {
    hide ClauseText, TargetAs;
  }

  // Text after a statement is text after its values.
  lemma AfterColumnsExtends(s: Insert, values: string, r: string)
    ensures AfterColumns(s, values) + r == AfterColumns(s, values + r)
  {
    ConcatAssociates(s.beforeRows, values, r);
    ConcatAssociates(s.values, s.beforeRows + values, r);
    ConcatAssociates(s.beforeValues, s.values + (s.beforeRows + values), r);
    ConcatAssociates(")", s.beforeValues + (s.values + (s.beforeRows + values)), r);
  }

  lemma TargetExtends(s: Insert, columns: string, values: string, r: string)
    ensures TargetAs(s, columns, values) + r == TargetAs(s, columns, values + r)
  {
    AfterColumnsExtends(s, values, r);
    var tail := AfterColumns(s, values);
    hide AfterColumns;
    var a := "(" + (columns + tail);
    var b := s.table + (s.beforeColumns + a);
    ConcatAssociates(columns, tail, r);
    ConcatAssociates("(", columns + tail, r);
    ConcatAssociates(s.beforeColumns, a, r);
    ConcatAssociates(s.table, s.beforeColumns + a, r);
    ConcatAssociates(s.afterInto, b, r);
    ConcatAssociates(s.into, s.afterInto + b, r);
  }

  lemma PrintExtends(s: Insert, columns: string, values: string, r: string)
    ensures PrintAs(s, columns, values) + r == PrintAs(s, columns, values + r)
  {
    hide TargetAs, ClauseText;
    TargetExtends(s, columns, values, r);
    var target := TargetAs(s, columns, values);
    var a := ClauseText(s.clause) + target;
    ConcatAssociates(ClauseText(s.clause), target, r);
    ConcatAssociates(s.afterVerb, a, r);
    ConcatAssociates(s.verb, s.afterVerb + a, r);
  }

  // ------------------------------------------------------------------ the theorem

  lemma PrintLength(s: Insert, a: string, b: string)
    requires |a| == |b|
    ensures |PrintAs(s, a, "")| == |PrintAs(MaskHead(s), b, "")|
  {
    hide Mask;
  }

  lemma ValuesOpen(s: Insert)
    requires s.rows != []
    ensures ValuesText(s) != "" && Separates(ValuesText(s))
    ensures MaskedValues(s) != "" && MaskedValues(s)[0] == '('
  {
    hide RowsText, MaskedRows;
    RowsOpen(s.rows);
    RowsOpen(MaskedRows(s.rows));
  }

  lemma {:induction false} ReportAtHeader(head: string, v: string, mhead: string, mv: string, columns: string)
    requires |head| == |mhead| && |v| == |mv| > 0
    requires HeaderAt(mhead + mv) == Some(Header(columns, mv[1..]))
    ensures HeaderReports(head + v, mhead + mv)
      == TupleReports(|TopLevelParts(columns)|, v, mv) + HeaderReports(v[1..], mv[1..])
  {
    hide *;
    var t, m := head + v, mhead + mv;
    HeaderReportsStep(t, m);
    var at := |head| + 1;
    assert t[at - 1..] == v && m[at - 1..] == mv && t[at..] == v[1..];
  }

  lemma {:induction false} HeaderOfPrint(s: Insert, columns: string, values: string)
    requires Worded(s) && White(s) && ParenFree(columns) && values != "" && values[0] == '('
    ensures HeaderAt(PrintAs(s, columns, "") + values) == Some(Header(columns, values[1..]))
  {
    hide *;
    HeaderHere(s, columns, values[1..]);
    assert "(" + values[1..] == values;
    PrintExtends(s, columns, "", values);
    assert "" + values == values;
  }

  lemma PrintSplit(s: Insert, columns: string, values: string, r: string)
    ensures PrintAs(s, columns, values) + r == PrintAs(s, columns, "") + (values + r)
    ensures PrintAs(s, columns, values) == PrintAs(s, columns, "") + values
  {
    hide *;
    PrintExtends(s, columns, "", values);
    assert "" + values == values;
    ConcatAssociates(PrintAs(s, columns, ""), values, r);
  }

  lemma SameLengths(s: Insert)
    requires WellFormed(s)
    ensures |Print(s)| == |MaskedPrint(s)| && |ValuesText(s)| == |MaskedValues(s)| > 0
    ensures |Joined(s.columns)| == |Joined(MaskAll(s.columns))|
  {
    hide Joined, RowsText, MaskedRows, MaskAll, MaskHead, AllColumns, AllRows, Worded, Spread, PrintAs, Mask;
    ColumnsAreItems(s.columns);
    MaskJoined(s.columns);
    MaskRows(s.rows);
    ValuesOpen(s);
    PrintLength(s, Joined(s.columns), Joined(MaskAll(s.columns)));
    PrintSplit(s, Joined(s.columns), ValuesText(s), "");
    PrintSplit(MaskHead(s), Joined(MaskAll(s.columns)), MaskedValues(s), "");
  }

  // ------------------------------------------------------------------ the theorem

  // The report on a printed statement, whatever text follows it: the expected entries,
  // and then those of the headers that stand inside its values or in the text behind.
  lemma {:induction false} ReportOfPrint(s: Insert, r: string, mr: string)
    requires WellFormed(s) && |r| == |mr| && NextOpen(mr).None?
    ensures |Print(s)| == |MaskedPrint(s)| && |ValuesText(s)| == |MaskedValues(s)| > 0
    ensures HeaderReports(Print(s) + r, MaskedPrint(s) + mr)
      == Expected(Count(s.columns), s.rows) + HeaderReports(ValuesText(s)[1..] + r, MaskedValues(s)[1..] + mr)
  {
    SameLengths(s);
    hide Joined, RowsText, MaskedRows, MaskAll, MaskHead, AllColumns, AllRows, Worded, White, Spread, PrintAs, TopLevelParts,
         TupleReports, HeaderReports, HeaderAt, Expected, ParenFree, NextOpen, Mask;
    var columns, masked := Joined(s.columns), Joined(MaskAll(s.columns));
    var values, mvalues, head := ValuesText(s), MaskedValues(s), MaskHead(s);
    ColumnsAreItems(s.columns);
    ReportAll(Count(s.columns), s.rows, r, mr);
    ValuesOpen(s);
    MaskedPartsCounted(s.columns);
    MaskedHead(s);
    PrintSplit(s, columns, values, r);
    PrintSplit(head, masked, mvalues, mr);
    PrintLength(s, columns, masked);
    TailOfConcat(values, r);
    TailOfConcat(mvalues, mr);
    HeaderOfPrint(head, masked, mvalues + mr);
    ReportAtHeader(PrintAs(s, columns, ""), values + r, PrintAs(head, masked, ""), mvalues + mr, masked);
  }

  // The entries that headers inside the values add.
  function NestedReport(s: Insert): seq<Mismatch>
    requires s.rows != []
  {
    ValuesOpen(s);
    HeaderReports(ValuesText(s)[1..], Mask(ValuesText(s))[1..])
  }

  // No header that starts among the values, after the first parenthesis, has a tuple behind it whose
  // parts are not as many as its columns.
  ghost predicate NothingWrongInside(s: Insert)
    requires s.rows != []
  {
    ValuesOpen(s);
    forall k: nat :: !WrongAt(ValuesText(s)[1..], Mask(ValuesText(s))[1..], k)
  }

  // For every INSERT, the report is the expected one and then the nested entries, and it is exact if and
  // only if no header among the values has a wrong tuple behind it.
  lemma ArityReportOfPrint(s: Insert)
    requires WellFormed(s)
    ensures ArityReport(Print(s)) == Expected(Count(s.columns), s.rows) + NestedReport(s)
    ensures ArityReport(Print(s)) == Expected(Count(s.columns), s.rows) <==> NestedReport(s) == []
    ensures ArityReport(Print(s)) == Expected(Count(s.columns), s.rows) <==> NothingWrongInside(s)
  {
    hide *;
    HasTuples(s);
    ReportSplits(s);
    NestedExactly(s);
  }

  lemma HasTuples(s: Insert)
    requires WellFormed(s)
    ensures s.rows != []
  {
  }

  lemma ReportSplits(s: Insert)
    requires WellFormed(s)
    ensures ArityReport(Print(s)) == Expected(Count(s.columns), s.rows) + NestedReport(s)
  {
    hide *;
    HasTuples(s);
    SameLengths(s);
    ReportOfPrint(s, "", "") by {
      NothingNext();
    }
    MaskOfPrint(s);
    NestedIs(s);
    ReportIs(Print(s), MaskedPrint(s));
    var values, mvalues := ValuesText(s), MaskedValues(s);
    assert Print(s) + "" == Print(s) && MaskedPrint(s) + "" == MaskedPrint(s);
    assert values[1..] + "" == values[1..] && mvalues[1..] + "" == mvalues[1..];
  }

  lemma NothingNext()
    ensures NextOpen("").None?
  {
  }

  lemma {:induction false} ReportIs(sql: string, m: string)
    requires Mask(sql) == m
    ensures |sql| == |m| && ArityReport(sql) == HeaderReports(sql, m)
  {
    hide Mask, HeaderReports;
  }

  lemma NestedIs(s: Insert)
    requires WellFormed(s)
    ensures s.rows != [] && ValuesText(s) != "" && MaskedValues(s) != "" && |ValuesText(s)| == |MaskedValues(s)|
    ensures Mask(ValuesText(s)) == MaskedValues(s)
    ensures NestedReport(s) == HeaderReports(ValuesText(s)[1..], MaskedValues(s)[1..])
  {
    hide HeaderReports, Mask, Settled, Joined, RowsText, MaskedRows, AllRows, AllColumns, Worded, Spread;
    ValuesOpen(s);
    MaskRows(s.rows);
  }

  lemma NestedExactly(s: Insert)
    requires s.rows != []
    ensures NestedReport(s) == [] <==> NothingWrongInside(s)
  {
    hide ValuesText, Mask, WrongAt, HeaderReports;
    ValuesOpen(s);
    ScanFindsNothingExactly(ValuesText(s)[1..], Mask(ValuesText(s))[1..]);
  }

  lemma MaskOfPrint(s: Insert)
    requires WellFormed(s)
    ensures Mask(Print(s)) == MaskedPrint(s) && Settled(Print(s))
  {
    hide Joined, RowsText, MaskedRows, MaskAll, MaskHead, AllColumns, AllRows, Worded, Spread, PrintAs, Mask, Settled, Separates;
    ColumnsAreItems(s.columns);
    MaskJoined(s.columns);
    MaskRows(s.rows);
    ValuesOpen(s);
    MaskPrintAs(s, Joined(s.columns), ValuesText(s));
  }

  lemma {:induction false} NothingReported(t: string, m: string)
    requires |t| == |m| && HeaderFree(m)
    ensures HeaderReports(t, m) == []
  {
    if m != "" {
      hide HeaderReports, HeaderAt;
      HeaderReportsStep(t, m);
      NothingReported(t[1..], m[1..]);
    }
  }

  // The check is exact on every INSERT whose values hold no INSERT header of their own:
  // one entry for each tuple of the wrong length, in order, with the true counts.
  lemma ArityExact(s: Insert)
    requires WellFormed(s) && NoInsertInside(s.rows)
    ensures ArityReport(Print(s)) == Expected(Count(s.columns), s.rows)
  {
    hide Joined, RowsText, MaskedRows, MaskAll, AllColumns, AllRows, NoInsertInside, AllWord, PrintAs, Print,
         HeaderReports, Expected, Mask;
    ArityReportOfPrint(s);
    ValuesOpen(s);
    MaskRows(s.rows);
    RowsHeaderFree(s.rows, "");
    var m := MaskedValues(s);
    assert m + "" == m;
    HeaderFreeTail(m);
    NothingReported(ValuesText(s)[1..], m[1..]);
  }

  lemma {:induction false} HeaderFreeTail(m: string)
    requires HeaderFree(m) && m != ""
    ensures HeaderFree(m[1..])
  {
  }

  // ------------------------------------------------ an INSERT inside a value is reported

  lemma {:induction false} BalancedClose(m: string, d: nat, r: string)
    requires Balanced(m, d) && Balanced(r, 0)
    ensures Balanced(m + (")" + r), d + 1)
  {
    if m == "" {
      assert m + (")" + r) == ")" + r && (")" + r)[1..] == r;
    } else {
      TailOfConcat(m, ")" + r);
      BalancedClose(m[1..], d + Change(m[0]), r);
    }
  }

  lemma {:induction false} BalancedParentheses(items: seq<string>, r: string)
    requires AllItems(items) && Balanced(r, 0)
    ensures Balanced(Parenthesised(MaskAll(items)) + r, 0)
  {
    var j := Joined(MaskAll(items));
    BalancedJoined(items);
    BalancedClose(j, 0, r);
    hide Joined, MaskAll, AllItems;
    assert Parenthesised(MaskAll(items)) + r == "(" + (j + (")" + r));
    assert ("(" + (j + (")" + r)))[1..] == j + (")" + r);
  }

  // Text without parentheses or commas.
  ghost predicate Flat(p: string) {
    forall i :: 0 <= i < |p| ==> p[i] != '(' && p[i] != ')' && p[i] != ','
  }

  lemma {:induction false} FlatBalanced(p: string, r: string)
    requires Flat(p) && Balanced(r, 0)
    ensures Balanced(p + r, 0)
  {
    if p == "" {
      assert p + r == r;
    } else {
      TailOfConcat(p, r);
      assert Flat(p[1..]);
      FlatBalanced(p[1..], r);
    }
  }

  lemma {:induction false} WordIsFlat(w: string)
    requires AllWord(w)
    ensures Flat(w)
  {
    if w != "" {
      WordIsFlat(w[1..]);
      assert forall i :: 0 < i < |w| ==> w[i] == w[1..][i - 1];
    }
  }

  lemma {:induction false} SpaceIsFlat(g: string)
    requires AllSpace(g)
    ensures Flat(g)
  {
    if g != "" {
      SpaceIsFlat(g[1..]);
      assert forall i :: 0 < i < |g| ==> g[i] == g[1..][i - 1];
    }
  }

  lemma KeywordIsFlat(w: string, keyword: string)
    requires IsKeyword(w, keyword) && AllUpper(keyword)
    ensures Flat(w)
  {
    InAnyCase(w, keyword);
    forall i | 0 <= i < |w|
      ensures w[i] != '(' && w[i] != ')' && w[i] != ','
    {
      LetterIsPlain(w[i]);
    }
  }

  lemma ConflictIsFlat(w: string)
    requires IsConflict(w)
    ensures Flat(w)
  {
    ConflictsAreUpper();
    hide Flat, AllUpper, IsKeyword;
    if IsKeyword(w, "IGNORE") {
      KeywordIsFlat(w, "IGNORE");
    } else if IsKeyword(w, "REPLACE") {
      KeywordIsFlat(w, "REPLACE");
    } else if IsKeyword(w, "ABORT") {
      KeywordIsFlat(w, "ABORT");
    } else if IsKeyword(w, "FAIL") {
      KeywordIsFlat(w, "FAIL");
    } else {
      KeywordIsFlat(w, "ROLLBACK");
    }
  }

  lemma FlatAppend(p: string, q: string)
    requires Flat(p) && Flat(q)
    ensures Flat(p + q)
  {
  }

  lemma ClauseIsFlat(c: Option<Clause>)
    requires c.Some? ==> WordedClause(c.value) && WhiteClause(c.value)
    ensures Flat(ClauseText(c))
  {
    KeywordsAreUpper();
    hide Flat, AllUpper, IsKeyword, IsConflict, AllSpace;
    match c
    case None => EmptyIsFlat();
    case Some(k) =>
      KeywordIsFlat(k.word, "OR");
      SpaceIsFlat(k.afterWord);
      ConflictIsFlat(k.conflict);
      SpaceIsFlat(k.afterConflict);
      FlatAppend(k.conflict, k.afterConflict);
      FlatAppend(k.afterWord, k.conflict + k.afterConflict);
      FlatAppend(k.word, k.afterWord + (k.conflict + k.afterConflict));
  }

  lemma EmptyIsFlat()
    ensures Flat("")
  {
  }

  // The text of a white header in front of its columns and between these and its rows.
  function HeadText(s: Insert): string {
    s.verb + (s.afterVerb + (ClauseText(s.clause) + (s.into + (s.afterInto + (s.table + s.beforeColumns)))))
  }

  function MiddleText(s: Insert): string {
    s.beforeValues + (s.values + s.beforeRows)
  }

  lemma HeadIsFlat(s: Insert)
    requires Worded(s) && White(s)
    ensures Flat(HeadText(s)) && Flat(MiddleText(s))
  {
    KeywordsAreUpper();
    hide Flat, AllUpper, IsKeyword, AllSpace, AllWord, ClauseText;
    ClauseIsFlat(s.clause);
    KeywordIsFlat(s.verb, "INSERT");
    KeywordIsFlat(s.into, "INTO");
    KeywordIsFlat(s.values, "VALUES");
    WordIsFlat(s.table);
    SpaceIsFlat(s.afterVerb);
    SpaceIsFlat(s.afterInto);
    SpaceIsFlat(s.beforeColumns);
    SpaceIsFlat(s.beforeValues);
    SpaceIsFlat(s.beforeRows);
    FlatAppend(s.values, s.beforeRows);
    FlatAppend(s.beforeValues, s.values + s.beforeRows);
    var a := s.table + s.beforeColumns;
    FlatAppend(s.table, s.beforeColumns);
    FlatAppend(s.afterInto, a);
    FlatAppend(s.into, s.afterInto + a);
    FlatAppend(ClauseText(s.clause), s.into + (s.afterInto + a));
    FlatAppend(s.afterVerb, ClauseText(s.clause) + (s.into + (s.afterInto + a)));
    FlatAppend(s.verb, s.afterVerb + (ClauseText(s.clause) + (s.into + (s.afterInto + a))));
  }

  // A statement in three parts: its head, the columns in parentheses, and the rows behind VALUES.
  lemma PrintParts(s: Insert, columns: string, values: string)
    ensures PrintAs(s, columns, values) == HeadText(s) + ("(" + (columns + (")" + (MiddleText(s) + values))))
  {
    hide ClauseText;
    var rest := columns + AfterColumns(s, values);
    var open := "(" + rest;
    ConcatAssociates(s.values, s.beforeRows, values);
    ConcatAssociates(s.beforeValues, s.values + s.beforeRows, values);
    assert rest == columns + (")" + (MiddleText(s) + values));
    var a := s.table + s.beforeColumns;
    ConcatAssociates(s.table, s.beforeColumns, open);
    ConcatAssociates(s.afterInto, a, open);
    ConcatAssociates(s.into, s.afterInto + a, open);
    ConcatAssociates(ClauseText(s.clause), s.into + (s.afterInto + a), open);
    ConcatAssociates(s.afterVerb, ClauseText(s.clause) + (s.into + (s.afterInto + a)), open);
    ConcatAssociates(s.verb, s.afterVerb + (ClauseText(s.clause) + (s.into + (s.afterInto + a))), open);
  }

  lemma {:induction false} RowBalanced(row: Row, rest: string)
    requires IsRow(row) && Balanced(rest, 0)
    ensures Balanced(RowText(MaskedRow(row), rest), 0)
  {
    hide Mask, Settled, AllItems, Parenthesised, Balanced, MaskAll, AllSpace, Flat;
    var g, h := Mask(row.after), Mask(row.next);
    SpaceIsFlat(g);
    SpaceIsFlat(h);
    FlatBalanced(h, rest);
    BalancedComma(h + rest);
    FlatBalanced(g, "," + (h + rest));
    BalancedParentheses(row.items, g + ("," + (h + rest)));
  }

  lemma {:induction false} BalancedRows(rows: seq<Row>)
    requires AllRows(rows) && rows != []
    ensures Balanced(RowsText(MaskedRows(rows)), 0)
  {
    hide IsRow, Parenthesised, RowText, RowsText, MaskedRow, MaskedRows, Balanced, MaskAll;
    RowsStep(rows);
    RowsStep(MaskedRows(rows));
    if |rows| == 1 {
      MaskedRowIs(rows[0]);
      RowItems(rows[0]);
      EmptyBalanced();
      BalancedParentheses(rows[0].items, "");
      var text := Parenthesised(MaskAll(rows[0].items));
      assert text + "" == text;
    } else {
      BalancedRows(rows[1..]);
      RowBalanced(rows[0], RowsText(MaskedRows(rows[1..])));
    }
  }

  lemma EmptyBalanced()
    ensures Balanced("", 0)
  {
  }

  lemma BalancedPrint(s: Insert)
    requires WellFormed(s)
    ensures Balanced(MaskedPrint(s), 0)
  {
    hide Joined, RowsText, MaskedRows, MaskAll, MaskHead, AllColumns, AllRows, Mask, Balanced, PrintAs, Flat, HeadText, MiddleText,
      White, Worded, Spread;
    var head, columns, values := MaskHead(s), Joined(MaskAll(s.columns)), MaskedValues(s);
    ColumnsAreItems(s.columns);
    BalancedRows(s.rows);
    MaskedHead(s);
    HeadIsFlat(head);
    FlatBalanced(MiddleText(head), values);
    BalancedParentheses(s.columns, MiddleText(head) + values);
    var open := "(" + (columns + (")" + (MiddleText(head) + values)));
    assert Parenthesised(MaskAll(s.columns)) + (MiddleText(head) + values) == open;
    FlatBalanced(HeadText(head), open);
    PrintParts(head, columns, values);
  }

  lemma {:induction false} BalancedIsEnclosed(m: string, d: nat)
    requires Balanced(m, d)
    ensures Enclosed(m + ")", d + 1)
  {
    if m == "" {
      assert m + ")" == ")" && ")"[1..] == "";
    } else {
      TailOfConcat(m, ")");
      BalancedIsEnclosed(m[1..], d + Change(m[0]));
    }
  }

  // A parenthesised INSERT can stand among the values of another.
  lemma InsertIsItem(p: Insert)
    requires WellFormed(p)
    ensures IsItem("(" + (Print(p) + ")")) && Mask("(" + (Print(p) + ")")) == "(" + (MaskedPrint(p) + ")")
  {
    hide *;
    MaskOfPrint(p);
    BalancedPrint(p);
    CloseIsInert();
    MaskNothing();
    InertPrefix(")", "");
    assert ")" + "" == ")";
    MaskAppend(Print(p), ")");
    SettledAppend(Print(p), ")");
    InertPrefix("(", Print(p) + ")");
    var m := MaskedPrint(p) + ")";
    BalancedIsEnclosed(MaskedPrint(p), 0);
    OpenEncloses(m);
    ItemIs("(" + (Print(p) + ")"));
  }

  lemma CloseIsInert()
    ensures AllInert(")") && AllInert("(") && Separates(")")
  {
  }

  lemma {:induction false} OpenEncloses(m: string)
    requires Enclosed(m, 1)
    ensures Enclosed("(" + m, 0)
  {
    assert ("(" + m)[1..] == m;
  }

  lemma {:induction false} ItemIs(s: string)
    requires Settled(s) && Enclosed(Mask(s), 0)
    ensures IsItem(s)
  {
  }

  // One or two columns.
  lemma LetterIsColumn(a: string)
    requires a == "a" || a == "b"
    ensures IsColumn(a) && Counts(a)
  {
    assert TokenLength(a) == 0 && OpeningOf(a) == NoOpening && a[1..] == "";
    assert Settled(a);
    assert Kinds(a) == [Plain] && Mask(a) == a && Enclosed(a, 0) && ParenFree(a);
  }

  // A statement of one row in the plainest layout.
  function Plainly(table: string, columns: seq<string>, items: seq<string>): Insert {
    Insert("INSERT", " ", None, "INTO", " ", table, " ", columns, " ", "VALUES", " ", [Row(items, "", "")])
  }

  lemma SpaceIsGap()
    ensures IsGap(" ") && IsGap("")
  {
    MaskNothing();
    assert TokenLength(" ") == 0 && OpeningOf(" ") == NoOpening && " "[1..] == "";
    assert Kinds(" ") == [Plain] && Mask(" ") == " ";
  }

  lemma PlainlyWorded(columns: seq<string>, items: seq<string>)
    ensures Worded(Plainly("t", columns, items))
  {
    assert AllWord("t");
  }

  lemma {:induction false} FewColumns(columns: seq<string>)
    requires columns == ["a"] || columns == ["a", "b"]
    ensures AllColumns(columns) && Count(columns) == |columns|
  {
    LetterIsColumn("a");
    LetterIsColumn("b");
    hide IsColumn, Counts;
    assert ["a", "b"][1..] == ["b"] && ["b"][1..] == [] && ["a"][1..] == [];
    assert AllColumns(["b"]);
  }

  lemma OneRow(row: Row)
    requires IsRow(row)
    ensures AllRows([row])
  {
    hide IsRow;
    var rest: seq<Row> := [row][1..];
    assert rest == [];
  }

  lemma {:induction false} SmallStatement(columns: seq<string>, items: seq<string>)
    requires columns == ["a"] || columns == ["a", "b"]
    requires AllItems(items)
    ensures WellFormed(Plainly("t", columns, items))
  {
    hide AllItems, AllColumns, AllRows, IsGap, Worded;
    SpaceIsGap();
    FewColumns(columns);
    PlainlyWorded(columns, items);
    OneRow(Row(items, "", ""));
  }
}
