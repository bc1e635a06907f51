// Matches of the INSERT header pattern of scripts/ci/check-sql-interpolation-safety.ts never overlap: none
// starts strictly inside another. So the scan skips no header by going on behind the one before, and
// reports something exactly where some header has a wrong tuple behind it, wherever that header stands.
module SqlHeaderApart {
  import opened SqlLexer
  import opened SqlArity
  import opened SqlHeaderMatch

  // ------------------------------------------------- what a header passes over

  // `r` is the end of `m`, and no parenthesis stands before it.
  predicate Clear(r: string, m: string) {
    Suffix(r, m) && forall i :: 0 <= i < |m| - |r| ==> m[i] != '(' && m[i] != ')'
  }

  lemma ClearSelf(m: string)
    ensures Clear(m, m)
  {
  }

  lemma ClearTrans(a: string, b: string, c: string)
    requires Clear(a, b) && Clear(b, c)
    ensures Clear(a, c)
  {
    SuffixTrans(a, b, c);
    var n := |c| - |b|;
    assert forall i :: n <= i < |c| - |a| ==> c[i] == b[i - n];
  }

  lemma ClearHead(m: string)
    requires m != "" && m[0] != '(' && m[0] != ')'
    ensures Clear(m[1..], m)
  {
  }

  lemma {:induction false} KeywordClear(m: string, w: string)
    requires AllUpper(w) && Keyword(m, w).Some?
    ensures Clear(Keyword(m, w).value, m)
  {
    if w == "" {
      ClearSelf(m);
    } else {
      KeywordClear(m[1..], w[1..]);
      ClearHead(m);
      ClearTrans(Keyword(m, w).value, m[1..], m);
    }
  }

  lemma SpaceOrWordIsNoParen(c: char)
    requires IsSpace(c) || IsWord(c)
    ensures c != '(' && c != ')'
  {
  }

  lemma {:induction false} SpacesClear(m: string)
    ensures Clear(SkipSpaces(m), m)
  {
    hide IsSpace, Clear, Suffix;
    if m != "" && IsSpace(m[0]) {
      SpaceOrWordIsNoParen(m[0]);
      SpacesClear(m[1..]);
      ClearHead(m);
      ClearTrans(SkipSpaces(m), m[1..], m);
    } else {
      ClearSelf(m);
    }
  }

  lemma {:induction false} WordClear(m: string)
    ensures Clear(SkipWord(m), m)
  {
    hide IsWord, Clear, Suffix;
    if m != "" && IsWord(m[0]) {
      SpaceOrWordIsNoParen(m[0]);
      WordClear(m[1..]);
      ClearHead(m);
      ClearTrans(SkipWord(m), m[1..], m);
    } else {
      ClearSelf(m);
    }
  }

  lemma ConflictClear(m: string)
    requires Conflict(m).Some?
    ensures Clear(Conflict(m).value, m)
  {
    assert AllUpper("IGNORE") && AllUpper("REPLACE") && AllUpper("ABORT") && AllUpper("FAIL") && AllUpper("ROLLBACK");
    hide Keyword, Clear, AllUpper;
    if Keyword(m, "IGNORE").Some? {
      KeywordClear(m, "IGNORE");
    } else if Keyword(m, "REPLACE").Some? {
      KeywordClear(m, "REPLACE");
    } else if Keyword(m, "ABORT").Some? {
      KeywordClear(m, "ABORT");
    } else if Keyword(m, "FAIL").Some? {
      KeywordClear(m, "FAIL");
    } else {
      KeywordClear(m, "ROLLBACK");
    }
  }

  lemma AfterConflictClear(m: string)
    ensures Clear(AfterConflict(m), m)
  {
    assert AllUpper("OR");
    hide Keyword, Conflict, SkipSpaces, Clear, AllUpper, Suffix;
    ClearSelf(m);
    if OrConflict(m).Some? {
      var a := Keyword(m, "OR").value;
      var b := SkipSpaces(a);
      var c := Conflict(b).value;
      KeywordClear(m, "OR");
      SpacesClear(a);
      ConflictClear(b);
      SpacesClear(c);
      ClearTrans(b, a, m);
      ClearTrans(c, b, m);
      ClearTrans(SkipSpaces(c), c, m);
    }
  }

  lemma SymbolOpens(m: string)
    requires Symbol(m, '(').Some?
    ensures m == "(" + Symbol(m, '(').value
  {
  }

  lemma {:induction false} TargetParts(m: string)
    requires TargetStart(m).Some?
    ensures Keyword(m, "INTO").Some? && AllUpper("INTO")
    ensures var f := SkipSpaces(SkipWord(SkipSpaces(Keyword(m, "INTO").value))); f == "(" + TargetStart(m).value
  {
    hide Keyword, SkipSpaces, SkipWord, Suffix;
    SymbolOpens(SkipSpaces(SkipWord(SkipSpaces(Keyword(m, "INTO").value))));
  }

  lemma TargetClear(m: string)
    requires TargetStart(m).Some?
    ensures Clear("(" + TargetStart(m).value, m)
  {
    hide *;
    TargetParts(m);
    var c := Keyword(m, "INTO").value;
    var d := SkipSpaces(c);
    var e := SkipWord(d);
    var f := SkipSpaces(e);
    KeywordClear(m, "INTO");
    SpacesClear(c);
    WordClear(d);
    SpacesClear(e);
    ClearTrans(d, c, m);
    ClearTrans(e, d, m);
    ClearTrans(f, e, m);
  }

  lemma {:induction false} StartParts(m: string)
    requires HeaderStart(m).Some?
    ensures Keyword(m, "INSERT").Some? && AllUpper("INSERT")
    ensures var into := AfterConflict(SkipSpaces(Keyword(m, "INSERT").value));
      TargetStart(into) == HeaderStart(m)
  {
    hide Keyword, AfterConflict, SkipSpaces, TargetStart, Suffix;
  }

  // The parenthesis of a column list is the first of a header,
  lemma StartClear(m: string)
    requires HeaderStart(m).Some?
    ensures Clear("(" + HeaderStart(m).value, m)
  {
    hide *;
    StartParts(m);
    var a := Keyword(m, "INSERT").value;
    var b := SkipSpaces(a);
    var into := AfterConflict(b);
    KeywordClear(m, "INSERT");
    SpacesClear(a);
    AfterConflictClear(b);
    TargetClear(into);
    ClearTrans(b, a, m);
    ClearTrans(into, b, m);
    ClearTrans("(" + TargetStart(into).value, into, m);
  }

  lemma {:induction false} ValuesParts(m: string)
    requires ValuesStart(m).Some?
    ensures Keyword(SkipSpaces(m), "VALUES").Some? && AllUpper("VALUES")
    ensures SkipSpaces(Keyword(SkipSpaces(m), "VALUES").value) == "(" + ValuesStart(m).value
  {
    hide Keyword, SkipSpaces, Suffix;
    SymbolOpens(SkipSpaces(Keyword(SkipSpaces(m), "VALUES").value));
  }

  // ------------------------------------------------------- no header inside another

  // `r` is the end of `m`, and no header starts before it.
  ghost predicate Unstarted(r: string, m: string) {
    Suffix(r, m) && forall j :: 0 <= j < |m| - |r| ==> HeaderAt(m[j..]).None?
  }

  lemma UnstartedSelf(m: string)
    ensures Unstarted(m, m)
  {
  }

  // What stands from `j` on in `c` stands there in its end `b`.
  lemma SuffixSlice(b: string, c: string, j: nat)
    requires Suffix(b, c) && |c| - |b| <= j <= |c|
    ensures c[j..] == b[j - (|c| - |b|)..]
  {
    var n := |c| - |b|;
    assert c[n..][j - n..] == c[j..];
  }

  lemma UnstartedSuffix(r: string, m: string)
    requires Unstarted(r, m)
    ensures Suffix(r, m)
  {
  }

  lemma UnstartedAt(r: string, m: string, j: nat)
    requires Unstarted(r, m) && j < |m| - |r|
    ensures HeaderAt(m[j..]).None?
  {
  }

  lemma UnstartedWhen(r: string, m: string)
    requires Suffix(r, m) && forall j :: 0 <= j < |m| - |r| ==> HeaderAt(m[j..]).None?
    ensures Unstarted(r, m)
  {
  }

  lemma UnstartedTrans(a: string, b: string, c: string)
    requires Unstarted(a, b) && Unstarted(b, c)
    ensures Unstarted(a, c)
  {
    hide *;
    UnstartedSuffix(a, b);
    UnstartedSuffix(b, c);
    SuffixTrans(a, b, c);
    SuffixSize(a, b);
    SuffixSize(b, c);
    forall j | 0 <= j < |c| - |a|
      ensures HeaderAt(c[j..]).None?
    {
      if j < |c| - |b| {
        UnstartedAt(b, c, j);
      } else {
        UnstartedAt(a, b, j - (|c| - |b|));
        SuffixSlice(b, c, j);
      }
    }
    UnstartedWhen(a, c);
  }

  lemma SuffixSize(r: string, m: string)
    requires Suffix(r, m)
    ensures |r| <= |m|
  {
  }

  lemma UnstartedHead(m: string)
    requires m != "" && HeaderAt(m).None?
    ensures Unstarted(m[1..], m)
  {
    assert m[0..] == m;
  }

  lemma {:induction false} KeywordLetters(m: string, w: string)
    requires Keyword(m, w).Some?
    ensures |w| <= |m| && forall i :: 0 <= i < |w| ==> Upper(m[i]) == w[i]
  {
    if w != "" {
      KeywordLetters(m[1..], w[1..]);
      assert forall i :: 1 <= i < |w| ==> m[i] == m[1..][i - 1] && w[i] == w[1..][i - 1];
    }
  }

  // A header starts with I, N and S.
  lemma HeaderLetters(m: string)
    requires HeaderAt(m).Some?
    ensures |m| > 2 && Upper(m[0]) == 'I' && Upper(m[1]) == 'N' && Upper(m[2]) == 'S'
  {
    hide Keyword, AfterConflict, TargetStart, HeaderEnd, Spaces;
    KeywordLetters(m, "INSERT");
  }

  lemma OtherLetters(m: string)
    requires m != ""
    requires Upper(m[0]) != 'I' || (|m| > 1 && Upper(m[1]) != 'N') || (|m| > 2 && Upper(m[2]) != 'S')
    ensures HeaderAt(m).None?
  {
    hide HeaderAt;
    if HeaderAt(m).Some? {
      HeaderLetters(m);
    }
  }

  lemma OtherLetter(m: string)
    requires m != "" && Upper(m[0]) != 'I'
    ensures Unstarted(m[1..], m)
  {
    OtherLetters(m);
    hide HeaderAt;
    UnstartedHead(m);
  }

  // A word in which no header can start.
  predicate Quiet(w: string) {
    forall i :: 0 <= i < |w| ==> NoInsertAt(w, i)
  }

  predicate NoInsertAt(w: string, i: nat)
    requires i < |w|
  {
    w[i] == 'I' ==> i + 1 < |w| && (w[i + 1] != 'N' || (i + 2 < |w| && w[i + 2] != 'S'))
  }

  lemma QuietWords()
    ensures Quiet("NSERT") && Quiet("INTO") && Quiet("VALUES") && Quiet("OR")
    ensures Quiet("IGNORE") && Quiet("REPLACE") && Quiet("ABORT") && Quiet("FAIL") && Quiet("ROLLBACK")
  {
  }

  lemma QuietAt(m: string, w: string, j: nat)
    requires Quiet(w) && j < |w| <= |m| && forall i :: 0 <= i < |w| ==> Upper(m[i]) == w[i]
    ensures HeaderAt(m[j..]).None?
  {
    var r := m[j..];
    assert Upper(r[0]) == Upper(m[j]) == w[j];
    assert j + 1 < |w| ==> Upper(r[1]) == Upper(m[j + 1]) == w[j + 1];
    assert j + 2 < |w| ==> Upper(r[2]) == Upper(m[j + 2]) == w[j + 2];
    assert NoInsertAt(w, j);
    hide HeaderAt, Upper;
    OtherLetters(r);
  }

  lemma {:induction false} KeywordQuiet(m: string, w: string)
    requires Quiet(w) && Keyword(m, w).Some?
    ensures Unstarted(Keyword(m, w).value, m)
  {
    KeywordLetters(m, w);
    hide HeaderAt, Quiet, Upper, Keyword, Unstarted;
    forall j | 0 <= j < |w|
      ensures HeaderAt(m[j..]).None?
    {
      QuietAt(m, w, j);
    }
    UnstartedWhen(Keyword(m, w).value, m);
  }

  lemma SpaceLetter(c: char)
    requires IsSpace(c)
    ensures Upper(c) != 'I'
  {
  }

  lemma {:induction false} SpacesQuiet(m: string)
    ensures Unstarted(SkipSpaces(m), m)
  {
    hide HeaderAt, IsSpace;
    if m != "" && IsSpace(m[0]) {
      SpaceLetter(m[0]);
      SpacesQuiet(m[1..]);
      OtherLetter(m);
      UnstartedTrans(SkipSpaces(m), m[1..], m);
    } else {
      UnstartedSelf(m);
    }
  }

  lemma ConflictQuiet(m: string)
    requires Conflict(m).Some?
    ensures Unstarted(Conflict(m).value, m)
  {
    hide Keyword, Unstarted, Quiet, Suffix;
    QuietWords();
    if Keyword(m, "IGNORE").Some? {
      KeywordQuiet(m, "IGNORE");
    } else if Keyword(m, "REPLACE").Some? {
      KeywordQuiet(m, "REPLACE");
    } else if Keyword(m, "ABORT").Some? {
      KeywordQuiet(m, "ABORT");
    } else if Keyword(m, "FAIL").Some? {
      KeywordQuiet(m, "FAIL");
    } else {
      KeywordQuiet(m, "ROLLBACK");
    }
  }

  lemma AfterConflictQuiet(m: string)
    ensures Unstarted(AfterConflict(m), m)
  {
    hide Keyword, Conflict, SkipSpaces, Unstarted, Quiet, Suffix;
    QuietWords();
    UnstartedSelf(m);
    if OrConflict(m).Some? {
      var a := Keyword(m, "OR").value;
      var b := SkipSpaces(a);
      var c := Conflict(b).value;
      KeywordQuiet(m, "OR");
      SpacesQuiet(a);
      ConflictQuiet(b);
      SpacesQuiet(c);
      UnstartedTrans(b, a, m);
      UnstartedTrans(c, b, m);
      UnstartedTrans(SkipSpaces(c), c, m);
    }
  }

  lemma {:induction false} SkipWordOver(m: string, w: string)
    requires AllUpper(w) && Keyword(m, w).Some?
    ensures SkipWord(Keyword(m, w).value) == SkipWord(m)
  {
    if w != "" {
      SkipWordOver(m[1..], w[1..]);
      assert IsWord(m[0]);
    }
  }

  lemma {:induction false} SpaceIsNoWord(m: string)
    requires Spaces(m).Some?
    ensures SkipWord(m) == m && Spaces(m).value == SkipSpaces(m)
  {
    hide IsSpace, IsWord, SkipSpaces, Suffix;
    SpaceIsNoLetter(m[0]);
  }

  lemma SpaceIsNoLetter(c: char)
    requires IsSpace(c)
    ensures !IsWord(c)
  {
  }

  lemma NoTargetAtParen(m: string)
    requires m != "" && m[0] == '('
    ensures TargetStart(AfterConflict(m)).None?
  {
    hide Conflict, SkipSpaces, SkipWord, Suffix;
    assert Keyword(m, "OR").None? && Keyword(m, "INTO").None?;
  }

  lemma {:induction false} NoHeaderUnless(m: string)
    requires var a := Keyword(m, "INSERT");
      a.None? || Spaces(a.value).None? || TargetStart(AfterConflict(Spaces(a.value).value)).None?
    ensures HeaderAt(m).None?
  {
    hide Keyword, AfterConflict, TargetStart, HeaderEnd, Spaces, Suffix;
  }

  lemma InsertIsUpper()
    ensures AllUpper("INSERT")
  {
  }

  // A table name is followed by a parenthesis, not by INTO.
  lemma {:induction false} TableIsNoHeader(m: string)
    requires var f := SkipSpaces(SkipWord(m)); f != "" && f[0] == '('
    ensures HeaderAt(m).None?
  {
    hide *;
    InsertIsUpper();
    var a := Keyword(m, "INSERT");
    if a.Some? && Spaces(a.value).Some? {
      SkipWordOver(m, "INSERT");
      SpaceIsNoWord(a.value);
      NoTargetAtParen(Spaces(a.value).value);
    }
    NoHeaderUnless(m);
  }

  lemma {:induction false} TableQuiet(m: string)
    requires var f := SkipSpaces(SkipWord(m)); f != "" && f[0] == '('
    ensures Unstarted(SkipWord(m), m)
  {
    hide HeaderAt, SkipSpaces, IsWord;
    if m != "" && IsWord(m[0]) {
      TableQuiet(m[1..]);
      TableIsNoHeader(m);
      UnstartedHead(m);
      UnstartedTrans(SkipWord(m), m[1..], m);
    } else {
      UnstartedSelf(m);
    }
  }

  lemma {:induction false} NoParensIs(m: string, p: nat)
    requires p < |m| && (m[p] == '(' || m[p] == ')') && forall i :: 0 <= i < p ==> m[i] != '(' && m[i] != ')'
    ensures |NoParens(m)| == p
  {
    hide NoParens;
    NoParensStep(m);
    if p > 0 {
      assert forall i :: 0 <= i < p - 1 ==> m[1..][i] == m[i + 1];
      NoParensIs(m[1..], p - 1);
    }
  }

  lemma {:induction false} FirstParenOpens(m: string)
    requires HeaderStart(m).Some?
    ensures |NoParens(m)| < |m| && m[|NoParens(m)|] == '('
  {
    hide HeaderStart, NoParens;
    StartClear(m);
    var p := |m| - |HeaderStart(m).value| - 1;
    assert m[p..][0] == '(';
    NoParensIs(m, p);
  }

  // Where the next parenthesis closes, no header starts.
  predicate ClosesNext(m: string) {
    |NoParens(m)| < |m| && m[|NoParens(m)|] == ')'
  }

  lemma ClosedIsNoHeader(m: string)
    requires ClosesNext(m)
    ensures HeaderAt(m).None?
  {
    hide HeaderStart, HeaderEnd, NoParens;
    if HeaderStart(m).Some? {
      FirstParenOpens(m);
    }
  }

  lemma {:induction false} ColumnsQuiet(m: string)
    requires ClosesNext(m)
    ensures Unstarted(m[|NoParens(m)|..], m)
  {
    hide HeaderAt, NoParens;
    NoParensStep(m);
    if m[0] == '(' || m[0] == ')' {
      UnstartedSelf(m);
      assert m[0..] == m;
    } else {
      ColumnsQuiet(m[1..]);
      ClosedIsNoHeader(m);
      UnstartedHead(m);
      assert m[|NoParens(m)|..] == m[1..][|NoParens(m[1..])|..];
      UnstartedTrans(m[|NoParens(m)|..], m[1..], m);
    }
  }

  lemma TargetQuiet(m: string)
    requires TargetStart(m).Some?
    ensures Unstarted(TargetStart(m).value, m)
  {
    hide *;
    QuietWords();
    TargetParts(m);
    var c := Keyword(m, "INTO").value;
    var d := SkipSpaces(c);
    var e := SkipWord(d);
    var f := SkipSpaces(e);
    var s := TargetStart(m).value;
    KeywordQuiet(m, "INTO");
    SpacesQuiet(c);
    TableQuiet(d);
    SpacesQuiet(e);
    UnstartedTrans(d, c, m);
    UnstartedTrans(e, d, m);
    UnstartedTrans(f, e, m);
    OpenLetter(s);
    UnstartedTrans(s, f, m);
  }

  lemma OpenLetter(s: string)
    ensures Unstarted(s, "(" + s)
  {
    hide HeaderAt;
    assert ("(" + s)[1..] == s;
    OtherLetter("(" + s);
  }

  lemma ValuesQuiet(m: string)
    requires ValuesStart(m).Some?
    ensures Unstarted(ValuesStart(m).value, m)
  {
    hide *;
    QuietWords();
    ValuesParts(m);
    var a := SkipSpaces(m);
    var b := Keyword(a, "VALUES").value;
    var s := ValuesStart(m).value;
    SpacesQuiet(m);
    KeywordQuiet(a, "VALUES");
    SpacesQuiet(b);
    UnstartedTrans(b, a, m);
    UnstartedTrans(SkipSpaces(b), b, m);
    OpenLetter(s);
    UnstartedTrans(s, SkipSpaces(b), m);
  }

  lemma EndQuiet(m: string)
    requires HeaderEnd(m).Some?
    ensures Unstarted(HeaderEnd(m).value.body, m)
  {
    hide NoParens, ValuesStart, HeaderAt;
    var close := m[|NoParens(m)|..];
    ColumnsQuiet(m);
    OtherLetter(close);
    ValuesQuiet(close[1..]);
    hide Unstarted;
    UnstartedTrans(close[1..], close, m);
    UnstartedTrans(ValuesStart(close[1..]).value, close[1..], m);
  }

  // No header starts strictly inside a match of the pattern.
  lemma HeadersApart(m: string)
    requires HeaderAt(m).Some?
    ensures m != "" && Unstarted(HeaderAt(m).value.body, m[1..])
  {
    hide *;
    QuietWords();
    HeaderParts(m);
    StartParts(m);
    var a := Keyword(m[1..], "NSERT").value;
    var b := SkipSpaces(a);
    var into := AfterConflict(b);
    var s := TargetStart(into).value;
    KeywordQuiet(m[1..], "NSERT");
    SpacesQuiet(a);
    AfterConflictQuiet(b);
    TargetQuiet(into);
    EndQuiet(s);
    UnstartedTrans(b, a, m[1..]);
    UnstartedTrans(into, b, m[1..]);
    UnstartedTrans(s, into, m[1..]);
    UnstartedTrans(HeaderEnd(s).value.body, s, m[1..]);
  }

  lemma {:induction false} HeaderParts(m: string)
    requires HeaderAt(m).Some?
    ensures HeaderStart(m).Some? && HeaderEnd(HeaderStart(m).value) == HeaderAt(m)
    ensures m != "" && Keyword(m[1..], "NSERT") == Keyword(m, "INSERT")
  {
    hide AfterConflict, TargetStart, HeaderEnd, Spaces;
    assert "INSERT"[1..] == "NSERT";
  }

  // ------------------------------------------------------- every header counts

  // The entries behind the header that starts at the head of `m`, if one does.
  function ReportsHere(t: string, m: string): seq<Mismatch>
    requires |t| == |m|
  {
    match HeaderAt(m)
    case None => []
    case Some(h) =>
      HeaderBody(m);
      var at := |t| - |h.body| - 1;
      TupleReports(|TopLevelParts(h.columns)|, t[at..], m[at..])
  }

  // The entries behind every place where a header starts.
  function AllReports(t: string, m: string): seq<Mismatch>
    requires |t| == |m|
  {
    if m == "" then [] else ReportsHere(t, m) + AllReports(t[1..], m[1..])
  }

  lemma {:induction false} AllReportsStep(t: string, m: string)
    requires |t| == |m| > 0
    ensures AllReports(t, m) == ReportsHere(t, m) + AllReports(t[1..], m[1..])
    ensures HeaderAt(m).None? ==> AllReports(t, m) == AllReports(t[1..], m[1..])
  {
    hide HeaderAt, TupleReports, TopLevelParts;
    assert [] + AllReports(t[1..], m[1..]) == AllReports(t[1..], m[1..]);
  }

  lemma TailOfTail<T>(t: seq<T>, k: nat)
    requires 0 < k <= |t|
    ensures t[1..][k - 1..] == t[k..]
  {
  }

  lemma UnstartedTail(r: string, m: string)
    requires Unstarted(r, m) && |r| < |m|
    ensures HeaderAt(m).None? && Unstarted(r, m[1..])
  {
    hide HeaderAt;
    TailOfTail(m, |m| - |r|);
    assert m[0..] == m;
    forall j | 0 <= j < |m[1..]| - |r|
      ensures HeaderAt(m[1..][j..]).None?
    {
      TailOfTail(m, j + 1);
    }
  }

  lemma {:induction false} NothingBefore(t: string, m: string, r: string)
    requires |t| == |m| && Unstarted(r, m)
    ensures |r| <= |t| && AllReports(t, m) == AllReports(t[|t| - |r|..], r)
  {
    hide *;
    UnstartedSuffix(r, m);
    SuffixSize(r, m);
    if |r| == |m| {
      SuffixSlice(r, m, 0);
      assert m[0..] == m && r[0..] == r && t[0..] == t;
    } else {
      UnstartedTail(r, m);
      AllReportsStep(t, m);
      NothingBefore(t[1..], m[1..], r);
      TailOfTail(t, |t| - |r|);
    }
  }

  // The scan in terms of what it reports here.
  lemma {:induction false} ScanStep(t: string, m: string)
    requires |t| == |m| > 0
    ensures HeaderAt(m).None? ==> HeaderReports(t, m) == HeaderReports(t[1..], m[1..])
    ensures HeaderAt(m).Some? ==>
      var body := HeaderAt(m).value.body;
      |body| < |m| && HeaderReports(t, m) == ReportsHere(t, m) + HeaderReports(t[|t| - |body|..], body)
  {
    hide HeaderAt, HeaderReports, TupleReports, TopLevelParts, Suffix;
    HeaderReportsStep(t, m);
    if HeaderAt(m).Some? {
      HeaderBody(m);
    }
  }

  lemma BehindHeader(t: string, m: string)
    requires |t| == |m| > 0 && HeaderAt(m).Some? && |HeaderAt(m).value.body| < |m|
    ensures AllReports(t[1..], m[1..]) == AllReports(t[|t| - |HeaderAt(m).value.body|..], HeaderAt(m).value.body)
  {
    hide *;
    var body := HeaderAt(m).value.body;
    HeadersApart(m);
    NothingBefore(t[1..], m[1..], body);
    TailOfTail(t, |t| - |body|);
  }

  // The scan, which goes on behind each header it finds, reports for every header there is.
  lemma {:induction false} EveryHeaderCounts(t: string, m: string)
    requires |t| == |m|
    ensures HeaderReports(t, m) == AllReports(t, m)
    decreases |m|
  {
    if m == "" {
      NothingToReport(t, m);
    } else {
      hide *;
      ScanStep(t, m);
      AllReportsStep(t, m);
      if HeaderAt(m).None? {
        EveryHeaderCounts(t[1..], m[1..]);
      } else {
        BehindHeader(t, m);
        EveryHeaderCounts(t[|t| - |HeaderAt(m).value.body|..], HeaderAt(m).value.body);
      }
    }
  }

  lemma {:induction false} NothingToReport(t: string, m: string)
    requires |t| == |m| == 0
    ensures HeaderReports(t, m) == AllReports(t, m) == []
  {
  }

  // ------------------------------------------------------ when nothing is reported

  // The tuples of the list that starts at the head of `t`, masked as `m`.
  function TuplesFrom(t: string, m: string): seq<string>
    requires |t| == |m|
    decreases |t|
  {
    if m == "" || m[0] != '(' || TupleText(t, m).None? then []
    else
      var tuple := TupleText(t, m).value;
      [tuple] + LaterTuples(t[|tuple| + 2..], m[|tuple| + 2..])
  }

  function LaterTuples(t: string, m: string): seq<string>
    requires |t| == |m|
    decreases |t|
  {
    match NextOpen(m)
    case None => []
    case Some(next) => TuplesFrom(t[|t| - |next|..], next)
  }

  ghost predicate AllOf(columns: nat, tuples: seq<string>) {
    forall i :: 0 <= i < |tuples| ==> |TopLevelParts(tuples[i])| == columns
  }

  lemma AllOfMore(columns: nat, tuple: string, rest: seq<string>)
    ensures AllOf(columns, [tuple] + rest) <==> TupleEntry(columns, tuple) == [] && AllOf(columns, rest)
  {
    hide TopLevelParts;
    assert ([tuple] + rest)[0] == tuple;
    assert forall i :: 0 <= i < |rest| ==> ([tuple] + rest)[i + 1] == rest[i];
  }

  lemma {:induction false} NoEntries(columns: nat, t: string, m: string)
    requires |t| == |m|
    ensures TupleReports(columns, t, m) == [] <==> AllOf(columns, TuplesFrom(t, m))
    decreases |t|
  {
    hide AllOf, TupleEntry, TupleText, NextOpen;
    if m == "" || m[0] != '(' || TupleText(t, m).None? {
      NoneIsAllOf(columns);
    } else {
      var tuple := TupleText(t, m).value;
      NoLaterEntries(columns, t[|tuple| + 2..], m[|tuple| + 2..]);
      AllOfMore(columns, tuple, LaterTuples(t[|tuple| + 2..], m[|tuple| + 2..]));
    }
  }

  lemma {:induction false} NoLaterEntries(columns: nat, t: string, m: string)
    requires |t| == |m|
    ensures LaterReports(columns, t, m) == [] <==> AllOf(columns, LaterTuples(t, m))
    decreases |t|
  {
    hide AllOf, TupleReports, TuplesFrom;
    var next := NextOpen(m);
    if next.None? {
      NoneIsAllOf(columns);
    } else {
      NoEntries(columns, t[|t| - |next.value|..], next.value);
    }
  }

  lemma NoneIsAllOf(columns: nat)
    ensures AllOf(columns, [])
  {
  }

  // A header starts at the head of `m`, and some tuple behind it has another number of parts than its
  // columns.
  ghost predicate WrongHere(t: string, m: string)
    requires |t| == |m|
  {
    HeaderAt(m).Some? &&
    var h := HeaderAt(m).value;
    HeaderBody(m);
    var at := |t| - |h.body| - 1;
    !AllOf(|TopLevelParts(h.columns)|, TuplesFrom(t[at..], m[at..]))
  }

  ghost predicate WrongAt(t: string, m: string, k: nat)
    requires |t| == |m|
  {
    k < |m| && WrongHere(t[k..], m[k..])
  }

  lemma NothingHere(t: string, m: string)
    requires |t| == |m|
    ensures ReportsHere(t, m) == [] <==> !WrongHere(t, m)
  {
    hide AllOf, TuplesFrom, TupleReports, TopLevelParts, HeaderAt;
    if HeaderAt(m).Some? {
      var h := HeaderAt(m).value;
      HeaderBody(m);
      var at := |t| - |h.body| - 1;
      NoEntries(|TopLevelParts(h.columns)|, t[at..], m[at..]);
    }
  }

  lemma WrongBehind(t: string, m: string, k: nat)
    requires |t| == |m| > 0
    ensures WrongAt(t, m, k + 1) <==> WrongAt(t[1..], m[1..], k)
    ensures WrongAt(t, m, 0) <==> WrongHere(t, m)
  {
    hide WrongHere;
    assert t[0..] == t && m[0..] == m;
    if k + 1 < |m| {
      assert t[1..][k..] == t[k + 1..] && m[1..][k..] == m[k + 1..];
    }
  }

  // Nothing is reported exactly where no header, wherever it starts, has a wrong tuple behind it.
  lemma {:induction false} NothingReportedExactly(t: string, m: string)
    requires |t| == |m|
    ensures AllReports(t, m) == [] <==> forall k: nat :: !WrongAt(t, m, k)
  {
    hide WrongAt, WrongHere, ReportsHere;
    if m == "" {
      NothingWrong(t, m);
    } else {
      NothingReportedExactly(t[1..], m[1..]);
      NothingHere(t, m);
      WrongBehind(t, m, 0);
      forall k: nat
        ensures WrongAt(t, m, k + 1) <==> WrongAt(t[1..], m[1..], k)
        ensures WrongAt(t, m, 0) <==> WrongHere(t, m)
      {
        WrongBehind(t, m, k);
      }
      assert forall k: nat :: k == 0 || WrongAt(t, m, k) == WrongAt(t, m, (k - 1) + 1);
      if exists k: nat :: WrongAt(t, m, k) {
        var k: nat :| WrongAt(t, m, k);
        assert k == 0 || WrongAt(t[1..], m[1..], k - 1);
      }
    }
  }

  lemma NothingWrong(t: string, m: string)
    requires |t| == |m| == 0
    ensures forall k: nat :: !WrongAt(t, m, k)
  {
  }

  lemma {:induction false} ScanFindsNothingExactly(t: string, m: string)
    requires |t| == |m|
    ensures HeaderReports(t, m) == [] <==> forall k: nat :: !WrongAt(t, m, k)
  {
    hide *;
    EveryHeaderCounts(t, m);
    NothingReportedExactly(t, m);
  }

  // The check passes a text, whatever it is, exactly if no header in it has a wrong tuple behind it.
  lemma PassesExactly(sql: string)
    ensures ArityReport(sql) == [] <==> forall k: nat :: !WrongAt(sql, Mask(sql), k)
  {
    ScanFindsNothingExactly(sql, Mask(sql));
  }

  // ---------------------------------------------------- the scan of a later part

  ghost predicate EndsWith(all: seq<Mismatch>, last: seq<Mismatch>) {
    |last| <= |all| && all[|all| - |last|..] == last
  }

  // Wherever a text is cut, the report on it ends with the report on its later part.
  lemma {:induction false} ScanGoesOn(t: string, m: string, n: nat)
    requires n <= |t| == |m|
    ensures EndsWith(HeaderReports(t, m), HeaderReports(t[n..], m[n..]))
  {
    hide HeaderReports, ReportsHere;
    EveryHeaderCounts(t, m);
    if n == 0 {
      assert t[0..] == t && m[0..] == m;
    } else {
      EveryHeaderCounts(t[1..], m[1..]);
      ScanGoesOn(t[1..], m[1..], n - 1);
      assert t[1..][n - 1..] == t[n..] && m[1..][n - 1..] == m[n..];
      EndsWithMore(ReportsHere(t, m), AllReports(t[1..], m[1..]), HeaderReports(t[n..], m[n..]));
    }
  }

  lemma EndsWithMore(front: seq<Mismatch>, all: seq<Mismatch>, last: seq<Mismatch>)
    requires EndsWith(all, last)
    ensures EndsWith(front + all, last)
  {
    assert (front + all)[|front + all| - |last|..] == all[|all| - |last|..];
  }
}
