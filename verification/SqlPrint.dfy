// A printer of INSERT statements in every layout, the statements that it makes sense for, and how each
// helper of scripts/ci/check-sql-interpolation-safety.ts reads back one list of what was printed: its
// masked text, its parts, the tuple that a parenthesis opens, and the report on a whole list of tuples.
module SqlPrint {
  import opened Options
  import opened SqlLexer
  import opened SqlMaskLaws
  import opened SqlArity

  // ------------------------------------------------------------------- statements

  // OR and its conflict word, with the text after each.
  datatype Clause = Clause(word: string, afterWord: string, conflict: string, afterConflict: string)

  // A tuple, with the text between it and its comma and between that comma and the next tuple.
  datatype Row = Row(items: seq<string>, after: string, next: string)

  // The words of a statement as they are written, and the text in every gap between them.
  datatype Insert = Insert(
    verb: string, afterVerb: string, clause: Option<Clause>, into: string, afterInto: string, table: string,
    beforeColumns: string, columns: seq<string>, beforeValues: string, values: string, beforeRows: string, rows: seq<Row>)

  function Joined(items: seq<string>): string {
    if items == [] then "" else if |items| == 1 then items[0] else items[0] + ("," + Joined(items[1..]))
  }

  function Parenthesised(items: seq<string>): string {
    "(" + Joined(items) + ")"
  }

  // A tuple and what goes before the next one.
  function RowText(row: Row, rest: string): string {
    Parenthesised(row.items) + (row.after + ("," + (row.next + rest)))
  }

  function RowsText(rows: seq<Row>): string {
    if rows == [] then ""
    else if |rows| == 1 then Parenthesised(rows[0].items)
    else RowText(rows[0], RowsText(rows[1..]))
  }

  function ClauseText(c: Option<Clause>): string {
    match c
    case None => ""
    case Some(clause) => clause.word + (clause.afterWord + (clause.conflict + clause.afterConflict))
  }

  // INSERT [OR conflict] INTO table (columns) VALUES values
  function AfterColumns(s: Insert, values: string): string {
    ")" + (s.beforeValues + (s.values + (s.beforeRows + values)))
  }

  function TargetAs(s: Insert, columns: string, values: string): string {
    s.into + (s.afterInto + (s.table + (s.beforeColumns + ("(" + (columns + AfterColumns(s, values))))))
  }

  function PrintAs(s: Insert, columns: string, values: string): string {
    s.verb + (s.afterVerb + (ClauseText(s.clause) + TargetAs(s, columns, values)))
  }

  function Print(s: Insert): string {
    PrintAs(s, Joined(s.columns), RowsText(s.rows))
  }

  // ------------------------------------------------------------ well-formed items

  // Read from depth `d`, the text closes every parenthesis it opens and no other.
  predicate Balanced(m: string, d: nat) {
    if m == "" then d == 0
    else (m[0] == ')' ==> d > 0) && Balanced(m[1..], d + Change(m[0]))
  }

  // Moreover no comma stands outside all of them.
  predicate Enclosed(m: string, d: nat) {
    if m == "" then d == 0
    else (m[0] == ',' || m[0] == ')' ==> d > 0) && Enclosed(m[1..], d + Change(m[0]))
  }

  predicate ParenFree(m: string) {
    m == "" || (m[0] != '(' && m[0] != ')' && ParenFree(m[1..]))
  }

  // What stands between two commas, a value or nothing, with the white space and comments around it:
  // its tokens are finished, and outside its quotes and comments it is balanced and has no comma at the
  // top.
  ghost predicate IsItem(s: string) {
    Settled(s) && Enclosed(Mask(s), 0)
  }

  // It counts as a value if it holds more than white space and comments.
  predicate Counts(s: string) {
    exists i :: 0 <= i < |s| && !IsSpace(Mask(s)[i])
  }

  function Count(items: seq<string>): nat {
    if items == [] then 0 else (if Counts(items[0]) then 1 else 0) + Count(items[1..])
  }

  ghost predicate IsColumn(s: string) {
    IsItem(s) && ParenFree(Mask(s))
  }

  ghost predicate AllItems(items: seq<string>) {
    items == [] || (IsItem(items[0]) && AllItems(items[1..]))
  }

  ghost predicate AllColumns(items: seq<string>) {
    items == [] || (IsColumn(items[0]) && AllColumns(items[1..]))
  }

  predicate AllWord(w: string) {
    w == "" || (IsWord(w[0]) && AllWord(w[1..]))
  }

  // ------------------------------------------------------------- words and gaps

  // A letter in either case, given its capital, and a word written in any case.
  predicate SameLetter(c: char, capital: char) {
    c == capital || ('A' <= capital <= 'Z' && c as int == capital as int + 32)
  }

  predicate IsKeyword(w: string, keyword: string) {
    |w| == |keyword| && forall i :: 0 <= i < |w| ==> SameLetter(w[i], keyword[i])
  }

  lemma InAnyCase(w: string, keyword: string)
    requires |w| == |keyword| && AllUpper(keyword)
    ensures IsKeyword(w, keyword) <==> forall i :: 0 <= i < |w| ==> Upper(w[i]) == keyword[i]
    ensures IsKeyword(w, keyword) ==> forall i :: 0 <= i < |w| ==> 'A' <= Upper(w[i]) <= 'Z'
  {
    forall i | 0 <= i < |w|
      ensures SameLetter(w[i], keyword[i]) <==> Upper(w[i]) == keyword[i]
    {
    }
    hide SameLetter, Upper;
  }

  predicate IsConflict(w: string) {
    IsKeyword(w, "IGNORE") || IsKeyword(w, "REPLACE") || IsKeyword(w, "ABORT") || IsKeyword(w, "FAIL") || IsKeyword(w, "ROLLBACK")
  }

  // The words of a header.
  predicate Worded(s: Insert) {
    && IsKeyword(s.verb, "INSERT") && IsKeyword(s.into, "INTO") && IsKeyword(s.values, "VALUES")
    && s.table != "" && AllWord(s.table)
    && (s.clause.Some? ==> IsKeyword(s.clause.value.word, "OR") && IsConflict(s.clause.value.conflict))
  }

  // A gap holds white space and finished comments, in any number; one between two words is not empty.
  ghost predicate IsGap(g: string) {
    Settled(g) && AllSpace(Mask(g))
  }

  ghost predicate Spread(s: Insert) {
    && IsGap(s.afterVerb) && s.afterVerb != "" && IsGap(s.afterInto) && s.afterInto != ""
    && IsGap(s.beforeColumns) && IsGap(s.beforeValues) && IsGap(s.beforeRows)
    && (s.clause.Some? ==>
          && IsGap(s.clause.value.afterWord) && s.clause.value.afterWord != ""
          && IsGap(s.clause.value.afterConflict) && s.clause.value.afterConflict != "")
  }

  ghost predicate IsRow(row: Row) {
    AllItems(row.items) && IsGap(row.after) && IsGap(row.next)
  }

  ghost predicate AllRows(rows: seq<Row>) {
    rows == [] || (IsRow(rows[0]) && AllRows(rows[1..]))
  }

  ghost predicate WellFormed(s: Insert) {
    Worded(s) && Spread(s) && AllColumns(s.columns) && s.rows != [] && AllRows(s.rows)
  }

  // What the check should report.
  function Expected(columns: nat, rows: seq<Row>): seq<Mismatch> {
    if rows == [] then []
    else
      var values := Count(rows[0].items);
      (if columns == values then [] else [Mismatch(columns, values)]) + Expected(columns, rows[1..])
  }

  // -------------------------------------------------------------- masking the print

  // A character that no token starts with, whatever follows.
  predicate Inert(c: char) {
    !IsDelimiter(c) && c != '[' && c != '-' && c != '/'
  }

  predicate AllInert(p: string) {
    forall i :: 0 <= i < |p| ==> Inert(p[i])
  }

  lemma {:induction false} InertHead(c: char, r: string)
    requires Inert(c)
    ensures Mask([c] + r) == [c] + Mask(r)
    ensures Settled(r) ==> Settled([c] + r)
  {
    hide Mask, UpTo, BlockEnd, QuoteEnd;
    var t := [c] + r;
    assert OpeningOf(t) == NoOpening && StepLength(t) == 1 && t[1..] == r && t[..1] == [c];
    MaskStep(t);
    assert Masked([c], StepKinds(t)) == [c];
  }

  lemma {:induction false} InertPrefix(p: string, r: string)
    requires AllInert(p)
    ensures Mask(p + r) == p + Mask(r)
    ensures Settled(r) ==> Settled(p + r)
  {
    if p == "" {
      assert p + r == r && p + Mask(r) == Mask(r);
    } else {
      hide Mask, Settled;
      var head, tail := [p[0]], p[1..];
      InertPrefix(tail, r);
      InertHead(p[0], tail + r);
      assert p == head + tail;
      ConcatAssociates(head, tail, r);
      ConcatAssociates(head, tail, Mask(r));
    }
  }

  function MaskAll(items: seq<string>): (r: seq<string>)
    ensures |r| == |items|
  {
    if items == [] then [] else [Mask(items[0])] + MaskAll(items[1..])
  }

  lemma {:induction false} JoinedStep(items: seq<string>)
    requires |items| > 1
    ensures Joined(items) == items[0] + ("," + Joined(items[1..]))
  {
  }

  lemma {:induction false} MaskBeforeComma(s: string, r: string)
    requires Settled(s)
    ensures Mask(s + ("," + r)) == Mask(s) + ("," + Mask(r))
    ensures Settled(r) ==> Settled(s + ("," + r))
  {
    hide Mask, Settled;
    InertPrefix(",", r);
    MaskAppend(s, "," + r);
    if Settled(r) {
      SettledAppend(s, "," + r);
    }
  }

  lemma {:induction false} MaskJoined(items: seq<string>)
    requires AllItems(items)
    ensures Mask(Joined(items)) == Joined(MaskAll(items)) && Settled(Joined(items))
  {
    if |items| > 1 {
      hide Mask, Settled, Joined, Enclosed, Blank;
      var rest := Joined(items[1..]);
      MaskJoined(items[1..]);
      JoinedStep(items);
      assert MaskAll(items)[1..] == MaskAll(items[1..]);
      JoinedStep(MaskAll(items));
      MaskBeforeComma(items[0], rest);
    } else if |items| == 1 {
      assert MaskAll(items) == [Mask(items[0])];
    }
  }

  lemma {:induction false} MaskParenthesised(items: seq<string>, r: string)
    requires AllItems(items)
    ensures Mask(Parenthesised(items) + r) == Parenthesised(MaskAll(items)) + Mask(r)
    ensures Settled(r) ==> Settled(Parenthesised(items) + r)
  {
    hide Mask, Settled, AllItems, Joined;
    var j := Joined(items);
    MaskJoined(items);
    InertPrefix(")", r);
    MaskAppend(j, ")" + r);
    if Settled(r) {
      SettledAppend(j, ")" + r);
    }
    InertPrefix("(", j + (")" + r));
    assert Parenthesised(items) + r == "(" + (j + (")" + r));
    assert Parenthesised(MaskAll(items)) + Mask(r) == "(" + (Joined(MaskAll(items)) + (")" + Mask(r)));
  }

  lemma {:induction false} MaskGap(g: string, r: string)
    requires IsGap(g) && Separates(r)
    ensures Mask(g + r) == Mask(g) + Mask(r)
    ensures Settled(r) ==> Settled(g + r)
  {
    MaskAppend(g, r);
    if Settled(r) {
      SettledAppend(g, r);
    }
  }

  function MaskedRow(row: Row): Row {
    Row(MaskAll(row.items), Mask(row.after), Mask(row.next))
  }

  function MaskedRows(rows: seq<Row>): (r: seq<Row>)
    ensures |r| == |rows|
  {
    if rows == [] then [] else [MaskedRow(rows[0])] + MaskedRows(rows[1..])
  }

  lemma {:induction false} RowsStep(rows: seq<Row>)
    requires rows != []
    ensures MaskedRows(rows)[0] == MaskedRow(rows[0]) && MaskedRows(rows)[1..] == MaskedRows(rows[1..])
    ensures |rows| == 1 ==> RowsText(rows) == Parenthesised(rows[0].items)
    ensures |rows| > 1 ==> RowsText(rows) == RowText(rows[0], RowsText(rows[1..]))
  {
    hide Parenthesised, RowText, MaskedRow;
  }

  lemma {:induction false} RowsOpen(rows: seq<Row>)
    requires rows != []
    ensures RowsText(rows) != "" && RowsText(rows)[0] == '(' && Separates(RowsText(rows))
  {
    hide Joined;
  }

  lemma CommaIsInert()
    ensures AllInert(",")
  {
  }

  lemma {:induction false} MaskRow(row: Row, rest: string)
    requires IsRow(row) && Separates(rest)
    ensures Mask(RowText(row, rest)) == RowText(MaskedRow(row), Mask(rest))
    ensures Settled(rest) ==> Settled(RowText(row, rest))
  {
    CommaIsInert();
    hide Mask, Settled, AllItems, Joined, Parenthesised, MaskAll, AllInert, IsGap;
    var a := row.next + rest;
    var b := row.after + ("," + a);
    MaskGap(row.next, rest);
    InertPrefix(",", a);
    MaskGap(row.after, "," + a);
    MaskParenthesised(row.items, b);
  }

  lemma {:induction false} MaskRows(rows: seq<Row>)
    requires AllRows(rows)
    ensures Mask(RowsText(rows)) == RowsText(MaskedRows(rows))
    ensures Settled(RowsText(rows))
  {
    if rows != [] {
      hide Mask, Settled, IsRow, Joined, Parenthesised, RowsText, RowText, MaskedRow, MaskedRows, MaskAll;
      RowsStep(rows);
      RowsStep(MaskedRows(rows));
      if |rows| > 1 {
        MaskRows(rows[1..]);
        RowsOpen(rows[1..]);
        MaskRow(rows[0], RowsText(rows[1..]));
      } else {
        MaskOneRow(rows[0]);
      }
    }
  }

  lemma MaskOneRow(row: Row)
    requires IsRow(row)
    ensures Mask(Parenthesised(row.items)) == Parenthesised(MaskedRow(row).items) && Settled(Parenthesised(row.items))
  {
    MaskNothing();
    hide Mask, Settled, Joined, AllItems, MaskAll, IsGap;
    MaskParenthesised(row.items, "");
    var text, mask := Parenthesised(row.items), Parenthesised(MaskAll(row.items));
    assert text + "" == text && mask + "" == mask;
  }

  lemma MaskNothing()
    ensures Mask("") == "" && Settled("")
  {
  }

  // ------------------------------------------------------------- counting the parts

  // A printed list has one part even where it is empty.
  function Parts(items: seq<string>): seq<string> {
    if items == [] then [""] else items
  }

  lemma CutStep(t: string, m: string, depth: int)
    requires |t| == |m| > 0
    ensures m[0] == ',' && depth == 0 ==> Cut(t, m, depth) == [""] + Cut(t[1..], m[1..], 0)
    ensures !(m[0] == ',' && depth == 0) ==> Cut(t, m, depth) == Prefixed(t[0], Cut(t[1..], m[1..], depth + Change(m[0])))
  {
  }

  lemma PrefixedFirst(s: string, parts: seq<string>)
    requires s != ""
    ensures Prefixed(s[0], [s[1..]] + parts) == [s] + parts
  {
    assert [s[0]] + s[1..] == s;
    assert ([s[1..]] + parts)[1..] == parts;
  }

  lemma TailOfConcat<T>(a: seq<T>, b: seq<T>)
    requires a != []
    ensures (a + b)[0] == a[0] && (a + b)[1..] == a[1..] + b
  {
  }

  // An enclosed item is one part, and a comma after it ends that part.
  lemma {:induction false} CutItem(s: string, m: string, d: nat, t: string, n: string)
    requires |s| == |m| && |t| == |n| && Enclosed(m, d)
    ensures Cut(s + ("," + t), m + ("," + n), d) == [s] + Cut(t, n, 0)
    ensures Cut(s, m, d) == [s]
  {
    var st, mn := s + ("," + t), m + ("," + n);
    if s == "" {
      assert st == "," + t && mn == "," + n;
      hide *;
      assert st[1..] == t && mn[1..] == n;
      CutStep(st, mn, 0);
    } else {
      assert d + Change(m[0]) >= 0 && Enclosed(m[1..], d + Change(m[0])) && !(m[0] == ',' && d == 0);
      hide *;
      CutItem(s[1..], m[1..], d + Change(m[0]), t, n);
      TailOfConcat(s, "," + t);
      TailOfConcat(m, "," + n);
      CutStep(st, mn, d);
      CutStep(s, m, d);
      PrefixedFirst(s, Cut(t, n, 0));
      PrefixedFirst(s, []);
      assert [s[1..]] + [] == [s[1..]] && [s] + [] == [s];
    }
  }

  // The masked items of the rest of the list are the rest of the masked items.
  lemma {:induction false} MaskAllTail(items: seq<string>)
    requires items != []
    ensures MaskAll(items)[0] == Mask(items[0]) && MaskAll(items)[1..] == MaskAll(items[1..])
  {
  }

  lemma {:induction false} JoinedOne(items: seq<string>)
    requires |items| == 1
    ensures Joined(items) == items[0]
  {
  }

  lemma {:induction false} CutJoined(items: seq<string>)
    requires AllItems(items)
    ensures |Joined(items)| == |Joined(MaskAll(items))|
    ensures Cut(Joined(items), Joined(MaskAll(items)), 0) == Parts(items)
  {
    hide Enclosed, Mask, Settled, Blank;
    MaskJoined(items);
    if items != [] {
      hide Cut, Joined, MaskAll;
      MaskAllTail(items);
      if |items| == 1 {
        JoinedOne(items);
        JoinedOne(MaskAll(items));
        CutItem(items[0], Mask(items[0]), 0, "", "");
      } else {
        CutJoined(items[1..]);
        JoinedStep(items);
        JoinedStep(MaskAll(items));
        CutItem(items[0], Mask(items[0]), 0, Joined(items[1..]), Joined(MaskAll(items[1..])));
      }
    }
  }

  lemma {:induction false} AllSpaceMeans(m: string)
    ensures AllSpace(m) <==> forall i :: 0 <= i < |m| ==> IsSpace(m[i])
  {
    if m != "" {
      AllSpaceMeans(m[1..]);
      assert forall i :: 0 < i < |m| ==> m[i] == m[1..][i - 1];
    }
  }

  lemma BlankExactly(s: string)
    ensures Blank(s) <==> !Counts(s)
  {
    hide Mask;
    AllSpaceMeans(Mask(s));
  }

  lemma {:induction false} KeptCounted(items: seq<string>)
    ensures |NonBlank(items)| == Count(items)
  {
    if items != [] {
      hide Blank, Counts;
      KeptCounted(items[1..]);
      BlankExactly(items[0]);
    }
  }

  lemma NothingCounts()
    ensures !Counts("") && |NonBlank([""])| == 0
  {
    KeptCounted([""]);
    assert [""][1..] == [];
  }

  // The top-level parts of a printed list are its items that count.
  lemma {:induction false} PartsCounted(items: seq<string>)
    requires AllItems(items)
    ensures |TopLevelParts(Joined(items))| == Count(items)
  {
    hide Counts, Enclosed, Settled, Mask, Cut, Joined, Blank;
    MaskJoined(items);
    CutJoined(items);
    KeptCounted(items);
    NothingCounts();
  }

  lemma {:induction false} MaskSettled(s: string)
    requires Settled(s)
    ensures Settled(Mask(s))
    decreases |s|
  {
    if s == "" {
      assert Mask(s) == "";
    } else {
      var n := StepLength(s);
      SettledStep(s);
      hide *;
      MaskSettled(s[n..]);
      MaskStep(s);
      SettledMore(s, Mask(s[n..]));
    }
  }

  lemma MaskFades(s: string)
    ensures forall i :: 0 <= i < |s| ==> Mask(s)[i] == s[i] || Mask(s)[i] == ' ' || Mask(s)[i] == 'x'
  {
    hide Kinds;
  }

  lemma FadedOpening(s: string, m: string)
    requires OpeningOf(s).NoOpening? && |m| == |s| > 0 && m[0] == s[0]
    requires forall i :: 0 <= i < |s| ==> m[i] == s[i] || m[i] == ' ' || m[i] == 'x'
    ensures OpeningOf(m).NoOpening?
  {
  }

  // A masked step in front of settled text.
  lemma {:induction false} SettledMore(s: string, rest: string)
    requires s != "" && Settled(rest) && (TokenLength(s) == 0 ==> OpeningOf(s).NoOpening?)
    requires Mask(s) == Masked(s[..StepLength(s)], StepKinds(s)) + rest
    ensures Settled(Mask(s))
  {
    hide Kinds, Mask, Settled, OpeningOf, TokenLength;
    var fill := Masked(s[..StepLength(s)], StepKinds(s));
    if TokenLength(s) == 0 {
      assert fill == [s[0]];
      assert (fill + rest)[0] == s[0] && (fill + rest)[1..] == rest;
      MaskFades(s);
      FadedOpening(s, Mask(s));
      SettledPlain(Mask(s));
    } else {
      FillIsInert(s);
      InertPrefix(fill, rest);
    }
  }

  lemma FillIsInert(s: string)
    requires s != "" && TokenLength(s) > 0
    ensures AllInert(Masked(s[..StepLength(s)], StepKinds(s)))
  {
    hide OpeningOf, TokenLength;
  }

  lemma {:induction false} SettledPlain(m: string)
    requires m != "" && OpeningOf(m).NoOpening? && Settled(m[1..])
    ensures Settled(m)
  {
  }

  lemma MaskedItem(s: string)
    requires IsItem(s)
    ensures IsItem(Mask(s))
  {
    hide Mask, Settled, Enclosed;
    MaskIdempotent(s);
    MaskSettled(s);
  }

  lemma {:induction false} MaskedItems(items: seq<string>)
    requires AllItems(items)
    ensures AllItems(MaskAll(items))
  {
    if items != [] {
      hide Mask, IsItem;
      MaskedItem(items[0]);
      MaskedItems(items[1..]);
      assert MaskAll(items)[1..] == MaskAll(items[1..]);
    }
  }

  lemma {:induction false} MaskedCount(items: seq<string>)
    ensures Count(MaskAll(items)) == Count(items)
  {
    if items != [] {
      MaskIdempotent(items[0]);
      assert Counts(Mask(items[0])) <==> Counts(items[0]);
      MaskedCount(items[1..]);
      MaskAllTail(items);
      hide Mask, Counts;
    }
  }

  // The column list is counted on its masked text, with the same result.
  lemma {:induction false} MaskedPartsCounted(items: seq<string>)
    requires AllItems(items)
    ensures |TopLevelParts(Joined(MaskAll(items)))| == Count(items)
  {
    hide TopLevelParts, Joined, IsItem, Mask, Counts;
    MaskedItems(items);
    MaskedCount(items);
    PartsCounted(MaskAll(items));
  }

  // -------------------------------------------------------------- reading the tuples

  lemma {:induction false} EnclosedBalanced(m: string, d: nat)
    requires Enclosed(m, d)
    ensures Balanced(m, d)
  {
    if m != "" {
      EnclosedBalanced(m[1..], d + Change(m[0]));
    }
  }

  lemma {:induction false} BalancedAppend(a: string, d: nat, b: string)
    requires Balanced(a, d) && Balanced(b, 0)
    ensures Balanced(a + b, d)
  {
    if a == "" {
      assert a + b == b;
    } else {
      BalancedAppend(a[1..], d + Change(a[0]), b);
      assert (a + b)[1..] == a[1..] + b;
    }
  }

  lemma {:induction false} BalancedComma(m: string)
    requires Balanced(m, 0)
    ensures Balanced("," + m, 0)
  {
    assert ("," + m)[1..] == m;
  }

  lemma {:induction false} BalancedJoined(items: seq<string>)
    requires AllItems(items)
    ensures Balanced(Joined(MaskAll(items)), 0)
  {
    if items != [] {
      hide Mask, Settled, Blank, Enclosed, Joined, MaskAll, Balanced;
      EnclosedBalanced(Mask(items[0]), 0);
      MaskAllTail(items);
      BalancedJoined(items[1..]);
      var rest := Joined(MaskAll(items[1..]));
      if |items| == 1 {
        JoinedOne(MaskAll(items));
      } else {
        JoinedStep(MaskAll(items));
        BalancedComma(rest);
        BalancedAppend(Mask(items[0]), 0, "," + rest);
      }
    }
  }

  // The parenthesis after a balanced text closes the one before it.
  lemma {:induction false} ClosesBalanced(m: string, d: nat, r: string)
    requires Balanced(m, d)
    ensures CloseOffset(m + (")" + r), d + 1) == Some(|m|)
  {
    var t := m + (")" + r);
    if m != "" {
      ClosesBalanced(m[1..], d + Change(m[0]), r);
      assert t[1..] == m[1..] + (")" + r);
    }
  }

  lemma {:induction false} PrintedTupleText(j: string, mj: string, r: string, mr: string)
    requires |j| == |mj| && |r| == |mr| && Balanced(mj, 0)
    ensures TupleText("(" + j + ")" + r, "(" + mj + ")" + mr) == Some(j)
  {
    var m := "(" + mj + ")" + mr;
    ClosesBalanced(mj, 0, mr);
    hide Balanced;
    assert m[1..] == mj + (")" + mr);
    assert CloseOffset(m, 0) == Some(|mj| + 1);
    assert ("(" + j + ")" + r)[1..|mj| + 1] == j;
  }

  // White space in front of other text is skipped.
  lemma {:induction false} SkipHere(g: string, r: string)
    requires AllSpace(g) && (r == "" || !IsSpace(r[0]))
    ensures SkipSpaces(g + r) == r
    ensures g != "" ==> Spaces(g + r) == Some(r)
  {
    if g == "" {
      assert g + r == r;
    } else {
      TailOfConcat(g, r);
      SkipHere(g[1..], r);
      hide Suffix;
    }
  }

  lemma {:induction false} NextOpenIs(m: string, r: string, open: string)
    requires SkipSpaces(m) == "," + r && SkipSpaces(r) == open && open != "" && open[0] == '('
    ensures NextOpen(m) == Some(open)
  {
    assert ("," + r)[1..] == r;
    assert Symbol("," + r, ',') == Some(r);
    hide SkipSpaces, Symbol, Suffix;
  }

  lemma {:induction false} NextOpenHere(g: string, h: string, r: string)
    requires AllSpace(g) && AllSpace(h) && r != "" && r[0] == '('
    ensures NextOpen(g + ("," + (h + r))) == Some(r)
  {
    SeparatorsAreNoSpace();
    hide *;
    SkipHere(g, "," + (h + r));
    SkipHere(h, r);
    NextOpenIs(g + ("," + (h + r)), h + r, r);
  }

  lemma SeparatorsAreNoSpace()
    ensures !IsSpace('(') && !IsSpace(',')
  {
  }

  lemma {:induction false} ReportOne(columns: nat, items: seq<string>, r: string, mr: string)
    requires AllItems(items) && |r| == |mr|
    ensures |Parenthesised(items)| == |Parenthesised(MaskAll(items))|
    ensures TupleReports(columns, Parenthesised(items) + r, Parenthesised(MaskAll(items)) + mr)
      == (if columns == Count(items) then [] else [Mismatch(columns, Count(items))]) + LaterReports(columns, r, mr)
  {
    hide Mask, Settled, Blank, Enclosed, Joined, MaskAll, LaterReports, TopLevelParts, TupleText, TupleReports, AllItems;
    var j, mj := Joined(items), Joined(MaskAll(items));
    CutJoined(items);
    BalancedJoined(items);
    PrintedTupleText(j, mj, r, mr);
    PartsCounted(items);
    var t, m := "(" + j + ")" + r, "(" + mj + ")" + mr;
    TupleReportsStep(columns, t, m);
    assert t[|j| + 2..] == r && m[|j| + 2..] == mr;
  }

  // The list of tuples is read to its end; `r` does not continue it.
  lemma {:induction false} ReportAll(columns: nat, rows: seq<Row>, r: string, mr: string)
    requires rows != [] && AllRows(rows) && |r| == |mr| && NextOpen(mr).None?
    ensures |RowsText(rows)| == |RowsText(MaskedRows(rows))|
    ensures TupleReports(columns, RowsText(rows) + r, RowsText(MaskedRows(rows)) + mr) == Expected(columns, rows)
  {
    hide Mask, AllItems, Joined, Parenthesised, RowsText, RowText, MaskedRow, MaskedRows, TupleReports, LaterReports, NextOpen,
      IsGap, Settled, MaskAll;
    RowsStep(rows);
    RowsStep(MaskedRows(rows));
    MaskRows(rows);
    if |rows| == 1 {
      MaskedRowIs(rows[0]);
      ReportOne(columns, rows[0].items, r, mr);
      NothingLater(columns, r, mr);
    } else {
      ReportAll(columns, rows[1..], r, mr);
      RowsOpen(MaskedRows(rows[1..]));
      ReportRow(columns, rows[0], RowsText(rows[1..]), RowsText(MaskedRows(rows[1..])), r, mr);
    }
  }

  lemma MaskedRowIs(row: Row)
    ensures MaskedRow(row).items == MaskAll(row.items)
    ensures MaskedRow(row).after == Mask(row.after) && MaskedRow(row).next == Mask(row.next)
  {
  }

  lemma RowTextIs(row: Row, rest: string, r: string)
    ensures RowText(row, rest) + r == Parenthesised(row.items) + (row.after + ("," + (row.next + (rest + r))))
  {
    hide Parenthesised;
    var p := Parenthesised(row.items);
    ConcatAssociates(row.next, rest, r);
    ConcatAssociates(",", row.next + rest, r);
    ConcatAssociates(row.after, "," + (row.next + rest), r);
    ConcatAssociates(p, row.after + ("," + (row.next + rest)), r);
  }

  lemma RowLengths(row: Row, rest: string, mrest: string)
    requires IsRow(row) && |rest| == |mrest|
    ensures |RowText(row, rest)| == |RowText(MaskedRow(row), mrest)|
    ensures AllItems(row.items) && AllSpace(Mask(row.after)) && AllSpace(Mask(row.next))
  {
    CutJoined(row.items);
    hide Mask, AllItems, Joined, MaskAll, Settled, AllSpace;
  }

  // One tuple of several.
  lemma {:induction false} ReportRow(columns: nat, row: Row, rest: string, mrest: string, r: string, mr: string)
    requires IsRow(row) && |rest| == |mrest| && |r| == |mr| && mrest != "" && mrest[0] == '('
    ensures |RowText(row, rest) + r| == |RowText(MaskedRow(row), mrest) + mr|
    ensures TupleReports(columns, RowText(row, rest) + r, RowText(MaskedRow(row), mrest) + mr)
      == (if columns == Count(row.items) then [] else [Mismatch(columns, Count(row.items))]) + TupleReports(columns, rest + r, mrest + mr)
  {
    hide *;
    RowLengths(row, rest, mrest);
    MaskedRowIs(row);
    RowTextIs(row, rest, r);
    RowTextIs(MaskedRow(row), mrest, mr);
    var gap, g, h := row.after + ("," + row.next), Mask(row.after), Mask(row.next);
    var later, mlater := gap + (rest + r), g + ("," + (h + (mrest + mr)));
    GapRegroups(row.after, row.next, rest + r);
    ReportOne(columns, row.items, later, mlater);
    TailOfConcat(mrest, mr);
    NextOpenHere(g, h, mrest + mr);
    LaterHere(columns, gap, rest + r, mlater, mrest + mr);
  }

  lemma GapRegroups(a: string, b: string, c: string)
    ensures a + ("," + (b + c)) == a + ("," + b) + c
  {
  }

  lemma {:induction false} LaterHere(columns: nat, gap: string, r: string, m: string, mr: string)
    requires |m| == |gap + r| && |r| == |mr| && NextOpen(m) == Some(mr)
    ensures LaterReports(columns, gap + r, m) == TupleReports(columns, r, mr)
  {
    hide TupleReports, NextOpen;
    assert (gap + r)[|gap + r| - |mr|..] == r;
  }

  lemma {:induction false} NothingLater(columns: nat, r: string, mr: string)
    requires |r| == |mr| && NextOpen(mr).None?
    ensures LaterReports(columns, r, mr) == []
  {
    hide NextOpen, TupleReports;
  }
}
