// An INSERT in parentheses inside a value of another: wherever it stands outside quotes and comments,
// the arity check of scripts/ci/check-sql-interpolation-safety.ts reads it as a statement of its own
// and reports its wrong tuples along with those of the statement around it.
module SqlNestedInserts {
  import opened SqlLexer
  import opened SqlMaskLaws
  import opened SqlArity
  import opened SqlPrint
  import opened SqlHeaderMatch
  import opened SqlHeaderApart
  import opened SqlArityTheorem

  // --------------------------------------------------- where the statement stands

  // The text `s`, masked as `n`, stands at `at` in the text `t`, masked as `m`.
  predicate Stands(t: string, m: string, at: nat, s: string, n: string) {
    |t| == |m| && |s| == |n| && at + |s| <= |t| && t[at..at + |s|] == s && m[at..at + |s|] == n
  }

  lemma StandsIn(t: string, m: string, at: nat, s: string, n: string, k: nat, u: string, v: string)
    requires Stands(t, m, at, s, n) && Stands(s, n, k, u, v)
    ensures Stands(t, m, at + k, u, v)
  {
    SliceOfSlice(t, at, |s|, k, |u|);
    SliceOfSlice(m, at, |s|, k, |u|);
  }

  lemma SliceOfSlice(t: string, at: nat, n: nat, k: nat, l: nat)
    requires at + n <= |t| && k + l <= n
    ensures t[at..at + n][k..k + l] == t[at + k..at + k + l]
  {
    var a, b := t[at..at + n][k..k + l], t[at + k..at + k + l];
    assert forall i :: 0 <= i < l ==> a[i] == t[at..at + n][k + i] == b[i];
  }

  lemma StandsBetween(a: string, s: string, b: string, ma: string, n: string, mb: string)
    requires |a| == |ma| && |s| == |n| && |b| == |mb|
    ensures Stands(a + (s + b), ma + (n + mb), |a|, s, n)
  {
  }

  ghost predicate Alike(items: seq<string>, masks: seq<string>) {
    |items| == |masks| && forall i :: 0 <= i < |items| ==> |items[i]| == |masks[i]|
  }

  // Each item stands in the joined list.
  lemma {:induction false} StandsInJoined(items: seq<string>, masks: seq<string>, j: nat) returns (at: nat)
    requires Alike(items, masks) && j < |items|
    ensures Stands(Joined(items), Joined(masks), at, items[j], masks[j])
  {
    hide Joined, Stands;
    AlikeJoined(items, masks);
    if |items| == 1 {
      JoinedOne(items);
      JoinedOne(masks);
      at := 0;
      StandsAlone(items[0], masks[0]);
    } else {
      JoinedStep(items);
      JoinedStep(masks);
      var rest, more := Joined(items[1..]), Joined(masks[1..]);
      AlikeJoined(items[1..], masks[1..]);
      if j == 0 {
        at := 0;
        StandsBetween("", items[0], "," + rest, "", masks[0], "," + more);
        assert "" + (items[0] + ("," + rest)) == items[0] + ("," + rest);
        assert "" + (masks[0] + ("," + more)) == masks[0] + ("," + more);
      } else {
        var k := StandsInJoined(items[1..], masks[1..], j - 1);
        StandsBetween(items[0] + ",", rest, "", masks[0] + ",", more, "");
        assert items[0] + "," + (rest + "") == items[0] + ("," + rest);
        assert masks[0] + "," + (more + "") == masks[0] + ("," + more);
        at := |items[0] + ","| + k;
        StandsIn(Joined(items), Joined(masks), |items[0] + ","|, rest, more, k, items[j], masks[j]);
      }
    }
  }

  lemma StandsAlone(s: string, n: string)
    requires |s| == |n|
    ensures Stands(s, n, 0, s, n)
  {
  }

  lemma {:induction false} AlikeJoined(items: seq<string>, masks: seq<string>)
    requires Alike(items, masks)
    ensures |Joined(items)| == |Joined(masks)|
  {
    if |items| > 1 {
      AlikeJoined(items[1..], masks[1..]);
    }
  }

  lemma {:induction false} MaskAllAlike(items: seq<string>)
    ensures Alike(items, MaskAll(items)) && forall i :: 0 <= i < |items| ==> MaskAll(items)[i] == Mask(items[i])
  {
    hide Mask;
    if items != [] {
      MaskAllAlike(items[1..]);
    }
  }

  // The items of one row stand in it, and each row in the list of all.
  lemma ItemStands(items: seq<string>, j: nat) returns (at: nat)
    requires j < |items|
    ensures |Parenthesised(items)| == |Parenthesised(MaskAll(items))|
    ensures at > 0 && Stands(Parenthesised(items), Parenthesised(MaskAll(items)), at, items[j], Mask(items[j]))
  {
    hide MaskAll, Joined, Mask, Stands;
    var masks := MaskAll(items);
    MaskAllAlike(items);
    AlikeJoined(items, masks);
    StandsBetween("(", Joined(items), ")", "(", Joined(masks), ")");
    assert Parenthesised(items) == "(" + (Joined(items) + ")") && Parenthesised(masks) == "(" + (Joined(masks) + ")");
    var b := StandsInJoined(items, masks, j);
    StandsIn(Parenthesised(items), Parenthesised(masks), 1, Joined(items), Joined(masks), b, items[j], masks[j]);
    at := 1 + b;
  }

  lemma {:induction false} ParenthesisedAlike(items: seq<string>)
    ensures |Parenthesised(items)| == |Parenthesised(MaskAll(items))|
  {
    hide MaskAll, Joined, Mask;
    MaskAllAlike(items);
    AlikeJoined(items, MaskAll(items));
  }

  lemma StandsAhead(p: string, x: string, q: string, y: string)
    requires |p| == |q| && |x| == |y|
    ensures Stands(p + x, q + y, 0, p, q) && Stands(p + x, q + y, |p|, x, y)
  {
  }

  lemma StandsInThree(p: string, g: string, r: string, q: string, h: string, mr: string)
    requires |p| == |q| && |g| == |h| && |r| == |mr|
    ensures Stands(p + (g + r), q + (h + mr), 0, p, q) && Stands(p + (g + r), q + (h + mr), |p| + |g|, r, mr)
  {
    hide Stands;
    StandsAhead(p, g + r, q, h + mr);
    StandsAhead(p + g, r, q + h, mr);
    ConcatAssociates(p, g, r);
    ConcatAssociates(q, h, mr);
  }

  function GapText(row: Row): string {
    row.after + ("," + row.next)
  }

  lemma RowIs(row: Row, rest: string)
    ensures RowText(row, rest) == Parenthesised(row.items) + (GapText(row) + rest)
  {
    hide Parenthesised;
    GapRegroups(row.after, row.next, rest);
  }

  lemma RowAlike(row: Row, rest: string, mrest: string)
    requires |rest| == |mrest|
    ensures |RowText(row, rest)| == |RowText(MaskedRow(row), mrest)|
    ensures Stands(
      RowText(row, rest), RowText(MaskedRow(row), mrest), 0, Parenthesised(row.items), Parenthesised(MaskAll(row.items)))
    ensures Stands(
      RowText(row, rest), RowText(MaskedRow(row), mrest), |Parenthesised(row.items)| + |GapText(row)|, rest, mrest)
  {
    ParenthesisedAlike(row.items);
    MaskedRowIs(row);
    RowIs(row, rest);
    RowIs(MaskedRow(row), mrest);
    assert |GapText(row)| == |GapText(MaskedRow(row))|;
    hide Parenthesised, MaskAll, Mask, Stands, RowText, MaskedRow, GapText;
    StandsInThree(
      Parenthesised(row.items), GapText(row), rest, Parenthesised(MaskAll(row.items)), GapText(MaskedRow(row)), mrest);
  }

  lemma {:induction false} RowsAlike(rows: seq<Row>)
    ensures |RowsText(rows)| == |RowsText(MaskedRows(rows))|
  {
    hide Parenthesised, MaskedRow, MaskedRows, RowText, RowsText, MaskAll, Stands;
    if rows != [] {
      RowsStep(rows);
      RowsStep(MaskedRows(rows));
      if |rows| == 1 {
        MaskedRowIs(rows[0]);
        ParenthesisedAlike(rows[0].items);
      } else {
        RowsAlike(rows[1..]);
        RowAlike(rows[0], RowsText(rows[1..]), RowsText(MaskedRows(rows[1..])));
      }
    } else {
      EmptyRows();
      NoRows();
    }
  }

  lemma NoRows()
    ensures RowsText([]) == ""
  {
  }

  // Each row stands among the rows.
  lemma {:induction false} RowStands(rows: seq<Row>, i: nat) returns (at: nat)
    requires i < |rows|
    ensures Stands(
      RowsText(rows), RowsText(MaskedRows(rows)), at, Parenthesised(rows[i].items), Parenthesised(MaskAll(rows[i].items)))
  {
    hide Parenthesised, MaskedRow, MaskedRows, RowText, RowsText, MaskAll, Stands;
    RowsStep(rows);
    RowsStep(MaskedRows(rows));
    if |rows| == 1 {
      MaskedRowIs(rows[0]);
      ParenthesisedAlike(rows[0].items);
      StandsAlone(Parenthesised(rows[0].items), Parenthesised(MaskAll(rows[0].items)));
      at := 0;
    } else {
      var rest, mrest := RowsText(rows[1..]), RowsText(MaskedRows(rows[1..]));
      RowsAlike(rows[1..]);
      RowAlike(rows[0], rest, mrest);
      if i == 0 {
        at := 0;
      } else {
        var k := RowStands(rows[1..], i - 1);
        var b := |Parenthesised(rows[0].items)| + |GapText(rows[0])|;
        StandsIn(
          RowsText(rows), RowsText(MaskedRows(rows)), b, rest, mrest, k, Parenthesised(rows[i].items),
          Parenthesised(MaskAll(rows[i].items)));
        at := b + k;
      }
    }
  }

  // Every value of a statement stands among its values, and not at their head.
  lemma ValueStands(s: Insert, i: nat, j: nat) returns (at: nat)
    requires i < |s.rows| && j < |s.rows[i].items|
    ensures at > 0 && Stands(ValuesText(s), MaskedValues(s), at, s.rows[i].items[j], Mask(s.rows[i].items[j]))
  {
    hide MaskAll, Parenthesised, RowsText, MaskedRows, Mask, Stands;
    var items := s.rows[i].items;
    var a := RowStands(s.rows, i);
    var b := ItemStands(items, j);
    StandsIn(ValuesText(s), MaskedValues(s), a, Parenthesised(items), Parenthesised(MaskAll(items)), b, items[j], Mask(items[j]));
    at := a + b;
  }

  // The statement `p` in parentheses, somewhere in a value and outside its quotes and comments.
  ghost predicate Holds(item: string, p: Insert, before: string, after: string) {
    Settled(before) && item == before + ("(" + (Print(p) + (")" + after)))
  }

  lemma HeldMask(item: string, p: Insert, before: string, after: string)
    requires WellFormed(p) && Holds(item, p, before, after)
    ensures Mask(item) == Mask(before) + ("(" + (MaskedPrint(p) + (")" + Mask(after))))
  {
    HeldIs(item, p, before, after);
    hide *;
    MaskOfPrint(p);
    ParensAreInert(after, Print(p) + (")" + after));
    InertPrefix(")", after);
    MaskAppend(Print(p), ")" + after);
    InertPrefix("(", Print(p) + (")" + after));
    MaskAppend(before, "(" + (Print(p) + (")" + after)));
  }

  lemma ParensAreInert(a: string, b: string)
    ensures AllInert("(") && AllInert(")") && Separates(")" + a) && Separates("(" + b)
  {
  }

  lemma HeldStands(item: string, p: Insert, before: string, after: string)
    requires WellFormed(p) && Holds(item, p, before, after)
    ensures Stands(item, Mask(item), |before|, "(" + (Print(p) + ")"), "(" + (MaskedPrint(p) + ")"))
  {
    HeldMask(item, p, before, after);
    SameLengths(p);
    HeldIs(item, p, before, after);
    hide *;
    var s, n := "(" + (Print(p) + ")"), "(" + (MaskedPrint(p) + ")");
    Regrouped(before, Print(p), after);
    Regrouped(Mask(before), MaskedPrint(p), Mask(after));
    StandsBetween(before, s, after, Mask(before), n, Mask(after));
  }

  lemma {:induction false} HeldIs(item: string, p: Insert, before: string, after: string)
    requires Holds(item, p, before, after)
    ensures Settled(before) && item == before + ("(" + (Print(p) + (")" + after)))
  {
  }

  lemma Regrouped(a: string, b: string, c: string)
    ensures a + ("(" + (b + (")" + c))) == a + (("(" + (b + ")")) + c)
  {
  }

  // -------------------------------------------------------------------- the report

  // All the entries that `p` deserves, in one stretch of the report.
  predicate ReportsAt(all: seq<Mismatch>, some: seq<Mismatch>, i: nat) {
    i + |some| <= |all| && all[i..i + |some|] == some
  }

  ghost predicate Reports(all: seq<Mismatch>, some: seq<Mismatch>) {
    exists i :: ReportsAt(all, some, i)
  }

  lemma ReportsEnd(all: seq<Mismatch>, some: seq<Mismatch>, more: seq<Mismatch>)
    requires EndsWith(all, some + more)
    ensures Reports(all, some)
  {
    var i := |all| - |some + more|;
    assert all[i..i + |some|] == all[i..][..|some|] == (some + more)[..|some|] == some;
    assert ReportsAt(all, some, i);
  }

  lemma ClosedHasNoTuple(r: string)
    ensures NextOpen(")" + r).None?
  {
    hide IsSpace, Suffix;
    CloseIsNoSpace();
    SkipSpacesStep(")" + r);
  }

  lemma CloseIsNoSpace()
    ensures !IsSpace(')')
  {
  }

  lemma StandsSplit(t: string, m: string, at: nat, s: string, n: string)
    requires Stands(t, m, at, s, n)
    ensures at + |s| <= |t| == |m| && t[at..] == s + t[at + |s|..] && m[at..] == n + m[at + |s|..]
  {
  }

  // A printed statement that stands anywhere in a text is reported there as on its own, if no further
  // tuple follows it.
  lemma {:induction false} PrintIsReported(t: string, m: string, at: nat, p: Insert, r: string, mr: string)
    requires WellFormed(p) && at <= |t| == |m| && t[at..] == Print(p) + r && m[at..] == MaskedPrint(p) + mr
    requires |r| == |mr| && NextOpen(mr).None?
    ensures Reports(HeaderReports(t, m), Expected(Count(p.columns), p.rows))
  {
    hide *;
    var more := ReportsFirst(p, r, mr);
    ScanGoesOn(t, m, at);
    ReportsEnd(HeaderReports(t, m), Expected(Count(p.columns), p.rows), more);
  }

  lemma ReportsFirst(p: Insert, r: string, mr: string) returns (more: seq<Mismatch>)
    requires WellFormed(p) && |r| == |mr| && NextOpen(mr).None?
    ensures |Print(p)| == |MaskedPrint(p)|
    ensures HeaderReports(Print(p) + r, MaskedPrint(p) + mr) == Expected(Count(p.columns), p.rows) + more
  {
    hide *;
    ReportOfPrint(p, r, mr);
    more := HeaderReports(ValuesText(p)[1..] + r, MaskedValues(p)[1..] + mr);
  }

  lemma BehindOpen(t: string, at: nat, s: string, r: string)
    requires at <= |t| && t[at..] == "(" + (s + ")") + r
    ensures at + 1 <= |t| && t[at + 1..] == s + (")" + r)
  {
    assert t[at + 1..] == t[at..][1..];
  }

  // In parentheses nothing follows it.
  lemma {:induction false} StandsReported(t: string, m: string, at: nat, p: Insert)
    requires WellFormed(p) && Stands(t, m, at, "(" + (Print(p) + ")"), "(" + (MaskedPrint(p) + ")"))
    ensures |t| == |m| && Reports(HeaderReports(t, m), Expected(Count(p.columns), p.rows))
  {
    var q, mq := "(" + (Print(p) + ")"), "(" + (MaskedPrint(p) + ")");
    StandsSplit(t, m, at, q, mq);
    SameLengths(p);
    hide *;
    var r, mr := t[at + |q|..], m[at + |q|..];
    ClosedHasNoTuple(mr);
    BehindOpen(t, at, Print(p), r);
    BehindOpen(m, at, MaskedPrint(p), mr);
    PrintIsReported(t, m, at + 1, p, ")" + r, ")" + mr);
  }

  // Any statement, and any of its values, wherever it is: if it holds an INSERT in parentheses outside
  // quotes and comments, all the wrong tuples of that one are reported too.
  lemma InsertInsideIsReported(s: Insert, i: nat, j: nat, p: Insert, before: string, after: string)
    requires WellFormed(s) && WellFormed(p) && i < |s.rows| && j < |s.rows[i].items|
    requires Holds(s.rows[i].items[j], p, before, after)
    ensures Reports(NestedReport(s), Expected(Count(p.columns), p.rows))
    ensures Expected(Count(p.columns), p.rows) != [] ==> ArityReport(Print(s)) != Expected(Count(s.columns), s.rows)
  {
    hide Print, MaskedPrint, WellFormed, Holds, Stands, HeaderReports, Expected, Reports, ValuesText, MaskedValues, Mask;
    var at := ValueStands(s, i, j);
    HeldStands(s.rows[i].items[j], p, before, after);
    var q, mq := "(" + (Print(p) + ")"), "(" + (MaskedPrint(p) + ")");
    StandsIn(ValuesText(s), MaskedValues(s), at, s.rows[i].items[j], Mask(s.rows[i].items[j]), |before|, q, mq);
    StandsBehind(ValuesText(s), MaskedValues(s), at + |before|, q, mq);
    StandsReported(ValuesText(s)[1..], MaskedValues(s)[1..], at + |before| - 1, p);
    NestedIs(s);
    ArityReportOfPrint(s);
    if Expected(Count(p.columns), p.rows) != [] {
      NothingReportsNothing(NestedReport(s), Expected(Count(p.columns), p.rows));
    }
  }

  lemma NothingReportsNothing(all: seq<Mismatch>, some: seq<Mismatch>)
    requires Reports(all, some) && some != []
    ensures all != []
  {
  }

  lemma StandsBehind(t: string, m: string, at: nat, s: string, n: string)
    requires Stands(t, m, at, s, n) && at > 0
    ensures Stands(t[1..], m[1..], at - 1, s, n)
  {
    assert t[1..][at - 1..at - 1 + |s|] == t[at..at + |s|] && m[1..][at - 1..at - 1 + |s|] == m[at..at + |s|];
  }

  // The smallest one: INSERT INTO t (a) VALUES ((p)) has one column and one value, and is reported
  // whenever `p` has a tuple of the wrong length.
  lemma NestedInsertIsReported(p: Insert)
    requires WellFormed(p) && Expected(Count(p.columns), p.rows) != []
    ensures var s := Plainly("t", ["a"], ["(" + (Print(p) + ")")]);
      && WellFormed(s) && Expected(Count(s.columns), s.rows) == []
      && NestedReport(s) != [] && ArityReport(Print(s)) != []
  {
    var item := "(" + (Print(p) + ")");
    var s := Plainly("t", ["a"], [item]);
    hide *;
    HoldsItself(item, p);
    InsertIsItem(p);
    OpenCounts(item, MaskedPrint(p) + ")");
    OneCounted(item);
    OneItem(item);
    SmallStatement(["a"], [item]);
    assert s.rows == [Row([item], "", "")] by { PlainRows(["a"], [item]); }
    InsertInsideIsReported(s, 0, 0, p, "", "");
    NothingReportsNothing(NestedReport(s), Expected(Count(p.columns), p.rows));
  }

  lemma PlainRows(columns: seq<string>, items: seq<string>)
    ensures Plainly("t", columns, items).rows == [Row(items, "", "")]
  {
  }

  lemma HoldsItself(item: string, p: Insert)
    requires item == "(" + (Print(p) + ")")
    ensures Holds(item, p, "", "")
  {
    hide Print;
    assert item == "" + ("(" + (Print(p) + (")" + "")));
  }

  lemma OpenCounts(item: string, m: string)
    requires Mask(item) == "(" + m
    ensures Counts(item)
  {
    ParenCounts(item);
  }

  // As many values as columns.
  lemma CountOne(x: string)
    requires Counts(x)
    ensures Count([x]) == 1
  {
    hide Counts;
    assert [x][1..] == [];
  }

  lemma CountTwo(x: string, y: string)
    requires Counts(x) && Counts(y)
    ensures Count([x, y]) == 2
  {
    CountOne(y);
    hide Counts;
    assert [x, y][1..] == [y];
  }

  lemma {:induction false} OneRight(columns: nat, row: Row)
    requires Count(row.items) == columns
    ensures Expected(columns, [row]) == []
  {
    hide Count;
    assert [row][1..] == [];
  }

  // As many values as columns.
  lemma OneCounted(item: string)
    requires Counts(item)
    ensures var s := Plainly("t", ["a"], [item]); Expected(Count(s.columns), s.rows) == []
  {
    LetterIsColumn("a");
    hide Counts, Count, Expected;
    CountOne(item);
    CountOne("a");
    OneRight(1, Row([item], "", ""));
  }

  lemma TwoCounted(x: string, y: string)
    requires Counts(x) && Counts(y)
    ensures var s := Plainly("t", ["a", "b"], [x, y]); Expected(Count(s.columns), s.rows) == []
  {
    LetterIsColumn("a");
    LetterIsColumn("b");
    hide Counts, Count, Expected;
    CountTwo(x, y);
    CountTwo("a", "b");
    OneRight(2, Row([x, y], "", ""));
  }

  lemma OneItem(item: string)
    requires IsItem(item)
    ensures AllItems([item])
  {
    hide IsItem;
    assert [item][1..] == [];
  }

  // ------------------------------------------------------ values that follow one another

  lemma {:induction false} FlatEnclosed(w: string, r: string)
    requires Flat(w) && Enclosed(r, 0)
    ensures Enclosed(w + r, 0)
  {
    if w == "" {
      assert w + r == r;
    } else {
      TailOfConcat(w, r);
      assert Flat(w[1..]);
      FlatEnclosed(w[1..], r);
    }
  }

  lemma {:induction false} ClosedEnclosed(m: string, d: nat, r: string)
    requires Balanced(m, d) && Enclosed(r, 0)
    ensures Enclosed(m + (")" + r), d + 1)
  {
    if m == "" {
      assert m + (")" + r) == ")" + r && (")" + r)[1..] == r;
    } else {
      TailOfConcat(m, ")" + r);
      ClosedEnclosed(m[1..], d + Change(m[0]), r);
    }
  }

  lemma {:induction false} ListEnclosed(items: seq<string>, r: string)
    requires AllItems(items) && Enclosed(r, 0)
    ensures Enclosed("(" + (Joined(MaskAll(items)) + (")" + r)), 0)
  {
    BalancedJoined(items);
    var j := Joined(MaskAll(items));
    ClosedEnclosed(j, 0, r);
    OpenEncloses(j + (")" + r));
  }

  lemma EmptyEnclosed()
    ensures Enclosed("", 0)
  {
  }

  lemma OneRowText(row: Row)
    ensures RowsText([row]) == "(" + (Joined(row.items) + (")" + ""))
    ensures RowsText(MaskedRows([row])) == "(" + (Joined(MaskAll(row.items)) + (")" + ""))
  {
    RowsStep([row]);
    RowsStep(MaskedRows([row]));
    MaskedRowIs(row);
    hide Joined, MaskAll, RowsText, MaskedRows, MaskedRow;
  }

  // A statement with one tuple shows no comma outside parentheses.
  lemma PrintEnclosed(p: Insert)
    requires WellFormed(p) && |p.rows| == 1
    ensures Enclosed(MaskedPrint(p), 0)
  {
    assert p.rows == [p.rows[0]];
    OneRowText(p.rows[0]);
    EmptyEnclosed();
    ColumnsAreItems(p.columns);
    ListEnclosed(p.rows[0].items, "");
    MaskedHead(p);
    hide Joined, MaskAll, Enclosed, Flat, HeadText, MiddleText, RowsText, MaskedRows, MaskHead, PrintAs, White, Worded, AllColumns;
    var head, values, columns := MaskHead(p), MaskedValues(p), Joined(MaskAll(p.columns));
    HeadIsFlat(head);
    FlatEnclosed(MiddleText(head), values);
    ListEnclosed(p.columns, MiddleText(head) + values);
    FlatEnclosed(HeadText(head), "(" + (columns + (")" + (MiddleText(head) + values))));
    PrintParts(head, columns, values);
  }

  // A statement of one row, and the same with another row behind it.
  function Followed(p: Insert, items: seq<string>): Insert
    requires |p.rows| == 1
  {
    p.(rows := [Row(p.rows[0].items, "", ""), Row(items, "", "")])
  }

  lemma {:induction false} TwoRowText(a: seq<string>, b: seq<string>)
    ensures RowsText([Row(a, "", ""), Row(b, "", "")]) == Parenthesised(a) + ("," + Parenthesised(b))
    ensures RowsText(MaskedRows([Row(a, "", ""), Row(b, "", "")])) == Parenthesised(MaskAll(a)) + ("," + Parenthesised(MaskAll(b)))
  {
    MaskNothing();
    TwoRows(Row(a, "", ""), Row(b, "", ""));
    TwoRows(Row(MaskAll(a), "", ""), Row(MaskAll(b), "", ""));
    var two := [Row(a, "", ""), Row(b, "", "")];
    assert two[1..] == [two[1]];
    RowsStep(two);
    RowsStep(two[1..]);
    MaskedRowIs(two[0]);
    MaskedRowIs(two[1]);
    hide Joined, MaskAll, RowsText, MaskedRows, Mask, Parenthesised, MaskedRow;
    assert MaskedRows(two) == [MaskedRows(two)[0], MaskedRows(two)[1]];
  }

  lemma BareRow(row: Row, rest: string)
    requires row.after == "" && row.next == ""
    ensures RowText(row, rest) == Parenthesised(row.items) + ("," + rest)
  {
    hide Parenthesised;
    assert "" + rest == rest && "" + ("," + rest) == "," + rest;
  }

  lemma TwoRows(x: Row, y: Row)
    requires x.after == "" && x.next == ""
    ensures RowsText([x, y]) == Parenthesised(x.items) + ("," + Parenthesised(y.items))
  {
    hide RowText, RowsText, Parenthesised, MaskedRow, MaskedRows;
    var two := [x, y];
    assert two[1..] == [y];
    RowsStep(two);
    RowsStep([y]);
    BareRow(x, Parenthesised(y.items));
  }

  // One statement as a value and a list in parentheses after it: the list reads as a second tuple.
  lemma {:induction false} ListJoins(p: Insert, items: seq<string>)
    requires |p.rows| == 1
    ensures var q := Followed(p, items);
      && Print(q) == Print(p) + ("," + Parenthesised(items))
      && MaskedPrint(q) == MaskedPrint(p) + ("," + Parenthesised(MaskAll(items)))
  {
    var q := Followed(p, items);
    TwoRowText(p.rows[0].items, items);
    assert p.rows == [p.rows[0]];
    OneRowText(p.rows[0]);
    PrintSame(p, q);
    hide Parenthesised, PrintAs, MaskAll, RowsText, MaskedRows, MaskHead, Joined;
    TupleIs(p.rows[0].items);
    TupleIs(MaskAll(p.rows[0].items));
    var r, mr := "," + Parenthesised(items), "," + Parenthesised(MaskAll(items));
    PrintExtends(p, Joined(p.columns), ValuesText(p), r);
    PrintExtends(MaskHead(p), Joined(MaskAll(p.columns)), MaskedValues(p), mr);
  }

  lemma {:induction false} TupleIs(items: seq<string>)
    ensures Parenthesised(items) == "(" + (Joined(items) + (")" + ""))
  {
    hide Joined;
  }

  lemma PrintSame(p: Insert, q: Insert)
    requires q == p.(rows := q.rows)
    ensures forall columns, values :: PrintAs(p, columns, values) == PrintAs(q, columns, values)
    ensures forall columns, values :: PrintAs(MaskHead(p), columns, values) == PrintAs(MaskHead(q), columns, values)
  {
    forall columns, values
      ensures PrintAs(p, columns, values) == PrintAs(q, columns, values)
      ensures PrintAs(MaskHead(p), columns, values) == PrintAs(MaskHead(q), columns, values)
    {
      AlikePrinted(p, q, columns, values);
      AlikePrinted(MaskHead(p), MaskHead(q), columns, values);
    }
  }

  lemma AlikePrinted(p: Insert, q: Insert, columns: string, values: string)
    requires q == p.(rows := q.rows)
    ensures PrintAs(p, columns, values) == PrintAs(q, columns, values)
  {
  }

  lemma JoinsTwo(x: string, y: string)
    ensures Joined([x, y]) == x + ("," + y)
  {
    assert [x, y][1..] == [y];
  }

  lemma {:induction false} ListIsItem(items: seq<string>)
    requires AllItems(items)
    ensures IsItem(Parenthesised(items)) && Mask(Parenthesised(items)) == Parenthesised(MaskAll(items))
    ensures Counts(Parenthesised(items))
  {
    MaskNothing();
    EmptyEnclosed();
    MaskParenthesised(items, "");
    ListEnclosed(items, "");
    hide Mask, Settled, Enclosed, Joined, MaskAll, AllItems;
    var mask := Parenthesised(MaskAll(items));
    assert Parenthesised(items) + "" == Parenthesised(items) && mask + "" == mask;
    TupleIs(MaskAll(items));
    ItemIs(Parenthesised(items));
    ParenCounts(Parenthesised(items));
  }

  lemma PrintIsItem(p: Insert)
    requires WellFormed(p) && |p.rows| == 1
    ensures IsItem(Print(p)) && Mask(Print(p)) == MaskedPrint(p) && Counts(Print(p))
  {
    MaskOfPrint(p);
    PrintEnclosed(p);
    VerbCounts(p, Joined(MaskAll(p.columns)), MaskedValues(p));
    hide Mask, Settled, Enclosed, WellFormed;
    ItemIs(Print(p));
  }

  lemma VerbCounts(p: Insert, columns: string, values: string)
    requires IsKeyword(p.verb, "INSERT") && Mask(Print(p)) == PrintAs(MaskHead(p), columns, values)
    ensures Counts(Print(p))
  {
    KeywordsAreUpper();
    KeywordIsNoSpace(p.verb, "INSERT", "");
    assert p.verb + "" == p.verb;
    assert Mask(Print(p))[0] == p.verb[0];
    hide Mask, IsSpace, Print, PrintAs, IsKeyword;
  }

  lemma ParenCounts(s: string)
    requires s != "" && Mask(s)[0] == '('
    ensures Counts(s)
  {
    hide Mask;
  }

  lemma {:induction false} WithTuple(p: Insert, items: seq<string>)
    requires WellFormed(p) && |p.rows| == 1 && AllItems(items)
    ensures WellFormed(Followed(p, items))
  {
    SpaceIsGap();
    hide AllItems, AllColumns, Worded, Spread, IsGap;
    var two := Followed(p, items).rows;
    var none: seq<Row> := [];
    assert two[1..][1..] == none && IsRow(two[0]) && IsRow(two[1]);
    assert AllRows(none) && AllRows(two[1..]);
    SpreadSame(p, Followed(p, items));
  }

  lemma SpreadSame(p: Insert, q: Insert)
    requires q == p.(rows := q.rows)
    ensures (Worded(p) <==> Worded(q)) && (Spread(p) <==> Spread(q))
  {
    hide IsGap, IsKeyword, IsConflict;
  }

  lemma {:induction false} LastIsWrong(p: Insert, items: seq<string>)
    requires |p.rows| == 1 && Count(items) != Count(p.columns)
    ensures Expected(Count(p.columns), Followed(p, items).rows) != []
  {
    var two := Followed(p, items).rows;
    assert two[1..] == [Row(items, "", "")];
  }

  // No statement need be in parentheses for that: INSERT INTO t (a,b) VALUES (p,(items)) has two
  // columns and two values, and even where `p` is faultless, it is reported if the list is not as long
  // as the columns of `p`.
  lemma {:induction false} FollowingListIsReported(p: Insert, items: seq<string>)
    requires WellFormed(p) && |p.rows| == 1 && AllItems(items) && Count(items) != Count(p.columns)
    ensures var s := Plainly("t", ["a", "b"], [Print(p), Parenthesised(items)]);
      && WellFormed(s) && Expected(Count(s.columns), s.rows) == [] && ArityReport(Print(s)) != []
  {
    var x, y := Print(p), Parenthesised(items);
    var s := Plainly("t", ["a", "b"], [x, y]);
    var q := Followed(p, items);
    TwoValues(s, x, y);
    hide *;
    PrintIsItem(p);
    ListIsItem(items);
    TwoCounted(x, y);
    TwoItems(x, y);
    SmallStatement(["a", "b"], [x, y]);
    WithTuple(p, items);
    ListJoins(p, items);
    LastIsWrong(p, items);
    FollowedColumns(p, items);
    ClosedHasNoTuple("");
    NestedIs(s);
    var t, m := ValuesText(s)[1..], MaskedValues(s)[1..];
    PrintIsReported(t, m, 0, q, ")" + "", ")" + "");
    NothingReportsNothing(HeaderReports(t, m), Expected(Count(q.columns), q.rows));
    ArityReportOfPrint(s);
  }

  lemma FollowedColumns(p: Insert, items: seq<string>)
    requires |p.rows| == 1
    ensures Followed(p, items).columns == p.columns
  {
  }

  lemma TwoItems(x: string, y: string)
    requires IsItem(x) && IsItem(y)
    ensures AllItems([x, y])
  {
    OneItem(y);
    hide IsItem;
    var items := [x, y];
    assert items[1..] == [y];
  }

  lemma Behind(t: string, j: string)
    requires t == "(" + (j + (")" + ""))
    ensures t != "" && t[1..] == j + (")" + "")
  {
  }

  // The values of that statement, after their parenthesis.
  lemma TwoValues(s: Insert, x: string, y: string)
    requires |s.rows| == 1 && s.rows[0].items == [x, y]
    ensures ValuesText(s) != "" && ValuesText(s)[1..] == x + ("," + y) + (")" + "")
    ensures MaskedValues(s) != "" && MaskedValues(s)[1..] == Mask(x) + ("," + Mask(y)) + (")" + "")
  {
    hide Mask;
    assert s.rows == [s.rows[0]];
    OneRowText(s.rows[0]);
    assert [x, y][1..] == [y] && [y][1..] == [];
    assert MaskAll([y]) == [Mask(y)] && MaskAll([x, y]) == [Mask(x), Mask(y)];
    hide RowsText, MaskedRows, MaskAll, Joined;
    JoinsTwo(x, y);
    JoinsTwo(Mask(x), Mask(y));
    Behind(ValuesText(s), x + ("," + y));
    Behind(MaskedValues(s), Mask(x) + ("," + Mask(y)));
  }
}
