// splitTopLevel, readTuple and sqlArityMismatches of
// scripts/ci/check-sql-interpolation-safety.ts, over the masked text.
module SqlArity {
  import opened Options
  import opened SqlLexer

  datatype Mismatch = Mismatch(columns: nat, values: nat)

  // ------------------------------------------------------------- top-level cuts

  function Change(c: char): int {
    if c == '(' then 1 else if c == ')' then -1 else 0
  }

  function Prefixed(c: char, parts: seq<string>): (r: seq<string>)
    requires parts != []
    ensures |r| == |parts|
  {
    [[c] + parts[0]] + parts[1..]
  }

  // `t` cut at the commas that its masked form `m` shows at depth 0.
  function Cut(t: string, m: string, depth: int): (parts: seq<string>)
    requires |t| == |m|
    ensures parts != []
  {
    if m == "" then [""]
    else if m[0] == ',' && depth == 0 then [""] + Cut(t[1..], m[1..], 0)
    else Prefixed(t[0], Cut(t[1..], m[1..], depth + Change(m[0])))
  }

  predicate AllSpace(m: string) {
    m == "" || (IsSpace(m[0]) && AllSpace(m[1..]))
  }

  predicate Blank(part: string) {
    AllSpace(Mask(part))
  }

  function NonBlank(parts: seq<string>): seq<string> {
    if parts == [] then []
    else (if Blank(parts[0]) then [] else [parts[0]]) + NonBlank(parts[1..])
  }

  function TopLevelParts(text: string): seq<string> {
    NonBlank(Cut(text, Mask(text), 0))
  }

  // The first part of what is left to cut, put after the text already read.
  function Continued(read: string, parts: seq<string>): (r: seq<string>)
    requires parts != []
  {
    [read + parts[0]] + parts[1..]
  }

  lemma ContinuedStep(read: string, t: string, m: string, depth: int)
    requires |t| == |m| > 0
    ensures m[0] == ',' && depth == 0
      ==> Continued(read, Cut(t, m, depth)) == [read] + Continued("", Cut(t[1..], m[1..], 0))
    ensures !(m[0] == ',' && depth == 0)
      ==> Continued(read, Cut(t, m, depth)) == Continued(read + [t[0]], Cut(t[1..], m[1..], depth + Change(m[0])))
  {
    var rest := Cut(t[1..], m[1..], depth + Change(m[0]));
    assert read + ([t[0]] + rest[0]) == read + [t[0]] + rest[0];
    assert read + "" == read;
    assert "" + rest[0] == rest[0];
  }

  lemma ContinuedNothing(parts: seq<string>)
    requires parts != []
    ensures Continued("", parts) == parts
  {
    assert "" + parts[0] == parts[0];
    assert [parts[0]] + parts[1..] == parts;
  }

  lemma {:induction false} ContinuedEnd(read: string, depth: int)
    ensures Continued(read, Cut("", "", depth)) == [read]
  {
    assert read + "" == read;
  }

  // `parts` have been cut off `text` and a part open since `start` is still growing.
  ghost predicate Splitting(text: string, parts: seq<string>, start: nat, index: nat, depth: int) {
    var m := Mask(text);
    && start <= index <= |text|
    && parts + Continued(text[start..index], Cut(text[index..], m[index..], depth)) == Cut(text, m, 0)
  }

  lemma SplitStart(text: string)
    ensures Splitting(text, [], 0, 0, 0)
  {
    hide Mask, Cut, Continued;
    var all := Cut(text, Mask(text), 0);
    assert text[0..] == text && Mask(text)[0..] == Mask(text) && text[0..0] == "";
    ContinuedNothing(all);
    assert [] + all == all;
  }

  lemma SplitOn(text: string, parts: seq<string>, start: nat, index: nat, depth: int)
    requires Splitting(text, parts, start, index, depth) && index < |text|
    requires !(Mask(text)[index] == ',' && depth == 0)
    ensures Splitting(text, parts, start, index + 1, depth + Change(Mask(text)[index]))
  {
    hide Mask, Cut, Continued;
    var m := Mask(text);
    assert text[index..][0] == text[index] && m[index..][0] == m[index];
    ContinuedStep(text[start..index], text[index..], m[index..], depth);
    assert text[index..][1..] == text[index + 1..] && m[index..][1..] == m[index + 1..];
    assert text[start..index] + [text[index]] == text[start..index + 1];
  }

  lemma SplitHere(text: string, parts: seq<string>, start: nat, index: nat)
    requires Splitting(text, parts, start, index, 0) && index < |text| && Mask(text)[index] == ','
    ensures Splitting(text, parts + [text[start..index]], index + 1, index + 1, 0)
  {
    hide Mask, Cut, Continued;
    var m := Mask(text);
    var rest := Continued("", Cut(text[index + 1..], m[index + 1..], 0));
    assert m[index..][0] == m[index];
    ContinuedStep(text[start..index], text[index..], m[index..], 0);
    assert text[index..][1..] == text[index + 1..] && m[index..][1..] == m[index + 1..];
    assert text[index + 1..index + 1] == "";
  }

  lemma {:induction false} SplitEnd(text: string, parts: seq<string>, start: nat, depth: int)
    requires Splitting(text, parts, start, |text|, depth)
    ensures NonBlank(parts + [text[start..]]) == TopLevelParts(text)
  {
    hide Mask, Continued, NonBlank, Cut;
    assert text[|text|..] == "" && Mask(text)[|text|..] == "" && text[start..|text|] == text[start..];
    ContinuedEnd(text[start..], depth);
  }

  method SplitTopLevel(text: string) returns (kept: seq<string>)
    ensures kept == TopLevelParts(text)
  {
    hide *;
    var structure := Mask(text);
    var parts: seq<string> := [];
    var depth, start, index := 0, 0, 0;
    SplitStart(text);
    while index < |structure|
      invariant start <= index <= |structure| == |text|
      invariant Splitting(text, parts, start, index, depth)
    {
      var c := structure[index];
      ChangeIs(c);
      if c == ',' && depth == 0 {
        SplitHere(text, parts, start, index);
      } else {
        SplitOn(text, parts, start, index, depth);
      }
      if c == '(' {
        depth := depth + 1;
      }
      if c == ')' {
        depth := depth - 1;
      }
      if c == ',' && depth == 0 {
        parts := parts + [text[start..index]];
        start := index + 1;
      }
      index := index + 1;
    }
    SplitEnd(text, parts, start, depth);
    parts := parts + [text[start..]];
    kept := KeepNonBlank(parts);
  }

  lemma ChangeIs(c: char)
    ensures Change(c) == if c == '(' then 1 else if c == ')' then -1 else 0
  {
  }

  lemma NonBlankStep(parts: seq<string>, i: nat)
    requires i < |parts|
    ensures NonBlank(parts[i..]) == (if Blank(parts[i]) then [] else [parts[i]]) + NonBlank(parts[i + 1..])
  {
    hide Blank;
    assert parts[i..][1..] == parts[i + 1..];
  }

  lemma NonBlankNothing()
    ensures NonBlank([]) == []
  {
  }

  method KeepNonBlank(parts: seq<string>) returns (kept: seq<string>)
    ensures kept == NonBlank(parts)
  {
    hide NonBlank, Blank;
    kept := [];
    assert parts[0..] == parts && [] + NonBlank(parts) == NonBlank(parts);
    for i := 0 to |parts|
      invariant kept + NonBlank(parts[i..]) == NonBlank(parts)
    {
      NonBlankStep(parts, i);
      if !Blank(parts[i]) {
        kept := kept + [parts[i]];
      } else {
        assert [] + NonBlank(parts[i + 1..]) == NonBlank(parts[i + 1..]);
      }
    }
    NonBlankNothing();
    assert parts[|parts|..] == [] && kept + [] == kept;
  }

  // ------------------------------------------------------------------- tuples

  // Offset of the parenthesis that brings the depth back to 0.
  function CloseOffset(m: string, depth: int): (r: Option<nat>)
    ensures r.Some? ==> r.value < |m| && m[r.value] == ')'
  {
    if m == "" then None
    else if m[0] == ')' && depth == 1 then Some(0)
    else
      var later :- CloseOffset(m[1..], depth + Change(m[0]));
      Some(later + 1)
  }

  lemma {:induction false} ClosesAfterOpening(m: string)
    ensures CloseOffset(m, 0).Some? ==> CloseOffset(m, 0).value > 0
  {
  }

  // Offset of the parenthesis that closes the one at the start of `m`.
  function TupleClose(m: string): (r: Option<nat>)
    ensures r.Some? ==> 0 < r.value < |m|
  {
    ClosesAfterOpening(m);
    CloseOffset(m, 0)
  }

  // The text of `t` inside the parentheses that its masked form `m` opens and closes.
  function TupleText(t: string, m: string): (r: Option<string>)
    requires |t| == |m|
    ensures r.Some? ==> |r.value| + 2 <= |t|
  {
    var close :- TupleClose(m);
    Some(t[1..close])
  }

  function Later(r: Option<nat>, more: nat): Option<nat> {
    if r.None? then None else Some(r.value + more)
  }

  lemma {:induction false} CloseStep(m: string, index: nat, depth: int)
    requires index < |m|
    ensures m[index] == ')' && depth == 1 ==> CloseOffset(m[index..], depth) == Some(0)
    ensures !(m[index] == ')' && depth == 1) ==>
      CloseOffset(m[index..], depth) == Later(CloseOffset(m[index + 1..], depth + Change(m[index])), 1)
  {
    assert m[index..][1..] == m[index + 1..];
  }

  lemma TupleTextIs(source: string, m: string, open: nat)
    requires open <= |source| == |m|
    ensures CloseOffset(m[open..], 0).None? ==> TupleText(source[open..], m[open..]) == None
    ensures CloseOffset(m[open..], 0).Some? ==>
      var close := CloseOffset(m[open..], 0).value;
      0 < close < |m| - open && TupleText(source[open..], m[open..]) == Some(source[open + 1..open + close])
  {
    hide CloseOffset;
    ClosesAfterOpening(m[open..]);
    assert CloseOffset(m[open..], 0).Some? ==>
      source[open..][1..CloseOffset(m[open..], 0).value] == source[open + 1..open + CloseOffset(m[open..], 0).value];
  }

  // readTuple: the text between the opening parenthesis and the one that closes it.
  method ReadTuple(source: string, openIndex: nat) returns (tuple: Option<string>)
    requires openIndex <= |source|
    ensures tuple == TupleText(source[openIndex..], Mask(source)[openIndex..])
  {
    hide *;
    var structure := Mask(source);
    var depth := 0;
    TupleTextIs(source, structure, openIndex);
    for index := openIndex to |structure|
      invariant index - openIndex >= 0 && |structure| == |source|
      invariant CloseOffset(structure[openIndex..], 0).Some? <==> CloseOffset(structure[index..], depth).Some?
      invariant CloseOffset(structure[index..], depth).Some? ==>
        CloseOffset(structure[openIndex..], 0).value == CloseOffset(structure[index..], depth).value + index - openIndex
    {
      CloseStep(structure, index, depth);
      LaterIs(CloseOffset(structure[index + 1..], depth + Change(structure[index])));
      ChangeIs(structure[index]);
      if structure[index] == '(' {
        depth := depth + 1;
      }
      if structure[index] == ')' {
        depth := depth - 1;
        if depth == 0 {
          return Some(source[openIndex + 1..index]);
        }
      }
    }
    return None;
  }

  lemma LaterIs(r: Option<nat>)
    ensures Later(r, 1).Some? <==> r.Some?
    ensures r.Some? ==> Later(r, 1).value == r.value + 1
  {
  }

  // ------------------------------------------------------------ the INSERT header

  // `r` is the end of `m`.
  predicate Suffix(r: string, m: string) {
    |r| <= |m| && m[|m| - |r|..] == r
  }

  lemma SuffixTrans(a: string, b: string, c: string)
    requires Suffix(a, b) && Suffix(b, c)
    ensures Suffix(a, c)
  {
    assert c[|c| - |b|..][|b| - |a|..] == c[|c| - |a|..];
  }

  function Upper(c: char): char {
    if 'a' <= c <= 'z' then c - ('a' - 'A') else c
  }

  predicate AllUpper(w: string) {
    forall i :: 0 <= i < |w| ==> 'A' <= w[i] <= 'Z'
  }

  // The rest of `m` after the upper-case word `w`, in any case.
  function Keyword(m: string, w: string): (r: Option<string>)
    ensures r.Some? ==> Suffix(r.value, m) && |r.value| + |w| == |m|
  {
    if w == "" then Some(m)
    else if m != "" && Upper(m[0]) == w[0] then Keyword(m[1..], w[1..])
    else None
  }

  function SkipSpaces(m: string): (r: string)
    ensures Suffix(r, m)
  {
    if m != "" && IsSpace(m[0]) then SkipSpaces(m[1..]) else m
  }

  function Spaces(m: string): (r: Option<string>)
    ensures r.Some? ==> Suffix(r.value, m)
  {
    if m != "" && IsSpace(m[0]) then Some(SkipSpaces(m)) else None
  }

  predicate IsWord(c: char) {
    'a' <= c <= 'z' || 'A' <= c <= 'Z' || '0' <= c <= '9' || c == '_' || c == '.'
  }

  function SkipWord(m: string): (r: string)
    ensures Suffix(r, m)
  {
    if m != "" && IsWord(m[0]) then SkipWord(m[1..]) else m
  }

  function Word(m: string): (r: Option<string>)
    ensures r.Some? ==> Suffix(r.value, m)
  {
    if m != "" && IsWord(m[0]) then Some(SkipWord(m)) else None
  }

  function Symbol(m: string, c: char): (r: Option<string>)
    ensures r.Some? ==> Suffix(r.value, m) && |r.value| + 1 == |m| && m[0] == c
  {
    if m != "" && m[0] == c then Some(m[1..]) else None
  }

  // The text up to the next parenthesis.
  function NoParens(m: string): (r: string)
    ensures r <= m && Suffix(m[|r|..], m)
  {
    if m != "" && m[0] != '(' && m[0] != ')' then
      assert m == [m[0]] + m[1..];
      [m[0]] + NoParens(m[1..])
    else ""
  }

  function Conflict(m: string): (r: Option<string>)
    ensures r.Some? ==> Suffix(r.value, m)
  {
    if Keyword(m, "IGNORE").Some? then Keyword(m, "IGNORE")
    else if Keyword(m, "REPLACE").Some? then Keyword(m, "REPLACE")
    else if Keyword(m, "ABORT").Some? then Keyword(m, "ABORT")
    else if Keyword(m, "FAIL").Some? then Keyword(m, "FAIL")
    else Keyword(m, "ROLLBACK")
  }

  // `OR <conflict>` and the space after it, when it is there.
  function OrConflict(m: string): Option<string> {
    var a :- Keyword(m, "OR");
    var b :- Spaces(a);
    var c :- Conflict(b);
    Spaces(c)
  }

  function AfterConflict(m: string): string {
    if OrConflict(m).Some? then OrConflict(m).value else m
  }

  // INTO, the table and the parenthesis that opens the column list.
  function TargetStart(m: string): Option<string> {
    var c :- Keyword(m, "INTO");
    var d :- Spaces(c);
    var e :- Word(d);
    Symbol(SkipSpaces(e), '(')
  }

  function HeaderStart(m: string): Option<string> {
    var a :- Keyword(m, "INSERT");
    var b :- Spaces(a);
    TargetStart(AfterConflict(b))
  }

  // The column list and the text after the header's last parenthesis.
  datatype Header = Header(columns: string, body: string)

  function ValuesStart(m: string): Option<string> {
    var b :- Keyword(SkipSpaces(m), "VALUES");
    Symbol(SkipSpaces(b), '(')
  }

  function HeaderEnd(m: string): Option<Header> {
    var columns := NoParens(m);
    var a :- Symbol(m[|columns|..], ')');
    var body :- ValuesStart(a);
    Some(Header(columns, body))
  }

  // The header pattern at the start of `m`. Each of its steps leaves one way to go on,
  // so that matching it never backtracks.
  function HeaderAt(m: string): Option<Header> {
    var start :- HeaderStart(m);
    HeaderEnd(start)
  }

  lemma OrConflictSuffix(m: string)
    ensures Suffix(AfterConflict(m), m)
  {
    hide Keyword, Conflict, SkipSpaces, Suffix;
    SuffixSelf(m);
    if OrConflict(m).Some? {
      var a := Keyword(m, "OR").value;
      var b := Spaces(a).value;
      var c := Conflict(b).value;
      SuffixTrans(b, a, m);
      SuffixTrans(c, b, m);
      SuffixTrans(Spaces(c).value, c, m);
    }
  }

  lemma SuffixSelf(m: string)
    ensures Suffix(m, m)
  {
  }

  lemma HeaderStartSuffix(m: string)
    requires HeaderStart(m).Some?
    ensures Suffix(HeaderStart(m).value, m)
    ensures |HeaderStart(m).value| < |m| && m[|m| - |HeaderStart(m).value| - 1] == '('
  {
    hide Keyword, AfterConflict, SkipSpaces, SkipWord, Suffix;
    var a := Keyword(m, "INSERT").value;
    var b := Spaces(a).value;
    var c := Keyword(AfterConflict(b), "INTO").value;
    var d := Spaces(c).value;
    var e := Word(d).value;
    var f := SkipSpaces(e);
    SuffixTrans(b, a, m);
    OrConflictSuffix(b);
    SuffixTrans(AfterConflict(b), b, m);
    SuffixTrans(c, AfterConflict(b), m);
    SuffixTrans(d, c, m);
    SuffixTrans(e, d, m);
    SuffixTrans(f, e, m);
    SuffixTrans(Symbol(f, '(').value, f, m);
    SuffixIs(f, m);
    assert m[|m| - |f|..][0] == '(';
  }

  lemma HeaderEndSuffix(m: string)
    requires HeaderEnd(m).Some?
    ensures Suffix(HeaderEnd(m).value.body, m)
    ensures exists open :: Suffix(open, m) && open != "" && open[0] == '(' && open[1..] == HeaderEnd(m).value.body
  {
    hide Keyword, SkipSpaces, NoParens, Suffix;
    var rest := m[|NoParens(m)|..];
    var a := Symbol(rest, ')').value;
    var b := Keyword(SkipSpaces(a), "VALUES").value;
    var open := SkipSpaces(b);
    SuffixTrans(a, rest, m);
    SuffixTrans(SkipSpaces(a), a, m);
    SuffixTrans(b, SkipSpaces(a), m);
    SuffixTrans(open, b, m);
    SuffixTrans(open[1..], open, m);
  }

  // The body of a header is what is left of the text, and stands behind its parenthesis.
  lemma HeaderBody(m: string)
    requires HeaderAt(m).Some?
    ensures |HeaderAt(m).value.body| < |m| && Suffix(HeaderAt(m).value.body, m)
    ensures m[|m| - |HeaderAt(m).value.body| - 1] == '('
  {
    hide HeaderStart, HeaderEnd;
    var start := HeaderStart(m).value;
    HeaderStartSuffix(m);
    HeaderEndSuffix(start);
    var open :| Suffix(open, start) && open != "" && open[0] == '(' && open[1..] == HeaderEnd(start).value.body;
    SuffixTrans(open, start, m);
    SuffixTrans(open[1..], start, m);
    assert m[|m| - |open|..][0] == '(';
  }

  // ------------------------------------------------------------------ the report

  // The next tuple of the list, after a comma.
  function NextOpen(m: string): (r: Option<string>)
    ensures r.Some? ==> |r.value| < |m| && Suffix(r.value, m)
  {
    var a :- Symbol(SkipSpaces(m), ',');
    var b := SkipSpaces(a);
    if b != "" && b[0] == '(' then
      SuffixTrans(a, SkipSpaces(m), m);
      SuffixTrans(b, a, m);
      Some(b)
    else None
  }

  function TupleEntry(columns: nat, tuple: string): seq<Mismatch> {
    var values := |TopLevelParts(tuple)|;
    if columns == values then [] else [Mismatch(columns, values)]
  }

  // The entries for the tuples that start at the head of `t`, masked as `m`.
  function TupleReports(columns: nat, t: string, m: string): seq<Mismatch>
    requires |t| == |m|
    decreases |t|
  {
    if m == "" || m[0] != '(' || TupleText(t, m).None? then []
    else
      var tuple := TupleText(t, m).value;
      TupleEntry(columns, tuple) + LaterReports(columns, t[|tuple| + 2..], m[|tuple| + 2..])
  }

  function LaterReports(columns: nat, t: string, m: string): seq<Mismatch>
    requires |t| == |m|
    decreases |t|
  {
    match NextOpen(m)
    case None => []
    case Some(next) => TupleReports(columns, t[|t| - |next|..], next)
  }

  // The entries for every header in `m`, the masked form of `t`.
  function HeaderReports(t: string, m: string): seq<Mismatch>
    requires |t| == |m|
    decreases |t|
  {
    if m == "" then []
    else match HeaderAt(m)
      case None => HeaderReports(t[1..], m[1..])
      case Some(h) =>
        HeaderBody(m);
        var at := |t| - |h.body|;
        TupleReports(|TopLevelParts(h.columns)|, t[at - 1..], m[at - 1..]) + HeaderReports(t[at..], h.body)
  }

  function ArityReport(sql: string): seq<Mismatch> {
    HeaderReports(sql, Mask(sql))
  }

  // `found` holds the entries of the tuples before `open`.
  ghost predicate Counting(columns: nat, sql: string, at: nat, open: nat, found: seq<Mismatch>) {
    && at <= open <= |sql|
    && found + TupleReports(columns, sql[open..], Mask(sql)[open..])
       == TupleReports(columns, sql[at..], Mask(sql)[at..])
  }

  lemma CountingStart(columns: nat, sql: string, at: nat)
    requires at <= |sql|
    ensures Counting(columns, sql, at, at, [])
  {
    hide TupleReports, Mask;
    var all := TupleReports(columns, sql[at..], Mask(sql)[at..]);
    assert [] + all == all;
  }

  // No tuple is left to read at `open`.
  lemma {:induction false} CountingStops(columns: nat, sql: string, at: nat, open: nat, found: seq<Mismatch>)
    requires Counting(columns, sql, at, open, found) && open < |sql|
    requires Mask(sql)[open] != '(' || TupleText(sql[open..], Mask(sql)[open..]).None?
    ensures found == TupleReports(columns, sql[at..], Mask(sql)[at..])
  {
    hide Mask, TupleText;
    assert Mask(sql)[open..][0] == Mask(sql)[open];
    assert found + [] == found;
  }

  // The tuple at `open` has been read, and `next` is the text of the one after it.
  lemma {:induction false} CountingOn(columns: nat, sql: string, at: nat, open: nat, found: seq<Mismatch>, tuple: string)
    requires Counting(columns, sql, at, open, found) && open < |sql| && Mask(sql)[open] == '('
    requires TupleText(sql[open..], Mask(sql)[open..]) == Some(tuple)
    ensures open + |tuple| + 2 <= |sql|
    ensures NextOpen(Mask(sql)[open + |tuple| + 2..]).None? ==>
      found + TupleEntry(columns, tuple) == TupleReports(columns, sql[at..], Mask(sql)[at..])
    ensures NextOpen(Mask(sql)[open + |tuple| + 2..]).Some? ==>
      Counting(columns, sql, at, |sql| - |NextOpen(Mask(sql)[open + |tuple| + 2..]).value|, found + TupleEntry(columns, tuple))
  {
    hide Mask, TupleText, TupleEntry, NextOpen, TupleReports;
    var m := Mask(sql);
    var t, s := sql[open..], m[open..];
    var n := |tuple| + 2;
    assert s[0] == m[open];
    TupleReportsStep(columns, t, s);
    assert t[n..] == sql[open + n..] && s[n..] == m[open + n..];
    var entry := TupleEntry(columns, tuple);
    var next := NextOpen(m[open + n..]);
    if next.None? {
      assert entry + [] == entry;
    } else {
      var rest := |next.value|;
      assert sql[open + n..][|sql| - open - n - rest..] == sql[|sql| - rest..];
      assert m[|sql| - rest..] == m[open + n..][|sql| - open - n - rest..] == next.value;
    }
  }

  lemma {:induction false} TupleReportsStep(columns: nat, t: string, m: string)
    requires |t| == |m| > 0 && m[0] == '(' && TupleText(t, m).Some?
    ensures TupleReports(columns, t, m)
      == TupleEntry(columns, TupleText(t, m).value)
         + LaterReports(columns, t[|TupleText(t, m).value| + 2..], m[|TupleText(t, m).value| + 2..])
  {
    hide TupleText, TupleEntry, LaterReports;
  }

  method TupleMismatches(sql: string, columns: nat, at: nat) returns (found: seq<Mismatch>)
    requires at < |sql|
    ensures found == TupleReports(columns, sql[at..], Mask(sql)[at..])
  {
    hide *;
    var structure := Mask(sql);
    var open := at;
    found := [];
    CountingStart(columns, sql, at);
    while structure[open] == '('
      invariant open < |sql| == |structure|
      invariant Counting(columns, sql, at, open, found)
      decreases |sql| - open
    {
      var tuple := ReadTuple(sql, open);
      if tuple.None? {
        CountingStops(columns, sql, at, open, found);
        return;
      }
      CountingOn(columns, sql, at, open, found, tuple.value);
      var values := SplitTopLevel(tuple.value);
      assert TupleEntry(columns, tuple.value) == if columns == |values| then [] else [Mismatch(columns, |values|)] by {
        TupleEntryIs(columns, tuple.value);
      }
      assert found + [] == found;
      if columns != |values| {
        found := found + [Mismatch(columns, |values|)];
      }
      var next := NextOpen(structure[open + |tuple.value| + 2..]);
      if next.None? {
        return;
      }
      assert |next.value| > 0 by { NextOpenOpens(structure[open + |tuple.value| + 2..]); }
      open := |structure| - |next.value|;
    }
    CountingStops(columns, sql, at, open, found);
  }

  lemma TupleEntryIs(columns: nat, tuple: string)
    ensures TupleEntry(columns, tuple)
      == if columns == |TopLevelParts(tuple)| then [] else [Mismatch(columns, |TopLevelParts(tuple)|)]
  {
    hide TopLevelParts;
  }

  lemma NextOpenOpens(m: string)
    ensures NextOpen(m).Some? ==> NextOpen(m).value != "" && NextOpen(m).value[0] == '('
  {
    hide SkipSpaces, Symbol;
  }

  // `found` holds the entries of the headers that start before `at`.
  ghost predicate Scanning(sql: string, at: nat, found: seq<Mismatch>) {
    at <= |sql| && found + HeaderReports(sql[at..], Mask(sql)[at..]) == ArityReport(sql)
  }

  lemma ScanningStart(sql: string)
    ensures Scanning(sql, 0, [])
  {
    hide HeaderReports, Mask;
    assert sql[0..] == sql && Mask(sql)[0..] == Mask(sql);
    assert [] + ArityReport(sql) == ArityReport(sql);
  }

  lemma ScanningOn(sql: string, at: nat, found: seq<Mismatch>)
    requires Scanning(sql, at, found) && at < |sql|
    ensures HeaderAt(Mask(sql)[at..]).None? ==> Scanning(sql, at + 1, found)
    ensures HeaderAt(Mask(sql)[at..]).Some? ==>
      var h := HeaderAt(Mask(sql)[at..]).value;
      var next := |sql| - |h.body|;
      && at < next <= |sql|
      && Scanning(sql, next, found + TupleReports(|TopLevelParts(h.columns)|, sql[next - 1..], Mask(sql)[next - 1..]))
  {
    hide Mask, TupleReports, TopLevelParts, HeaderAt, HeaderReports, ArityReport, Suffix;
    var m := Mask(sql);
    var t, s := sql[at..], m[at..];
    HeaderReportsStep(t, s);
    if HeaderAt(s).None? {
      assert t[1..] == sql[at + 1..] && s[1..] == m[at + 1..];
    } else {
      var h := HeaderAt(s).value;
      HeaderBody(s);
      var n := |t| - |h.body|;
      assert at + n == |sql| - |h.body|;
      SuffixIs(h.body, s);
      assert t[n - 1..] == sql[at + n - 1..] && s[n - 1..] == m[at + n - 1..];
      assert t[n..] == sql[at + n..] && h.body == m[at + n..];
    }
  }

  lemma SuffixIs(r: string, m: string)
    requires Suffix(r, m)
    ensures |r| <= |m| && m[|m| - |r|..] == r
  {
  }

  lemma {:induction false} NoHeaderStep(t: string, m: string)
    requires |t| == |m| > 0 && HeaderAt(m).None?
    ensures HeaderReports(t, m) == HeaderReports(t[1..], m[1..])
  {
    hide TupleReports, TopLevelParts, HeaderAt, Suffix;
  }

  lemma {:induction false} HeaderStep(t: string, m: string, h: Header, at: nat)
    requires |t| == |m| > 0 && HeaderAt(m) == Some(h) && |h.body| < |t| && at == |t| - |h.body|
    ensures HeaderReports(t, m)
      == TupleReports(|TopLevelParts(h.columns)|, t[at - 1..], m[at - 1..]) + HeaderReports(t[at..], h.body)
  {
    hide TupleReports, TopLevelParts, HeaderAt, Suffix;
  }

  lemma {:induction false} HeaderReportsStep(t: string, m: string)
    requires |t| == |m| > 0
    ensures HeaderAt(m).None? ==> HeaderReports(t, m) == HeaderReports(t[1..], m[1..])
    ensures HeaderAt(m).Some? ==>
      var h := HeaderAt(m).value;
      var at := |t| - |h.body|;
      && 0 < at <= |t|
      && HeaderReports(t, m)
         == TupleReports(|TopLevelParts(h.columns)|, t[at - 1..], m[at - 1..]) + HeaderReports(t[at..], h.body)
  {
    hide *;
    if HeaderAt(m).Some? {
      HeaderBody(m);
      HeaderStep(t, m, HeaderAt(m).value, |t| - |HeaderAt(m).value.body|);
    } else {
      NoHeaderStep(t, m);
    }
  }

  lemma ScanningEnd(sql: string, found: seq<Mismatch>)
    requires Scanning(sql, |sql|, found)
    ensures found == ArityReport(sql)
  {
    hide Mask;
    assert found + [] == found;
  }

  // Every INSERT header in the statement, and every tuple behind each of them.
  method SqlArityMismatches(sql: string) returns (mismatches: seq<Mismatch>)
    ensures mismatches == ArityReport(sql)
  {
    hide *;
    mismatches := [];
    var structure := Mask(sql);
    var at := 0;
    ScanningStart(sql);
    while at < |structure|
      invariant at <= |structure| == |sql|
      invariant Scanning(sql, at, mismatches)
    {
      ScanningOn(sql, at, mismatches);
      var header := HeaderAt(structure[at..]);
      if header.None? {
        at := at + 1;
      } else {
        var columns := SplitTopLevel(header.value.columns);
        var next := |structure| - |header.value.body|;
        var found := TupleMismatches(sql, |columns|, next - 1);
        mismatches := mismatches + found;
        at := next;
      }
    }
    ScanningEnd(sql, mismatches);
  }
}
