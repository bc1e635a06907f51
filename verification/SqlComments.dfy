// stripSqlComments of scripts/ci/check-worker-migrations.ts: a character loop that
// keeps quoted text, and replaces each comment by a space and its line breaks. Its
// reading of the text is compared with the token expression of SqlLexer.
module SqlComments {
  import opened SqlLexer

  predicate IsBreak(c: char) {
    c == '\n' || c == '\r'
  }

  function Breaks(s: string): (b: string)
    ensures |b| <= |s|
  {
    if s == "" then "" else (if IsBreak(s[0]) then [s[0]] else "") + Breaks(s[1..])
  }

  // Number of characters before the first line break.
  function LineLength(s: string): (n: nat)
    ensures n <= |s|
    ensures n < |s| ==> IsBreak(s[n])
    ensures forall i :: 0 <= i < n ==> !IsBreak(s[i])
  {
    if s == "" || IsBreak(s[0]) then 0 else 1 + LineLength(s[1..])
  }

  function Closer(opener: char): char {
    if opener == '[' then ']' else opener
  }

  // Length of the text in the quote state `q`, up to the end of the quoted token or,
  // when it is never closed, of the text.
  function InQuote(s: string, q: char): (n: nat)
    ensures n <= |s|
  {
    if s == "" then 0
    else if s[0] != q then 1 + InQuote(s[1..], q)
    else if q != ']' && |s| > 1 && s[1] == q then 2 + InQuote(s[2..], q)
    else 1
  }

  predicate QuoteCloses(s: string, q: char) {
    s != "" &&
    if s[0] != q then QuoteCloses(s[1..], q)
    else if q != ']' && |s| > 1 && s[1] == q then QuoteCloses(s[2..], q)
    else true
  }

  // Length of the piece at the start of `s`: a quoted token, a comment or one character.
  function PieceLength(s: string): (n: nat)
    requires s != ""
    ensures 0 < n <= |s|
  {
    match OpeningOf(s)
    case NoOpening => 1
    case LineComment => 2 + LineLength(s[2..])
    case BlockComment => var n := BlockEnd(s[2..]); if n == 0 then |s| else n + 2
    case Delimited => 1 + InQuote(s[1..], s[0])
    case Bracketed => 1 + InQuote(s[1..], ']')
  }

  function PieceKind(s: string): Kind {
    match OpeningOf(s)
    case NoOpening => Plain
    case LineComment => Comment
    case BlockComment => Comment
    case Delimited => Quoted
    case Bracketed => Quoted
  }

  // The kind the stripper gives to every character.
  function StripKinds(s: string): (ks: seq<Kind>)
    ensures |ks| == |s|
  {
    if s == "" then [] else Repeat(PieceKind(s), PieceLength(s)) + StripKinds(s[PieceLength(s)..])
  }

  function StripPiece(piece: string, k: Kind): string {
    if k == Comment then " " + Breaks(piece) else piece
  }

  function Strip(s: string): string {
    if s == "" then "" else StripPiece(s[..PieceLength(s)], PieceKind(s)) + Strip(s[PieceLength(s)..])
  }

  // ------------------------------------------------------------- the loop itself

  // What is left to emit in quote state `quote` (no character: outside a quote).
  function StripFrom(s: string, quote: string): string
    requires |quote| <= 1
  {
    if quote == "" then Strip(s)
    else if s == "" then ""
    else if s[0] != quote[0] then [s[0]] + StripFrom(s[1..], quote)
    else if quote[0] != ']' && |s| > 1 && s[1] == quote[0] then s[..2] + StripFrom(s[2..], quote)
    else [s[0]] + Strip(s[1..])
  }

  lemma {:induction false} QuotedStep(s: string, q: char)
    ensures StripFrom(s, [q]) == s[..InQuote(s, q)] + Strip(s[InQuote(s, q)..])
    decreases |s|
  {
    hide Strip;
    var n := InQuote(s, q);
    if s != "" && s[0] != q {
      QuotedStep(s[1..], q);
      Move(s, 1, n, Strip(s[n..]));
    } else if s != "" && q != ']' && |s| > 1 && s[1] == q {
      QuotedStep(s[2..], q);
      Move(s, 2, n, Strip(s[n..]));
    } else if s != "" {
      assert n == 1 && s[..n] == [s[0]];
    } else {
      StripNothing();
      assert s[..n] == "" && s[n..] == "";
    }
  }

  // The first `k` of `n` characters, the others, and what follows them.
  lemma Move(s: string, k: nat, n: nat, rest: string)
    requires k <= n <= |s|
    ensures s[..k] + (s[k..][..n - k] + rest) == s[..n] + rest
    ensures s[k..][n - k..] == s[n..]
    ensures k == 1 ==> s[..k] == [s[0]]
  {
    assert s[..n] == s[..k] + s[k..][..n - k];
  }

  lemma {:induction false} OpeningStep(s: string)
    requires OpeningOf(s).Delimited? || OpeningOf(s).Bracketed?
    ensures Strip(s) == [s[0]] + StripFrom(s[1..], [Closer(s[0])])
  {
    hide *;
    OpeningPiece(s);
    var n, rest := PieceLength(s), s[1..];
    StripUnfold(s);
    assert StripPiece(s[..n], Quoted) == s[..n] by { StripKept(s[..n]); }
    QuotedStep(rest, Closer(s[0]));
    Regroup([s[0]], rest[..n - 1], Strip(rest[n - 1..]));
  }

  lemma OpeningPiece(s: string)
    requires OpeningOf(s).Delimited? || OpeningOf(s).Bracketed?
    ensures s != "" && PieceLength(s) == 1 + InQuote(s[1..], Closer(s[0])) && PieceKind(s) == Quoted
  {
    hide InQuote;
  }

  lemma StripKept(piece: string)
    ensures StripPiece(piece, Quoted) == StripPiece(piece, Plain) == piece
  {
  }

  lemma {:induction false} StripUnfold(s: string)
    requires s != ""
    ensures Strip(s) == StripPiece(s[..PieceLength(s)], PieceKind(s)) + Strip(s[PieceLength(s)..])
  {
    hide PieceLength, PieceKind, StripPiece;
  }

  lemma StripNothing()
    ensures Strip("") == ""
  {
  }

  lemma Regroup(a: string, b: string, c: string)
    ensures (a + b) + c == a + (b + c)
  {
  }

  lemma {:induction false} LineStep(s: string)
    requires OpeningOf(s).LineComment?
    ensures Strip(s) == " " + Strip(s[PieceLength(s)..])
  {
    NoBreaks(s[2..], LineLength(s[2..]));
    NoBreaks(s, PieceLength(s));
  }

  lemma {:induction false} NoBreaks(s: string, n: nat)
    requires n <= |s| && forall i :: 0 <= i < n ==> !IsBreak(s[i])
    ensures Breaks(s[..n]) == ""
  {
    if n > 0 {
      NoBreaks(s[1..], n - 1);
      assert s[..n][1..] == s[1..][..n - 1];
    }
  }

  method SkipLine(sql: string, from: nat) returns (index: nat)
    requires from <= |sql|
    ensures index == from + LineLength(sql[from..])
  {
    index := from;
    while index < |sql| && sql[index] != '\n' && sql[index] != '\r'
      invariant index <= |sql|
      invariant index + LineLength(sql[index..]) == from + LineLength(sql[from..])
    {
      assert sql[index..][1..] == sql[index + 1..];
      index := index + 1;
    }
  }

  // Length of a comment body, its closing `*/` included when there is one.
  function BlockLength(s: string): (n: nat)
    ensures n <= |s|
  {
    if BlockEnd(s) == 0 then |s| else BlockEnd(s)
  }

  lemma BlockLengthStep(s: string)
    requires s != ""
    ensures |s| > 1 && s[0] == '*' && s[1] == '/' ==> BlockLength(s) == 2
    ensures !(|s| > 1 && s[0] == '*' && s[1] == '/') ==> BlockLength(s) == 1 + BlockLength(s[1..])
  {
  }

  method SkipBlock(sql: string, from: nat) returns (breaks: string, index: nat)
    requires from <= |sql|
    ensures index == from + BlockLength(sql[from..])
    ensures breaks == Breaks(sql[from..index])
  {
    hide Breaks, BlockLength;
    index := from;
    breaks := "";
    assert Breaks(sql[from..from]) == "" by { BreaksNothing(); }
    while index < |sql| && !(sql[index] == '*' && index + 1 < |sql| && sql[index + 1] == '/')
      invariant from <= index <= |sql|
      invariant index + BlockLength(sql[index..]) == from + BlockLength(sql[from..])
      invariant breaks == Breaks(sql[from..index])
    {
      BlockLengthStep(sql[index..]);
      assert sql[index..][1..] == sql[index + 1..];
      BreaksGrow(sql, from, index);
      if sql[index] == '\n' || sql[index] == '\r' {
        breaks := breaks + [sql[index]];
      }
      index := index + 1;
    }
    if index < |sql| {
      BlockLengthStep(sql[index..]);
      BreaksGrow(sql, from, index);
      BreaksGrow(sql, from, index + 1);
      index := index + 2;
    }
  }

  lemma BreaksNothing()
    ensures Breaks("") == ""
  {
  }

  lemma BreaksGrow(s: string, from: nat, to: nat)
    requires from <= to < |s|
    ensures Breaks(s[from..to + 1]) == Breaks(s[from..to]) + if IsBreak(s[to]) then [s[to]] else ""
  {
    BreaksAppend(s[from..to], [s[to]]);
    assert s[from..to + 1] == s[from..to] + [s[to]];
  }

  lemma {:induction false} BreaksAppend(s: string, r: string)
    ensures Breaks(s + r) == Breaks(s) + Breaks(r)
  {
    if s == "" {
      assert s + r == r;
    } else {
      hide Breaks;
      BreaksAppend(s[1..], r);
      assert (s + r)[1..] == s[1..] + r;
      Regroup(if IsBreak(s[0]) then [s[0]] else "", Breaks(s[1..]), Breaks(r));
    }
  }

  lemma {:induction false} BlockStep(s: string)
    requires OpeningOf(s).BlockComment?
    ensures PieceLength(s) == 2 + BlockLength(s[2..])
    ensures Strip(s) == " " + Breaks(s[2..PieceLength(s)]) + Strip(s[PieceLength(s)..])
  {
    hide Strip, Breaks, BlockEnd;
    var n := PieceLength(s);
    StripUnfold(s);
    BreaksAppend(s[..2], s[2..n]);
    assert s[..n] == s[..2] + s[2..n];
    NoBreaks(s, 2);
    hide *;
    assert Breaks(s[..n]) == Breaks(s[2..n]);
  }

  // `result` has been emitted for `whole` and `s` is still to be read.
  ghost predicate Emitted(result: string, s: string, quote: string, whole: string) {
    |quote| <= 1 && result + StripFrom(s, quote) == whole
  }

  lemma EmitQuoted(result: string, s: string, quote: string, whole: string)
    requires Emitted(result, s, quote, whole) && |quote| == 1 && s != ""
    ensures s[0] != quote[0] ==> Emitted(result + [s[0]], s[1..], quote, whole)
    ensures s[0] == quote[0] && quote[0] != ']' && |s| > 1 && s[1] == quote[0]
      ==> Emitted(result + s[..2], s[2..], quote, whole)
    ensures s[0] == quote[0] && (quote[0] == ']' || |s| == 1 || s[1] != quote[0])
      ==> Emitted(result + [s[0]], s[1..], "", whole)
  {
    hide Strip;
    var rest := StripFrom(s[1..], quote);
    Regroup(result, [s[0]], rest);
    Regroup(result, [s[0]], Strip(s[1..]));
    if |s| > 1 {
      Regroup(result, s[..2], StripFrom(s[2..], quote));
    }
  }

  lemma EmitOpening(result: string, s: string, whole: string)
    requires Emitted(result, s, "", whole) && (OpeningOf(s).Delimited? || OpeningOf(s).Bracketed?)
    ensures Emitted(result + [s[0]], s[1..], [Closer(s[0])], whole)
  {
    hide Strip, InQuote;
    OpeningStep(s);
    Regroup(result, [s[0]], StripFrom(s[1..], [Closer(s[0])]));
  }

  lemma EmitPlain(result: string, s: string, whole: string)
    requires Emitted(result, s, "", whole) && s != "" && OpeningOf(s).NoOpening?
    ensures Emitted(result + [s[0]], s[1..], "", whole)
  {
  }

  lemma EmitLine(result: string, s: string, whole: string)
    requires Emitted(result, s, "", whole) && OpeningOf(s).LineComment?
    ensures Emitted(result + " ", s[PieceLength(s)..], "", whole)
  {
    LineStep(s);
  }

  lemma EmitBlock(result: string, s: string, whole: string)
    requires Emitted(result, s, "", whole) && OpeningOf(s).BlockComment?
    ensures Emitted(result + " " + Breaks(s[2..PieceLength(s)]), s[PieceLength(s)..], "", whole)
  {
    BlockStep(s);
    hide Strip, PieceLength, Breaks, OpeningOf;
    Regroup(result, " " + Breaks(s[2..PieceLength(s)]), Strip(s[PieceLength(s)..]));
    Regroup(result, " ", Breaks(s[2..PieceLength(s)]));
  }

  lemma {:induction false} EmitNothing(sql: string)
    ensures Emitted("", sql[0..], "", Strip(sql))
  {
    hide Strip;
    assert sql[0..] == sql && "" + Strip(sql) == Strip(sql);
  }

  lemma EmittedAll(result: string, quote: string, whole: string)
    requires Emitted(result, "", quote, whole)
    ensures result == whole
  {
  }

  // What is left to read, a step or a piece further on.
  lemma RestOf(s: string, i: nat)
    requires i < |s|
    ensures s[i..][0] == s[i] && s[i + 1..] == s[i..][1..]
    ensures i + 1 < |s| ==> s[i..][1] == s[i + 1] && s[i + 2..] == s[i..][2..] && s[i..][..2] == [s[i], s[i + 1]]
  {
  }

  lemma RestFrom(s: string, i: nat, j: nat)
    requires i <= j <= |s|
    ensures s[j..] == s[i..][j - i..]
    ensures i + 2 <= j ==> s[i + 2..j] == s[i..][2..j - i]
  {
  }

  // The state of the scan at `index`.
  ghost predicate Reading(sql: string, result: string, index: nat, quote: string) {
    index <= |sql| && |quote| <= 1 && Emitted(result, sql[index..], quote, Strip(sql))
  }

  lemma ReadQuoted(sql: string, result: string, index: nat, quote: string)
    requires Reading(sql, result, index, quote) && index < |sql| && quote != ""
    ensures sql[index] != quote[0] ==> Reading(sql, result + [sql[index]], index + 1, quote)
    ensures sql[index] == quote[0] && quote[0] != ']' && index + 1 < |sql| && sql[index + 1] == quote[0] ==>
      Reading(sql, result + [sql[index]] + [sql[index + 1]], index + 2, quote)
    ensures sql[index] == quote[0] && !(quote[0] != ']' && index + 1 < |sql| && sql[index + 1] == quote[0]) ==>
      Reading(sql, result + [sql[index]], index + 1, "")
  {
    hide Emitted, Strip;
    RestOf(sql, index);
    EmitQuoted(result, sql[index..], quote, Strip(sql));
    if index + 1 < |sql| {
      assert result + [sql[index]] + [sql[index + 1]] == result + [sql[index], sql[index + 1]];
    }
  }

  lemma ReadOpening(sql: string, result: string, index: nat)
    requires Reading(sql, result, index, "") && index < |sql| && (IsDelimiter(sql[index]) || sql[index] == '[')
    ensures Reading(sql, result + [sql[index]], index + 1, if sql[index] == '[' then "]" else [sql[index]])
  {
    hide Emitted, Strip;
    RestOf(sql, index);
    EmitOpening(result, sql[index..], Strip(sql));
  }

  lemma ReadPlain(sql: string, result: string, index: nat)
    requires Reading(sql, result, index, "") && index < |sql| && OpeningOf(sql[index..]).NoOpening?
    ensures Reading(sql, result + [sql[index]], index + 1, "")
  {
    hide Emitted, Strip;
    RestOf(sql, index);
    EmitPlain(result, sql[index..], Strip(sql));
  }

  lemma PlainHere(sql: string, index: nat)
    requires index < |sql| && !IsDelimiter(sql[index]) && sql[index] != '['
    requires !(sql[index] == '-' && index + 1 < |sql| && sql[index + 1] == '-')
    requires !(sql[index] == '/' && index + 1 < |sql| && sql[index + 1] == '*')
    ensures OpeningOf(sql[index..]).NoOpening?
  {
    RestOf(sql, index);
  }

  // A line comment, and the break that ends it, if one does.
  lemma ReadLine(sql: string, result: string, index: nat, next: nat)
    requires Reading(sql, result, index, "") && index + 1 < |sql| && sql[index] == '-' && sql[index + 1] == '-'
    requires next == index + 2 + LineLength(sql[index + 2..])
    ensures Reading(sql, result + " ", next, "")
    ensures next < |sql| ==> OpeningOf(sql[next..]).NoOpening?
  {
    hide Emitted, Strip, LineLength;
    RestOf(sql, index);
    EmitLine(result, sql[index..], Strip(sql));
    assert next == index + PieceLength(sql[index..]);
    RestFrom(sql, index, next);
    if next < |sql| {
      LineEndsPlain(sql, index + 2);
    }
  }

  lemma LineEndsPlain(sql: string, from: nat)
    requires from <= |sql| && from + LineLength(sql[from..]) < |sql|
    ensures OpeningOf(sql[from + LineLength(sql[from..])..]).NoOpening?
  {
    var next := from + LineLength(sql[from..]);
    assert sql[next] == sql[from..][next - from];
    hide LineLength;
    RestOf(sql, next);
  }

  lemma ReadBlock(sql: string, result: string, index: nat, next: nat)
    requires Reading(sql, result, index, "") && index + 1 < |sql| && sql[index] == '/' && sql[index + 1] == '*'
    requires next == index + 2 + BlockLength(sql[index + 2..])
    ensures index + 2 <= next <= |sql| && Reading(sql, result + " " + Breaks(sql[index + 2..next]), next, "")
  {
    hide Emitted, Strip, BlockLength, Breaks, PieceLength;
    RestOf(sql, index);
    BlockStep(sql[index..]);
    EmitBlock(result, sql[index..], Strip(sql));
    RestFrom(sql, index, next);
    assert result + " " + Breaks(sql[index + 2..next]) == result + (" " + Breaks(sql[index + 2..next]));
  }

  lemma {:induction false} ReadAll(sql: string, result: string, quote: string)
    requires Reading(sql, result, |sql|, quote)
    ensures result == Strip(sql)
  {
    hide Strip, Emitted;
    assert sql[|sql|..] == "";
    EmittedAll(result, quote, Strip(sql));
  }

  // The text is read to the end exactly once, and what is emitted is `Strip`.
  method StripSqlComments(sql: string) returns (result: string)
    ensures result == Strip(sql)
  {
    hide *;
    result := "";
    var quote := "";
    var index := 0;
    ReadNothing(sql);
    while index < |sql|
      invariant index <= |sql| && |quote| <= 1
      invariant Reading(sql, result, index, quote)
    {
      var c := sql[index];
      if quote != "" {
        ReadQuoted(sql, result, index, quote);
        result := result + [c];
        if c == quote[0] {
          if quote[0] != ']' && index + 1 < |sql| && sql[index + 1] == quote[0] {
            result := result + [sql[index + 1]];
            index := index + 1;
          } else {
            quote := "";
          }
        }
        index := index + 1;
      } else if c == '\'' || c == '"' || c == '`' || c == '[' {
        DelimiterIs(c);
        ReadOpening(sql, result, index);
        quote := if c == '[' then "]" else [c];
        result := result + [c];
        index := index + 1;
      } else if c == '-' && index + 1 < |sql| && sql[index + 1] == '-' {
        var next := SkipLine(sql, index + 2);
        ReadLine(sql, result, index, next);
        ReadingInside(sql, result + " ", next, "");
        result := result + " ";
        index := next;
        if index < |sql| {
          ReadPlain(sql, result, index);
          result := result + [sql[index]];
          index := index + 1;
        }
      } else if c == '/' && index + 1 < |sql| && sql[index + 1] == '*' {
        var breaks, next := SkipBlock(sql, index + 2);
        ReadBlock(sql, result, index, next);
        result := result + " " + breaks;
        index := next;
      } else {
        DelimiterIs(c);
        PlainHere(sql, index);
        ReadPlain(sql, result, index);
        result := result + [c];
        index := index + 1;
      }
    }
    ReadAll(sql, result, quote);
  }

  lemma ReadNothing(sql: string)
    ensures Reading(sql, "", 0, "")
  {
    hide Emitted, Strip;
    EmitNothing(sql);
  }

  lemma ReadingInside(sql: string, result: string, index: nat, quote: string)
    requires Reading(sql, result, index, quote)
    ensures index <= |sql|
  {
  }

  lemma DelimiterIs(c: char)
    ensures IsDelimiter(c) <==> c == '\'' || c == '"' || c == '`'
  {
  }
}
