// stripSqlComments of scripts/ci/check-worker-migrations.ts, read off the characters alone: what opens at
// the head of a text, how far it goes, and what is left of it.
module SqlStripping {
  import opened SqlLexer
  import opened SqlTokens
  import opened SqlComments

  // Where a line comment ends: before the first line feed or carriage return, or with the text.
  ghost predicate LineEnds(s: string, n: nat) {
    && 2 <= n <= |s|
    && (forall i :: 2 <= i < n ==> s[i] != '\n' && s[i] != '\r')
    && (n < |s| ==> s[n] == '\n' || s[n] == '\r')
  }

  // Where a block comment ends: behind the first closing mark.
  ghost predicate BlockCloses(s: string, n: nat) {
    4 <= n <= |s| && s[n - 2] == '*' && s[n - 1] == '/' && forall i :: 2 <= i < n - 2 ==> !(s[i] == '*' && s[i + 1] == '/')
  }

  // Where a quoted text ends: behind a delimiter that is not one of a doubled pair.
  ghost predicate QuoteStops(s: string, q: char, n: nat) {
    Closes(s, q, n) && (n < |s| ==> s[n] != q)
  }

  ghost predicate BracketStops(s: string, n: nat) {
    0 < n <= |s| && s[n - 1] == ']' && ']' !in s[..n - 1]
  }

  // The line breaks of a text, in order.
  ghost predicate AreBreaks(s: string, b: string)
    decreases |s|
  {
    if s == "" then b == ""
    else if s[0] == '\n' || s[0] == '\r' then b != "" && b[0] == s[0] && AreBreaks(s[1..], b[1..])
    else AreBreaks(s[1..], b)
  }

  lemma {:induction false} BreaksAre(s: string)
    ensures AreBreaks(s, Breaks(s)) && forall b :: AreBreaks(s, b) ==> b == Breaks(s)
  {
    if s != "" {
      BreaksAre(s[1..]);
      var all := Breaks(s);
      if s[0] == '\n' || s[0] == '\r' {
        assert all == [s[0]] + Breaks(s[1..]) && all[1..] == Breaks(s[1..]);
        forall b | AreBreaks(s, b)
          ensures b == all
        {
          assert AreBreaks(s[1..], b[1..]);
        assert b == [b[0]] + b[1..];
        }
      } else {
        assert all == Breaks(s[1..]);
      }
    }
  }

  // -------------------------------------------------------------- how far a piece goes

  lemma LineEndsOnce(s: string, n: nat)
    requires LineEnds(s, n)
    ensures LineLength(s[2..]) == n - 2
  {
    var k := LineLength(s[2..]);
    assert forall i :: 0 <= i < |s| - 2 ==> s[2..][i] == s[i + 2];
  }

  lemma BlockClosesOnce(s: string)
    requires |s| >= 2
    ensures forall n: nat :: BlockCloses(s, n) ==> BlockEnd(s[2..]) == n - 2
    ensures BlockEnd(s[2..]) > 0 ==> BlockCloses(s, BlockEnd(s[2..]) + 2)
  {
    var rest, e := s[2..], BlockEnd(s[2..]);
    BlockEndIsFirst(rest);
    assert forall i :: 0 <= i < |rest| ==> rest[i] == s[i + 2];
    hide BlockEnd;
    forall n: nat | BlockCloses(s, n)
      ensures e == n - 2
    {
      assert rest[n - 4] == '*' && rest[n - 4 + 1] == '/';
    }
    if e > 0 {
      forall i | 2 <= i < e
        ensures !(s[i] == '*' && s[i + 1] == '/')
      {
        assert rest[i - 2] == s[i] && rest[i - 2 + 1] == s[i + 1];
      }
    }
  }

  lemma {:induction false} QuoteStopsOnce(s: string, q: char)
    requires q != ']'
    ensures forall n: nat :: QuoteStops(s, q, n) ==> InQuote(s, q) == n && QuoteCloses(s, q)
    ensures if QuoteCloses(s, q) then QuoteStops(s, q, InQuote(s, q)) else InQuote(s, q) == |s|
    decreases |s|
  {
    if s != "" {
      if s[0] != q {
        QuoteStopsOnce(s[1..], q);
      } else if |s| > 1 && s[1] == q {
        QuoteStopsOnce(s[2..], q);
      }
      forall n: nat | QuoteStops(s, q, n)
        ensures InQuote(s, q) == n && QuoteCloses(s, q)
      {
        StopsBefore(s, q, n);
      }
      if QuoteCloses(s, q) {
        StopsBehind(s, q, InQuote(s, q));
      }
    }
  }

  lemma StopsBefore(s: string, q: char, n: nat)
    requires QuoteStops(s, q, n)
    ensures s[0] != q ==> n > 1 && QuoteStops(s[1..], q, n - 1)
    ensures s[0] == q && |s| > 1 && s[1] == q ==> n > 2 && QuoteStops(s[2..], q, n - 2)
    ensures s[0] == q && !(|s| > 1 && s[1] == q) ==> n == 1
  {
    ClosesBefore(s, q, n);
  }

  lemma StopsBehind(s: string, q: char, n: nat)
    requires s != ""
    ensures s[0] != q && n > 1 && QuoteStops(s[1..], q, n - 1) ==> QuoteStops(s, q, n)
    ensures s[0] == q && |s| > 1 && s[1] == q && n > 2 && QuoteStops(s[2..], q, n - 2) ==> QuoteStops(s, q, n)
    ensures s[0] == q && !(|s| > 1 && s[1] == q) ==> QuoteStops(s, q, 1)
  {
    if 1 < n <= |s| {
      BodyStep(s, q, n - 1);
    }
  }

  lemma {:induction false} BracketStopsOnce(s: string)
    ensures forall n: nat :: BracketStops(s, n) ==> InQuote(s, ']') == n
    ensures ']' !in s ==> InQuote(s, ']') == |s|
  {
    if s != "" && s[0] != ']' {
      BracketStopsOnce(s[1..]);
      forall n: nat | BracketStops(s, n)
        ensures InQuote(s, ']') == n
      {
        LaterBracket(s, n);
      }
    } else if s != "" {
      forall n: nat | BracketStops(s, n)
        ensures n == 1
      {
        OnlyFirst(s, n);
      }
    }
  }

  lemma LaterBracket(s: string, n: nat)
    requires BracketStops(s, n) && s[0] != ']'
    ensures n > 1 && BracketStops(s[1..], n - 1)
  {
    assert s[..n - 1] == [s[0]] + s[1..][..n - 2];
  }

  lemma OnlyFirst(s: string, n: nat)
    requires BracketStops(s, n) && s[0] == ']'
    ensures n == 1
  {
    InPrefix(s, 0, n - 1);
  }

  // -------------------------------------------------------------- what is left

  predicate OpensComment(s: string) {
    |s| > 1 && ((s[0] == '-' && s[1] == '-') || (s[0] == '/' && s[1] == '*'))
  }

  // The piece at the head of a text: a comment or a quoted text up to its end, or the rest where it has
  // none, and otherwise one character.
  ghost predicate Decided(s: string, n: nat)
    requires s != "" && 0 < n <= |s|
  {
    if |s| > 1 && s[0] == '-' && s[1] == '-' then LineEnds(s, n)
    else if |s| > 1 && s[0] == '/' && s[1] == '*' then BlockCloses(s, n) || (n == |s| && forall m: nat :: !BlockCloses(s, m))
    else if s[0] == '\'' || s[0] == '"' || s[0] == '`' then
      QuoteStops(s[1..], s[0], n - 1) || (n == |s| && forall m: nat :: !QuoteStops(s[1..], s[0], m))
    else if s[0] == '[' then BracketStops(s[1..], n - 1) || (n == |s| && ']' !in s[1..])
    else n == 1
  }

  // Each text has exactly one.
  lemma AlwaysDecided(s: string)
    requires s != ""
    ensures forall n :: 0 < n <= |s| ==> (Decided(s, n) <==> n == PieceLength(s))
  {
    match OpeningOf(s)
    case LineComment =>
      assert forall i :: 0 <= i < |s| - 2 ==> s[2..][i] == s[i + 2];
      assert LineEnds(s, PieceLength(s));
      forall n | 0 < n <= |s| && LineEnds(s, n)
        ensures n == PieceLength(s)
      {
        LineEndsOnce(s, n);
      }
    case BlockComment =>
      BlockClosesOnce(s);
      hide BlockEnd;
    case Delimited =>
      QuoteStopsOnce(s[1..], s[0]);
      hide InQuote, QuoteCloses, QuoteStops;
    case Bracketed =>
      BracketEnd(s[1..]);
      BracketStopsOnce(s[1..]);
      hide InQuote;
    case NoOpening =>
  }

  lemma {:induction false} BracketEnd(s: string)
    ensures ']' in s ==> BracketStops(s, InQuote(s, ']'))
  {
    if s != "" && s[0] != ']' {
      BracketEnd(s[1..]);
      var n := InQuote(s, ']');
      assert n >= 2 ==> s[..n - 1] == [s[0]] + s[1..][..n - 2];
    }
  }

  // A comment leaves a space and its line breaks, anything else is left as it is.
  lemma {:induction false} StripsExactly(s: string, n: nat, breaks: string)
    requires s != "" && 0 < n <= |s| && Decided(s, n) && AreBreaks(s[..n], breaks)
    ensures Strip(s) == (if OpensComment(s) then " " + breaks else s[..n]) + Strip(s[n..])
  {
    AlwaysDecided(s);
    BreaksAre(s[..n]);
    KindIs(s);
    hide PieceLength, PieceKind, Decided, OpensComment, AreBreaks, Breaks;
  }

  lemma KindIs(s: string)
    requires s != ""
    ensures PieceKind(s) == Comment <==> OpensComment(s)
  {
  }
}
