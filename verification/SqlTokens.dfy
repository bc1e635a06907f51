// The token expression of scripts/ci/check-sql-interpolation-safety.ts as a language: which texts each of
// its alternatives matches, which of the matches that are possible at one place it takes, and what the
// replacement makes of the text.
module SqlTokens {
  import opened SqlLexer
  import opened SqlMaskLaws

  // The first two alternatives: two dashes up to the end of the line, and a block up to a closing mark.
  predicate IsLineComment(t: string) {
    |t| >= 2 && t[0] == '-' && t[1] == '-' && '\n' !in t
  }

  predicate IsBlockComment(t: string) {
    |t| >= 4 && t[0] == '/' && t[1] == '*' && t[|t| - 2] == '*' && t[|t| - 1] == '/'
  }

  // The next three: between two delimiters, other characters and doubled delimiters.
  predicate IsBody(t: string, q: char) {
    || t == ""
    || (t[0] != q && IsBody(t[1..], q))
    || (|t| >= 2 && t[0] == q && t[1] == q && IsBody(t[2..], q))
  }

  predicate IsQuoted(t: string) {
    && |t| >= 2 && (t[0] == '\'' || t[0] == '"' || t[0] == '`') && t[|t| - 1] == t[0]
    && IsBody(t[1..|t| - 1], t[0])
  }

  // The last: brackets around anything but a closing one.
  predicate IsBracketed(t: string) {
    |t| >= 2 && t[0] == '[' && t[|t| - 1] == ']' && ']' !in t[..|t| - 1]
  }

  predicate IsToken(t: string) {
    IsLineComment(t) || IsBlockComment(t) || IsQuoted(t) || IsBracketed(t)
  }

  // The token taken at the start of a text: a block comment as short as can be, any other as long as can
  // be.
  ghost predicate Takes(s: string, n: nat) {
    && n <= |s| && IsToken(s[..n])
    && (IsBlockComment(s[..n]) ==> forall m :: 0 <= m <= |s| && IsBlockComment(s[..m]) ==> n <= m)
    && (!IsBlockComment(s[..n]) ==> forall m :: 0 <= m <= |s| && IsToken(s[..m]) ==> m <= n)
  }

  ghost predicate TakesNone(s: string) {
    forall m :: 0 <= m <= |s| ==> !IsToken(s[..m])
  }

  // ------------------------------------------------------------------ quoted text

  // An end of quoted text whose opening delimiter was read before `s`.
  ghost predicate Closes(s: string, q: char, m: nat) {
    0 < m <= |s| && s[m - 1] == q && IsBody(s[..m - 1], q)
  }

  lemma {:induction false} BodyStep(s: string, q: char, m: nat)
    requires 0 < m <= |s|
    ensures s[0] != q ==> (IsBody(s[..m], q) <==> IsBody(s[1..][..m - 1], q))
    ensures s[0] == q && m >= 2 && s[1] == q ==> (IsBody(s[..m], q) <==> IsBody(s[2..][..m - 2], q))
    ensures s[0] == q && !(m >= 2 && s[1] == q) ==> !IsBody(s[..m], q)
  {
    assert s[..m][1..] == s[1..][..m - 1];
    if m >= 2 {
      assert s[..m][2..] == s[2..][..m - 2];
    }
  }

  // The token ends at the last of the places where it could.
  lemma {:induction false} QuoteEndIsLast(s: string, q: char)
    ensures QuoteEnd(s, q) > 0 ==> Closes(s, q, QuoteEnd(s, q))
    ensures forall m: nat :: Closes(s, q, m) ==> m <= QuoteEnd(s, q)
  {
    if s != "" {
      if s[0] != q {
        QuoteEndIsLast(s[1..], q);
      } else if |s| > 1 && s[1] == q {
        QuoteEndIsLast(s[2..], q);
      }
      var n := QuoteEnd(s, q);
      if n > 1 {
        BodyStep(s, q, n - 1);
      }
      forall m: nat | Closes(s, q, m)
        ensures m <= n
      {
        ClosesBefore(s, q, m);
      }
    }
  }

  lemma ClosesBefore(s: string, q: char, m: nat)
    requires Closes(s, q, m)
    ensures s[0] != q ==> m > 1 && Closes(s[1..], q, m - 1)
    ensures s[0] == q && |s| > 1 && s[1] == q && m > 1 ==> m > 2 && Closes(s[2..], q, m - 2)
    ensures s[0] == q && !(|s| > 1 && s[1] == q) ==> m == 1
  {
    if m > 1 {
      BodyStep(s, q, m - 1);
    }
  }

  // ------------------------------------------------------------------ blocks

  lemma {:induction false} BlockEndIsFirst(s: string)
    ensures forall k :: 0 <= k < |s| - 1 && s[k] == '*' && s[k + 1] == '/' ==> 0 < BlockEnd(s) <= k + 2
  {
    if |s| >= 2 && !(s[0] == '*' && s[1] == '/') {
      BlockEndIsFirst(s[1..]);
      forall k | 0 <= k < |s| - 1 && s[k] == '*' && s[k + 1] == '/'
        ensures 0 < BlockEnd(s) <= k + 2
      {
        assert s[1..][k - 1] == '*' && s[1..][k] == '/';
      }
    }
  }

  // ------------------------------------------------------------------ the expression

  lemma Alternatives(s: string, m: nat)
    requires m <= |s|
    ensures IsLineComment(s[..m]) ==> OpeningOf(s).LineComment?
    ensures IsBlockComment(s[..m]) ==> OpeningOf(s).BlockComment?
    ensures IsQuoted(s[..m]) ==> OpeningOf(s).Delimited?
    ensures IsBracketed(s[..m]) ==> OpeningOf(s).Bracketed?
  {
  }

  lemma InPrefix(s: string, n: nat, m: nat)
    ensures n < m <= |s| ==> s[n] in s[..m]
  {
  }

  lemma LineTaken(s: string)
    requires OpeningOf(s).LineComment?
    ensures Takes(s, TokenLength(s)) && IsLineComment(s[..TokenLength(s)])
  {
    var n := UpTo(s, '\n');
    assert n >= 2;
    forall m | 0 <= m <= |s| && IsToken(s[..m])
      ensures m <= n
    {
      Alternatives(s, m);
      InPrefix(s, n, m);
    }
  }

  lemma BlockTaken(s: string)
    requires OpeningOf(s).BlockComment?
    ensures TokenLength(s) == 0 ==> TakesNone(s)
    ensures TokenLength(s) > 0 ==> Takes(s, TokenLength(s)) && IsBlockComment(s[..TokenLength(s)])
  {
    BlockEndIsFirst(s[2..]);
    forall m | 0 <= m <= |s| && IsToken(s[..m])
      ensures 0 < TokenLength(s) <= m
    {
      Alternatives(s, m);
      assert IsBlockComment(s[..m]);
      var k := m - 4;
      assert s[2..][k] == '*' && s[2..][k + 1] == '/';
    }
  }

  lemma QuotedExactly(s: string, m: nat)
    requires OpeningOf(s).Delimited? && 0 < m <= |s|
    ensures IsToken(s[..m]) <==> Closes(s[1..], s[0], m - 1)
    ensures IsToken(s[..m]) <==> IsQuoted(s[..m])
  {
    Alternatives(s, m);
    if m >= 2 {
      assert s[..m][1..m - 1] == s[1..][..m - 2];
    }
  }

  lemma QuotedTaken(s: string)
    requires OpeningOf(s).Delimited?
    ensures TokenLength(s) == 0 ==> TakesNone(s)
    ensures TokenLength(s) > 0 ==> Takes(s, TokenLength(s)) && IsQuoted(s[..TokenLength(s)])
  {
    var n := QuoteEnd(s[1..], s[0]);
    QuoteEndIsLast(s[1..], s[0]);
    NothingIsToken();
    QuotedIsNoBlock(s);
    assert s[..0] == "";
    hide QuoteEnd, IsQuoted, IsToken, IsBlockComment;
    forall m | 0 <= m <= |s| && IsToken(s[..m])
      ensures 0 < n && m <= n + 1
    {
      QuotedExactly(s, m);
    }
    if n > 0 {
      QuotedExactly(s, n + 1);
    }
  }

  lemma NothingIsToken()
    ensures !IsToken("")
  {
  }

  lemma QuotedIsNoBlock(s: string)
    requires OpeningOf(s).Delimited?
    ensures forall m :: 0 <= m <= |s| ==> !IsBlockComment(s[..m])
  {
  }

  lemma BracketTaken(s: string)
    requires OpeningOf(s).Bracketed?
    ensures TokenLength(s) == 0 ==> TakesNone(s)
    ensures TokenLength(s) > 0 ==> Takes(s, TokenLength(s)) && IsBracketed(s[..TokenLength(s)])
  {
    var n := UpTo(s, ']');
    forall m | 0 <= m <= |s| && IsToken(s[..m])
      ensures m == n + 1
    {
      Alternatives(s, m);
      assert IsBracketed(s[..m]) && s[m - 1] == ']';
      assert s[..m][..m - 1] == s[..m - 1];
      InPrefix(s, n, m - 1);
    }
  }

  // The length that the scanner moves on is that of the token the expression takes, and none is left
  // where it takes none.
  lemma TokenExactly(s: string)
    ensures TokenLength(s) == 0 ==> TakesNone(s)
    ensures TokenLength(s) > 0 ==> Takes(s, TokenLength(s))
    ensures TokenLength(s) > 0 ==> (OpeningOf(s).LineComment? || OpeningOf(s).BlockComment? <==>
      IsLineComment(s[..TokenLength(s)]) || IsBlockComment(s[..TokenLength(s)]))
  {
    hide Takes, TakesNone, IsLineComment, IsBlockComment, IsQuoted, IsBracketed, TokenLength;
    var n := TokenLength(s);
    Alternatives(s, n);
    match OpeningOf(s)
    case NoOpening => NoneTaken(s);
    case LineComment => LineTaken(s);
    case BlockComment => BlockTaken(s);
    case Delimited => QuotedTaken(s);
    case Bracketed => BracketTaken(s);
  }

  lemma NoneTaken(s: string)
    requires OpeningOf(s).NoOpening?
    ensures TakesNone(s) && TokenLength(s) == 0
  {
    forall m | 0 <= m <= |s|
      ensures !IsToken(s[..m])
    {
      Alternatives(s, m);
    }
  }

  lemma TakenOnce(s: string, n: nat)
    requires Takes(s, n)
    ensures n > 0 && TokenLength(s) == n
  {
    TokenExactly(s);
    TakenIsSome(s, n);
    NothingIsToken();
    assert s[..0] == "";
    hide TokenLength, IsToken, TakesNone, IsBlockComment;
    if TokenLength(s) > 0 {
      SameForm(s, n, TokenLength(s));
    }
  }

  lemma TakenIsSome(s: string, n: nat)
    ensures Takes(s, n) ==> !TakesNone(s)
  {
    hide IsToken;
  }

  // Two tokens at one place are both block comments or neither.
  lemma SameForm(s: string, m: nat, n: nat)
    requires m <= |s| && n <= |s| && IsToken(s[..m]) && IsToken(s[..n])
    ensures IsBlockComment(s[..m]) <==> IsBlockComment(s[..n])
  {
    Alternatives(s, m);
    Alternatives(s, n);
  }

  // The replacement, from left to right: a comment that is taken becomes as many spaces, any other token
  // as many x, and a character at which none is taken stays.
  lemma MaskReplaces(s: string, n: nat)
    requires s != ""
    ensures TakesNone(s) ==> Mask(s) == [s[0]] + Mask(s[1..])
    ensures Takes(s, n) ==>
      Mask(s) == Repeat(if IsLineComment(s[..n]) || IsBlockComment(s[..n]) then ' ' else 'x', n) + Mask(s[n..])
  {
    TokenExactly(s);
    MaskStep(s);
    if TakesNone(s) {
      NoneIsPlain(s);
      assert Masked(s[..1], StepKinds(s)) == [s[0]];
    }
    if Takes(s, n) {
      TakenOnce(s, n);
      hide Takes, TakesNone, TokenLength, Kinds, Mask, IsLineComment, IsBlockComment;
      var c := if IsLineComment(s[..n]) || IsBlockComment(s[..n]) then ' ' else 'x';
      assert Masked(s[..n], StepKinds(s)) == Repeat(c, n);
    }
  }

  lemma NoneIsPlain(s: string)
    requires s != "" && TakesNone(s)
    ensures TokenLength(s) == 0
  {
    TokenExactly(s);
    TakenIsSome(s, TokenLength(s));
    hide TokenLength, Takes, TakesNone;
  }

  // ------------------------------------------------------------------ characters

  // White space as ECMAScript has it (sections 12.2 and 12.3 of ECMA-262), by code unit.
  lemma WhiteSpace(c: char)
    ensures IsSpace(c) <==>
      || 9 <= c as int <= 13 || c as int in {0x20, 0xA0, 0x1680, 0x2028, 0x2029, 0x202F, 0x205F, 0x3000, 0xFEFF}
      || 0x2000 <= c as int <= 0x200A
  {
  }
}
