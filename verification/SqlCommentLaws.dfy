// What stripping comments keeps, and when its reading of a text is the reading of
// the token expression.
module SqlCommentLaws {
  import opened SqlLexer
  import opened SqlMaskLaws
  import opened SqlComments

  datatype Piece = Piece(kind: Kind, text: string)

  // The text cut into quoted tokens, comments and single characters.
  function Pieces(s: string): seq<Piece> {
    if s == "" then [] else [Piece(PieceKind(s), s[..PieceLength(s)])] + Pieces(s[PieceLength(s)..])
  }

  function TextOf(ps: seq<Piece>): string {
    if ps == [] then "" else ps[0].text + TextOf(ps[1..])
  }

  function PlainPieces(t: string): seq<Piece> {
    if t == "" then [] else [Piece(Plain, [t[0]])] + PlainPieces(t[1..])
  }

  // Each comment piece replaced by a space and its line breaks, as plain characters.
  function StrippedPiece(p: Piece): seq<Piece> {
    if p.kind == Comment then PlainPieces(" " + Breaks(p.text)) else [p]
  }

  function StrippedPieces(ps: seq<Piece>): seq<Piece> {
    if ps == [] then [] else StrippedPiece(ps[0]) + StrippedPieces(ps[1..])
  }

  // -------------------------------------------------- reading the stripped text

  lemma {:induction false} PiecesUnfold(s: string)
    requires s != ""
    ensures Pieces(s) == [Piece(PieceKind(s), s[..PieceLength(s)])] + Pieces(s[PieceLength(s)..])
  {
    hide PieceLength, PieceKind;
  }

  // Only the characters that the stripper puts in the place of a comment.
  predicate White(t: string) {
    t == "" || ((t[0] == ' ' || IsBreak(t[0])) && White(t[1..]))
  }

  // White space is plain whatever follows it.
  lemma {:induction false} WhiteHead(c: char, r: string)
    requires c == ' ' || IsBreak(c)
    ensures Pieces([c] + r) == [Piece(Plain, [c])] + Pieces(r)
  {
    hide Pieces;
    var t := [c] + r;
    assert PieceLength(t) == 1 && PieceKind(t) == Plain;
    hide PieceLength, PieceKind;
    PiecesUnfold(t);
    assert t[..1] == [c] && t[1..] == r;
  }

  lemma {:induction false} PlainPrefix(t: string, r: string)
    requires White(t)
    ensures Pieces(t + r) == PlainPieces(t) + Pieces(r)
  {
    if t == "" {
      assert t + r == r;
    } else {
      hide Pieces, PlainPieces;
      assert t + r == [t[0]] + (t[1..] + r);
      WhiteHead(t[0], t[1..] + r);
      PlainPrefix(t[1..], r);
      ConcatAssociates([Piece(Plain, [t[0]])], PlainPieces(t[1..]), Pieces(r));
    }
  }

  lemma {:induction false} BreaksAreBreaks(s: string)
    ensures White(Breaks(s)) && Breaks(Breaks(s)) == Breaks(s)
  {
    if s != "" {
      BreaksAreBreaks(s[1..]);
      if IsBreak(s[0]) {
        assert Breaks(s)[1..] == Breaks(s[1..]);
      } else {
        assert Breaks(s) == Breaks(s[1..]);
      }
    }
  }

  lemma {:induction false} InQuoteStep(s: string, q: char)
    requires s != ""
    ensures s[0] != q ==> InQuote(s, q) == 1 + InQuote(s[1..], q) && QuoteCloses(s, q) == QuoteCloses(s[1..], q)
    ensures s[0] == q && q != ']' && |s| > 1 && s[1] == q
      ==> InQuote(s, q) == 2 + InQuote(s[2..], q) && QuoteCloses(s, q) == QuoteCloses(s[2..], q)
    ensures s[0] == q && (q == ']' || |s| == 1 || s[1] != q) ==> InQuote(s, q) == 1 && QuoteCloses(s, q)
  {
  }

  // A quoted token that does not reach the end of the text is closed, by a delimiter
  // that is not doubled.
  lemma {:induction false} InQuoteStops(s: string, q: char)
    requires InQuote(s, q) < |s|
    ensures QuoteCloses(s, q) && (q != ']' ==> s[InQuote(s, q)] != q)
    decreases |s|
  {
    hide InQuote, QuoteCloses;
    InQuoteStep(s, q);
    if s[0] != q {
      InQuoteStops(s[1..], q);
    } else if q != ']' && |s| > 1 && s[1] == q {
      InQuoteStops(s[2..], q);
    }
  }

  lemma DropFromTaken(s: string, n: nat, r: string, k: nat)
    requires k <= n <= |s|
    ensures (s[..n] + r)[k..] == s[k..][..n - k] + r
  {
  }

  // It ends at the same place when other text follows that does not double the delimiter.
  lemma {:induction false} InQuoteAppend(s: string, q: char, r: string)
    requires r != "" ==> QuoteCloses(s, q) && (q != ']' ==> r[0] != q)
    ensures InQuote(s[..InQuote(s, q)] + r, q) == InQuote(s, q)
    decreases |s|
  {
    var n := InQuote(s, q);
    var t := s[..n] + r;
    if s != "" {
      hide InQuote, QuoteCloses;
      InQuoteStep(s, q);
      InQuoteStep(t, q);
      if s[0] != q {
        DropFromTaken(s, n, r, 1);
        InQuoteAppend(s[1..], q, r);
      } else if q != ']' && |s| > 1 && s[1] == q {
        DropFromTaken(s, n, r, 2);
        InQuoteAppend(s[2..], q, r);
      } else {
        assert n == 1 && t == [q] + r;
      }
    }
  }

  // Quoted pieces and plain characters are read again as they were.
  lemma QuotedPieceAgain(s: string, r: string)
    requires OpeningOf(s).Delimited? || OpeningOf(s).Bracketed?
    requires PieceLength(s) == |s| ==> r == ""
    requires PieceLength(s) < |s| && r != "" ==> r[0] == s[PieceLength(s)] || r[0] == ' '
    ensures OpeningOf(s[..PieceLength(s)] + r) == OpeningOf(s)
    ensures PieceLength(s[..PieceLength(s)] + r) == PieceLength(s)
  {
    var n, q, body := PieceLength(s), Closer(s[0]), s[1..];
    var t := s[..n] + r;
    assert t[0] == s[0] && t[1..] == body[..n - 1] + r;
    hide InQuote;
    if n < |s| {
      InQuoteStops(body, q);
    }
    InQuoteAppend(body, q, r);
  }

  lemma {:induction false} KeptPieceAgain(s: string, r: string)
    requires s != "" && PieceKind(s) != Comment
    requires PieceLength(s) == |s| ==> r == ""
    requires PieceLength(s) < |s| && r != "" ==> r[0] == s[PieceLength(s)] || r[0] == ' '
    ensures Pieces(s[..PieceLength(s)] + r) == [Piece(PieceKind(s), s[..PieceLength(s)])] + Pieces(r)
  {
    hide Pieces, InQuote, BlockEnd, LineLength;
    var n := PieceLength(s);
    var t := s[..n] + r;
    if OpeningOf(s).NoOpening? {
    } else {
      QuotedPieceAgain(s, r);
    }
    assert PieceLength(t) == n && PieceKind(t) == PieceKind(s);
    PiecesUnfold(t);
    assert t[..n] == s[..n] && t[n..] == r;
  }

  // Reading the stripped text gives the pieces of the text, with every comment
  // replaced by its space and line breaks.
  lemma {:induction false} PiecesOfStripped(s: string)
    ensures Pieces(Strip(s)) == StrippedPieces(Pieces(s))
    decreases |s|
  {
    if s != "" {
      hide Pieces, StrippedPieces, Strip, PieceLength, PieceKind, PlainPieces;
      var n := PieceLength(s);
      var piece, rest := s[..n], s[n..];
      PiecesOfStripped(rest);
      StripUnfold(s);
      PiecesUnfold(s);
      if PieceKind(s) == Comment {
        BreaksAreBreaks(piece);
        assert (" " + Breaks(piece))[1..] == Breaks(piece);
        PlainPrefix(" " + Breaks(piece), Strip(rest));
      } else {
        KeptPieceAgain(s, Strip(rest));
      }
    }
  }

  // -------------------------------------------------------------- consequences

  lemma {:induction false} TextOfPieces(s: string)
    ensures TextOf(Pieces(s)) == s
    decreases |s|
  {
    if s != "" {
      hide PieceLength, PieceKind;
      var n := PieceLength(s);
      TextOfPieces(s[n..]);
      assert s == s[..n] + s[n..];
    }
  }

  predicate NoComment(ps: seq<Piece>) {
    ps == [] || (ps[0].kind != Comment && NoComment(ps[1..]))
  }

  predicate AllPlain(ps: seq<Piece>) {
    ps == [] || (ps[0].kind == Plain && AllPlain(ps[1..]))
  }

  lemma {:induction false} PlainPiecesArePlain(t: string)
    ensures AllPlain(PlainPieces(t))
  {
    if t != "" {
      PlainPiecesArePlain(t[1..]);
    }
  }

  lemma {:induction false} NoCommentAppend(a: seq<Piece>, b: seq<Piece>)
    requires AllPlain(a) && NoComment(b)
    ensures NoComment(a + b)
  {
    if a == [] {
      assert a + b == b;
    } else {
      NoCommentAppend(a[1..], b);
      assert (a + b)[1..] == a[1..] + b;
    }
  }

  lemma {:induction false} StrippedHasNoComment(ps: seq<Piece>)
    ensures NoComment(StrippedPieces(ps))
  {
    if ps != [] {
      StrippedHasNoComment(ps[1..]);
      if ps[0].kind == Comment {
        PlainPiecesArePlain(" " + Breaks(ps[0].text));
        NoCommentAppend(StrippedPiece(ps[0]), StrippedPieces(ps[1..]));
      } else {
        assert StrippedPieces(ps)[1..] == StrippedPieces(ps[1..]);
      }
    }
  }

  lemma {:induction false} NothingToStrip(ps: seq<Piece>)
    requires NoComment(ps)
    ensures StrippedPieces(ps) == ps
  {
    if ps != [] {
      NothingToStrip(ps[1..]);
      assert StrippedPiece(ps[0]) == [ps[0]];
    }
  }

  // The stripped text has no comment left, whatever its quotes contain.
  lemma {:induction false} StrippedTextHasNoComment(s: string)
    ensures NoComment(Pieces(Strip(s)))
  {
    PiecesOfStripped(s);
    StrippedHasNoComment(Pieces(s));
  }

  lemma {:induction false} StripIdempotent(s: string)
    ensures Strip(Strip(s)) == Strip(s)
  {
    StrippedTextHasNoComment(s);
    CommentFreeIsKept(Strip(s));
  }

  lemma {:induction false} TailHasNoComment(p: Piece, ps: seq<Piece>)
    requires NoComment([p] + ps)
    ensures p.kind != Comment && NoComment(ps)
  {
    assert ([p] + ps)[0] == p && ([p] + ps)[1..] == ps;
  }

  lemma {:induction false} CommentFreeIsKept(s: string)
    requires NoComment(Pieces(s))
    ensures Strip(s) == s
    decreases |s|
  {
    if s != "" {
      hide *;
      var n := PieceLength(s);
      PiecesUnfold(s);
      TailHasNoComment(Piece(PieceKind(s), s[..n]), Pieces(s[n..]));
      CommentFreeIsKept(s[n..]);
    } else {
      StripNothing();
    }
  }

  function QuotedText(p: Piece): seq<string> {
    if p.kind == Quoted then [p.text] else []
  }

  // The texts of the quoted tokens, in order.
  function QuotedTexts(ps: seq<Piece>): seq<string> {
    if ps == [] then [] else QuotedText(ps[0]) + QuotedTexts(ps[1..])
  }

  lemma {:induction false} QuotedTextsAppend(a: seq<Piece>, b: seq<Piece>)
    ensures QuotedTexts(a + b) == QuotedTexts(a) + QuotedTexts(b)
  {
    if a == [] {
      assert a + b == b;
    } else {
      hide QuotedTexts;
      QuotedTextsAppend(a[1..], b);
      assert (a + b)[1..] == a[1..] + b;
      ConcatAssociates(QuotedText(a[0]), QuotedTexts(a[1..]), QuotedTexts(b));
    }
  }

  lemma {:induction false} NoQuotedText(ps: seq<Piece>)
    requires AllPlain(ps)
    ensures QuotedTexts(ps) == []
  {
    if ps != [] {
      NoQuotedText(ps[1..]);
    }
  }

  lemma {:induction false} QuotedTextsKept(ps: seq<Piece>)
    ensures QuotedTexts(StrippedPieces(ps)) == QuotedTexts(ps)
  {
    if ps != [] {
      QuotedTextsKept(ps[1..]);
      QuotedTextsAppend(StrippedPiece(ps[0]), StrippedPieces(ps[1..]));
      if ps[0].kind == Comment {
        PlainPiecesArePlain(" " + Breaks(ps[0].text));
        NoQuotedText(StrippedPiece(ps[0]));
      }
    }
  }

  // Every string and quoted identifier survives verbatim and in order.
  lemma {:induction false} StripKeepsQuotedText(s: string)
    ensures QuotedTexts(Pieces(Strip(s))) == QuotedTexts(Pieces(s))
  {
    PiecesOfStripped(s);
    QuotedTextsKept(Pieces(s));
  }

  lemma {:induction false} BreaksOfPiece(piece: string, k: Kind)
    ensures Breaks(StripPiece(piece, k)) == Breaks(piece)
  {
    if k == Comment {
      hide Breaks;
      var bs := Breaks(piece);
      BreaksAreBreaks(piece);
      assert (" " + bs)[1..] == bs;
    }
  }

  // Every CR and LF survives, in order: line numbers do not move.
  lemma {:induction false} StripKeepsBreaks(s: string)
    ensures Breaks(Strip(s)) == Breaks(s)
    decreases |s|
  {
    if s != "" {
      hide Strip, StripPiece, PieceLength, PieceKind, Breaks;
      var n := PieceLength(s);
      var piece, rest := s[..n], s[n..];
      StripKeepsBreaks(rest);
      StripUnfold(s);
      BreaksOfPiece(piece, PieceKind(s));
      BreaksAppend(StripPiece(piece, PieceKind(s)), Strip(rest));
      BreaksAppend(piece, rest);
      assert s == piece + rest;
    }
  }

  // ------------------------------------------ agreement with the token expression

  // The first piece is one that both scanners read alike: a closed quote, a closed
  // block comment, or a line comment that no carriage return ends.
  predicate PieceTame(s: string)
    requires s != ""
  {
    match OpeningOf(s)
    case NoOpening => true
    case LineComment => PieceLength(s) < |s| ==> s[PieceLength(s)] == '\n'
    case BlockComment => BlockEnd(s[2..]) > 0
    case Delimited => QuoteCloses(s[1..], s[0])
    case Bracketed => QuoteCloses(s[1..], ']')
  }

  predicate Tame(s: string)
    decreases |s|
  {
    s == "" || (PieceTame(s) && Tame(s[PieceLength(s)..]))
  }

  lemma {:induction false} ClosedQuote(s: string, q: char)
    requires q != ']' && QuoteCloses(s, q)
    ensures QuoteEnd(s, q) == InQuote(s, q)
    decreases |s|
  {
    assert s != "";
    hide InQuote, QuoteCloses, QuoteEnd;
    InQuoteStep(s, q);
    QuoteEndStep(s, q);
    if s[0] != q {
      ClosedQuote(s[1..], q);
      ClosingIn(s[1..], q);
    } else if |s| > 1 && s[1] == q {
      ClosedQuote(s[2..], q);
      ClosingIn(s[2..], q);
    }
  }

  lemma {:induction false} ClosingIn(s: string, q: char)
    requires QuoteCloses(s, q)
    ensures q in s
    decreases |s|
  {
    if s[0] != q {
      ClosingIn(s[1..], q);
    }
  }

  lemma {:induction false} OpenQuote(s: string, q: char)
    requires q != ']' && !QuoteCloses(s, q)
    ensures InQuote(s, q) == |s|
    ensures QuoteEnd(s, q) > 0 ==> QuoteEnd(s, q) < |s| && s[QuoteEnd(s, q)] == q
    decreases |s|
  {
    hide InQuote, QuoteEnd;
    if s != "" {
      InQuoteStep(s, q);
      QuoteEndStep(s, q);
      if s[0] != q {
        OpenQuote(s[1..], q);
      } else if |s| > 1 && s[1] == q {
        OpenQuote(s[2..], q);
      }
    }
  }

  lemma {:induction false} BracketLength(s: string)
    ensures InQuote(s, ']') == if QuoteCloses(s, ']') then UpTo(s, ']') + 1 else |s|
    ensures QuoteCloses(s, ']') <==> UpTo(s, ']') < |s|
  {
    if s != "" && s[0] != ']' {
      BracketLength(s[1..]);
    }
  }

  lemma TamePieceAgrees(s: string)
    requires s != "" && PieceTame(s)
    ensures StepLength(s) == PieceLength(s) && StepKinds(s) == Repeat(PieceKind(s), PieceLength(s))
  {
    hide InQuote, QuoteCloses, QuoteEnd, BlockEnd;
    match OpeningOf(s)
    case NoOpening =>
    case LineComment =>
      assert UpTo(s, '\n') == 1 + UpTo(s[1..], '\n') == 2 + UpTo(s[1..][1..], '\n') && s[1..][1..] == s[2..];
    case BlockComment =>
    case Delimited =>
      ClosedQuote(s[1..], s[0]);
      ClosingIn(s[1..], s[0]);
    case Bracketed => BracketLength(s[1..]);
  }

  // A piece that is not tame puts the two scanners at odds on some character.
  lemma WildPieceDisagrees(s: string) returns (k: nat)
    requires s != "" && !PieceTame(s)
    ensures k < |s| && StripKinds(s)[k] != Kinds(s)[k]
  {
    match OpeningOf(s)
    case LineComment => k := WildLine(s);
    case BlockComment =>
      k := 0;
      KindsUnfold(s);
    case Delimited => k := WildQuote(s);
    case Bracketed =>
      k := 0;
      KindsUnfold(s);
      BracketLength(s[1..]);
  }

  lemma WildLine(s: string) returns (k: nat)
    requires OpeningOf(s).LineComment? && !PieceTame(s)
    ensures k < |s| && StripKinds(s)[k] != Kinds(s)[k]
  {
    k := PieceLength(s);
    assert s[k] == '\r';
    KindsUnfold(s);
    StripKindsUnfold(s);
    assert s[k..][0] == '\r';
    StripKindsUnfold(s[k..]);
  }

  lemma WildQuote(s: string) returns (k: nat)
    requires OpeningOf(s).Delimited? && !PieceTame(s)
    ensures k < |s| && StripKinds(s)[k] != Kinds(s)[k]
  {
    hide Kinds, StripKinds, InQuote, QuoteEnd, QuoteCloses;
    OpenQuote(s[1..], s[0]);
    StripKindsUnfold(s);
    KindsUnfold(s);
    k := TokenLength(s);
    if k > 0 {
      assert s[k] == s[1..][k - 1] == s[0];
      BacktrackedRest(s);
      KindsUnfold(s[k..]);
      assert Kinds(s)[k] == Kinds(s[k..])[0] == Plain;
    }
  }

  lemma {:induction false} StripKindsUnfold(s: string)
    requires s != ""
    ensures StripKinds(s) == Repeat(PieceKind(s), PieceLength(s)) + StripKinds(s[PieceLength(s)..])
  {
    hide PieceKind, PieceLength;
  }

  // The two scanners agree on every character exactly when every piece is tame.
  lemma {:induction false} ScannersAgree(s: string)
    ensures StripKinds(s) == Kinds(s) <==> Tame(s)
    decreases |s|
  {
    if s != "" {
      hide Kinds, StripKinds, PieceKind, PieceLength, PieceTame, StepKinds;
      if PieceTame(s) {
        var n := PieceLength(s);
        TamePieceAgrees(s);
        KindsUnfold(s);
        StripKindsUnfold(s);
        ScannersAgree(s[n..]);
        assert StripKinds(s)[n..] == StripKinds(s[n..]);
      } else {
        var k := WildPieceDisagrees(s);
      }
    }
  }
}
