// What masking promises its callers: offsets are kept, masking twice changes nothing,
// and masking commutes with cutting a text between two tokens and with appending text
// to a piece whose tokens are all finished.
module SqlMaskLaws {
  import opened SqlLexer

  lemma MaskedAppend(a: string, ka: seq<Kind>, b: string, kb: seq<Kind>)
    requires |a| == |ka| && |b| == |kb|
    ensures Masked(a + b, ka + kb) == Masked(a, ka) + Masked(b, kb)
  {
  }

  lemma MaskStep(s: string)
    requires s != ""
    ensures Mask(s) == Masked(s[..StepLength(s)], StepKinds(s)) + Mask(s[StepLength(s)..])
  {
    var n := StepLength(s);
    assert s == s[..n] + s[n..];
    MaskedAppend(s[..n], StepKinds(s), s[n..], Kinds(s[n..]));
  }

  // ---------------------------------------------------------------- masking twice

  // No token starts anywhere in `m`.
  ghost predicate TokenFree(m: string) {
    m == "" || (TokenLength(m) == 0 && TokenFree(m[1..]))
  }

  lemma {:induction false} TokenFreeKinds(m: string)
    requires TokenFree(m)
    ensures Kinds(m) == Repeat(Plain, |m|) && Mask(m) == m
  {
    if m != "" {
      TokenFreeKinds(m[1..]);
      assert Kinds(m) == [Plain] + Repeat(Plain, |m| - 1);
    }
  }

  lemma {:induction false} TokenFreeAfterFill(fill: string, m: string)
    requires TokenFree(m) && forall i :: 0 <= i < |fill| ==> fill[i] == ' ' || fill[i] == 'x'
    ensures TokenFree(fill + m)
  {
    if fill == "" {
      assert fill + m == m;
    } else {
      TokenFreeAfterFill(fill[1..], m);
      assert (fill + m)[1..] == fill[1..] + m;
    }
  }

  // `m` is `s` with some characters faded to a space or an `x`.
  ghost predicate Fades(s: string, m: string) {
    |m| == |s| && forall i :: 0 <= i < |m| && m[i] != ' ' && m[i] != 'x' ==> s[i] == m[i]
  }

  lemma QuoteWasThere(s: string, m: string)
    requires Fades(s, m) && OpeningOf(m).Delimited? && TokenLength(m) > 0
    ensures TokenLength(s) > 0
  {
    var n := QuoteEnd(m[1..], m[0]);
    assert m[1..][n - 1] == m[n] == s[n] == s[1..][n - 1];
  }

  lemma BlockWasThere(s: string, m: string)
    requires Fades(s, m) && OpeningOf(m).BlockComment? && TokenLength(m) > 0
    ensures TokenLength(s) > 0
  {
    var n := BlockEnd(m[2..]);
    assert m[2..][n - 2] == m[n] == s[n] == s[2..][n - 2];
    assert m[2..][n - 1] == m[n + 1] == s[n + 1] == s[2..][n - 1];
  }

  // Fading characters opens no token that the text itself did not open.
  lemma TokenWasThere(s: string, m: string)
    requires Fades(s, m) && TokenLength(m) > 0
    ensures TokenLength(s) > 0
  {
    match OpeningOf(m)
    case Delimited => QuoteWasThere(s, m);
    case BlockComment => BlockWasThere(s, m);
    case LineComment => assert s[0] == s[1] == '-';
    case Bracketed => assert s[UpTo(m, ']')] == ']';
  }

  lemma {:induction false} MaskIsTokenFree(s: string)
    ensures TokenFree(Mask(s))
    decreases |s|
  {
    if s != "" {
      var n := StepLength(s);
      MaskStep(s);
      MaskIsTokenFree(s[n..]);
      if TokenLength(s) == 0 {
        if TokenLength(Mask(s)) > 0 {
          TokenWasThere(s, Mask(s));
        }
        assert Mask(s)[1..] == Mask(s[1..]);
      } else {
        TokenFreeAfterFill(Masked(s[..n], StepKinds(s)), Mask(s[n..]));
      }
    }
  }

  lemma MaskIdempotent(s: string)
    ensures Mask(Mask(s)) == Mask(s)
  {
    MaskIsTokenFree(s);
    TokenFreeKinds(Mask(s));
  }

  // ------------------------------------------------------------- cutting the text

  // The scanner stops at offset `b`: no token lies across it.
  ghost predicate Boundary(s: string, b: nat)
    decreases b
  {
    b == 0 || (s != "" && StepLength(s) <= b && Boundary(s[StepLength(s)..], b - StepLength(s)))
  }

  lemma {:induction false} BoundaryInside(s: string, b: nat)
    requires Boundary(s, b)
    ensures b <= |s|
    decreases b
  {
    if b > 0 {
      BoundaryInside(s[StepLength(s)..], b - StepLength(s));
    }
  }

  lemma {:induction false} UpToPrefix(s: string, c: char, b: nat)
    requires b <= |s|
    ensures UpTo(s[..b], c) == if UpTo(s, c) < b then UpTo(s, c) else b
  {
    if b > 0 && s[0] != c {
      UpToPrefix(s[1..], c, b - 1);
      assert s[..b][1..] == s[1..][..b - 1];
    }
  }

  lemma {:induction false} BlockEndPrefix(s: string, b: nat)
    requires b <= |s| && BlockEnd(s) <= b
    ensures BlockEnd(s[..b]) == BlockEnd(s)
  {
    if b > 1 && !(s[0] == '*' && s[1] == '/') {
      BlockEndPrefix(s[1..], b - 1);
      assert s[..b][1..] == s[1..][..b - 1];
    }
  }

  // One move of QuoteEnd: past a plain character, past a doubled delimiter, or to the end.
  lemma {:induction false} QuoteEndStep(s: string, q: char)
    requires s != ""
    ensures s[0] != q ==> QuoteEnd(s, q) == if q in s[1..] then 1 + QuoteEnd(s[1..], q) else 0
    ensures s[0] == q && |s| > 1 && s[1] == q ==> QuoteEnd(s, q) == if q in s[2..] then 2 + QuoteEnd(s[2..], q) else 1
    ensures s[0] == q && (|s| == 1 || s[1] != q) ==> QuoteEnd(s, q) == 1
  {
  }

  lemma {:induction false} QuoteEndPrefix(s: string, q: char, b: nat)
    requires b <= |s| && QuoteEnd(s, q) <= b
    ensures QuoteEnd(s[..b], q) == QuoteEnd(s, q)
    decreases |s|
  {
    hide QuoteEnd;
    var p := s[..b];
    if b > 0 && q in s {
      QuoteEndStep(s, q);
      QuoteEndStep(p, q);
      if s[0] != q {
        assert p[1..] == s[1..][..b - 1];
        QuoteEndPrefix(s[1..], q, b - 1);
      } else if 1 < b && s[1] == q {
        assert p[2..] == s[2..][..b - 2];
        QuoteEndPrefix(s[2..], q, b - 2);
      }
    }
  }

  lemma OpeningPrefix(s: string, b: nat)
    requires s != "" && StepLength(s) <= b <= |s|
    ensures OpeningOf(s[..b]) == OpeningOf(s) || TokenLength(s) == TokenLength(s[..b]) == 0
  {
  }

  // The scanner never looks past the end of a step to decide on it.
  lemma StepPrefix(s: string, b: nat)
    requires s != "" && StepLength(s) <= b <= |s|
    ensures TokenLength(s[..b]) == TokenLength(s)
  {
    hide UpTo, BlockEnd, QuoteEnd;
    OpeningPrefix(s, b);
    if OpeningOf(s[..b]) == OpeningOf(s) {
      match OpeningOf(s)
      case NoOpening =>
      case LineComment => UpToPrefix(s, '\n', b);
      case BlockComment =>
        BlockEndPrefix(s[2..], b - 2);
        assert s[..b][2..] == s[2..][..b - 2];
      case Delimited =>
        QuoteEndPrefix(s[1..], s[0], b - 1);
        assert s[..b][1..] == s[1..][..b - 1];
      case Bracketed => UpToPrefix(s, ']', b);
    }
  }

  lemma {:induction false} KindsUnfold(s: string)
    requires s != ""
    ensures Kinds(s) == StepKinds(s) + Kinds(s[StepLength(s)..])
    ensures Kinds(s)[StepLength(s)..] == Kinds(s[StepLength(s)..])
  {
    hide TokenLength, OpeningOf;
  }

  lemma KindsStep(s: string, b: nat)
    requires s != "" && StepLength(s) <= b <= |s|
    ensures Kinds(s[..b]) == StepKinds(s) + Kinds(s[StepLength(s)..][..b - StepLength(s)])
  {
    hide TokenLength, OpeningOf;
    var n := StepLength(s);
    StepPrefix(s, b);
    OpeningPrefix(s, b);
    assert s[..b][n..] == s[n..][..b - n];
  }

  lemma {:induction false} KindsAtBoundary(s: string, b: nat)
    requires Boundary(s, b)
    ensures b <= |s|
    ensures Kinds(s[..b]) == Kinds(s)[..b]
    ensures Kinds(s[b..]) == Kinds(s)[b..]
    decreases b
  {
    BoundaryInside(s, b);
    if b == 0 {
      assert s[b..] == s;
    } else {
      var n := StepLength(s);
      KindsStep(s, b);
      KindsAtBoundary(s[n..], b - n);
      assert s[n..][b - n..] == s[b..];
      var rest := Kinds(s[n..]);
      assert Kinds(s) == StepKinds(s) + rest;
      assert Kinds(s)[..b] == StepKinds(s) + rest[..b - n];
      assert Kinds(s)[b..] == rest[b - n..];
    }
  }

  lemma SliceShift<T>(s: seq<T>, n: nat, a: nat, b: nat)
    requires n <= a <= b <= |s|
    ensures s[n..][a - n..b - n] == s[a..b]
  {
  }

  lemma {:induction false} KindsOfSlice(s: string, a: nat, b: nat)
    requires Boundary(s, a) && Boundary(s, b) && a <= b
    ensures b <= |s| && Kinds(s[a..b]) == Kinds(s)[a..b]
    decreases a
  {
    hide Kinds, StepKinds, StepLength, TokenLength, OpeningOf;
    BoundaryInside(s, b);
    if a == 0 {
      KindsAtBoundary(s, b);
    } else {
      var n := StepLength(s);
      KindsUnfold(s);
      KindsOfSlice(s[n..], a - n, b - n);
      SliceShift(s, n, a, b);
      SliceShift(Kinds(s), n, a, b);
    }
  }

  // Masking the text between two token boundaries is slicing the masked text there.
  lemma {:induction false} MaskCommutesWithSlicing(s: string, a: nat, b: nat)
    requires Boundary(s, a) && Boundary(s, b) && a <= b
    ensures b <= |s| && Mask(s[a..b]) == Mask(s)[a..b]
  {
    KindsOfSlice(s, a, b);
    MaskedSlice(s, Kinds(s), a, b);
  }

  lemma MaskedSlice(s: string, ks: seq<Kind>, a: nat, b: nat)
    requires |s| == |ks| && a <= b <= |s|
    ensures Masked(s[a..b], ks[a..b]) == Masked(s, ks)[a..b]
  {
  }

  // ------------------------------------------------------------ appending to text

  // Every token of `s` is finished inside `s`, whatever follows it: nothing that
  // opens a token is left plain, and no line comment runs to the end.
  ghost predicate Settled(s: string)
    decreases |s|
  {
    s == "" ||
    (&& (TokenLength(s) == 0 ==> OpeningOf(s).NoOpening?)
     && (OpeningOf(s).LineComment? ==> TokenLength(s) < |s|)
     && Settled(s[StepLength(s)..]))
  }

  // The first character of `r` cannot join the end of the text before it.
  predicate Separates(r: string) {
    r == "" || (r[0] != '-' && r[0] != '*' && !IsDelimiter(r[0]))
  }

  lemma {:induction false} UpToAppend(s: string, r: string, c: char)
    requires UpTo(s, c) < |s|
    ensures UpTo(s + r, c) == UpTo(s, c)
  {
    if s[0] != c {
      UpToAppend(s[1..], r, c);
      assert (s + r)[1..] == s[1..] + r;
    }
  }

  lemma {:induction false} BlockEndAppend(s: string, r: string)
    requires BlockEnd(s) > 0
    ensures BlockEnd(s + r) == BlockEnd(s)
  {
    if !(s[0] == '*' && s[1] == '/') {
      BlockEndAppend(s[1..], r);
      assert (s + r)[1..] == s[1..] + r;
    }
  }

  // A token closed by a single delimiter is closed there whatever follows.
  lemma {:induction false} QuoteEndAppend(s: string, r: string, q: char)
    requires QuoteEnd(s, q) > 0
    requires QuoteEnd(s, q) < |s| ==> s[QuoteEnd(s, q)] != q
    requires QuoteEnd(s, q) == |s| && r != "" ==> r[0] != q
    ensures QuoteEnd(s + r, q) == QuoteEnd(s, q)
    decreases |s|
  {
    hide QuoteEnd;
    QuoteEndStep(s, q);
    QuoteEndStep(s + r, q);
    if s[0] != q {
      assert (s + r)[1..] == s[1..] + r;
      QuoteEndAppend(s[1..], r, q);
    } else if |s| > 1 && s[1] == q {
      assert (s + r)[2..] == s[2..] + r;
      QuoteEndAppend(s[2..], r, q);
    }
  }

  // After backtracking, the delimiter left over closes nothing.
  lemma {:induction false} QuoteEndStop(s: string, q: char)
    requires q in s && QuoteEnd(s, q) < |s| && s[QuoteEnd(s, q)] == q
    ensures q !in s[QuoteEnd(s, q) + 1..]
    decreases |s|
  {
    if s[0] != q {
      QuoteEndStop(s[1..], q);
    } else if q in s[2..] {
      QuoteEndStop(s[2..], q);
    }
  }

  lemma BacktrackedRest(s: string)
    requires OpeningOf(s).Delimited? && 0 < TokenLength(s) < |s| && s[TokenLength(s)] == s[0]
    ensures OpeningOf(s[TokenLength(s)..]).Delimited? && TokenLength(s[TokenLength(s)..]) == 0
  {
    var rest := s[TokenLength(s)..];
    QuoteEndStop(s[1..], s[0]);
    assert s[1..][TokenLength(s)..] == rest[1..];
  }

  // In a settled text a quoted token ends at a single delimiter, never by backtracking.
  lemma {:induction false} SettledQuoteCloses(s: string)
    requires Settled(s) && OpeningOf(s).Delimited?
    ensures TokenLength(s) > 0
    ensures TokenLength(s) < |s| ==> s[TokenLength(s)] != s[0]
  {
    if TokenLength(s) < |s| && s[TokenLength(s)] == s[0] && TokenLength(s) > 0 {
      BacktrackedRest(s);
    }
  }

  lemma OpeningAppend(s: string, r: string)
    requires s != "" && Separates(r)
    ensures OpeningOf(s + r) == OpeningOf(s)
  {
  }

  lemma {:induction false} CommentAppend(s: string, r: string)
    requires Settled(s) && Separates(r) && (OpeningOf(s).LineComment? || OpeningOf(s).BlockComment?)
    ensures TokenLength(s + r) == TokenLength(s)
  {
    hide Settled;
    OpeningAppend(s, r);
    SettledStep(s);
    if OpeningOf(s).LineComment? {
      UpToAppend(s, r, '\n');
    } else {
      BlockEndAppend(s[2..], r);
      assert (s + r)[2..] == s[2..] + r;
    }
  }

  lemma {:induction false} QuotedAppend(s: string, r: string)
    requires Settled(s) && Separates(r) && (OpeningOf(s).Delimited? || OpeningOf(s).Bracketed?)
    ensures TokenLength(s + r) == TokenLength(s)
  {
    hide Settled;
    OpeningAppend(s, r);
    SettledStep(s);
    if OpeningOf(s).Delimited? {
      SettledQuoteCloses(s);
      QuoteEndAppend(s[1..], r, s[0]);
      assert (s + r)[1..] == s[1..] + r;
    } else {
      UpToAppend(s, r, ']');
    }
  }

  lemma {:induction false} SettledStep(s: string)
    requires Settled(s) && s != ""
    ensures TokenLength(s) == 0 <==> OpeningOf(s).NoOpening?
    ensures OpeningOf(s).LineComment? ==> TokenLength(s) < |s|
    ensures Settled(s[StepLength(s)..])
  {
  }

  lemma {:induction false} StepAppend(s: string, r: string)
    requires Settled(s) && s != "" && Separates(r)
    ensures TokenLength(s + r) == TokenLength(s)
  {
    hide Settled, UpTo, BlockEnd, QuoteEnd;
    OpeningAppend(s, r);
    match OpeningOf(s)
    case NoOpening =>
    case LineComment => CommentAppend(s, r);
    case BlockComment => CommentAppend(s, r);
    case Delimited => QuotedAppend(s, r);
    case Bracketed => QuotedAppend(s, r);
  }

  lemma {:induction false} AppendedStep(s: string, r: string)
    requires Settled(s) && s != "" && Separates(r)
    ensures StepLength(s + r) == StepLength(s) && StepKinds(s + r) == StepKinds(s)
    ensures (s + r)[StepLength(s)..] == s[StepLength(s)..] + r
  {
    hide TokenLength, OpeningOf, Settled;
    StepAppend(s, r);
    OpeningAppend(s, r);
  }

  lemma ConcatAssociates<T>(a: seq<T>, b: seq<T>, c: seq<T>)
    ensures (a + b) + c == a + (b + c)
  {
  }

  lemma {:induction false} KindsAppend(s: string, r: string)
    requires Settled(s) && Separates(r)
    ensures Kinds(s + r) == Kinds(s) + Kinds(r)
    decreases |s|
  {
    if s == "" {
      assert s + r == r;
    } else {
      hide *;
      var rest := s[StepLength(s)..];
      SettledStep(s);
      AppendedStep(s, r);
      KindsAppend(rest, r);
      ConcatAssociates(StepKinds(s), Kinds(rest), Kinds(r));
      assert Kinds(s) == StepKinds(s) + Kinds(rest) by { KindsUnfold(s); }
      assert Kinds(s + r) == StepKinds(s) + Kinds(rest + r) by { KindsUnfold(s + r); }
    }
  }

  // Masking a settled piece and the text after it apart is masking them together.
  lemma {:induction false} MaskAppend(s: string, r: string)
    requires Settled(s) && Separates(r)
    ensures Mask(s + r) == Mask(s) + Mask(r)
  {
    KindsAppend(s, r);
    MaskedAppend(s, Kinds(s), r, Kinds(r));
  }

  lemma {:induction false} SettledAppend(s: string, r: string)
    requires Settled(s) && Settled(r) && Separates(r)
    ensures Settled(s + r)
    decreases |s|
  {
    if s == "" {
      assert s + r == r;
    } else {
      var rest := s[StepLength(s)..];
      StepAppend(s, r);
      OpeningAppend(s, r);
      AppendedStep(s, r);
      SettledAppend(rest, r);
      assert Settled((s + r)[StepLength(s + r)..]);
    }
  }
}
