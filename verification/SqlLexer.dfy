// The token expression of scripts/ci/check-sql-interpolation-safety.ts: comments,
// strings and quoted identifiers, tried at each position from left to right.
module SqlLexer {
  datatype Kind = Plain | Comment | Quoted

  // What the first one or two characters of a text can open.
  datatype Opening = NoOpening | LineComment | BlockComment | Delimited | Bracketed

  // The characters that both `\s` and `trim` treat as white space.
  predicate IsSpace(c: char) {
    || c in " \t\n\r"
    || c in ['\U{000B}', '\U{000C}', '\U{00A0}', '\U{1680}', '\U{2028}', '\U{2029}', '\U{202F}', '\U{205F}', '\U{3000}', '\U{FEFF}']
    || '\U{2000}' <= c <= '\U{200A}'
  }

  predicate IsDelimiter(c: char) {
    c == '\'' || c == '"' || c == '`'
  }

  function Repeat<T>(x: T, n: nat): (r: seq<T>)
    ensures |r| == n && forall i :: 0 <= i < n ==> r[i] == x
  {
    seq(n, i => x)
  }

  // Number of characters before the first `c`.
  function UpTo(s: string, c: char): (n: nat)
    ensures n <= |s|
    ensures n < |s| ==> s[n] == c
    ensures forall i :: 0 <= i < n ==> s[i] != c
  {
    if s == "" || s[0] == c then 0 else 1 + UpTo(s[1..], c)
  }

  // Length of the text up to and including the first `*/`, 0 when there is none.
  function BlockEnd(s: string): (n: nat)
    ensures n <= |s| && n != 1
    ensures n > 0 ==> s[n - 2] == '*' && s[n - 1] == '/'
    ensures n == 0 ==> forall i :: 0 <= i < |s| - 1 ==> !(s[i] == '*' && s[i + 1] == '/')
  {
    if |s| < 2 then 0
    else if s[0] == '*' && s[1] == '/' then 2
    else
      var n := BlockEnd(s[1..]);
      assert n == 0 ==> forall i :: 1 <= i < |s| - 1 ==> s[1..][i - 1] == s[i] && s[1..][i] == s[i + 1];
      if n == 0 then 0 else n + 1
  }

  // Length of the rest of a token opened by the delimiter `q`, its closing delimiter
  // included; 0 when nothing closes it. A doubled delimiter belongs to the token,
  // unless no single one follows: then the expression backtracks and the token ends
  // with the first half of the last doubled pair.
  function QuoteEnd(s: string, q: char): (n: nat)
    ensures n <= |s|
    ensures n == 0 <==> q !in s
    ensures n > 0 ==> s[n - 1] == q
  {
    if s == "" then 0
    else if s[0] != q then
      var n := QuoteEnd(s[1..], q);
      if n == 0 then 0 else n + 1
    else if |s| > 1 && s[1] == q then QuoteEnd(s[2..], q) + (if q in s[2..] then 2 else 1)
    else 1
  }

  function OpeningOf(s: string): Opening {
    if s == "" then NoOpening
    else if IsDelimiter(s[0]) then Delimited
    else if s[0] == '[' then Bracketed
    else if |s| > 1 && s[0] == '-' && s[1] == '-' then LineComment
    else if |s| > 1 && s[0] == '/' && s[1] == '*' then BlockComment
    else NoOpening
  }

  // Length of the token at the start of `s`, 0 when none starts there.
  function TokenLength(s: string): (n: nat)
    ensures n <= |s| && n != 1
  {
    match OpeningOf(s)
    case NoOpening => 0
    case LineComment => UpTo(s, '\n')
    case BlockComment => var n := BlockEnd(s[2..]); if n == 0 then 0 else n + 2
    case Delimited => var n := QuoteEnd(s[1..], s[0]); if n == 0 then 0 else n + 1
    case Bracketed => var n := UpTo(s, ']'); if n == |s| then 0 else n + 1
  }

  function TokenKind(o: Opening): Kind {
    if o.LineComment? || o.BlockComment? then Comment else Quoted
  }

  // Length of the scanner's next move: a whole token, or one plain character.
  function StepLength(s: string): (n: nat)
    requires s != ""
    ensures 0 < n <= |s|
  {
    var n := TokenLength(s);
    if n == 0 then 1 else n
  }

  function StepKinds(s: string): (ks: seq<Kind>)
    requires s != ""
    ensures |ks| == StepLength(s)
  {
    if TokenLength(s) == 0 then [Plain] else Repeat(TokenKind(OpeningOf(s)), TokenLength(s))
  }

  // The kind of every character of `s`.
  function Kinds(s: string): (ks: seq<Kind>)
    ensures |ks| == |s|
  {
    if s == "" then [] else StepKinds(s) + Kinds(s[StepLength(s)..])
  }

  function MaskChar(c: char, k: Kind): char {
    match k
    case Plain => c
    case Comment => ' '
    case Quoted => 'x'
  }

  function Masked(s: string, ks: seq<Kind>): (m: string)
    requires |s| == |ks|
    ensures |m| == |s|
  {
    seq(|s|, i requires 0 <= i < |s| => MaskChar(s[i], ks[i]))
  }

  // structuralSql: comments become spaces, quoted text becomes `x`.
  function Mask(s: string): (m: string)
    ensures |m| == |s|
  {
    Masked(s, Kinds(s))
  }
}
