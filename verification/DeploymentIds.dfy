// `normalizeDeploymentId` of shared/types/deployment-id.ts over the chain registry of
// shared/types/chain-identity.ts: which chain a route reference names, and its normal form.
module DeploymentIds {
  import opened Options
  import opened SqlLexer

  // The registry: which ids are EVM chains, what a label resolves to, lower case, and the canonical
  // form of an identifier on a chain.
  datatype Registry = Registry(
    evm: string -> bool, resolve: string -> Option<string>, lower: string -> string, scope: (string, string) -> string)

  function TrimStart(s: string): string {
    if s != "" && IsSpace(s[0]) then TrimStart(s[1..]) else s
  }

  function TrimEnd(s: string): (t: string)
    ensures t <= s
  {
    if s != "" && IsSpace(s[|s| - 1]) then TrimEnd(s[..|s| - 1]) else s
  }

  function Trim(s: string): string {
    TrimEnd(TrimStart(s))
  }

  // `indexOf(":")`, or the length where there is none.
  function Colon(s: string): (i: nat)
    ensures i <= |s| && ':' !in s[..i] && (i < |s| ==> s[i] == ':')
  {
    if s == "" || s[0] == ':' then 0
    else
      assert forall n :: 0 <= n <= |s[1..]| ==> s[..n + 1] == [s[0]] + s[1..][..n];
      1 + Colon(s[1..])
  }

  function Plain(r: Registry, text: string): string {
    r.lower(Trim(text))
  }

  // `normalizeChainId`: the id a label resolves to, or the label itself.
  function ChainId(r: Registry, raw: string): string {
    var plain := Plain(r, raw);
    if plain == "" then "" else if r.resolve(plain).Some? && r.resolve(plain).value != "" then r.resolve(plain).value else plain
  }

  // An identifier that repeats its chain loses the repetition.
  function Unscoped(r: Registry, chain: string, identifier: string): string {
    var i := Colon(identifier);
    if i < |identifier| && ChainId(r, identifier[..i]) == chain then identifier[i + 1..] else identifier
  }

  // `normalizeDeploymentId`, empty where there is no normal form.
  function Normalize(r: Registry, ref: string): string {
    var t := Trim(ref);
    var i := Colon(t);
    if i == 0 || |t| - 1 <= i then ""
    else
      var chain := ChainId(r, t[..i]);
      chain + [':'] + r.scope(chain, Unscoped(r, chain, Trim(t[i + 1..])))
  }

  // The chain label a reference starts with, and whether it is the id of an EVM chain.
  function ChainOf(r: Registry, ref: string): string {
    var i := Colon(ref);
    if i < |ref| then Plain(r, ref[..i]) else ""
  }

  predicate IsEvm(r: Registry, ref: string) {
    r.evm(Plain(r, ChainOf(r, ref)))
  }

  // What the registry keeps: an EVM id holds no colon and resolves to no other id; and trimming and
  // lowering a label twice is doing it once.
  ghost predicate Lawful(r: Registry) {
    && (forall id :: r.evm(id) ==> ':' !in id && (r.resolve(id).Some? ==> r.resolve(id).value == id))
    && (forall text :: r.lower(Trim(Plain(r, text))) == Plain(r, text))
  }

  lemma {:induction false} ColonIs(s: string, i: nat)
    requires i < |s| && s[i] == ':' && ':' !in s[..i]
    ensures Colon(s) == i
  {
    var j := Colon(s);
    assert forall k :: 0 <= k < i ==> s[..i][k] != ':';
    assert forall k :: 0 <= k < j ==> s[..j][k] != ':';
  }

  // Leading white space is no part of the label before the colon.
  lemma {:induction false} TrimStartKeepsLabel(s: string)
    requires Colon(TrimStart(s)) < |TrimStart(s)|
    ensures Colon(s) < |s| && TrimStart(s[..Colon(s)]) == TrimStart(TrimStart(s)[..Colon(TrimStart(s))])
  {
    if s != "" && IsSpace(s[0]) {
      TrimStartKeepsLabel(s[1..]);
      assert s[..Colon(s)][1..] == s[1..][..Colon(s[1..])];
    }
  }

  lemma {:induction false} TrimKeepsLabel(s: string)
    requires Colon(Trim(s)) < |Trim(s)|
    ensures Colon(s) < |s| && Trim(s[..Colon(s)]) == Trim(Trim(s)[..Colon(Trim(s))])
  {
    var t, i := TrimStart(s), Colon(Trim(s));
    assert t[..i] == Trim(s)[..i];
    ColonIs(t, i);
    TrimStartKeepsLabel(s);
  }

  // The normal form of a reference to an EVM chain starts with the id that the reference names, so
  // two with the same normal form name the same chain.
  lemma NormalFormNamesChain(r: Registry, ref: string)
    requires Lawful(r) && IsEvm(r, ref) && Normalize(r, ref) != ""
    ensures var key := Normalize(r, ref);
      Colon(key) < |key| && key[..Colon(key)] == ChainOf(r, ref)
  {
    var t := Trim(ref);
    var chain := ChainOf(r, ref);
    TrimKeepsLabel(ref);
    assert r.evm(chain);
    assert ChainId(r, t[..Colon(t)]) == chain;
    assert Normalize(r, ref)[..|chain|] == chain;
    ColonIs(Normalize(r, ref), |chain|);
  }

  // ------------------------------------------------------------- in terms of the parts

  ghost predicate AllWhite(s: string) {
    forall i :: 0 <= i < |s| ==> IsSpace(s[i])
  }

  // `t` stands in `s` between white space, and neither starts nor ends with any.
  ghost predicate Trims(s: string, t: string) {
    && (t != "" ==> !IsSpace(t[0]) && !IsSpace(t[|t| - 1]))
    && exists a, b :: AllWhite(a) && AllWhite(b) && s == a + t + b
  }

  lemma {:induction false} StartTrimmed(a: string, u: string)
    requires AllWhite(a) && (u == "" || !IsSpace(u[0]))
    ensures TrimStart(a + u) == u
  {
    if a == "" {
      assert a + u == u;
    } else {
      StartTrimmed(a[1..], u);
      assert (a + u)[1..] == a[1..] + u;
    }
  }

  lemma {:induction false} TrimEndStep(u: string, c: char)
    ensures TrimEnd(u + [c]) == if IsSpace(c) then TrimEnd(u) else u + [c]
  {
    hide IsSpace;
    assert (u + [c])[..|u|] == u;
  }

  lemma {:induction false} EndTrimmed(u: string, b: string)
    requires AllWhite(b) && (u == "" || !IsSpace(u[|u| - 1]))
    ensures TrimEnd(u + b) == u
  {
    hide IsSpace;
    if b == "" {
      assert u + b == u;
    } else {
      var n := |b| - 1;
      assert AllWhite(b[..n]) && IsSpace(b[n]);
      hide TrimEnd, AllWhite;
      EndTrimmed(u, b[..n]);
      TrimEndStep(u + b[..n], b[n]);
      assert u + b == u + b[..n] + [b[n]];
    }
  }

  lemma TrimIs(s: string, t: string)
    requires Trims(s, t)
    ensures Trim(s) == t
  {
    var a, b :| AllWhite(a) && AllWhite(b) && s == a + t + b;
    hide IsSpace;
    if t == "" {
      assert AllWhite(s);
      assert s + "" == s;
      StartTrimmed(s, "");
    } else {
      assert s == a + (t + b);
      StartTrimmed(a, t + b);
      EndTrimmed(t, b);
    }
  }

  // What a chain label stands for: the id it resolves to, or else itself in lower case.
  ghost predicate StandsFor(r: Registry, raw: string, chain: string) {
    exists tag ::
      && Trims(raw, tag)
      && var plain := r.lower(tag);
      && (plain == "" ==> chain == "")
      && (plain != "" && r.resolve(plain).Some? && r.resolve(plain).value != "" ==> r.resolve(plain) == Some(chain))
      && (plain != "" && (r.resolve(plain).None? || r.resolve(plain).value == "") ==> chain == plain)
  }

  lemma StandsForOne(r: Registry, raw: string, chain: string)
    requires StandsFor(r, raw, chain)
    ensures ChainId(r, raw) == chain
  {
    hide Trims;
    var tag :| && Trims(raw, tag)
      && var plain := r.lower(tag);
      && (plain == "" ==> chain == "")
      && (plain != "" && r.resolve(plain).Some? && r.resolve(plain).value != "" ==> r.resolve(plain) == Some(chain))
      && (plain != "" && (r.resolve(plain).None? || r.resolve(plain).value == "") ==> chain == plain);
    TrimIs(raw, tag);
  }

  // An identifier without the chain it may repeat.
  ghost predicate WithoutChain(r: Registry, chain: string, identifier: string, bare: string) {
    || (':' !in identifier && bare == identifier)
    || exists first, rest, other ::
         && identifier == first + [':'] + rest && ':' !in first && StandsFor(r, first, other)
         && bare == if other == chain then rest else identifier
  }

  lemma {:induction false} SplitAtColon(s: string, first: string, rest: string)
    requires s == first + [':'] + rest && ':' !in first
    ensures Colon(s) == |first| && s[..|first|] == first && s[|first| + 1..] == rest
  {
    ColonIs(s, |first|);
  }

  lemma WithoutChainIs(r: Registry, chain: string, identifier: string, bare: string)
    requires WithoutChain(r, chain, identifier, bare)
    ensures Unscoped(r, chain, identifier) == bare
  {
    hide StandsFor, ChainId;
    if first, rest, other :|
      && identifier == first + [':'] + rest && ':' !in first && StandsFor(r, first, other)
      && bare == if other == chain then rest else identifier
    {
      SplitAtColon(identifier, first, rest);
      StandsForOne(r, first, other);
    } else {
      assert Colon(identifier) == |identifier|;
    }
  }

  // A reference of a label and an identifier is normal as the chain it stands for and the scoped form of
  // the identifier, trimmed and without a repeated chain; one that lacks either part has no normal form.
  lemma NormalForm(r: Registry, ref: string, tag: string, chain: string, rest: string, identifier: string, bare: string)
    requires Trims(ref, tag + [':'] + rest) && ':' !in tag && tag != "" && rest != ""
    requires StandsFor(r, tag, chain) && Trims(rest, identifier) && WithoutChain(r, chain, identifier, bare)
    ensures Normalize(r, ref) == chain + [':'] + r.scope(chain, bare)
  {
    var t := tag + [':'] + rest;
    hide Trims, StandsFor, WithoutChain, ChainId, Unscoped;
    TrimIs(ref, t);
    SplitAtColon(t, tag, rest);
    StandsForOne(r, tag, chain);
    TrimIs(rest, identifier);
    WithoutChainIs(r, chain, identifier, bare);
  }

  lemma NoNormalForm(r: Registry, ref: string, tag: string, rest: string)
    ensures Trims(ref, tag) && ':' !in tag ==> Normalize(r, ref) == ""
    ensures Trims(ref, tag + [':'] + rest) && ':' !in tag && (tag == "" || rest == "") ==> Normalize(r, ref) == ""
  {
    hide Trims;
    if Trims(ref, tag) && ':' !in tag {
      TrimIs(ref, tag);
      assert Colon(tag) == |tag|;
    }
    if Trims(ref, tag + [':'] + rest) && ':' !in tag && (tag == "" || rest == "") {
      TrimIs(ref, tag + [':'] + rest);
      SplitAtColon(tag + [':'] + rest, tag, rest);
    }
  }

  // The chain that a reference starts with, trimmed and in lower case; none without a colon.
  lemma ChainNamed(r: Registry, ref: string, first: string, rest: string, name: string)
    ensures ref == first + [':'] + rest && ':' !in first && Trims(first, name) ==> ChainOf(r, ref) == r.lower(name)
    ensures ':' !in ref ==> ChainOf(r, ref) == ""
  {
    hide Trims;
    if ref == first + [':'] + rest && ':' !in first && Trims(first, name) {
      SplitAtColon(ref, first, rest);
      TrimIs(first, name);
    }
  }
}
