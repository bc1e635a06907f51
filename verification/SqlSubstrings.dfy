// Why masking a substring again is safe: the helpers of
// scripts/ci/check-sql-interpolation-safety.ts cut only at characters that belong to no token.
module SqlSubstrings {
  import opened Options
  import opened SqlLexer
  import opened SqlMaskLaws
  import opened SqlArity
  import opened SqlPrint

  // A plain character is a token boundary on both sides.
  lemma {:induction false} PlainIsBoundary(s: string, b: nat)
    requires b < |s| && Kinds(s)[b] == Plain
    ensures Boundary(s, b) && Boundary(s, b + 1)
    decreases b
  {
    hide Kinds, TokenLength, OpeningOf;
    var n := StepLength(s);
    KindsUnfold(s);
    if b < n {
      assert StepKinds(s)[b] == Plain;
      assert TokenLength(s) == 0;
    } else {
      assert Kinds(s)[b] == Kinds(s[n..])[b - n];
      PlainIsBoundary(s[n..], b - n);
    }
  }

  lemma StructureIsBoundary(s: string, b: nat)
    requires b < |s| && Mask(s)[b] in {'(', ')', ','}
    ensures Boundary(s, b) && Boundary(s, b + 1) && s[b] == Mask(s)[b]
  {
    assert Kinds(s)[b] == Plain;
    PlainIsBoundary(s, b);
  }

  // The text of a tuple reads, masked on its own, as it does in the whole statement.
  lemma TupleRemask(source: string, open: nat)
    requires open < |source| && Mask(source)[open] == '('
    requires TupleText(source[open..], Mask(source)[open..]).Some?
    ensures var tuple := TupleText(source[open..], Mask(source)[open..]).value;
      open + 1 + |tuple| < |source| && Mask(tuple) == Mask(source)[open + 1..open + 1 + |tuple|]
  {
    hide *;
    var m := Mask(source);
    TupleTextIs(source, m, open);
    var close := open + CloseOffset(m[open..], 0).value;
    StructureIsBoundary(source, open);
    StructureIsBoundary(source, close);
    MaskCommutesWithSlicing(source, open + 1, close);
  }

  // The first comma at the top level, and the two halves of the cut there.
  function FirstComma(m: string, depth: int): (r: Option<nat>)
    ensures r.Some? ==> r.value < |m| && m[r.value] == ','
  {
    if m == "" then None
    else if m[0] == ',' && depth == 0 then Some(0)
    else
      var later :- FirstComma(m[1..], depth + Change(m[0]));
      Some(later + 1)
  }

  lemma {:induction false} CutAtFirst(t: string, m: string, depth: int)
    requires |t| == |m|
    ensures var k := FirstComma(m, depth);
      Cut(t, m, depth) == if k.None? then [t] else [t[..k.value]] + Cut(t[k.value + 1..], m[k.value + 1..], 0)
  {
    hide *;
    if m == "" || (m[0] == ',' && depth == 0) {
      CutAtOnce(t, m, depth);
    } else {
      CutAtFirst(t[1..], m[1..], depth + Change(m[0]));
      CutStep(t, m, depth);
      FirstCommaStep(m, depth);
      var k := FirstComma(m[1..], depth + Change(m[0]));
      if k.None? {
        PrefixedAlone(t);
      } else {
        CutPrefixed(t, m, k.value, Cut(t[1..][k.value + 1..], m[1..][k.value + 1..], 0));
      }
    }
  }

  lemma PrefixedAlone(t: string)
    requires t != ""
    ensures Prefixed(t[0], [t[1..]]) == [t]
  {
    assert t == [t[0]] + t[1..];
  }

  lemma {:induction false} CutAtOnce(t: string, m: string, depth: int)
    requires |t| == |m| && (m == "" || (m[0] == ',' && depth == 0))
    ensures FirstComma(m, depth) == if m == "" then None else Some(0)
    ensures Cut(t, m, depth) == if m == "" then [t] else [t[..0]] + Cut(t[1..], m[1..], 0)
  {
    assert m == "" ==> t == "";
    assert m != "" ==> t[..0] == "";
  }

  lemma FirstCommaStep(m: string, depth: int)
    requires m != "" && !(m[0] == ',' && depth == 0)
    ensures var later := FirstComma(m[1..], depth + Change(m[0]));
      FirstComma(m, depth) == if later.None? then None else Some(later.value + 1)
  {
    hide Change;
  }

  lemma CutPrefixed(t: string, m: string, k: nat, rest: seq<string>)
    requires |t| == |m| && k + 1 < |t|
    ensures Prefixed(t[0], [t[1..][..k]] + rest) == [t[..k + 1]] + rest
    ensures t[1..][k + 1..] == t[k + 2..] && m[1..][k + 1..] == m[k + 2..]
  {
    assert t[..k + 1] == [t[0]] + t[1..][..k];
    assert ([t[1..][..k]] + rest)[0] == t[1..][..k] && ([t[1..][..k]] + rest)[1..] == rest;
  }

  function WithCommas(parts: seq<string>): string
    requires parts != []
  {
    if |parts| == 1 then parts[0] else parts[0] + "," + WithCommas(parts[1..])
  }

  // Masking the halves apart is halving the masked text.
  lemma HalvesRemask(text: string, k: nat)
    requires k < |text| && Mask(text)[k] == ','
    ensures text[k] == ',' && Mask(text[..k]) == Mask(text)[..k] && Mask(text[k + 1..]) == Mask(text)[k + 1..]
  {
    StructureIsBoundary(text, k);
    hide *;
    KindsEnd(text, k + 1);
    BoundaryAtStart(text);
    MaskCommutesWithSlicing(text, 0, k);
    FirstPart(text, k);
    FirstPart(Mask(text), k);
  }

  lemma {:induction false} BoundaryAtStart(text: string)
    ensures Boundary(text, 0)
  {
  }

  lemma FirstPart(t: string, k: nat)
    requires k <= |t|
    ensures t[0..k] == t[..k]
  {
  }

  lemma MaskedTail(text: string, kinds: seq<Kind>, b: nat)
    requires |text| == |kinds| && b <= |text|
    ensures Masked(text[b..], kinds[b..]) == Masked(text, kinds)[b..]
  {
  }

  lemma {:induction false} MaskIs(text: string)
    ensures Mask(text) == Masked(text, Kinds(text))
  {
    hide Masked, Kinds;
  }

  lemma {:induction false} KindsEnd(text: string, b: nat)
    requires Boundary(text, b)
    ensures b <= |text| && Mask(text[b..]) == Mask(text)[b..]
  {
    hide *;
    KindsAtBoundary(text, b);
    MaskedTail(text, Kinds(text), b);
    MaskIs(text);
    MaskIs(text[b..]);
  }

  // The parts of a text, masked one by one, are the parts of the masked text; and with their commas
  // back between them they are the text itself. Nothing is lost before blank parts are dropped.
  lemma {:induction false} PartsGiveBack(text: string)
    ensures MaskAll(Cut(text, Mask(text), 0)) == Cut(Mask(text), Mask(text), 0)
    ensures WithCommas(Cut(text, Mask(text), 0)) == text
    decreases |text|
  {
    hide *;
    var m := Mask(text);
    CutAtFirst(text, m, 0);
    CutAtFirst(m, m, 0);
    var k := FirstComma(m, 0);
    if k.None? {
      PartAlone(text);
    } else {
      HalvesRemask(text, k.value);
      PartsGiveBack(text[k.value + 1..]);
      PartsBack(text[..k.value], Cut(text[k.value + 1..], m[k.value + 1..], 0));
      assert text == text[..k.value] + "," + text[k.value + 1..];
    }
  }

  lemma PartAlone(text: string)
    ensures WithCommas([text]) == text && MaskAll([text]) == [Mask(text)]
  {
    hide Mask;
    assert [text][1..] == [];
  }

  lemma {:induction false} PartsBack(first: string, rest: seq<string>)
    requires rest != []
    ensures WithCommas([first] + rest) == first + "," + WithCommas(rest)
    ensures MaskAll([first] + rest) == [Mask(first)] + MaskAll(rest)
  {
    hide Mask;
    assert ([first] + rest)[1..] == rest;
  }
}
