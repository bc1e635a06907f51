// Text in code-unit order, as `compareText` of the repository compares it, and the two lists that are
// built from it: a stable sort by a text key, which loses nothing, and the sorted list of distinct
// values, which depends on the values alone and not on their order or number.
module SortedText {
  predicate Precedes(a: string, b: string) {
    b != [] && (a == [] || a[0] < b[0] || (a[0] == b[0] && Precedes(a[1..], b[1..])))
  }

  lemma {:induction false} PrecedesTotal(a: string, b: string)
    ensures Precedes(a, b) || Precedes(b, a) || a == b
    ensures !(Precedes(a, b) && Precedes(b, a)) && !Precedes(a, a)
  {
    if a != [] {
      PrecedesTotal(a[1..], a[1..]);
      if b != [] && a[0] == b[0] {
        PrecedesTotal(a[1..], b[1..]);
        assert a == [a[0]] + a[1..] && b == [b[0]] + b[1..];
      }
    }
  }

  lemma {:induction false} PrecedesTransitive(a: string, b: string, c: string)
    requires Precedes(a, b) && Precedes(b, c)
    ensures Precedes(a, c)
  {
    if a != [] && a[0] == b[0] == c[0] {
      PrecedesTransitive(a[1..], b[1..], c[1..]);
    }
  }

  predicate NotAfter(a: string, b: string) {
    a == b || Precedes(a, b)
  }

  // A stable sort by a text key.
  function InsertBy<T>(key: T -> string, x: T, s: seq<T>): seq<T> {
    if s == [] || NotAfter(key(x), key(s[0])) then [x] + s else [s[0]] + InsertBy(key, x, s[1..])
  }

  function SortBy<T>(key: T -> string, s: seq<T>): seq<T> {
    if s == [] then [] else InsertBy(key, s[0], SortBy(key, s[1..]))
  }

  ghost predicate AscendingBy<T>(key: T -> string, s: seq<T>) {
    |s| <= 1 || (NotAfter(key(s[0]), key(s[1])) && AscendingBy(key, s[1..]))
  }

  lemma {:induction false} InsertByMeans<T>(key: T -> string, x: T, s: seq<T>)
    ensures multiset(InsertBy(key, x, s)) == multiset(s) + multiset{x} && |InsertBy(key, x, s)| == |s| + 1
    ensures AscendingBy(key, s) ==> AscendingBy(key, InsertBy(key, x, s))
  {
    if s != [] && !NotAfter(key(x), key(s[0])) {
      InsertByMeans(key, x, s[1..]);
      PrecedesTotal(key(x), key(s[0]));
      assert s == [s[0]] + s[1..];
      assert InsertBy(key, x, s)[1..] == InsertBy(key, x, s[1..]);
    } else {
      assert multiset([x] + s) == multiset([x]) + multiset(s);
      assert ([x] + s)[1..] == s;
    }
  }

  lemma {:induction false} SortByMeans<T>(key: T -> string, s: seq<T>)
    ensures multiset(SortBy(key, s)) == multiset(s) && |SortBy(key, s)| == |s| && AscendingBy(key, SortBy(key, s))
  {
    if s != [] {
      SortByMeans(key, s[1..]);
      InsertByMeans(key, s[0], SortBy(key, s[1..]));
      assert s == [s[0]] + s[1..];
    }
  }

  function Itself(x: string): string {
    x
  }

  function Sorted(s: seq<string>): seq<string> {
    SortBy(Itself, s)
  }

  lemma SortedMeans(s: seq<string>)
    ensures multiset(Sorted(s)) == multiset(s) && AscendingBy(Itself, Sorted(s))
  {
    SortByMeans(Itself, s);
  }

  lemma {:induction false} AscendingHead(s: seq<string>, y: string)
    requires AscendingBy(Itself, s) && y in s
    ensures NotAfter(s[0], y)
  {
    if y != s[0] {
      assert s == [s[0]] + s[1..];
      AscendingHead(s[1..], y);
      if s[0] != s[1] && s[1] != y {
        PrecedesTransitive(s[0], s[1], y);
      }
    }
  }

  lemma TailBag(s: seq<string>)
    requires s != []
    ensures s == [s[0]] + s[1..] && multiset(s[1..]) == multiset(s) - multiset{s[0]} && s[0] in s
  {
    assert s == [s[0]] + s[1..];
  }

  lemma {:induction false} SameHead(a: seq<string>, b: seq<string>)
    requires AscendingBy(Itself, a) && AscendingBy(Itself, b) && a != [] && b != [] && multiset(a) == multiset(b)
    ensures a[0] == b[0]
  {
    assert a[0] in multiset(b) && b[0] in multiset(a);
    AscendingHead(a, b[0]);
    AscendingHead(b, a[0]);
    PrecedesTotal(a[0], b[0]);
    hide AscendingBy, Precedes;
  }

  // A list in order is fixed by its values and how often each comes.
  lemma {:induction false} AscendingUnique(a: seq<string>, b: seq<string>)
    requires AscendingBy(Itself, a) && AscendingBy(Itself, b) && multiset(a) == multiset(b)
    ensures a == b
  {
    if a == [] || b == [] {
      assert |multiset(a)| == |multiset(b)|;
    } else {
      assert AscendingBy(Itself, a[1..]) && AscendingBy(Itself, b[1..]);
      hide *;
      SameHead(a, b);
      TailBag(a);
      TailBag(b);
      AscendingUnique(a[1..], b[1..]);
    }
  }

  // `sortedValues`: the distinct values in order.
  function InsertOnce(x: string, s: seq<string>): seq<string> {
    if s == [] || Precedes(x, s[0]) then [x] + s
    else if x == s[0] then s
    else [s[0]] + InsertOnce(x, s[1..])
  }

  function SortedValues(s: seq<string>): seq<string> {
    if s == [] then [] else InsertOnce(s[0], SortedValues(s[1..]))
  }

  predicate Increasing(s: seq<string>) {
    |s| <= 1 || (Precedes(s[0], s[1]) && Increasing(s[1..]))
  }

  lemma {:induction false} InsertOnceMeans(x: string, s: seq<string>)
    requires Increasing(s)
    ensures Increasing(InsertOnce(x, s)) && InsertOnce(x, s) != []
    ensures InsertOnce(x, s)[0] == x || (s != [] && InsertOnce(x, s)[0] == s[0])
    ensures forall y :: y in InsertOnce(x, s) <==> y == x || y in s
  {
    if s != [] && x != s[0] && !Precedes(x, s[0]) {
      InsertOnceMeans(x, s[1..]);
      PrecedesTotal(x, s[0]);
      assert s == [s[0]] + s[1..];
      assert InsertOnce(x, s)[1..] == InsertOnce(x, s[1..]);
    } else if s == [] || Precedes(x, s[0]) {
      assert ([x] + s)[1..] == s;
    }
  }

  lemma {:induction false} SortedValuesMeans(s: seq<string>)
    ensures Increasing(SortedValues(s))
    ensures forall y :: y in SortedValues(s) <==> y in s
  {
    if s != [] {
      SortedValuesMeans(s[1..]);
      InsertOnceMeans(s[0], SortedValues(s[1..]));
      assert s == [s[0]] + s[1..];
    }
  }

  lemma {:induction false} FirstIsLeast(s: seq<string>, y: string)
    requires Increasing(s) && s != [] && y in s[1..]
    ensures Precedes(s[0], y)
  {
    var rest := s[1..];
    if y != rest[0] {
      assert rest == [rest[0]] + rest[1..];
      FirstIsLeast(rest, y);
      PrecedesTransitive(s[0], rest[0], y);
    }
  }

  lemma {:induction false} HeadIsLeast(s: seq<string>, y: string)
    requires Increasing(s) && y in s
    ensures NotAfter(s[0], y)
  {
    assert s == [s[0]] + s[1..];
    if y in s[1..] {
      FirstIsLeast(s, y);
    }
  }

  lemma HasMember(s: seq<string>)
    ensures s == [] || exists y :: y in s
  {
    if s != [] {
      assert s[0] in s;
    }
  }

  // A list of distinct values in order is fixed by the values alone.
  lemma {:induction false} IncreasingUnique(a: seq<string>, b: seq<string>)
    requires Increasing(a) && Increasing(b) && forall y :: y in a <==> y in b
    ensures a == b
  {
    if a == [] {
      HasMember(b);
    } else {
      assert a[0] in a && a[0] in b;
      var c, d := a[1..], b[1..];
      assert a == [a[0]] + c && b == [b[0]] + d;
      assert b[0] in b;
      HeadIsLeast(a, b[0]);
      HeadIsLeast(b, a[0]);
      PrecedesTotal(a[0], b[0]);
      forall y
        ensures y in c <==> y in d
      {
        TailMembers(a, y);
        TailMembers(b, y);
      }
      IncreasingUnique(c, d);
    }
  }

  lemma {:induction false} TailMembers(s: seq<string>, y: string)
    requires Increasing(s) && s != []
    ensures y in s[1..] <==> y in s && y != s[0]
  {
    assert s == [s[0]] + s[1..];
    if y in s[1..] {
      FirstIsLeast(s, y);
      PrecedesTotal(y, y);
    }
  }

  // So the order in which values come, and how often, makes no difference.
  lemma {:induction false} SortedValuesOf(a: seq<string>, b: seq<string>)
    ensures SortedValues(a) == SortedValues(b) <==> forall y :: y in a <==> y in b
  {
    SortedValuesMeans(a);
    SortedValuesMeans(b);
    if forall y :: y in a <==> y in b {
      IncreasingUnique(SortedValues(a), SortedValues(b));
    }
    if SortedValues(a) == SortedValues(b) {
      forall y
        ensures y in a <==> y in b
      {
        assert y in SortedValues(a) <==> y in a;
      }
    }
  }
}
