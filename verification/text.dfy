/** String helpers of the Go standard library that the modelled code relies on:
    strings.TrimSpace, strings.Trim with one cut character, strings.Split with one
    separator character, strings.Join, and the order of sort.Strings. */
module Text {

  /** unicode.IsSpace. */
  predicate IsSpace(c: char) {
    || c in {'\t', '\n', '\U{000B}', '\U{000C}', '\r', ' ', '\U{0085}', '\U{00A0}', '\U{1680}'}
    || '\U{2000}' <= c <= '\U{200A}'
    || c in {'\U{2028}', '\U{2029}', '\U{202F}', '\U{205F}', '\U{3000}'}
  }

  function TrimLeft(s: string, cut: char -> bool): (r: string)
    ensures r == [] || !cut(r[0])
    ensures forall c :: c in r ==> c in s
  {
    if s == [] || !cut(s[0]) then s else TrimLeft(s[1..], cut)
  }

  function TrimRight(s: string, cut: char -> bool): (r: string)
    ensures r == [] || !cut(r[|r| - 1])
    ensures r <= s
  {
    if s == [] || !cut(s[|s| - 1]) then s else TrimRight(s[..|s| - 1], cut)
  }

  function Trim(s: string, cut: char -> bool): string {
    TrimRight(TrimLeft(s, cut), cut)
  }

  function TrimSpace(s: string): string {
    Trim(s, IsSpace)
  }

  /** Neither end of the string is cut away. */
  predicate HasNoEnds(s: string, cut: char -> bool) {
    s == [] || (!cut(s[0]) && !cut(s[|s| - 1]))
  }

  predicate Trimmed(s: string) {
    HasNoEnds(s, IsSpace)
  }

  lemma TrimCutsEnds(s: string, cut: char -> bool)
    ensures HasNoEnds(Trim(s, cut), cut)
    ensures forall c :: c in Trim(s, cut) ==> c in s
    ensures HasNoEnds(s, cut) ==> Trim(s, cut) == s
  {
    var l := TrimLeft(s, cut);
    var r := TrimRight(l, cut);
    assert forall i :: 0 <= i < |r| ==> r[i] == l[i];
  }

  lemma TrimLeftNext(c: char, s: string, cut: char -> bool)
    ensures TrimLeft([c] + s, cut) == if cut(c) then TrimLeft(s, cut) else [c] + s
  {
    assert ([c] + s)[1..] == s;
  }

  lemma {:induction false} TrimLeftPrefix(a: string, b: string, cut: char -> bool)
    requires TrimLeft(a, cut) != ""
    ensures TrimLeft(a + b, cut) == TrimLeft(a, cut) + b
  {
    var c, rest := a[0], a[1..];
    assert a == [c] + rest && a + b == [c] + (rest + b);
    TrimLeftNext(c, rest, cut);
    TrimLeftNext(c, rest + b, cut);
    if cut(c) {
      TrimLeftPrefix(rest, b, cut);
    }
  }

  lemma {:induction false} TrimRightKeepsFirst(s: string, cut: char -> bool)
    requires s != "" && !cut(s[0])
    ensures TrimRight(s, cut) != "" && TrimRight(s, cut)[0] == s[0]
  {
    if cut(s[|s| - 1]) {
      TrimRightKeepsFirst(s[..|s| - 1], cut);
    }
  }

  /** A text that is not blank starts, once trimmed, as its first part does. */
  lemma TrimmedStart(a: string, b: string)
    requires TrimSpace(a) != ""
    ensures TrimSpace(a + b) != "" && TrimSpace(a + b)[0] == TrimSpace(a)[0]
  {
    var l := TrimLeft(a, IsSpace);
    TrimLeftPrefix(a, b, IsSpace);
    TrimRightKeepsFirst(l, IsSpace);
    TrimRightKeepsFirst(l + b, IsSpace);
  }

  /** strings.TrimSpace is idempotent. */
  lemma TrimSpaceIdempotent(s: string)
    ensures Trimmed(TrimSpace(s))
    ensures TrimSpace(TrimSpace(s)) == TrimSpace(s)
  {
    TrimCutsEnds(s, IsSpace);
    TrimCutsEnds(TrimSpace(s), IsSpace);
  }

  function Split(s: string, sep: char): (r: seq<string>)
    ensures |r| > 0
    ensures forall i :: 0 <= i < |r| ==> sep !in r[i]
  {
    if s == [] then [[]]
    else
      var rest := Split(s[1..], sep);
      if s[0] == sep then [[]] + rest else [[s[0]] + rest[0]] + rest[1..]
  }

  function Join(xs: seq<string>, sep: char): string {
    if xs == [] then []
    else if |xs| == 1 then xs[0]
    else xs[0] + [sep] + Join(xs[1..], sep)
  }

  lemma {:induction false} SplitFirst(x: string, rest: string, sep: char)
    requires sep !in x
    ensures Split(x + [sep] + rest, sep) == [x] + Split(rest, sep)
  {
    var s := x + [sep] + rest;
    if x == [] {
      assert s[1..] == rest;
    } else {
      assert s[1..] == x[1..] + [sep] + rest;
      SplitFirst(x[1..], rest, sep);
      assert [x[0]] + x[1..] == x;
    }
  }

  lemma {:induction false} SplitWhole(x: string, sep: char)
    requires sep !in x
    ensures Split(x, sep) == [x]
  {
    if x != [] {
      SplitWhole(x[1..], sep);
      assert [x[0]] + x[1..] == x;
    }
  }

  /** Splitting splits on either side of a separator. */
  lemma {:induction false} SplitConcat(a: string, b: string, sep: char)
    ensures Split(a + [sep] + b, sep) == Split(a, sep) + Split(b, sep)
  {
    var s := a + [sep] + b;
    if a == [] {
      assert s[1..] == b;
    } else {
      assert s[1..] == a[1..] + [sep] + b;
      SplitConcat(a[1..], b, sep);
    }
  }

  /** The pieces of all strings of a list, in order. */
  function AllPieces(xs: seq<string>, sep: char): seq<string> {
    if xs == [] then [] else Split(xs[0], sep) + AllPieces(xs[1..], sep)
  }

  /** Splitting a joined list gives the pieces of its strings, whatever they hold. */
  lemma {:induction false} SplitJoinPieces(xs: seq<string>, sep: char)
    requires xs != []
    ensures Split(Join(xs, sep), sep) == AllPieces(xs, sep)
  {
    if |xs| > 1 {
      SplitJoinPieces(xs[1..], sep);
      SplitConcat(xs[0], Join(xs[1..], sep), sep);
    }
  }

  /** Splitting a joined list gives the list back when no piece holds the separator. */
  lemma {:induction false} SplitJoin(xs: seq<string>, sep: char)
    requires xs != []
    requires forall x :: x in xs ==> sep !in x
    ensures Split(Join(xs, sep), sep) == xs
  {
    if |xs| == 1 {
      SplitWhole(xs[0], sep);
    } else {
      SplitJoin(xs[1..], sep);
      SplitFirst(xs[0], Join(xs[1..], sep), sep);
    }
  }

  lemma {:induction false} JoinStops(xs: seq<string>, sep: char)
    requires xs != [] && xs[|xs| - 1] != ""
    ensures Join(xs, sep) != ""
    ensures Join(xs, sep)[|Join(xs, sep)| - 1] == xs[|xs| - 1][|xs[|xs| - 1]| - 1]
  {
    if |xs| > 1 {
      JoinStops(xs[1..], sep);
      assert xs[1..][|xs[1..]| - 1] == xs[|xs| - 1];
    }
  }

  /** A joined list whose outer pieces are not empty starts and ends as they do. */
  lemma JoinEnds(xs: seq<string>, sep: char)
    requires xs != [] && xs[0] != "" && xs[|xs| - 1] != ""
    ensures Join(xs, sep) != ""
    ensures Join(xs, sep)[0] == xs[0][0]
    ensures Join(xs, sep)[|Join(xs, sep)| - 1] == xs[|xs| - 1][|xs[|xs| - 1]| - 1]
  {
    JoinStops(xs, sep);
  }

  /** The outer pieces of a string that neither starts nor ends with the separator are not empty. */
  lemma {:induction false} SplitStops(s: string, sep: char)
    requires s != "" && s[|s| - 1] != sep
    ensures Split(s, sep)[|Split(s, sep)| - 1] != ""
  {
    if |s| > 1 {
      assert s[1..][|s[1..]| - 1] == s[|s| - 1];
      SplitStops(s[1..], sep);
    }
  }

  lemma SplitStarts(s: string, sep: char)
    requires s != "" && s[0] != sep
    ensures Split(s, sep)[0] != ""
  {
  }

  /** The byte order of sort.Strings, which on valid UTF-8 is the order of code points. */
  predicate Less(a: string, b: string) {
    if b == [] then false
    else if a == [] then true
    else a[0] < b[0] || (a[0] == b[0] && Less(a[1..], b[1..]))
  }

  lemma {:induction false} LessIrreflexive(a: string)
    ensures !Less(a, a)
  {
    if a != [] {
      LessIrreflexive(a[1..]);
    }
  }

  lemma {:induction false} LessTransitive(a: string, b: string, c: string)
    requires Less(a, b) && Less(b, c)
    ensures Less(a, c)
  {
    if a != [] && a[0] == b[0] && b[0] == c[0] {
      LessTransitive(a[1..], b[1..], c[1..]);
    }
  }

  lemma {:induction false} LessTotal(a: string, b: string)
    ensures a == b || Less(a, b) || Less(b, a)
  {
    if a != [] && b != [] && a[0] == b[0] {
      LessTotal(a[1..], b[1..]);
      assert a == [a[0]] + a[1..] && b == [b[0]] + b[1..];
    }
  }
}
