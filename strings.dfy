/**
 * The Swift and Foundation string operations the command layer is built
 * from: `hasPrefix`, `joined(separator:)`, `components(separatedBy:)`,
 * `replacingOccurrences(of:with:)` for a single character, the decimal
 * rendering of an `Int` in string interpolation, and the quoting used by the
 * display forms. Characters are Dafny `char`s; grapheme clustering is not
 * modelled.
 */
module Strings {
  import opened Wrappers

  /** `s.hasPrefix(p)` */
  predicate StartsWith(s: string, p: string) {
    |p| <= |s| && s[..|p|] == p
  }

  /** A token starts with `-` exactly when its first character is `-`. */
  lemma StartsWithDash(t: string)
    ensures StartsWith(t, "-") <==> |t| > 0 && t[0] == '-'
  {
    if |t| > 0 {
      assert t[..1][0] == t[0];
    }
  }

  /** `s.hasSuffix(p)` */
  predicate EndsWith(s: string, p: string) {
    |p| <= |s| && s[|s| - |p|..] == p
  }

  /** `sep` occurs in `s` at index `i`. */
  predicate OccursAt(s: string, sep: string, i: nat) {
    i + |sep| <= |s| && s[i..i + |sep|] == sep
  }

  predicate Contains(s: string, sep: string) {
    exists i: nat :: i <= |s| && OccursAt(s, sep, i)
  }

  lemma ContainsCharIff(s: string, c: char)
    ensures Contains(s, [c]) <==> c in s
  {
    if c in s {
      var i :| 0 <= i < |s| && s[i] == c;
      assert OccursAt(s, [c], i);
    }
    if Contains(s, [c]) {
      var i: nat :| i <= |s| && OccursAt(s, [c], i);
      assert s[i] == s[i..i + 1][0];
    }
  }

  /** A text lacking the first character of a separator does not contain it. */
  lemma AbsentFirstChar(s: string, sep: string)
    requires sep != [] && sep[0] !in s
    ensures !Contains(s, sep)
  {
    forall i: nat | i <= |s| ensures !OccursAt(s, sep, i) {
    }
  }

  // ---------------------------------------------------------------------
  // joined(separator:)

  /** `tokens.joined(separator: sep)` */
  function Join(tokens: seq<string>, sep: string): string
  {
    if |tokens| == 0 then ""
    else if |tokens| == 1 then tokens[0]
    else tokens[0] + sep + Join(tokens[1..], sep)
  }

  lemma JoinCons(t: string, rest: seq<string>, sep: string)
    requires rest != []
    ensures Join([t] + rest, sep) == t + sep + Join(rest, sep)
  {
    assert ([t] + rest)[1..] == rest;
  }

  /** Joining distributes over concatenation of two non-empty lists. */
  lemma {:induction false} JoinAppend(a: seq<string>, b: seq<string>, sep: string)
    requires a != [] && b != []
    ensures Join(a + b, sep) == Join(a, sep) + sep + Join(b, sep)
    decreases |a|
  {
    if |a| == 1 {
      JoinCons(a[0], b, sep);
      assert a + b == [a[0]] + b;
    } else {
      assert (a + b)[1..] == a[1..] + b;
      JoinAppend(a[1..], b, sep);
    }
  }

  /** Prepending to the first token prepends to the joined string. */
  lemma JoinPrependFirst(pre: string, rest: seq<string>, sep: string)
    requires rest != []
    ensures Join([pre + rest[0]] + rest[1..], sep) == pre + Join(rest, sep)
  {
    if |rest| > 1 {
      JoinCons(pre + rest[0], rest[1..], sep);
    }
  }

  /** The last token of a join of several tokens follows the last separator. */
  lemma JoinLast(tokens: seq<string>, sep: string)
    requires |tokens| > 1
    ensures Join(tokens, sep) == Join(tokens[..|tokens| - 1], sep) + sep + tokens[|tokens| - 1]
  {
    var n := |tokens|;
    assert tokens == tokens[..n - 1] + [tokens[n - 1]];
    JoinAppend(tokens[..n - 1], [tokens[n - 1]], sep);
  }

  // ---------------------------------------------------------------------
  // components(separatedBy:)

  /**
   * `s.components(separatedBy: sep)`: the pieces between the occurrences of
   * `sep`, scanned left to right. There is always at least one piece, so
   * `.first` and `.last` never fail.
   */
  function Split(s: string, sep: string): (pieces: seq<string>)
    requires sep != ""
    ensures |pieces| >= 1
    decreases |s|
  {
    if |s| < |sep| then [s]
    else if s[..|sep|] == sep then [""] + Split(s[|sep|..], sep)
    else
      var rest := Split(s[1..], sep);
      [[s[0]] + rest[0]] + rest[1..]
  }

  /** Joining the pieces with the separator gives back the input. */
  lemma {:induction false} SplitJoin(s: string, sep: string)
    requires sep != ""
    ensures Join(Split(s, sep), sep) == s
    decreases |s|
  {
    if |s| < |sep| {
    } else if s[..|sep|] == sep {
      var rest := Split(s[|sep|..], sep);
      SplitJoin(s[|sep|..], sep);
      JoinCons("", rest, sep);
      assert s == sep + s[|sep|..];
    } else {
      var rest := Split(s[1..], sep);
      SplitJoin(s[1..], sep);
      JoinPrependFirst([s[0]], rest, sep);
      assert s == [s[0]] + s[1..];
    }
  }

  /** The first piece is a prefix of the input. */
  lemma SplitFirstIsPrefix(s: string, sep: string)
    requires sep != ""
    ensures StartsWith(s, Split(s, sep)[0])
  {
    var pieces := Split(s, sep);
    SplitJoin(s, sep);
    if |pieces| > 1 {
      JoinCons(pieces[0], pieces[1..], sep);
      assert pieces == [pieces[0]] + pieces[1..];
    }
  }

  /** No piece contains the separator. */
  lemma {:induction false} SplitPiecesFree(s: string, sep: string)
    requires sep != ""
    ensures forall k :: 0 <= k < |Split(s, sep)| ==> !Contains(Split(s, sep)[k], sep)
    decreases |s|
  {
    var pieces := Split(s, sep);
    if |s| < |sep| {
      forall i: nat ensures !OccursAt(s, sep, i) {}
    } else if s[..|sep|] == sep {
      SplitPiecesFree(s[|sep|..], sep);
      forall i: nat ensures !OccursAt("", sep, i) {}
    } else {
      var rest := Split(s[1..], sep);
      SplitPiecesFree(s[1..], sep);
      SplitFirstIsPrefix(s[1..], sep);
      var p0 := [s[0]] + rest[0];
      assert pieces == [p0] + rest[1..];
      assert StartsWith(s, p0);
      forall i: nat ensures !OccursAt(p0, sep, i) {
        if i == 0 {
          if |sep| <= |p0| {
            assert p0[..|sep|] == s[..|sep|];
          }
        } else {
          assert OccursAt(p0, sep, i) ==> OccursAt(rest[0], sep, i - 1);
        }
      }
      forall k | 1 <= k < |pieces| ensures !Contains(pieces[k], sep) {
        assert pieces[k] == rest[k];
      }
    }
  }

  /** A string without the separator is a single piece. */
  lemma {:induction false} SplitAbsent(s: string, sep: string)
    requires sep != "" && !Contains(s, sep)
    ensures Split(s, sep) == [s]
    decreases |s|
  {
    if |s| >= |sep| {
      assert !OccursAt(s, sep, 0);
      forall i: nat ensures !OccursAt(s[1..], sep, i) {
        assert OccursAt(s[1..], sep, i) ==> OccursAt(s, sep, i + 1);
      }
      SplitAbsent(s[1..], sep);
      assert s == [s[0]] + s[1..];
    }
  }

  /**
   * For a two-character separator that does not overlap itself (such as
   * `": "`), the last piece of `p + sep + t` is `t` whenever `t` does not
   * contain the separator, whatever `p` holds.
   */
  lemma {:induction false} SplitLastAfter(p: string, t: string, sep: string)
    requires |sep| == 2 && sep[0] != sep[1]
    requires !Contains(t, sep)
    ensures |Split(p + sep + t, sep)| >= 2
    ensures Split(p + sep + t, sep)[|Split(p + sep + t, sep)| - 1] == t
    decreases |p|
  {
    var s := p + sep + t;
    assert |p| == 1 ==> s[1] == sep[0];
    if |p| == 0 {
      assert s[..|sep|] == sep && s[|sep|..] == t;
      SplitAbsent(t, sep);
    } else if s[..|sep|] == sep {
      assert s[1] == sep[1];
      assert s[|sep|..] == p[2..] + sep + t;
      SplitLastAfter(p[2..], t, sep);
    } else {
      assert s[1..] == p[1..] + sep + t;
      SplitLastAfter(p[1..], t, sep);
    }
  }

  /**
   * Two texts joined by a one-character separator that neither contains
   * split back into exactly those two texts.
   */
  lemma {:induction false} SplitPair(p: string, t: string, c: char)
    requires c !in p && c !in t
    ensures Split(p + [c] + t, [c]) == [p, t]
    decreases |p|
  {
    var s := p + [c] + t;
    if |p| == 0 {
      assert s[..1] == [c] && s[1..] == t;
      ContainsCharIff(t, c);
      SplitAbsent(t, [c]);
    } else {
      assert s[..1] == [p[0]] != [c];
      assert s[1..] == p[1..] + [c] + t;
      SplitPair(p[1..], t, c);
      assert [p[0]] + p[1..] == p;
    }
  }

  /** A word free of a one-character separator is the first piece of that word, the separator and anything. */
  lemma {:induction false} SplitFirstWord(w: string, rest: string, c: char)
    requires c !in w
    ensures Split(w + [c] + rest, [c])[0] == w
    decreases |w|
  {
    var s := w + [c] + rest;
    if |w| == 0 {
      assert s[..1] == [c];
    } else {
      assert s[..1] == [w[0]] != [c];
      assert s[1..] == w[1..] + [c] + rest;
      SplitFirstWord(w[1..], rest, c);
      assert [w[0]] + w[1..] == w;
    }
  }

  /**
   * The first piece is free of the separator and is either the whole input or
   * followed in it by the separator.
   */
  lemma SplitFirst(s: string, sep: string)
    requires sep != ""
    ensures var first := Split(s, sep)[0];
      !Contains(first, sep) && (first == s || StartsWith(s, first + sep))
  {
    var pieces := Split(s, sep);
    SplitJoin(s, sep);
    SplitPiecesFree(s, sep);
    if |pieces| > 1 {
      JoinCons(pieces[0], pieces[1..], sep);
      assert pieces == [pieces[0]] + pieces[1..];
      assert s == pieces[0] + sep + Join(pieces[1..], sep);
    }
  }

  /**
   * The last piece is free of the separator and is either the whole input or
   * preceded in it by the separator: it is the text after the final
   * occurrence.
   */
  lemma SplitLast(s: string, sep: string)
    requires sep != ""
    ensures var pieces := Split(s, sep); var last := pieces[|pieces| - 1];
      !Contains(last, sep) && (last == s || EndsWith(s, sep + last))
  {
    var pieces := Split(s, sep);
    SplitJoin(s, sep);
    SplitPiecesFree(s, sep);
    JoinLastPiece(pieces, sep);
  }

  /**
   * The last piece of `p`, a one-character separator and `t` is `t` when `t`
   * does not hold the separator, whatever `p` holds.
   */
  lemma {:induction false} SplitLastChar(p: string, t: string, c: char)
    requires c !in t
    ensures |Split(p + [c] + t, [c])| >= 2
    ensures Split(p + [c] + t, [c])[|Split(p + [c] + t, [c])| - 1] == t
    decreases |p|
  {
    var s := p + [c] + t;
    if |p| == 0 {
      assert s[..1] == [c] && s[1..] == t;
      ContainsCharIff(t, c);
      SplitAbsent(t, [c]);
    } else {
      assert s[1..] == p[1..] + [c] + t;
      SplitLastChar(p[1..], t, c);
    }
  }

  /** The last token of a join is the whole join or follows a separator at its end. */
  lemma JoinLastPiece(pieces: seq<string>, sep: string)
    requires |pieces| >= 1
    ensures var last := pieces[|pieces| - 1];
      last == Join(pieces, sep) || EndsWith(Join(pieces, sep), sep + last)
  {
    if |pieces| > 1 {
      var last := pieces[|pieces| - 1];
      JoinLast(pieces, sep);
      var front := Join(pieces[..|pieces| - 1], sep);
      assert Join(pieces, sep) == front + (sep + last);
      EndsWithAppend(front, sep + last);
    }
  }

  lemma EndsWithAppend(a: string, b: string)
    ensures EndsWith(a + b, b)
  {
    assert (a + b)[|a|..] == b;
  }

  // ---------------------------------------------------------------------
  // replacingOccurrences(of: c, with: "")

  /** `s.replacingOccurrences(of: String(c), with: "")` */
  function Remove(s: string, c: char): (r: string)
    ensures c !in r
    ensures c !in s ==> r == s
  {
    if s == [] then []
    else (if s[0] == c then [] else [s[0]]) + Remove(s[1..], c)
  }

  /** Removing one character keeps every other character, as often as it occurred. */
  lemma {:induction false} RemoveKeepsOthers(s: string, c: char, x: char)
    requires x != c
    ensures multiset(Remove(s, c))[x] == multiset(s)[x]
  {
    if s != [] {
      assert s == [s[0]] + s[1..];
      RemoveKeepsOthers(s[1..], c, x);
    }
  }

  /** Removing a character from a concatenation removes it from each part. */
  lemma {:induction false} RemoveAppend(a: string, b: string, c: char)
    ensures Remove(a + b, c) == Remove(a, c) + Remove(b, c)
    decreases |a|
  {
    if a == [] {
      assert a + b == b;
    } else {
      assert (a + b)[0] == a[0] && (a + b)[1..] == a[1..] + b;
      RemoveAppend(a[1..], b, c);
    }
  }

  // ---------------------------------------------------------------------
  // "\(n)" for an Int, and Int(_: String) as its inverse

  predicate IsDigit(c: char) {
    '0' as int <= c as int <= '9' as int
  }

  function DigitChar(d: nat): (c: char)
    requires d < 10
    ensures IsDigit(c)
  {
    ('0' as int + d) as char
  }

  /** The decimal digits of a natural number, most significant first. */
  function Digits(n: nat): (r: string)
    ensures |r| >= 1
    ensures forall i :: 0 <= i < |r| ==> IsDigit(r[i])
  {
    if n < 10 then [DigitChar(n)] else Digits(n / 10) + [DigitChar(n % 10)]
  }

  /** `"\(n)"`: an optional minus sign followed by the digits of |n|. */
  function Decimal(n: int): (r: string)
    ensures IsDecimal(r)
    ensures StartsWith(r, "-") <==> n < 0
    ensures ' ' !in r
  {
    if n < 0 then "-" + Digits(-n)
    else
      var d := Digits(n);
      assert d[..1][0] == d[0];
      d
  }

  /** The value of a string of decimal digits. */
  function DigitsValue(s: string): nat
    requires forall i :: 0 <= i < |s| ==> IsDigit(s[i])
  {
    if s == [] then 0
    else
      assert IsDigit(s[|s| - 1]);
      DigitsValue(s[..|s| - 1]) * 10 + (s[|s| - 1] as int - '0' as int)
  }

  /** The shape `Decimal` produces: an optional leading minus, then digits. */
  predicate IsDecimal(s: string) {
    |s| >= 1 && (IsDigit(s[0]) || s[0] == '-') && forall i :: 0 < i < |s| ==> IsDigit(s[i])
  }

  /** `Int(s)` for the strings `Decimal` produces. */
  function IntValue(s: string): int
    requires IsDecimal(s)
  {
    if s[0] == '-' then 0 - DigitsValue(s[1..]) else DigitsValue(s)
  }

  lemma {:induction false} DigitsValueOfDigits(n: nat)
    ensures DigitsValue(Digits(n)) == n
  {
    if n >= 10 {
      var d := Digits(n);
      assert d[..|d| - 1] == Digits(n / 10);
      DigitsValueOfDigits(n / 10);
    }
  }

  /** Reading back the decimal rendering of an integer gives the integer. */
  lemma DecimalRoundTrip(n: int)
    ensures IntValue(Decimal(n)) == n
  {
    var d := Decimal(n);
    if n < 0 {
      assert d == "-" + Digits(-n);
      assert d[0] == '-' && d[1..] == Digits(-n);
      DigitsValueOfDigits(-n);
    } else {
      assert d == Digits(n) && IsDigit(d[0]);
      DigitsValueOfDigits(n);
    }
  }

  // ---------------------------------------------------------------------
  // Display forms

  /** A token wrapped in double quotes, as the display forms write it. */
  function Quote(t: string): (r: string)
    ensures |r| == |t| + 2 && r[0] == '"' && r[|r| - 1] == '"'
  {
    "\"" + t + "\""
  }

  /** Removes one pair of surrounding double quotes, if there is one. */
  function Unquote(d: string): string
  {
    if |d| >= 2 && d[0] == '"' && d[|d| - 1] == '"' then d[1..|d| - 1] else d
  }

  /** The rule of most option lists: a token starting with `-` stays bare. */
  predicate FlagBare(t: string) {
    StartsWith(t, "-")
  }

  /**
   * Each token as the display form writes it: bare when `bare` says so,
   * quoted otherwise.
   */
  function Shown(tokens: seq<string>, bare: string -> bool): (r: seq<string>)
    ensures |r| == |tokens|
    ensures forall i :: 0 <= i < |tokens| ==>
      r[i] == if bare(tokens[i]) then tokens[i] else Quote(tokens[i])
  {
    if tokens == [] then []
    else [if bare(tokens[0]) then tokens[0] else Quote(tokens[0])] + Shown(tokens[1..], bare)
  }

  /**
   * When only flag tokens stay bare, each displayed token unquotes to the
   * token it shows: the display form loses no token's text.
   */
  lemma UnquoteShown(tokens: seq<string>, bare: string -> bool, i: int)
    requires 0 <= i < |tokens|
    requires bare(tokens[i]) ==> StartsWith(tokens[i], "-")
    ensures Unquote(Shown(tokens, bare)[i]) == tokens[i]
  {
    var t := tokens[i];
    var d := Shown(tokens, bare)[i];
    if bare(t) {
      assert d == t && t[..1][0] == '-';
    } else {
      assert d == Quote(t);
      assert d[1..|d| - 1] == t;
    }
  }

  /** The display form of a token sequence: displayed tokens joined by spaces. */
  function DisplayString(tokens: seq<string>, bare: string -> bool): string
  {
    Join(Shown(tokens, bare), " ")
  }

  /**
   * When bare tokens are flags, the display form is empty exactly when there
   * are no tokens: a shown token is never empty.
   */
  lemma DisplayStringEmpty(tokens: seq<string>, bare: string -> bool)
    requires forall i :: 0 <= i < |tokens| && bare(tokens[i]) ==> StartsWith(tokens[i], "-")
    ensures DisplayString(tokens, bare) == "" <==> tokens == []
  {
    if tokens != [] {
      var shown := Shown(tokens, bare);
      assert shown[0] != "";
      if |shown| > 1 {
        JoinCons(shown[0], shown[1..], " ");
        assert shown == [shown[0]] + shown[1..];
      }
    }
  }

  /** With every token a bare flag, the display form is the plain join. */
  lemma DisplayStringAllBare(tokens: seq<string>, bare: string -> bool)
    requires forall i :: 0 <= i < |tokens| ==> bare(tokens[i])
    ensures DisplayString(tokens, bare) == Join(tokens, " ")
  {
    assert Shown(tokens, bare) == tokens;
  }

  // ---------------------------------------------------------------------
  // map and flatMap over option lists

  /** `xs.map(f)` where every element yields one token. */
  function MapTokens<T>(xs: seq<T>, f: T -> string): (r: seq<string>)
    ensures |r| == |xs|
    ensures forall i :: 0 <= i < |xs| ==> r[i] == f(xs[i])
  {
    if xs == [] then [] else [f(xs[0])] + MapTokens(xs[1..], f)
  }

  /** `xs.flatMap(f)` */
  function FlatMap<T>(xs: seq<T>, f: T -> seq<string>): seq<string>
  {
    if xs == [] then [] else f(xs[0]) + FlatMap(xs[1..], f)
  }

  /** `flatMap` distributes over concatenation, so option order is kept. */
  lemma {:induction false} FlatMapAppend<T>(a: seq<T>, b: seq<T>, f: T -> seq<string>)
    ensures FlatMap(a + b, f) == FlatMap(a, f) + FlatMap(b, f)
  {
    if a != [] {
      assert (a + b)[1..] == a[1..] + b;
      FlatMapAppend(a[1..], b, f);
    } else {
      assert a + b == b;
    }
  }

  /** A bound on the tokens of a `flatMap` whose elements yield at most `k` each. */
  lemma {:induction false} FlatMapBound<T>(xs: seq<T>, f: T -> seq<string>, k: nat)
    requires forall x :: x in xs ==> |f(x)| <= k
    ensures |FlatMap(xs, f)| <= k * |xs|
  {
    if xs != [] {
      var rest := xs[1..];
      assert forall x :: x in rest ==> x in xs;
      FlatMapBound(rest, f, k);
      assert FlatMap(xs, f) == f(xs[0]) + FlatMap(rest, f);
      MulSucc(k, |rest|);
    }
  }

  lemma MulSucc(k: nat, n: nat)
    ensures k * (n + 1) == k * n + k
  {
  }

  /** A `flatMap` whose elements yield at least one token each yields at least one per element. */
  lemma {:induction false} FlatMapAtLeastOne<T>(xs: seq<T>, f: T -> seq<string>)
    requires forall x :: x in xs ==> |f(x)| >= 1
    ensures |FlatMap(xs, f)| >= |xs|
  {
    if xs != [] {
      assert forall x :: x in xs[1..] ==> x in xs;
      FlatMapAtLeastOne(xs[1..], f);
    }
  }

  /** A one-element list yields that element's tokens. */
  lemma FlatMapSingle<T>(x: T, f: T -> seq<string>)
    ensures FlatMap([x], f) == f(x)
  {
    assert [x][1..] == [];
    assert FlatMap([x], f) == f(x) + FlatMap([], f);
  }

  /** A `flatMap` yields no token exactly when no element yields one. */
  lemma {:induction false} FlatMapEmpty<T>(xs: seq<T>, f: T -> seq<string>)
    ensures FlatMap(xs, f) == [] <==> forall i :: 0 <= i < |xs| ==> f(xs[i]) == []
  {
    if xs != [] {
      FlatMapEmpty(xs[1..], f);
      assert forall i :: 1 <= i < |xs| ==> xs[i] == xs[1..][i - 1];
    }
  }

  /** `map` distributes over concatenation, so order is kept. */
  lemma MapTokensAppend<T>(a: seq<T>, b: seq<T>, f: T -> string)
    ensures MapTokens(a + b, f) == MapTokens(a, f) + MapTokens(b, f)
  {
    var l, r := MapTokens(a + b, f), MapTokens(a, f) + MapTokens(b, f);
    assert |l| == |r|;
    forall k | 0 <= k < |l| ensures l[k] == r[k] {
      if k < |a| {
        assert (a + b)[k] == a[k];
      } else {
        assert (a + b)[k] == b[k - |a|];
      }
    }
  }
}
