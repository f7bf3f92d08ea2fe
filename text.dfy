/**
 * The string operations of Rust's standard library that the command store
 * relies on: `str::trim`, `str::split(" ")`, `[String]::join(" ")` and the
 * decimal rendering of an index by `{}`.
 */
module Text {

  /** Rust's `char::is_whitespace`: the characters with the Unicode White_Space property. */
  predicate IsWhitespace(c: char) {
    || ('\t' <= c <= '\r')
    || c == ' '
    || c == '\U{0085}'
    || c == '\U{00A0}'
    || c == '\U{1680}'
    || ('\U{2000}' <= c <= '\U{200A}')
    || c == '\U{2028}'
    || c == '\U{2029}'
    || c == '\U{202F}'
    || c == '\U{205F}'
    || c == '\U{3000}'
  }

  /** `str::trim_start`. */
  function TrimStart(s: string): string {
    if s != [] && IsWhitespace(s[0]) then TrimStart(s[1..]) else s
  }

  /** `str::trim_end`. */
  function TrimEnd(s: string): string {
    if s != [] && IsWhitespace(s[|s| - 1]) then TrimEnd(s[..|s| - 1]) else s
  }

  /** `str::trim`. */
  function Trim(s: string): string {
    TrimEnd(TrimStart(s))
  }

  /** A string that neither starts nor ends with whitespace. */
  predicate Trimmed(s: string) {
    s == [] || (!IsWhitespace(s[0]) && !IsWhitespace(s[|s| - 1]))
  }

  /** `trim_start` drops a prefix made only of whitespace, and the whole of it. */
  lemma {:induction false} TrimStartDropsLeadingWhitespace(s: string)
    ensures var r := TrimStart(s);
      && |r| <= |s| && r == s[|s| - |r|..]
      && (forall i | 0 <= i < |s| - |r| :: IsWhitespace(s[i]))
      && (r == [] || !IsWhitespace(r[0]))
  {
    if s != [] && IsWhitespace(s[0]) {
      var r := TrimStart(s[1..]);
      TrimStartDropsLeadingWhitespace(s[1..]);
      assert s[1..][|s| - 1 - |r|..] == s[|s| - |r|..];
      assert forall i | 1 <= i < |s| - |r| :: s[i] == s[1..][i - 1];
    }
  }

  /** `trim_end` drops a suffix made only of whitespace, and the whole of it. */
  lemma {:induction false} TrimEndDropsTrailingWhitespace(s: string)
    ensures var r := TrimEnd(s);
      && |r| <= |s| && r == s[..|r|]
      && (forall i | |r| <= i < |s| :: IsWhitespace(s[i]))
      && (r == [] || !IsWhitespace(r[|r| - 1]))
  {
    if s != [] && IsWhitespace(s[|s| - 1]) {
      var r := TrimEnd(s[..|s| - 1]);
      TrimEndDropsTrailingWhitespace(s[..|s| - 1]);
      assert s[..|s| - 1][..|r|] == s[..|r|];
      assert forall i | |r| <= i < |s| - 1 :: s[i] == s[..|s| - 1][i];
    }
  }

  /** `trim` keeps the infix of `s` between its leading and trailing whitespace:
      what it drops is whitespace, and what it keeps neither starts nor ends with any. */
  lemma {:induction false} TrimKeepsInfix(s: string)
    ensures var r, k := Trim(s), |s| - |TrimStart(s)|;
      && Trimmed(r)
      && 0 <= k && k + |r| <= |s| && r == s[k..k + |r|]
      && (forall i | 0 <= i < k :: IsWhitespace(s[i]))
      && (forall i | k + |r| <= i < |s| :: IsWhitespace(s[i]))
  {
    var t := TrimStart(s);
    TrimStartDropsLeadingWhitespace(s);
    TrimEndDropsTrailingWhitespace(t);
    var r := TrimEnd(t);
    assert Trim(s) == r;
    InfixBetween(s, t, r);
  }

  /** The sequence reasoning behind `TrimKeepsInfix`: a whitespace prefix of `s`
      leaves `t`, a whitespace suffix of `t` leaves `r`. */
  lemma InfixBetween(s: string, t: string, r: string)
    requires |t| <= |s| && t == s[|s| - |t|..]
    requires forall i | 0 <= i < |s| - |t| :: IsWhitespace(s[i])
    requires t == [] || !IsWhitespace(t[0])
    requires |r| <= |t| && r == t[..|r|]
    requires forall i | |r| <= i < |t| :: IsWhitespace(t[i])
    requires r == [] || !IsWhitespace(r[|r| - 1])
    ensures var k := |s| - |t|;
      && Trimmed(r)
      && 0 <= k && k + |r| <= |s| && r == s[k..k + |r|]
      && (forall i | 0 <= i < k :: IsWhitespace(s[i]))
      && (forall i | k + |r| <= i < |s| :: IsWhitespace(s[i]))
  {
    var k := |s| - |t|;
    assert r != [] ==> r[0] == t[0];
    assert forall i | k + |r| <= i < |s| :: s[i] == t[i - k];
  }

  /** Trimming leaves a string unchanged exactly when it has no surrounding whitespace. */
  lemma {:induction false} TrimFixesExactlyTrimmed(s: string)
    ensures Trim(s) == s <==> Trimmed(s)
  {
    TrimKeepsInfix(s);
    if Trimmed(s) && s != [] {
      assert TrimStart(s) == s;
      assert TrimEnd(s) == s;
    }
  }

  /** `join(" ")`: the pieces with one space between neighbours. */
  function Join(xs: seq<string>): string {
    if |xs| == 0 then ""
    else if |xs| == 1 then xs[0]
    else xs[0] + " " + Join(xs[1..])
  }

  /** `split(" ")`: the maximal space-free pieces between single spaces
      (see `SplitPieces`), so never empty. */
  function Split(s: string): (r: seq<string>)
    ensures |r| >= 1
  {
    if s == [] then [""]
    else
      var rest := Split(s[1..]);
      assert s == [s[0]] + s[1..];
      if s[0] == ' ' then [""] + rest
      else [[s[0]] + rest[0]] + rest[1..]
  }

  /** `split(" ")` yields one piece more than there are spaces, and no piece
      contains a space. */
  lemma {:induction false} SplitPieces(s: string)
    ensures |Split(s)| == multiset(s)[' '] + 1
    ensures forall p <- Split(s) :: ' ' !in p
  {
    if s != [] {
      var rest := Split(s[1..]);
      SplitPieces(s[1..]);
      assert s == [s[0]] + s[1..];
      if s[0] != ' ' {
        assert rest[0] in rest;
        assert forall p <- rest[1..] :: p in rest;
      }
    }
  }

  /** Joining the pieces of a split gives back the string. */
  lemma {:induction false} JoinSplit(s: string)
    ensures Join(Split(s)) == s
  {
    if s != [] {
      JoinSplit(s[1..]);
      if s[0] == ' ' {
        JoinSplitSpace(s);
      } else {
        JoinSplitNonSpace(s);
      }
    }
  }

  /** The step of `JoinSplit` for a string that starts with a space. */
  lemma JoinSplitSpace(s: string)
    requires s != [] && s[0] == ' ' && Join(Split(s[1..])) == s[1..]
    ensures Join(Split(s)) == s
  {
    var rest := Split(s[1..]);
    assert Split(s) == [""] + rest;
    JoinCons("", rest);
    assert Join(Split(s)) == " " + s[1..];
    assert s == [s[0]] + s[1..];
  }

  /** The step of `JoinSplit` for a string that starts with another character. */
  lemma JoinSplitNonSpace(s: string)
    requires s != [] && s[0] != ' ' && Join(Split(s[1..])) == s[1..]
    ensures Join(Split(s)) == s
  {
    var rest := Split(s[1..]);
    assert Split(s) == [[s[0]] + rest[0]] + rest[1..];
    JoinExtendFirst(s[0], rest);
    assert s == [s[0]] + s[1..];
  }

  /** Joining a piece in front of a non-empty list adds one separator. */
  lemma {:induction false} JoinCons(x: string, xs: seq<string>)
    requires |xs| >= 1
    ensures Join([x] + xs) == x + " " + Join(xs)
  {
    assert ([x] + xs)[1..] == xs;
  }

  /** Joining space-free pieces puts exactly one space between neighbours. */
  lemma {:induction false} JoinSpaces(xs: seq<string>)
    requires forall x <- xs :: ' ' !in x
    ensures multiset(Join(xs))[' '] == if xs == [] then 0 else |xs| - 1
  {
    if xs != [] {
      assert xs[0] in xs;
      if |xs| > 1 {
        JoinSpaces(xs[1..]);
      }
    }
  }

  /** Appending a piece to a non-empty list appends a space and that piece to the join. */
  lemma {:induction false} JoinSnoc(xs: seq<string>, x: string)
    requires |xs| >= 1
    ensures Join(xs + [x]) == Join(xs) + " " + x
  {
    if |xs| > 1 {
      assert (xs + [x])[1..] == xs[1..] + [x];
      JoinSnoc(xs[1..], x);
    }
  }

  /** Growing the first piece by a character grows the join by that character. */
  lemma {:induction false} JoinExtendFirst(c: char, xs: seq<string>)
    requires |xs| >= 1
    ensures Join([[c] + xs[0]] + xs[1..]) == [c] + Join(xs)
  {
    var head := [c] + xs[0];
    if |xs| == 1 {
      assert [head] + xs[1..] == [head];
    } else {
      JoinCons(head, xs[1..]);
      JoinCons(xs[0], xs[1..]);
      assert [xs[0]] + xs[1..] == xs;
      assert head + " " + Join(xs[1..]) == [c] + (xs[0] + " " + Join(xs[1..]));
    }
  }

  /** A space-free word followed by a space splits off as the first piece. */
  lemma {:induction false} SplitWordThenSpace(w: string, t: string)
    requires ' ' !in w
    ensures Split(w + " " + t) == [w] + Split(t)
  {
    if w == [] {
      assert w + " " + t == [' '] + t;
    } else {
      assert (w + " " + t)[1..] == w[1..] + " " + t;
      SplitWordThenSpace(w[1..], t);
      assert [w[0]] + w[1..] == w;
    }
  }

  /** A space-free word is a single piece. */
  lemma {:induction false} SplitWord(w: string)
    requires ' ' !in w
    ensures Split(w) == [w]
  {
    if w != [] {
      SplitWord(w[1..]);
      assert [w[0]] + w[1..] == w;
    }
  }

  /** Splitting a join of space-free pieces gives back the pieces. */
  lemma {:induction false} SplitJoin(xs: seq<string>)
    requires |xs| >= 1
    requires forall x <- xs :: ' ' !in x
    ensures Split(Join(xs)) == xs
  {
    if |xs| == 1 {
      SplitWord(xs[0]);
    } else {
      SplitJoin(xs[1..]);
      SplitWordThenSpace(xs[0], Join(xs[1..]));
      assert [xs[0]] + xs[1..] == xs;
    }
  }

  /** The ASCII digit of `d`. */
  function Digit(d: nat): (c: char)
    requires d < 10
    ensures '0' <= c <= '9'
  {
    ('0' as int + d) as char
  }

  /** `{}` on an unsigned integer: the decimal digits, no sign, no leading zero. */
  function Decimal(n: nat): (r: string)
    ensures |r| >= 1
    ensures AllDigits(r)
    ensures r[0] != '0' || n == 0
  {
    if n < 10 then [Digit(n)] else Decimal(n / 10) + [Digit(n % 10)]
  }

  /** A string made only of ASCII digits. */
  predicate AllDigits(s: string) {
    forall i | 0 <= i < |s| :: '0' <= s[i] <= '9'
  }

  /** The value of a string of decimal digits. */
  function DecimalValue(s: string): nat
    requires AllDigits(s)
  {
    if s == [] then 0
    else DecimalValue(s[..|s| - 1]) * 10 + (s[|s| - 1] as int - '0' as int)
  }

  /** Reading back the decimal rendering of `n` gives `n`. */
  lemma {:induction false} DecimalRoundTrip(n: nat)
    ensures DecimalValue(Decimal(n)) == n
  {
    if n >= 10 {
      DecimalRoundTrip(n / 10);
      var r := Decimal(n);
      assert r[..|r| - 1] == Decimal(n / 10);
    }
  }

  /** Different numbers render differently. */
  lemma DecimalInjective(m: nat, n: nat)
    ensures Decimal(m) == Decimal(n) ==> m == n
  {
    DecimalRoundTrip(m);
    DecimalRoundTrip(n);
  }
}
