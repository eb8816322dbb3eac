/** String helpers the scripts get from Python's str type: split, replace,
    strip, and the numeric conversions float() and int(). */
module Text {
  import opened Common

  // ---------------------------------------------------------------- split

  /** str.split(sep): every occurrence of sep cuts; empty pieces are kept. */
  function Split(s: string, sep: char): (parts: seq<string>)
    ensures |parts| >= 1
  {
    if s == [] then [""]
    else if s[0] == sep then [""] + Split(s[1..], sep)
    else
      var rest := Split(s[1..], sep);
      [[s[0]] + rest[0]] + rest[1..]
  }

  /** sep.join(parts), the inverse of Split. */
  function Join(parts: seq<string>, sep: char): string
    requires |parts| >= 1
  {
    if |parts| == 1 then parts[0] else parts[0] + [sep] + Join(parts[1..], sep)
  }

  /** One step of Split on a non-empty string, in terms of the split of its tail. */
  lemma {:induction false} SplitCons(s: string, sep: char)
    requires s != []
    ensures var rest := Split(s[1..], sep);
            Split(s, sep) == if s[0] == sep then [""] + rest else [[s[0]] + rest[0]] + rest[1..]
  {
  }

  /** No piece of a split holds the separator. */
  lemma {:induction false} SplitPiecesFree(s: string, sep: char)
    ensures forall i :: 0 <= i < |Split(s, sep)| ==> sep !in Split(s, sep)[i]
    decreases |s|
  {
    if s != [] {
      var rest := Split(s[1..], sep);
      var parts := Split(s, sep);
      SplitPiecesFree(s[1..], sep);
      SplitCons(s, sep);
      if s[0] == sep {
        assert forall i :: 1 <= i < |parts| ==> parts[i] == rest[i - 1];
      } else {
        assert forall i :: 1 <= i < |parts| ==> parts[i] == rest[i];
        assert sep !in rest[0];
      }
    }
  }

  /** Joining with an extra leading piece puts that piece and a separator in front. */
  lemma {:induction false} JoinFront(x: string, parts: seq<string>, sep: char)
    requires |parts| >= 1
    ensures Join([x] + parts, sep) == x + [sep] + Join(parts, sep)
  {
    assert ([x] + parts)[1..] == parts;
  }

  /** Joining after a character is glued to the first piece prepends that character. */
  lemma {:induction false} JoinGlue(c: char, parts: seq<string>, sep: char)
    requires |parts| >= 1
    ensures Join([[c] + parts[0]] + parts[1..], sep) == [c] + Join(parts, sep)
  {
    if |parts| > 1 {
      JoinFront([c] + parts[0], parts[1..], sep);
      JoinFront(parts[0], parts[1..], sep);
      assert parts == [parts[0]] + parts[1..];
    }
  }

  /** One step of the round trip: if joining the split of the tail gives the
      tail back, joining the split of s gives s back. */
  lemma {:induction false} SplitJoinStep(s: string, sep: char)
    requires s != []
    requires Join(Split(s[1..], sep), sep) == s[1..]
    ensures Join(Split(s, sep), sep) == s
  {
    var rest := Split(s[1..], sep);
    SplitCons(s, sep);
    if s[0] == sep {
      JoinFront("", rest, sep);
      assert "" + [sep] + s[1..] == s;
    } else {
      JoinGlue(s[0], rest, sep);
      assert [s[0]] + s[1..] == s;
    }
  }

  /** Joining the pieces of a split gives s back. */
  lemma {:induction false} SplitJoin(s: string, sep: char)
    ensures Join(Split(s, sep), sep) == s
    decreases |s|
  {
    if s != [] {
      SplitJoin(s[1..], sep);
      SplitJoinStep(s, sep);
    }
  }

  /** s.split(sep)[-1]: the text after the last separator, or all of s. */
  function LastSegment(s: string, sep: char): string
  {
    var parts := Split(s, sep);
    parts[|parts| - 1]
  }

  lemma {:induction false} JoinLast(parts: seq<string>, sep: char)
    requires |parts| >= 2
    ensures Join(parts, sep) == Join(parts[..|parts| - 1], sep) + [sep] + parts[|parts| - 1]
    decreases |parts|
  {
    if |parts| > 2 {
      JoinLast(parts[1..], sep);
      assert parts[1..][..|parts| - 2] == parts[..|parts| - 1][1..];
    }
  }

  /** The last segment holds no separator and is all of s, or what follows
      the final separator of s. */
  lemma {:induction false} LastSegmentIsSuffix(s: string, sep: char)
    ensures sep !in LastSegment(s, sep)
    ensures LastSegment(s, sep) == s
            || exists p: string :: s == p + [sep] + LastSegment(s, sep)
  {
    var parts := Split(s, sep);
    SplitPiecesFree(s, sep);
    SplitJoin(s, sep);
    if |parts| >= 2 {
      JoinLast(parts, sep);
    }
  }

  lemma {:induction false} SplitNoSeparator(a: string, sep: char)
    requires sep !in a
    ensures Split(a, sep) == [a]
  {
    if a != [] {
      SplitNoSeparator(a[1..], sep);
      SplitCons(a, sep);
      assert [a[0]] + a[1..] == a;
    }
  }

  lemma {:induction false} SplitAfterPiece(a: string, rest: string, sep: char)
    requires sep !in a
    ensures Split(a + [sep] + rest, sep) == [a] + Split(rest, sep)
  {
    var s := a + [sep] + rest;
    if a == [] {
      assert s[0] == sep && s[1..] == rest;
    } else {
      assert s[0] == a[0] != sep && s[1..] == a[1..] + [sep] + rest;
      SplitAfterPiece(a[1..], rest, sep);
      var tail := Split(s[1..], sep);
      assert tail[0] == a[1..] && tail[1..] == Split(rest, sep);
      assert [a[0]] + a[1..] == a;
    }
  }

  /** A string holding the separator splits into at least two pieces. */
  lemma {:induction false} SplitHasTwo(t: string, sep: char)
    requires sep in t
    ensures |Split(t, sep)| >= 2
    decreases |t|
  {
    SplitCons(t, sep);
    if t[0] != sep {
      assert t == [t[0]] + t[1..];
      SplitHasTwo(t[1..], sep);
    }
  }

  /** Dropping the first character keeps the last segment when a separator
      still follows it. */
  lemma {:induction false} LastSegmentCons(s: string, sep: char)
    requires s != [] && (s[0] == sep || sep in s[1..])
    ensures LastSegment(s, sep) == LastSegment(s[1..], sep)
  {
    SplitCons(s, sep);
    if s[0] != sep {
      SplitHasTwo(s[1..], sep);
    }
  }

  /** The text after the last separator of p + sep + q is that of q. */
  lemma {:induction false} LastSegmentAfter(p: string, q: string, sep: char)
    ensures LastSegment(p + [sep] + q, sep) == LastSegment(q, sep)
    ensures sep !in q ==> LastSegment(q, sep) == q
    decreases |p|
  {
    var s := p + [sep] + q;
    if p == [] {
      assert s[0] == sep && s[1..] == q;
      LastSegmentCons(s, sep);
    } else {
      assert s[1..] == p[1..] + [sep] + q && s[1..][|p| - 1] == sep;
      LastSegmentCons(s, sep);
      LastSegmentAfter(p[1..], q, sep);
    }
    if sep !in q {
      SplitNoSeparator(q, sep);
    }
  }

  /** Three separator-free pieces joined by sep split back into themselves. */
  lemma {:induction false} SplitThree(a: string, b: string, c: string, sep: char)
    requires sep !in a && sep !in b && sep !in c
    ensures Split(a + [sep] + b + [sep] + c, sep) == [a, b, c]
  {
    SplitNoSeparator(c, sep);
    SplitAfterPiece(b, c, sep);
    assert a + [sep] + b + [sep] + c == a + [sep] + (b + [sep] + c);
    SplitAfterPiece(a, b + [sep] + c, sep);
  }

  // ---------------------------------------------------------------- replace

  /** f.replace("'", ""): every apostrophe removed, everything else kept in order. */
  function StripQuotes(f: string): (r: string)
    ensures '\'' !in r
    ensures |r| <= |f|
    ensures forall c :: c != '\'' ==> multiset(r)[c] == multiset(f)[c]
  {
    if f == [] then []
    else
      var rest := StripQuotes(f[1..]);
      assert f == [f[0]] + f[1..];
      if f[0] == '\'' then rest else [f[0]] + rest
  }

  lemma {:induction false} StripQuotesKeepsQuoteFree(f: string)
    requires '\'' !in f
    ensures StripQuotes(f) == f
  {
    if f != [] {
      StripQuotesKeepsQuoteFree(f[1..]);
      assert f == [f[0]] + f[1..];
    }
  }

  /** Removing apostrophes works piece by piece, so the kept characters stay in order. */
  lemma {:induction false} StripQuotesAppend(a: string, b: string)
    ensures StripQuotes(a + b) == StripQuotes(a) + StripQuotes(b)
  {
    if a != [] {
      assert (a + b)[1..] == a[1..] + b;
      StripQuotesAppend(a[1..], b);
    } else {
      assert a + b == b;
    }
  }

  /** An apostrophe on its own disappears. */
  lemma StripQuotesQuote()
    ensures StripQuotes("'") == []
  {
  }

  /** Any other character on its own is kept. */
  lemma StripQuotesOther(c: char)
    requires c != '\''
    ensures StripQuotes([c]) == [c]
  {
  }

  // ---------------------------------------------------------------- digits

  predicate IsDigit(c: char) { '0' <= c <= '9' }

  predicate AllDigits(s: string) { forall i :: 0 <= i < |s| ==> IsDigit(s[i]) }

  function DigitValue(c: char): int
    requires IsDigit(c)
  {
    c as int - '0' as int
  }

  function DigitChar(d: int): (c: char)
    requires 0 <= d < 10
    ensures IsDigit(c) && DigitValue(c) == d
  {
    (d + '0' as int) as char
  }

  function Pow10(n: nat): (r: nat)
    ensures r >= 1
  {
    if n == 0 then 1 else 10 * Pow10(n - 1)
  }

  /** Value of a decimal digit string, most significant digit first; "" is 0. */
  function DigitsValue(s: string): (r: nat)
    requires AllDigits(s)
    ensures r < Pow10(|s|)
  {
    if s == [] then 0 else DigitsValue(s[..|s| - 1]) * 10 + DigitValue(s[|s| - 1])
  }

  /** Decimal rendering of a natural number, without leading zeros. */
  function DigitsOf(n: nat): string
  {
    if n < 10 then [DigitChar(n)] else DigitsOf(n / 10) + [DigitChar(n % 10)]
  }

  lemma {:induction false} DigitsOfValue(n: nat)
    ensures AllDigits(DigitsOf(n)) && DigitsValue(DigitsOf(n)) == n
  {
    if n >= 10 {
      DigitsOfValue(n / 10);
      var s := DigitsOf(n);
      assert s[..|s| - 1] == DigitsOf(n / 10);
    }
  }

  // ---------------------------------------------------------------- float() and int()

  /** The characters str.strip() removes, as float() does before parsing. */
  predicate IsSpace(c: char) { c == ' ' || c == '\t' || c == '\n' || c == '\r' || c == '\U{0B}' || c == '\U{0C}' }

  function TrimStart(s: string): (r: string)
    ensures |r| <= |s| && (r == [] || !IsSpace(r[0]))
  {
    if s != [] && IsSpace(s[0]) then TrimStart(s[1..]) else s
  }

  function TrimEnd(s: string): (r: string)
    ensures |r| <= |s| && (r == [] || !IsSpace(r[|r| - 1]))
  {
    if s != [] && IsSpace(s[|s| - 1]) then TrimEnd(s[..|s| - 1]) else s
  }

  /** TrimStart removes exactly the leading whitespace: it keeps a suffix and drops only whitespace. */
  lemma {:induction false} TrimStartExact(s: string)
    ensures TrimStart(s) == s[|s| - |TrimStart(s)|..]
    ensures forall i :: 0 <= i < |s| - |TrimStart(s)| ==> IsSpace(s[i])
  {
    if s != [] && IsSpace(s[0]) {
      TrimStartExact(s[1..]);
    }
  }

  /** TrimEnd removes exactly the trailing whitespace: it keeps a prefix and drops only whitespace. */
  lemma {:induction false} TrimEndExact(s: string)
    ensures TrimEnd(s) == s[..|TrimEnd(s)|]
    ensures forall i :: |TrimEnd(s)| <= i < |s| ==> IsSpace(s[i])
  {
    if s != [] && IsSpace(s[|s| - 1]) {
      TrimEndExact(s[..|s| - 1]);
    }
  }

  /** Index of the first '.' in s, or |s| when there is none. */
  function DotIndex(s: string): (i: nat)
    ensures i <= |s| && '.' !in s[..i] && (i < |s| ==> s[i] == '.')
  {
    if s == [] then 0
    else if s[0] == '.' then 0
    else
      var i := DotIndex(s[1..]);
      assert s[..i + 1] == [s[0]] + s[1..][..i];
      i + 1
  }

  /** Unsigned decimal "ddd", "ddd.", ".ddd" or "ddd.ddd" with at least one digit. */
  function UnsignedDecimal(s: string): Option<real>
  {
    var i := DotIndex(s);
    var whole := s[..i];
    var frac := if i < |s| then s[i + 1..] else "";
    if AllDigits(whole) && AllDigits(frac) && |whole| + |frac| >= 1 then
      Some(DigitsValue(whole) as real + DigitsValue(frac) as real / Pow10(|frac|) as real)
    else None
  }

  /** float(s) on the decimal forms: surrounding whitespace, an optional sign,
      digits with an optional fraction.  None is the ValueError of float(). */
  function ParseFloat(s: string): Option<real>
  {
    var t := TrimEnd(TrimStart(s));
    if t != [] && (t[0] == '-' || t[0] == '+') then
      match UnsignedDecimal(t[1..])
      case Some(x) => Some(if t[0] == '-' then -x else x)
      case None => None
    else UnsignedDecimal(t)
  }

  /** Decimal rendering of an integer, with '-' before a negative one. */
  function IntText(n: int): string
  {
    if n < 0 then "-" + DigitsOf(-n) else DigitsOf(n)
  }

  lemma {:induction false} DigitsHaveNoDot(s: string)
    requires AllDigits(s)
    ensures DotIndex(s) == |s|
  {
    assert forall j :: 0 <= j < |s| ==> s[j] != '.';
  }

  lemma {:induction false} DigitsHaveNoSpace(s: string)
    requires AllDigits(s) && s != []
    ensures TrimEnd(TrimStart(s)) == s
  {
    assert !IsSpace(s[0]) && !IsSpace(s[|s| - 1]);
  }

  lemma {:induction false} UnsignedDecimalOfDigits(d: string)
    requires AllDigits(d) && d != []
    ensures UnsignedDecimal(d) == Some(DigitsValue(d) as real)
  {
    DigitsHaveNoDot(d);
    assert d[..|d|] == d;
  }

  lemma {:induction false} TrimSigned(c: char, d: string)
    requires AllDigits(d) && d != [] && !IsSpace(c)
    ensures TrimEnd(TrimStart([c] + d)) == [c] + d
  {
    var t := [c] + d;
    assert t[|t| - 1] == d[|d| - 1];
  }

  /** float() of a plain digit string is its value. */
  lemma {:induction false} ParseFloatOfDigits(s: string, d: string)
    requires AllDigits(d) && d != [] && s == d
    ensures ParseFloat(s) == Some(DigitsValue(d) as real)
  {
    UnsignedDecimalOfDigits(d);
    DigitsHaveNoSpace(d);
    assert d[0] != '-' && d[0] != '+';
  }

  /** float() of '-' and a digit string is minus its value. */
  lemma {:induction false} ParseFloatOfNegDigits(s: string, d: string)
    requires AllDigits(d) && d != [] && s == "-" + d
    ensures ParseFloat(s) == Some(-(DigitsValue(d) as real))
  {
    UnsignedDecimalOfDigits(d);
    TrimSigned('-', d);
    assert ("-" + d)[1..] == d && ("-" + d)[0] == '-';
  }

  /** float() of the decimal rendering of m, with or without a minus sign. */
  lemma {:induction false} ParseFloatOfRendering(s: string, m: nat, negative: bool)
    requires s == if negative then "-" + DigitsOf(m) else DigitsOf(m)
    ensures ParseFloat(s) == Some(if negative then -(m as real) else m as real)
  {
    DigitsOfValue(m);
    if negative {
      ParseFloatOfNegDigits(s, DigitsOf(m));
    } else {
      ParseFloatOfDigits(s, DigitsOf(m));
    }
  }

  /** float() reads back every integer that str() writes. */
  lemma {:induction false} ParseFloatOfIntText(n: int)
    ensures ParseFloat(IntText(n)) == Some(n as real)
  {
    ParseFloatOfRendering(IntText(n), if n < 0 then -n else n, n < 0);
  }

  /** int(x) for a float x: truncation toward zero. */
  function Truncate(x: real): (r: int)
    ensures x >= 0.0 ==> 0 <= r && r as real <= x < r as real + 1.0
    ensures x < 0.0 ==> r <= 0 && r as real - 1.0 < x <= r as real
  {
    if x >= 0.0 then x.Floor else -((-x).Floor)
  }

  /** int(float(cell)). */
  function CellValue(cell: string): Result<int>
  {
    match ParseFloat(cell)
    case Some(x) => Ok(Truncate(x))
    case None => Err(ValueError)
  }
}
