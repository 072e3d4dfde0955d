/** The parts of Go's `strings` and `strconv` packages the build tool relies on.
    A Go string is modelled as a sequence of characters, each standing for one byte. */
module GoStrings {
  import opened Wrappers

  // ---------------------------------------------------------------------------
  // strings.HasSuffix, strings.TrimSuffix
  // ---------------------------------------------------------------------------

  predicate HasSuffix(s: string, suffix: string)
  {
    |suffix| <= |s| && s[|s| - |suffix|..] == suffix
  }

  function TrimSuffix(s: string, suffix: string): (r: string)
    ensures HasSuffix(s, suffix) ==> r + suffix == s
    ensures !HasSuffix(s, suffix) ==> r == s
  {
    if HasSuffix(s, suffix) then s[..|s| - |suffix|] else s
  }

  /** Two strings with the same prefix are equal only if what follows it is. */
  lemma PrefixCancels(prefix: string, a: string, b: string)
    requires prefix + a == prefix + b
    ensures a == b
  {
    assert a == (prefix + a)[|prefix|..];
    assert b == (prefix + b)[|prefix|..];
  }

  // ---------------------------------------------------------------------------
  // strings.ToUpper, on the ASCII range
  // ---------------------------------------------------------------------------

  function UpperChar(c: char): char
  {
    if 'a' <= c <= 'z' then (c as int - 32) as char else c
  }

  function ToUpper(s: string): (r: string)
    ensures |r| == |s|
  {
    seq(|s|, i requires 0 <= i < |s| => UpperChar(s[i]))
  }

  lemma ToUpperIdempotent(s: string)
    ensures ToUpper(ToUpper(s)) == ToUpper(s)
  {
    var u := ToUpper(s);
    forall i | 0 <= i < |s|
      ensures ToUpper(u)[i] == u[i]
    {
      assert u[i] == UpperChar(s[i]);
    }
  }

  lemma ToUpperAppend(a: string, b: string)
    ensures ToUpper(a + b) == ToUpper(a) + ToUpper(b)
  {
    forall i | 0 <= i < |a + b|
      ensures ToUpper(a + b)[i] == (ToUpper(a) + ToUpper(b))[i]
    {
      if i < |a| {
        assert (a + b)[i] == a[i];
      } else {
        assert (a + b)[i] == b[i - |a|];
      }
    }
  }

  /** Upper-casing leaves a string without lower-case letters unchanged. */
  lemma ToUpperNoLower(s: string)
    requires forall i :: 0 <= i < |s| ==> !('a' <= s[i] <= 'z')
    ensures ToUpper(s) == s
  {
  }

  // ---------------------------------------------------------------------------
  // Go's integer division, which truncates toward zero
  // ---------------------------------------------------------------------------

  function Abs(x: int): nat
  {
    if x < 0 then -x else x
  }

  /** a / b as Go computes it on ints: the quotient truncated toward zero (Dafny's
      own `/` is Euclidean). */
  function Quo(a: int, b: int): int
    requires b != 0
  {
    var m := Abs(a) / Abs(b);
    if (a < 0) != (b < 0) then -m else m
  }

  /** Dividing a non-negative number by a positive one gives a non-negative quotient. */
  lemma QuoNonNegative(a: int, b: int)
    requires a >= 0 && b > 0
    ensures Quo(a, b) >= 0
  {
  }

  // ---------------------------------------------------------------------------
  // strconv.Atoi and strconv.Itoa (fmt's %d prints the same digits)
  // ---------------------------------------------------------------------------

  predicate IsDigit(c: char)
  {
    '0' <= c <= '9'
  }

  predicate AllDigits(s: string)
  {
    forall i :: 0 <= i < |s| ==> IsDigit(s[i])
  }

  function DigitValue(c: char): nat
    requires IsDigit(c)
  {
    c as int - '0' as int
  }

  function DigitChar(d: nat): (c: char)
    requires d < 10
    ensures IsDigit(c) && DigitValue(c) == d
  {
    ('0' as int + d) as char
  }

  /** The value of a string of decimal digits (leading zeros allowed). */
  function DigitsValue(s: string): nat
    requires AllDigits(s)
  {
    if s == [] then 0 else DigitsValue(s[..|s| - 1]) * 10 + DigitValue(s[|s| - 1])
  }

  /** strconv.Atoi without its overflow clamping: an optional sign, then one or more
      decimal digits; anything else is a syntax error (None). */
  function Atoi(s: string): Option<int>
  {
    var signed := |s| > 0 && (s[0] == '-' || s[0] == '+');
    var digits := if signed then s[1..] else s;
    if digits == [] || !AllDigits(digits) then None
    else
      var v: int := DigitsValue(digits);
      Some(if signed && s[0] == '-' then -v else v)
  }

  /** The decimal digits of n, without leading zeros. */
  function NatDigits(n: nat): (s: string)
    ensures |s| > 0 && AllDigits(s)
  {
    if n < 10 then [DigitChar(n)] else NatDigits(n / 10) + [DigitChar(n % 10)]
  }

  /** strconv.Itoa */
  function Itoa(n: int): string
  {
    if n < 0 then "-" + NatDigits(-n) else NatDigits(n)
  }

  lemma {:induction false} NatDigitsValue(n: nat)
    ensures DigitsValue(NatDigits(n)) == n
  {
    if n >= 10 {
      var s := NatDigits(n);
      assert s[..|s| - 1] == NatDigits(n / 10);
      NatDigitsValue(n / 10);
    }
  }

  /** Atoi reads back what Itoa prints. */
  lemma ItoaAtoi(n: int)
    ensures Atoi(Itoa(n)) == Some(n)
  {
    NatDigitsValue(Abs(n));
    if n < 0 {
      assert Itoa(n)[1..] == NatDigits(-n);
    }
  }

  /** Itoa is injective. */
  lemma ItoaInjective(m: int, n: int)
    requires Itoa(m) == Itoa(n)
    ensures m == n
  {
    ItoaAtoi(m);
    ItoaAtoi(n);
  }

  /** Itoa prints only digits and a leading minus sign, and ends in a digit. */
  lemma ItoaShape(n: int)
    ensures |Itoa(n)| > 0 && IsDigit(Itoa(n)[|Itoa(n)| - 1])
    ensures forall i :: 0 <= i < |Itoa(n)| ==> IsDigit(Itoa(n)[i]) || (i == 0 && Itoa(n)[i] == '-')
  {
  }

  /** Dropping the last character of Itoa(n) prints Go's n / 10 when that is not
      zero, and leaves no number at all (`""` or `"-"`) when it is. */
  lemma {:induction false} ItoaDropLast(n: int)
    ensures var s := Itoa(n); AtoiOrZeroOf(s[..|s| - 1]) == Quo(n, 10)
  {
    ItoaShape(n);
    var s := Itoa(n);
    if n >= 10 {
      assert s[..|s| - 1] == NatDigits(n / 10);
      ItoaAtoi(n / 10);
    } else if n <= -10 {
      assert s[..|s| - 1] == "-" + NatDigits(-n / 10);
      assert Itoa(-(-n / 10)) == "-" + NatDigits(-n / 10);
      ItoaAtoi(-(-n / 10));
    } else if n >= 0 {
      assert s[..|s| - 1] == "";
    } else {
      assert s[..|s| - 1] == "-";
    }
  }

  /** The value the build tool takes from Atoi when it ignores the error: 0 on failure. */
  function AtoiOrZeroOf(s: string): int
  {
    match Atoi(s)
    case Some(v) => v
    case None => 0
  }

  // ---------------------------------------------------------------------------
  // strings.Split and strings.Join with a one-character separator
  // ---------------------------------------------------------------------------

  /** strings.Split(s, string(sep)): the pieces between separators; always at least one. */
  function Split(s: string, sep: char): (pieces: seq<string>)
    ensures |pieces| > 0
    decreases |s|
  {
    if s == [] then [""]
    else
      var init := Split(s[..|s| - 1], sep);
      var c := s[|s| - 1];
      if c == sep then init + [""]
      else init[..|init| - 1] + [init[|init| - 1] + [c]]
  }

  /** strings.Join(pieces, string(sep)) */
  function JoinWith(pieces: seq<string>, sep: char): string
  {
    if pieces == [] then ""
    else if |pieces| == 1 then pieces[0]
    else JoinWith(pieces[..|pieces| - 1], sep) + [sep] + pieces[|pieces| - 1]
  }

  /** Joining the pieces back with the separator gives the original string. */
  lemma {:induction false} SplitJoin(s: string, sep: char)
    ensures JoinWith(Split(s, sep), sep) == s
  {
    if s != [] {
      var t := s[..|s| - 1];
      var c := s[|s| - 1];
      var init := Split(t, sep);
      SplitJoin(t, sep);
      if c == sep {
        var p := init + [""];
        assert p[..|p| - 1] == init;
      } else {
        var p := init[..|init| - 1] + [init[|init| - 1] + [c]];
        if |init| == 1 {
          assert JoinWith(p, sep) == init[0] + [c];
        } else {
          assert p[..|p| - 1] == init[..|init| - 1];
          assert JoinWith(p, sep) == JoinWith(init[..|init| - 1], sep) + [sep] + init[|init| - 1] + [c];
        }
      }
      assert s == t + [c];
    }
  }

  /** No piece contains the separator. */
  lemma {:induction false} SplitPiecesFree(s: string, sep: char)
    ensures forall k :: 0 <= k < |Split(s, sep)| ==> sep !in Split(s, sep)[k]
  {
    if s != [] {
      SplitPiecesFree(s[..|s| - 1], sep);
    }
  }

  /** A string without the separator is a single piece. */
  lemma {:induction false} SplitNoSep(s: string, sep: char)
    requires sep !in s
    ensures Split(s, sep) == [s]
  {
    if s != [] {
      SplitNoSep(s[..|s| - 1], sep);
      assert s[..|s| - 1] + [s[|s| - 1]] == s;
    }
  }

  /** A string that ends in a separator and then a piece without one splits
      into the pieces before that separator, then that piece. */
  lemma {:induction false} SplitEndingInPiece(s: string, piece: string, sep: char)
    requires sep !in piece
    ensures Split(s + [sep] + piece, sep) == Split(s, sep) + [piece]
    decreases |piece|
  {
    var t := s + [sep] + piece;
    if piece == [] {
      assert t[..|t| - 1] == s;
    } else {
      var p' := piece[..|piece| - 1];
      var c := piece[|piece| - 1];
      assert t[..|t| - 1] == s + [sep] + p';
      assert t[|t| - 1] == c;
      SplitEndingInPiece(s, p', sep);
      var init := Split(s, sep) + [p'];
      assert init[..|init| - 1] == Split(s, sep);
      assert p' + [c] == piece;
    }
  }
}
