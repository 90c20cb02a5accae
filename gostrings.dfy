/**
  The parts of Go's `strings` and `strconv` packages that the path engine calls:
  `strings.Split` (one-character separators only), `strings.Index`,
  `strings.Trim`, `strings.TrimSpace` (ASCII white space) and `strconv.Atoi`
  (64-bit `int`). `Itoa` renders a natural number in decimal; it is used only
  to state round-trip properties of the parser.
*/
module GoStrings {
  import opened Base

  /** Number of occurrences of `c` in `s`. */
  function Count(s: string, c: char): nat
  {
    if s == [] then 0 else (if s[0] == c then 1 else 0) + Count(s[1..], c)
  }

  /** The pieces joined back together with `sep` between each pair. */
  function Join(parts: seq<string>, sep: char): string
  {
    if |parts| == 0 then ""
    else if |parts| == 1 then parts[0]
    else parts[0] + [sep] + Join(parts[1..], sep)
  }

  /**
    `strings.Split(s, string(sep))`: the maximal runs of text between the
    occurrences of `sep`, in order. The empty string gives one empty piece.
  */
  function Split(s: string, sep: char): (parts: seq<string>)
    ensures |parts| >= 1
    decreases |s|
  {
    if s == [] then [""]
    else
      var rest := Split(s[1..], sep);
      if s[0] == sep then [""] + rest else [[s[0]] + rest[0]] + rest[1..]
  }

  /** `Split` returns one more piece than there are separators. */
  lemma {:induction false} SplitCount(s: string, sep: char)
    ensures |Split(s, sep)| == Count(s, sep) + 1
    decreases |s|
  {
    if s != [] {
      SplitCount(s[1..], sep);
    }
  }

  /** No piece contains the separator. */
  lemma {:induction false} SplitPiecesFree(s: string, sep: char)
    ensures forall i :: 0 <= i < |Split(s, sep)| ==> sep !in Split(s, sep)[i]
    decreases |s|
  {
    if s != [] {
      SplitPiecesFree(s[1..], sep);
      var rest := Split(s[1..], sep);
      var parts := Split(s, sep);
      forall i | 0 <= i < |parts| ensures sep !in parts[i] {
        if s[0] == sep {
          if i > 0 {
            assert parts[i] == rest[i - 1];
          }
        } else if i > 0 {
          assert parts[i] == rest[i];
        }
      }
    }
  }

  /** Joined back with the separator, the pieces give the input. */
  lemma {:induction false} JoinSplit(s: string, sep: char)
    ensures Join(Split(s, sep), sep) == s
    decreases |s|
  {
    if s != [] {
      JoinSplit(s[1..], sep);
      var rest := Split(s[1..], sep);
      assert s == [s[0]] + s[1..];
      if s[0] != sep {
        var parts := [[s[0]] + rest[0]] + rest[1..];
        assert Split(s, sep) == parts;
        if |rest| > 1 {
          assert parts[1..] == rest[1..];
        }
      }
    }
  }

  /** No piece is longer than the text it was split from. */
  lemma {:induction false} SplitPieceLengths(s: string, sep: char)
    ensures forall i :: 0 <= i < |Split(s, sep)| ==> |Split(s, sep)[i]| <= |s|
    decreases |s|
  {
    if s != [] {
      SplitPieceLengths(s[1..], sep);
      var rest := Split(s[1..], sep);
      var parts := Split(s, sep);
      forall i | 0 <= i < |parts| ensures |parts[i]| <= |s| {
        if s[0] == sep {
          if i > 0 {
            assert parts[i] == rest[i - 1];
          }
        } else if i > 0 {
          assert parts[i] == rest[i];
        }
      }
    }
  }

  /** Splitting at one separator splits the two sides independently. */
  lemma {:induction false} SplitAround(x: string, sep: char, y: string)
    ensures Split(x + [sep] + y, sep) == Split(x, sep) + Split(y, sep)
    decreases |x|
  {
    if x == [] {
      assert x + [sep] + y == [sep] + y;
      assert ([sep] + y)[1..] == y;
    } else {
      assert (x + [sep] + y)[1..] == x[1..] + [sep] + y;
      SplitAround(x[1..], sep, y);
    }
  }

  /** A string without the separator is a single piece. */
  lemma {:induction false} SplitNoSeparator(x: string, sep: char)
    requires sep !in x
    ensures Split(x, sep) == [x]
    decreases |x|
  {
    if x != [] {
      assert sep !in x[1..];
      SplitNoSeparator(x[1..], sep);
      assert [x[0]] + x[1..] == x;
    }
  }

  /** `Split` inverts `Join` on separator-free pieces. */
  lemma {:induction false} SplitJoin(parts: seq<string>, sep: char)
    requires |parts| >= 1
    requires forall i :: 0 <= i < |parts| ==> sep !in parts[i]
    ensures Split(Join(parts, sep), sep) == parts
    decreases |parts|
  {
    if |parts| == 1 {
      SplitNoSeparator(parts[0], sep);
    } else {
      SplitAround(parts[0], sep, Join(parts[1..], sep));
      SplitNoSeparator(parts[0], sep);
      SplitJoin(parts[1..], sep);
      assert parts == [parts[0]] + parts[1..];
    }
  }

  /** `strings.Index(s, string(c))`: the position of the first `c`, or -1. */
  function IndexOf(s: string, c: char): (r: int)
    ensures -1 <= r < |s|
    ensures r != -1 ==> s[r] == c
    ensures c in s ==> r != -1
  {
    if s == [] then -1
    else if s[0] == c then 0
    else
      var r := IndexOf(s[1..], c);
      if r == -1 then -1 else r + 1
  }

  /** `IndexOf` finds the first occurrence, and finds none exactly when there is none. */
  lemma {:induction false} IndexOfFirst(s: string, c: char)
    ensures IndexOf(s, c) == -1 <==> c !in s
    ensures IndexOf(s, c) != -1 ==> c !in s[..IndexOf(s, c)]
  {
    if s != [] && s[0] != c {
      IndexOfFirst(s[1..], c);
      var r := IndexOf(s[1..], c);
      if r != -1 {
        assert s[..r + 1] == [s[0]] + s[1..][..r];
      }
      assert s == [s[0]] + s[1..];
    }
  }

  /** A position holding `c` with no `c` before it is the one `IndexOf` finds. */
  lemma {:induction false} IndexOfAt(s: string, c: char, j: nat)
    requires j < |s| && s[j] == c && c !in s[..j]
    ensures IndexOf(s, c) == j
    decreases j
  {
    if j > 0 {
      assert s[..j] == [s[0]] + s[1..][..j - 1];
      IndexOfAt(s[1..], c, j - 1);
    }
  }

  /** `c` occurs among the first `j` characters exactly when its first occurrence is before `j`. */
  lemma {:induction false} IndexOfBelow(s: string, c: char, j: nat)
    requires j <= |s|
    ensures c in s[..j] <==> (IndexOf(s, c) != -1 && IndexOf(s, c) < j)
    decreases j
  {
    if j > 0 {
      assert s[..j] == [s[0]] + s[1..][..j - 1];
      IndexOfBelow(s[1..], c, j - 1);
    }
  }

  /** The leading characters of `s` that belong to `cut` removed. */
  function TrimLeft(s: string, cut: set<char>): (r: string)
    ensures |r| <= |s|
  {
    if s != [] && s[0] in cut then TrimLeft(s[1..], cut) else s
  }

  /** The trailing characters of `s` that belong to `cut` removed. */
  function TrimRight(s: string, cut: set<char>): (r: string)
    ensures |r| <= |s|
  {
    if s != [] && s[|s| - 1] in cut then TrimRight(s[..|s| - 1], cut) else s
  }

  /** `strings.Trim(s, cutset)`: trims the left end, then the right end. */
  function Trim(s: string, cut: set<char>): (r: string)
    ensures |r| <= |s|
  {
    TrimRight(TrimLeft(s, cut), cut)
  }

  /** `TrimLeft` keeps a suffix, removes only characters of `cut`, and stops at the first other one. */
  lemma {:induction false} TrimLeftKeeps(s: string, cut: set<char>)
    ensures var r := TrimLeft(s, cut);
      r == s[|s| - |r|..] &&
      (forall i :: 0 <= i < |s| - |r| ==> s[i] in cut) &&
      (r == [] || r[0] !in cut)
    decreases |s|
  {
    if s != [] && s[0] in cut {
      TrimLeftKeeps(s[1..], cut);
      var r := TrimLeft(s, cut);
      forall i | 0 <= i < |s| - |r| ensures s[i] in cut {
        if i > 0 {
          assert s[i] == s[1..][i - 1];
        }
      }
    }
  }

  /** `TrimRight` keeps a prefix, removes only characters of `cut`, and stops at the last other one. */
  lemma {:induction false} TrimRightKeeps(s: string, cut: set<char>)
    ensures var r := TrimRight(s, cut);
      r == s[..|r|] &&
      (forall i :: |r| <= i < |s| ==> s[i] in cut) &&
      (r == [] || r[|r| - 1] !in cut)
    decreases |s|
  {
    if s != [] && s[|s| - 1] in cut {
      TrimRightKeeps(s[..|s| - 1], cut);
      var r := TrimRight(s, cut);
      forall i | |r| <= i < |s| ensures s[i] in cut {
        if i < |s| - 1 {
          assert s[i] == s[..|s| - 1][i];
        }
      }
    }
  }

  /** What `Trim` keeps neither starts nor ends with a character of `cut`. */
  lemma TrimEnds(s: string, cut: set<char>)
    ensures var r := Trim(s, cut); r == [] || (r[0] !in cut && r[|r| - 1] !in cut)
  {
    var l := TrimLeft(s, cut);
    TrimLeftKeeps(s, cut);
    TrimRightKeeps(l, cut);
  }

  /** A string that starts and ends with characters of `cut` loses at least both of them. */
  lemma TrimShortens(s: string, cut: set<char>)
    requires |s| >= 2 && s[0] in cut && s[|s| - 1] in cut
    ensures |Trim(s, cut)| <= |s| - 2
  {
    var l := TrimLeft(s, cut);
    TrimLeftKeeps(s, cut);
    TrimRightKeeps(l, cut);
  }

  /** The ASCII white-space characters that `strings.TrimSpace` removes. */
  const Spaces: set<char> := {' ', '\t', '\n', '\r', '\U{000B}', '\U{000C}'}

  /** `strings.TrimSpace` on ASCII text. */
  function TrimSpace(s: string): (r: string)
    ensures |r| <= |s|
  {
    Trim(s, Spaces)
  }

  function HasPrefix(s: string, c: char): bool { |s| > 0 && s[0] == c }

  function HasSuffix(s: string, c: char): bool { |s| > 0 && s[|s| - 1] == c }

  // ---- strconv.Atoi

  /** The range of Go's `int` on a 64-bit platform. */
  const MinInt: int := -0x8000_0000_0000_0000
  const MaxInt: int :=  0x7FFF_FFFF_FFFF_FFFF

  predicate IsDigit(c: char) { '0' <= c <= '9' }

  predicate AllDigits(s: string) { forall i :: 0 <= i < |s| ==> IsDigit(s[i]) }

  /** The number a non-empty run of decimal digits denotes, most significant digit first. */
  function DigitsValue(ds: string): nat
    requires AllDigits(ds)
  {
    if ds == [] then 0
    else DigitsValue(ds[..|ds| - 1]) * 10 + (ds[|ds| - 1] as int - '0' as int)
  }

  /**
    `strconv.Atoi`: an optional `+` or `-`, then one or more decimal digits
    (no white space, no underscores), whose value must fit in a 64-bit `int`.
  */
  function Atoi(s: string): (r: Option<int>)
    ensures r.Some? ==> MinInt <= r.value <= MaxInt
  {
    var signed := |s| > 0 && (s[0] == '+' || s[0] == '-');
    var digits := if signed then s[1..] else s;
    if digits == [] || !AllDigits(digits) then None
    else
      var n: int := if signed && s[0] == '-' then -(DigitsValue(digits) as int) else DigitsValue(digits);
      if MinInt <= n <= MaxInt then Some(n) else None
  }

  /** Exactly the strings of the form sign? digit+ are accepted, within the range of `int`. */
  lemma AtoiAccepts(s: string)
    ensures Atoi(s).Some? ==> s != [] && (IsDigit(s[0]) || s[0] == '+' || s[0] == '-') &&
                              AllDigits(s[1..]) && (s[0] == '+' || s[0] == '-' ==> |s| >= 2)
    ensures s != [] && AllDigits(s) && DigitsValue(s) <= MaxInt ==> Atoi(s) == Some(DigitsValue(s))
  {
    if Atoi(s).Some? && IsDigit(s[0]) {
      assert forall i :: 1 <= i < |s| ==> s[1..][i - 1] == s[i];
    }
  }

  /** The digit character for `d`. */
  function Digit(d: nat): char
    requires d < 10
  {
    ('0' as int + d) as char
  }

  /** `strconv.Itoa` on natural numbers: decimal digits without leading zeros. */
  function Itoa(n: nat): (r: string)
    ensures |r| >= 1 && AllDigits(r)
  {
    if n < 10 then [Digit(n)] else Itoa(n / 10) + [Digit(n % 10)]
  }

  /** The digits `Itoa` writes denote the number. */
  lemma {:induction false} ItoaValue(n: nat)
    ensures DigitsValue(Itoa(n)) == n
  {
    if n >= 10 {
      ItoaValue(n / 10);
      var r := Itoa(n);
      assert r[..|r| - 1] == Itoa(n / 10);
    }
  }

  /** `Atoi` reads back what `Itoa` writes, for every index an `int` can hold. */
  lemma AtoiItoa(n: nat)
    requires n <= MaxInt
    ensures Atoi(Itoa(n)) == Some(n)
  {
    ItoaValue(n);
    AtoiAccepts(Itoa(n));
  }

  /** `Atoi` reads back a minus sign followed by what `Itoa` writes, down to the least `int`. */
  lemma AtoiNegative(m: nat)
    requires 0 < m <= -MinInt
    ensures Atoi("-" + Itoa(m)) == Some(-(m as int))
  {
    var s := "-" + Itoa(m);
    ItoaValue(m);
    assert s[1..] == Itoa(m);
  }
}
