/**
 * The few pieces of the Java platform whose exact behaviour the weather core relies
 * on: `int` range and truncating division, `Integer.toString`, `Integer.parseInt`,
 * `String.split` with a one-character delimiter, `String.isBlank` and the line
 * splitting of `BufferedReader.lines()`.
 */
module JavaText {
  import opened Wrappers

  /** The range of Java's 32-bit `int`. */
  const IntMin: int := -0x8000_0000
  const IntMax: int := 0x7FFF_FFFF

  predicate InInt(n: int)
  {
    IntMin <= n <= IntMax
  }

  // ---------------------------------------------------------------- division

  /** Java's `a / b` for a positive divisor: the quotient rounded toward zero. */
  function JavaDiv(a: int, b: int): (q: int)
    requires b > 0
    ensures 0 <= a ==> 0 <= a - q * b < b
    ensures a < 0 ==> -b < a - q * b <= 0
  {
    if a >= 0 then a / b else -((-a) / b)
  }

  /** Java's `a % b` for a positive divisor: the remainder has the sign of `a`. */
  function JavaRem(a: int, b: int): (rem: int)
    requires b > 0
  {
    a - JavaDiv(a, b) * b
  }

  lemma NonNegProduct(x: int, y: int)
    requires x >= 0 && y >= 0
    ensures x * y >= 0
  {
  }

  /** A number written as bq + r with 0 <= r < b leaves remainder r. */
  lemma RemainderUnique(x: int, b: int, q: int, r: int)
    requires b > 0 && 0 <= r < b && x == b * q + r
    ensures x % b == r
  {
    var q', r' := x / b, x % b;
    var d := q - q';
    assert b * d == r' - r;
    if d >= 1 {
      assert b * d == b + b * (d - 1);
      NonNegProduct(b, d - 1);
    } else if d <= -1 {
      assert b * -d == b + b * (-d - 1);
      NonNegProduct(b, -d - 1);
    }
  }

  /** Java's remainder is zero exactly when the Euclidean one is: divisibility agrees. */
  lemma JavaRemZero(a: int, b: int)
    requires b > 0
    ensures JavaRem(a, b) == 0 <==> a % b == 0
  {
    if a < 0 {
      var q := (-a) / b;
      assert -a == b * q + (-a) % b;
      if (-a) % b == 0 {
        RemainderUnique(a, b, -q, 0);
      } else {
        RemainderUnique(a, b, -q - 1, b - (-a) % b);
      }
    }
  }

  /** Where truncation and Dafny's Euclidean division part ways. */
  lemma TruncationExamples()
    ensures JavaDiv(-1, 3) == 0 && -1 / 3 == -1
    ensures JavaDiv(-22, 3) == -7 && -22 / 3 == -8
    ensures JavaDiv(11, 3) == 3
  {
  }

  // ---------------------------------------------------------------- digits

  predicate IsDigit(c: char)
  {
    '0' <= c <= '9'
  }

  predicate AllDigits(s: string)
  {
    forall j :: 0 <= j < |s| ==> IsDigit(s[j])
  }

  function DigitChar(d: nat): (c: char)
    requires d < 10
    ensures IsDigit(c) && c as int - '0' as int == d
  {
    ('0' as int + d) as char
  }

  /** Decimal digits of a natural number, most significant first, without leading zeros. */
  function NatToString(n: nat): (digits: string)
  {
    if n < 10 then [DigitChar(n)] else NatToString(n / 10) + [DigitChar(n % 10)]
  }

  /** The decimal form is a non-empty run of digits with no leading zero. */
  lemma {:induction false} NatToStringDigits(n: nat)
    ensures 1 <= |NatToString(n)| && AllDigits(NatToString(n))
    ensures |NatToString(n)| > 1 ==> NatToString(n)[0] != '0'
  {
    if n >= 10 {
      NatToStringDigits(n / 10);
      var s := NatToString(n);
      assert forall j :: 0 <= j < |s| - 1 ==> s[j] == NatToString(n / 10)[j];
    }
  }

  /** `Integer.toString(n)` (what string concatenation writes for an `int`). */
  function IntToString(n: int): (text: string)
  {
    if n < 0 then "-" + NatToString(-n) else NatToString(n)
  }

  /** Digits throughout, except a leading minus sign exactly when the number is negative. */
  lemma IntToStringShape(n: int)
    ensures 1 <= |IntToString(n)| && IsDigit(IntToString(n)[|IntToString(n)| - 1])
    ensures forall j :: 0 <= j < |IntToString(n)| ==>
      IsDigit(IntToString(n)[j]) || (j == 0 && IntToString(n)[j] == '-')
    ensures (IntToString(n)[0] == '-') <==> n < 0
  {
    if n < 0 {
      NatToStringDigits(-n);
    } else {
      NatToStringDigits(n);
    }
  }

  /** The value of a string of decimal digits. */
  function DigitsValue(s: string): (v: nat)
    requires AllDigits(s)
  {
    if s == [] then 0
    else DigitsValue(s[..|s| - 1]) * 10 + (s[|s| - 1] as int - '0' as int)
  }

  /**
   * `Integer.parseInt(s)`: an optional sign followed by at least one decimal digit,
   * whose value fits in an `int`; anything else throws, modelled as `None`.
   */
  function ParseInt(s: string): (r: Option<int>)
    ensures r.Some? ==> InInt(r.value)
  {
    if s == [] then None
    else if s[0] == '-' || s[0] == '+' then
      if |s| == 1 || !AllDigits(s[1..]) then None
      else
        var v: int := if s[0] == '-' then -(DigitsValue(s[1..]) as int) else DigitsValue(s[1..]);
        if InInt(v) then Some(v) else None
    else if AllDigits(s) && InInt(DigitsValue(s)) then Some(DigitsValue(s))
    else None
  }

  lemma {:induction false} NatToStringValue(n: nat)
    ensures AllDigits(NatToString(n)) && DigitsValue(NatToString(n)) == n
  {
    var s := NatToString(n);
    NatToStringDigits(n);
    if n >= 10 {
      NatToStringDigits(n / 10);
      NatToStringValue(n / 10);
      assert s[..|s| - 1] == NatToString(n / 10);
    }
  }

  /** Reading back what was written: `parseInt(toString(n)) == n` for every `int`. */
  lemma ParseIntToString(n: int)
    requires InInt(n)
    ensures ParseInt(IntToString(n)) == Some(n)
  {
    var s := IntToString(n);
    IntToStringShape(n);
    if n < 0 {
      NatToStringDigits(-n);
      NatToStringValue(-n);
      assert s[1..] == NatToString(-n);
    } else {
      NatToStringDigits(n);
      NatToStringValue(n);
    }
  }

  /** Parsing rejects the empty string, a lone sign, a trailing letter and a leading space. */
  lemma ParseIntRejects()
    ensures ParseInt("") == None && ParseInt("-") == None && ParseInt("+") == None
    ensures ParseInt("4a") == None && ParseInt(" 4") == None
  {
    assert !IsDigit("4a"[1]) && !IsDigit(" 4"[0]);
  }

  /**
   * What parses: a non-empty string of digits, with at most one leading sign that is
   * followed by a digit. A string with any other character throws.
   */
  lemma ParseIntDigitsOnly(s: string)
    requires ParseInt(s).Some?
    ensures s != []
    ensures forall j :: 0 <= j < |s| ==> IsDigit(s[j]) || (j == 0 && (s[0] == '-' || s[0] == '+'))
    ensures |s| >= 2 || IsDigit(s[0])
  {
    if s[0] == '-' || s[0] == '+' {
      forall j | 1 <= j < |s| ensures IsDigit(s[j]) {
        assert s[j] == s[1..][j - 1];
      }
    }
  }

  /** An unsigned run of digits whose value fits in an `int` parses to that value. */
  lemma ParseIntAcceptsDigits(s: string)
    requires s != [] && AllDigits(s) && InInt(DigitsValue(s))
    ensures ParseInt(s) == Some(DigitsValue(s))
  {
    assert IsDigit(s[0]);
  }

  // ---------------------------------------------------------------- split

  /** Every piece of `s` between occurrences of `d`, empty pieces included. */
  function SplitAll(s: string, d: char): (parts: seq<string>)
    ensures |parts| >= 1
    ensures forall k :: 0 <= k < |parts| ==> d !in parts[k]
  {
    if s == [] then [[]]
    else
      var rest := SplitAll(s[1..], d);
      if s[0] == d then [[]] + rest else [[s[0]] + rest[0]] + rest[1..]
  }

  /** The pieces joined again with the delimiter between them. */
  function Join(parts: seq<string>, d: char): (joined: string)
    requires |parts| >= 1
  {
    if |parts| == 1 then parts[0] else parts[0] + [d] + Join(parts[1..], d)
  }

  /** Splitting loses nothing: joining the pieces restores the string. */
  lemma {:induction false} JoinSplitAll(s: string, d: char)
    ensures Join(SplitAll(s, d), d) == s
  {
    if s != [] {
      JoinSplitAll(s[1..], d);
      var rest := SplitAll(s[1..], d);
      if s[0] != d {
        var parts := SplitAll(s, d);
        assert parts[1..] == rest[1..];
        if |rest| > 1 {
          assert Join(rest, d) == rest[0] + [d] + Join(rest[1..], d);
        }
      }
    }
  }

  /** `parts` without its trailing empty strings. */
  function DropTrailingEmpty(parts: seq<string>): (r: seq<string>)
    ensures |r| <= |parts| && r == parts[..|r|]
    ensures r == [] || r[|r| - 1] != []
    ensures forall k :: |r| <= k < |parts| ==> parts[k] == []
  {
    if parts != [] && parts[|parts| - 1] == [] then DropTrailingEmpty(parts[..|parts| - 1]) else parts
  }

  /**
   * `s.split(d)` for a one-character delimiter: the string itself when `d` does not
   * occur, otherwise the pieces with trailing empty strings removed.
   */
  function Split(s: string, d: char): (parts: seq<string>)
  {
    if d !in s then [s] else DropTrailingEmpty(SplitAll(s, d))
  }

  lemma {:induction false} SplitAllNoDelimiter(a: string, d: char)
    requires d !in a
    ensures SplitAll(a, d) == [a]
  {
    if a != [] {
      assert a[0] != d && d !in a[1..];
      SplitAllNoDelimiter(a[1..], d);
      assert [a[0]] + a[1..] == a;
    }
  }

  /** A delimiter-free first field is split off as the first piece. */
  lemma {:induction false} SplitAllField(a: string, b: string, d: char)
    requires d !in a
    ensures SplitAll(a + [d] + b, d) == [a] + SplitAll(b, d)
  {
    if a == [] {
      assert (a + [d] + b)[1..] == b;
    } else {
      assert (a + [d] + b)[0] == a[0] != d;
      assert (a + [d] + b)[1..] == a[1..] + [d] + b;
      assert d !in a[1..];
      SplitAllField(a[1..], b, d);
      assert [a[0]] + a[1..] == a;
    }
  }

  /** A string that does not end in the delimiter has a non-empty last piece. */
  lemma {:induction false} SplitAllLastNonEmpty(s: string, d: char)
    requires s != [] && s[|s| - 1] != d
    ensures SplitAll(s, d)[|SplitAll(s, d)| - 1] != []
  {
    if |s| > 1 {
      SplitAllLastNonEmpty(s[1..], d);
    }
  }

  // ---------------------------------------------------------------- lines

  /** The characters that end a line for `BufferedReader`. */
  predicate IsLineBreak(c: char)
  {
    c == '\n' || c == '\r'
  }

  predicate NoLineBreak(s: string)
  {
    forall j :: 0 <= j < |s| ==> !IsLineBreak(s[j])
  }

  /** Index of the first line break of `s`, or `|s|` when there is none. */
  function BreakIndex(s: string): (k: nat)
    ensures k <= |s|
  {
    if s == [] || IsLineBreak(s[0]) then 0 else 1 + BreakIndex(s[1..])
  }

  /** `BreakIndex` finds the first line break. */
  lemma {:induction false} BreakIndexIsFirstBreak(s: string)
    ensures forall j :: 0 <= j < BreakIndex(s) ==> !IsLineBreak(s[j])
    ensures BreakIndex(s) < |s| ==> IsLineBreak(s[BreakIndex(s)])
  {
    if s != [] && !IsLineBreak(s[0]) {
      BreakIndexIsFirstBreak(s[1..]);
    }
  }

  /** Where the next line starts, after the terminator found at `k` ("\r\n" counts as one). */
  function NextLineStart(s: string, k: nat): (next: nat)
    requires k < |s|
    ensures k < next <= |s|
  {
    if s[k] == '\r' && k + 1 < |s| && s[k + 1] == '\n' then k + 2 else k + 1
  }

  /**
   * `BufferedReader.lines()`: a line ends at "\n", "\r" or "\r\n"; a final line
   * without a terminator still counts, and a final terminator adds no empty line.
   */
  function Lines(s: string): (ls: seq<string>)
    decreases |s|
  {
    if s == [] then []
    else
      var k := BreakIndex(s);
      if k == |s| then [s] else [s[..k]] + Lines(s[NextLineStart(s, k)..])
  }

  /** `BreakIndex` is the only position that is a break with no break before it. */
  lemma {:induction false} BreakIndexUnique(s: string, k: nat)
    requires k <= |s|
    requires forall j :: 0 <= j < k ==> !IsLineBreak(s[j])
    requires k < |s| ==> IsLineBreak(s[k])
    ensures BreakIndex(s) == k
  {
    if s != [] && !IsLineBreak(s[0]) {
      BreakIndexUnique(s[1..], k - 1);
    }
  }

  /** A break-free line ended by "\n" is read back as that line, then the rest of the text. */
  lemma LinesOfLineThen(line: string, rest: string)
    requires NoLineBreak(line)
    ensures Lines(line + "\n" + rest) == [line] + Lines(rest)
  {
    var s := line + "\n" + rest;
    var k := |line|;
    BreakIndexUnique(s, k);
    assert NextLineStart(s, k) == k + 1;
    assert s[..k] == line;
    assert s[k + 1..] == rest;
  }

  /** "\r\n" ends a line as one terminator: no empty line appears between "\r" and "\n". */
  lemma LinesOfLineThenCrLf(line: string, rest: string)
    requires NoLineBreak(line)
    ensures Lines(line + "\r\n" + rest) == [line] + Lines(rest)
  {
    var s := line + "\r\n" + rest;
    var k := |line|;
    BreakIndexUnique(s, k);
    assert NextLineStart(s, k) == k + 2;
    assert s[..k] == line;
    assert s[k + 2..] == rest;
  }

  /** A lone "\r" ends a line too, as long as no "\n" follows it. */
  lemma LinesOfLineThenCr(line: string, rest: string)
    requires NoLineBreak(line)
    requires rest == [] || rest[0] != '\n'
    ensures Lines(line + "\r" + rest) == [line] + Lines(rest)
  {
    var s := line + "\r" + rest;
    var k := |line|;
    BreakIndexUnique(s, k);
    assert NextLineStart(s, k) == k + 1;
    assert s[..k] == line;
    assert s[k + 1..] == rest;
  }

  /** A terminator at the very end of the text adds no empty last line. */
  lemma LinesFinalTerminator(line: string)
    requires NoLineBreak(line)
    ensures Lines(line + "\n") == [line]
    ensures Lines(line + "\r\n") == [line]
  {
    LinesOfLineThen(line, "");
    LinesOfLineThenCrLf(line, "");
    assert line + "\n" + "" == line + "\n";
    assert line + "\r\n" + "" == line + "\r\n";
  }

  // ---------------------------------------------------------------- blank

  /** `Character.isWhitespace`. */
  predicate IsWhitespace(c: char)
  {
    var n := c as int;
    n == 0x20 || 0x09 <= n <= 0x0D || 0x1C <= n <= 0x1F
    || n == 0x1680 || (0x2000 <= n <= 0x200A && n != 0x2007)
    || n == 0x2028 || n == 0x2029 || n == 0x205F || n == 0x3000
  }

  /** `String.isBlank`: empty or white space only. */
  predicate IsBlank(s: string)
  {
    forall j :: 0 <= j < |s| ==> IsWhitespace(s[j])
  }
}
