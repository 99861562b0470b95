/**
  The behaviour of the Go library calls the order pipeline relies on, written
  out over `string` (a sequence of characters standing for Go's bytes):
  `filepath.Ext`, `strings.ToLower`, `strings.Split`, `strings.Trim` and
  `strconv.Atoi` on a 64-bit platform, with `strings.Join` and `strconv.Itoa`
  as their inverses.
 */
module GoText {
  import opened Wrappers

  // ---------------------------------------------------------------------------
  // filepath.Ext, with '/' as the only path separator
  // ---------------------------------------------------------------------------

  /**
    The suffix of `path` that starts at the last '.' of its final element, or
    "" when the final element has no '.'.
   */
  function Ext(path: string): (ext: string)
    ensures |ext| <= |path| && ext == path[|path| - |ext|..]
    ensures ext != [] ==> ext[0] == '.' && '/' !in ext && '.' !in ext[1..]
  {
    if path == [] then []
    else
      var n := |path| - 1;
      if path[n] == '/' then
        []
      else if path[n] == '.' then ['.']
      else
        var e := Ext(path[..n]);
        if e == [] then
          []
        else
          assert e + [path[n]] == path[|path| - |e| - 1..];
          e + [path[n]]
  }

  /** Ext is empty only when every dot of `path` sits in a directory name, before some later '/'. */
  lemma {:induction false} ExtEmpty(path: string)
    requires Ext(path) == []
    ensures forall i :: 0 <= i < |path| && path[i] == '.' ==> exists j :: i < j < |path| && path[j] == '/'
  {
    if path != [] {
      var n := |path| - 1;
      if path[n] != '/' {
        ExtEmpty(path[..n]);
        forall i | 0 <= i < |path| && path[i] == '.' ensures exists j :: i < j < |path| && path[j] == '/' {
          assert i < n && path[..n][i] == '.';
          var j :| i < j < n && path[..n][j] == '/';
          assert path[j] == '/';
        }
      } else {
        forall i | 0 <= i < |path| && path[i] == '.' ensures exists j :: i < j < |path| && path[j] == '/' {
          assert path[n] == '/';
        }
      }
    }
  }

  // ---------------------------------------------------------------------------
  // strings.ToLower, ASCII letters only
  // ---------------------------------------------------------------------------

  function LowerChar(c: char): (r: char)
  {
    if 'A' <= c <= 'Z' then (c as int + 32) as char else c
  }

  function ToLower(s: string): (r: string)
    ensures |r| == |s| && forall i :: 0 <= i < |s| ==> r[i] == LowerChar(s[i])
  {
    seq(|s|, i requires 0 <= i < |s| => LowerChar(s[i]))
  }

  // ---------------------------------------------------------------------------
  // strings.Split and strings.Join on a one-character separator
  // ---------------------------------------------------------------------------

  /** The number of occurrences of `c` in `s`. */
  function Occurrences(s: string, c: char): nat
  {
    if s == [] then 0 else (if s[0] == c then 1 else 0) + Occurrences(s[1..], c)
  }

  /** `parts` joined with `sep` between consecutive parts (Go's strings.Join). */
  function Join(parts: seq<string>, sep: char): string
  {
    if parts == [] then []
    else if |parts| == 1 then parts[0]
    else parts[0] + [sep] + Join(parts[1..], sep)
  }

  /**
    The pieces of `s` between occurrences of `sep`: one more piece than there
    are separators, so "" gives [""]. No piece holds `sep`, and joining the
    pieces with `sep` gives `s` back.
   */
  function Split(s: string, sep: char): (parts: seq<string>)
    ensures |parts| == Occurrences(s, sep) + 1
    ensures forall i :: 0 <= i < |parts| ==> sep !in parts[i]
    ensures Join(parts, sep) == s
  {
    if s == [] then [[]]
    else
      var rest := Split(s[1..], sep);
      if s[0] == sep then
        assert s == [] + [sep] + s[1..];
        [[]] + rest
      else
        var parts := [[s[0]] + rest[0]] + rest[1..];
        assert parts[1..] == rest[1..];
        assert s == [s[0]] + s[1..];
        parts
  }

  /** A string holding exactly one separator splits into what lies before and after it. */
  lemma {:induction false} SplitAtOnly(a: string, b: string, sep: char)
    requires sep !in a && sep !in b
    ensures Split(a + [sep] + b, sep) == [a, b]
  {
    if a == [] {
      assert a + [sep] + b == [sep] + b;
      assert ([sep] + b)[1..] == b;
      SplitNone(b, sep);
    } else {
      assert (a + [sep] + b)[1..] == a[1..] + [sep] + b;
      SplitAtOnly(a[1..], b, sep);
      assert [a[0]] + a[1..] == a;
    }
  }

  /** A string without the separator is one piece. */
  lemma {:induction false} SplitNone(s: string, sep: char)
    requires sep !in s
    ensures Split(s, sep) == [s]
  {
    if s != [] {
      assert sep !in s[1..];
      SplitNone(s[1..], sep);
      assert [s[0]] + s[1..] == s;
    }
  }

  // ---------------------------------------------------------------------------
  // strings.Trim with a one-character cut set
  // ---------------------------------------------------------------------------

  /** `s` without its leading run of `c`. */
  function TrimLeft(s: string, c: char): (r: string)
    ensures |r| <= |s|
  {
    if s != [] && s[0] == c then TrimLeft(s[1..], c) else s
  }

  /** TrimLeft keeps a suffix, cuts only `c`, and leaves no leading `c`. */
  lemma {:induction false} TrimLeftSpec(s: string, c: char)
    ensures var r := TrimLeft(s, c);
      && |r| <= |s| && r == s[|s| - |r|..]
      && (forall i :: 0 <= i < |s| - |r| ==> s[i] == c)
      && (r == [] || r[0] != c)
  {
    if s != [] && s[0] == c {
      TrimLeftSpec(s[1..], c);
    }
  }

  /** `s` without its trailing run of `c`. */
  function TrimRight(s: string, c: char): (r: string)
    ensures |r| <= |s|
  {
    if s != [] && s[|s| - 1] == c then TrimRight(s[..|s| - 1], c) else s
  }

  /** TrimRight keeps a prefix, cuts only `c`, and leaves no trailing `c`. */
  lemma {:induction false} TrimRightSpec(s: string, c: char)
    ensures var r := TrimRight(s, c);
      && |r| <= |s| && r == s[..|r|]
      && (forall i :: |r| <= i < |s| ==> s[i] == c)
      && (r == [] || r[|r| - 1] != c)
  {
    if s != [] && s[|s| - 1] == c {
      TrimRightSpec(s[..|s| - 1], c);
    }
  }

  /** `c` repeated `n` times. */
  function Repeat(c: char, n: nat): (r: string)
    ensures |r| == n
  {
    if n == 0 then [] else [c] + Repeat(c, n - 1)
  }

  lemma {:induction false} RepeatOnly(c: char, n: nat)
    ensures forall i :: 0 <= i < n ==> Repeat(c, n)[i] == c
  {
    if n > 0 {
      RepeatOnly(c, n - 1);
    }
  }

  lemma {:induction false} RepeatSnoc(c: char, n: nat)
    requires n > 0
    ensures Repeat(c, n) == Repeat(c, n - 1) + [c]
  {
    if n > 1 {
      RepeatSnoc(c, n - 1);
    }
  }

  /** `s` without its leading and trailing runs of `c`: neither end of the result is `c`. */
  function Trim(s: string, c: char): (r: string)
    ensures r == [] || (r[0] != c && r[|r| - 1] != c)
  {
    TrimLeftSpec(s, c);
    TrimRightSpec(TrimLeft(s, c), c);
    TrimRight(TrimLeft(s, c), c)
  }

  /** Trim keeps a slice of `s` and cuts nothing but `c` on either side. */
  lemma TrimIsSlice(s: string, c: char)
    ensures var r := Trim(s, c);
      var i := |s| - |TrimLeft(s, c)|;
      && i + |r| <= |s| && r == s[i..i + |r|]
      && (forall k :: 0 <= k < i ==> s[k] == c)
      && (forall k :: i + |r| <= k < |s| ==> s[k] == c)
  {
    TrimLeftSpec(s, c);
    TrimRightSpec(TrimLeft(s, c), c);
  }

  /** Trimming undoes any padding of a string that is not itself padded. */
  lemma {:induction false} TrimPadded(x: string, c: char, left: nat, right: nat)
    requires x == [] || (x[0] != c && x[|x| - 1] != c)
    ensures Trim(Repeat(c, left) + x + Repeat(c, right), c) == x
  {
    var s := Repeat(c, left) + x + Repeat(c, right);
    if x == [] {
      RepeatOnly(c, left);
      RepeatOnly(c, right);
      assert forall i :: 0 <= i < |s| ==> s[i] == c;
      AllTrimmedLeft(s, c);
    } else {
      var y := x + Repeat(c, right);
      assert s == Repeat(c, left) + y;
      TrimLeftPadded(y, c, left);
      assert TrimLeft(y, c) == y;
      TrimRightPadded(x, c, right);
      assert TrimRight(y, c) == x;
    }
  }

  /** A string made of `c` alone trims to nothing. */
  lemma {:induction false} AllTrimmedLeft(s: string, c: char)
    requires forall i :: 0 <= i < |s| ==> s[i] == c
    ensures TrimLeft(s, c) == []
  {
    if s != [] {
      AllTrimmedLeft(s[1..], c);
    }
  }

  /** TrimLeft removes exactly the leading padding. */
  lemma {:induction false} TrimLeftPadded(y: string, c: char, n: nat)
    requires y == [] || y[0] != c
    ensures TrimLeft(Repeat(c, n) + y, c) == TrimLeft(y, c)
  {
    if n > 0 {
      assert (Repeat(c, n) + y)[1..] == Repeat(c, n - 1) + y;
      TrimLeftPadded(y, c, n - 1);
    }
  }

  /** TrimRight removes exactly the trailing padding. */
  lemma {:induction false} TrimRightPadded(y: string, c: char, n: nat)
    requires y == [] || y[|y| - 1] != c
    ensures TrimRight(y + Repeat(c, n), c) == y
  {
    if n > 0 {
      var s := y + Repeat(c, n);
      RepeatSnoc(c, n);
      assert s == y + Repeat(c, n - 1) + [c];
      assert s[..|s| - 1] == y + Repeat(c, n - 1);
      TrimRightPadded(y, c, n - 1);
    } else {
      assert y + Repeat(c, n) == y;
    }
  }

  // ---------------------------------------------------------------------------
  // strconv.Atoi and strconv.Itoa for a 64-bit int
  // ---------------------------------------------------------------------------

  const MinInt64: int := -0x8000_0000_0000_0000
  const MaxInt64: int := 0x7fff_ffff_ffff_ffff

  predicate IsDigit(c: char) {
    '0' <= c <= '9'
  }

  /** Every character is a digit (stated recursively, so that it unfolds only on demand). */
  predicate AllDigits(s: string) {
    s == [] || (AllDigits(s[..|s| - 1]) && IsDigit(s[|s| - 1]))
  }

  lemma {:induction false} AllDigitsAt(s: string, i: nat)
    requires AllDigits(s) && i < |s|
    ensures IsDigit(s[i])
  {
    if i < |s| - 1 {
      AllDigitsAt(s[..|s| - 1], i);
    }
  }

  /** The value of a string of decimal digits, most significant first. */
  function DigitsValue(s: string): nat
    requires AllDigits(s)
  {
    if s == [] then 0 else DigitsValue(s[..|s| - 1]) * 10 + (s[|s| - 1] as int - '0' as int)
  }

  /** What follows the optional sign. */
  function Unsigned(s: string): string {
    if s != [] && (s[0] == '+' || s[0] == '-') then s[1..] else s
  }

  /** An optional '+' or '-' followed by one or more decimal digits. */
  predicate IsDecimal(s: string) {
    Unsigned(s) != [] && AllDigits(Unsigned(s))
  }

  /** The signed value of a decimal string, whatever its size. */
  function DecimalValue(s: string): int
    requires IsDecimal(s)
  {
    if s[0] == '-' then 0 - DigitsValue(Unsigned(s)) else DigitsValue(Unsigned(s))
  }

  /**
    Go's strconv.Atoi with a 64-bit int: a syntax error (None) unless `s` is an
    optional sign and at least one digit, a range error (None) when the value
    does not fit in 64 bits. No spaces, no underscores, no base prefix.
   */
  function Atoi(s: string): (r: Option<int>)
    ensures r.Some? <==> IsDecimal(s) && MinInt64 <= DecimalValue(s) <= MaxInt64
    ensures r.Some? ==> MinInt64 <= r.value <= MaxInt64 && r.value == DecimalValue(s)
  {
    if s == [] then None
    else
      var digits := Unsigned(s);
      if digits == [] || !AllDigits(digits) then None
      else
        var n := if s[0] == '-' then 0 - DigitsValue(digits) else DigitsValue(digits);
        if MinInt64 <= n <= MaxInt64 then Some(n) else None
  }

  function DigitChar(d: nat): (c: char)
    requires d < 10
    ensures IsDigit(c) && c as int - '0' as int == d
  {
    ('0' as int + d) as char
  }

  /** The shortest decimal spelling of `n`. */
  function NatDigits(n: nat): (s: string)
    ensures s != [] && AllDigits(s) && DigitsValue(s) == n
    ensures forall i :: 0 <= i < |s| ==> IsDigit(s[i])
    ensures s[0] != '0' || n == 0
  {
    if n < 10 then [DigitChar(n)]
    else
      var s := NatDigits(n / 10) + [DigitChar(n % 10)];
      assert s[..|s| - 1] == NatDigits(n / 10);
      s
  }

  /** Go's strconv.Itoa: a '-' for negative numbers, then the digits. */
  function Itoa(n: int): (s: string)
    ensures s != [] && s[0] != ' ' && s[|s| - 1] != ' ' && ',' !in s
  {
    if n < 0 then "-" + NatDigits(-n) else NatDigits(n)
  }

  /** Atoi reads back every 64-bit value Itoa writes. */
  lemma AtoiItoa(n: int)
    requires MinInt64 <= n <= MaxInt64
    ensures Atoi(Itoa(n)) == Some(n)
  {
    if n < 0 {
      assert Unsigned(Itoa(n)) == NatDigits(-n);
    } else {
      assert Unsigned(Itoa(n)) == NatDigits(n);
    }
  }

  /** Atoi rejects a string with a character other than a sign or digit, such as "A" or "2 2". */
  lemma AtoiRejectsNonDigit(s: string, i: nat)
    requires 0 < i < |s| && !IsDigit(s[i])
    ensures Atoi(s) == None
  {
    var u := Unsigned(s);
    var j := i - (|s| - |u|);
    assert u[j] == s[i];
    if AllDigits(u) {
      AllDigitsAt(u, j);
    }
  }
}
