/**
 The pieces of Python's string and integer built-ins the PCA301 engine relies
 on, written out so that their edge cases are part of the model:
 `str.strip()`, `str.split(sep)`, `sep.join(parts)`, `str.zfill(width)`,
 slicing, `str(n)` and `int(s, base)`.
 */
module PyText {
  import opened Wrappers

  /** The characters for which Python's `str.isspace()` holds. */
  predicate IsSpace(c: char) {
    var n := c as int;
    (9 <= n <= 13) || (28 <= n <= 32) || n == 0x85 || n == 0xA0 || n == 0x1680
    || (0x2000 <= n <= 0x200A) || n == 0x2028 || n == 0x2029 || n == 0x202F
    || n == 0x205F || n == 0x3000
  }

  /**
   The whitespace `int()` skips around a numeral. CPython turns every
   non-ASCII character `str.isspace()` accepts into a space, keeps ASCII
   characters as they are, and then skips only C whitespace (tab to carriage
   return, and space); the separators U+001C to U+001F, whitespace to
   `str.strip()`, are not skipped.
   */
  predicate IsIntSpace(c: char) {
    IsSpace(c) && !(28 <= c as int <= 31)
  }

  /** Which whitespace a strip removes: `str.strip()`'s or `int()`'s. */
  datatype Blanks = StrBlanks | IntBlanks

  predicate IsBlank(c: char, blanks: Blanks) {
    if blanks == StrBlanks then IsSpace(c) else IsIntSpace(c)
  }

  predicate NoSpace(s: string) {
    forall i :: 0 <= i < |s| ==> !IsSpace(s[i])
  }

  predicate AllBlank(s: string, blanks: Blanks) {
    forall i :: 0 <= i < |s| ==> IsBlank(s[i], blanks)
  }

  /** Drops the leading whitespace; `LStripExact` says what is left. */
  function LStrip(s: string, blanks: Blanks): (r: string)
    ensures |r| <= |s|
  {
    if |s| > 0 && IsBlank(s[0], blanks) then LStrip(s[1..], blanks) else s
  }

  /** Drops the trailing whitespace; `RStripExact` says what is left. */
  function RStrip(s: string, blanks: Blanks): (r: string)
    ensures |r| <= |s|
  {
    if |s| > 0 && IsBlank(s[|s| - 1], blanks) then RStrip(s[..|s| - 1], blanks) else s
  }

  /** Drops whitespace at both ends. */
  function Trim(s: string, blanks: Blanks): (r: string)
    ensures |r| <= |s|
  {
    RStrip(LStrip(s, blanks), blanks)
  }

  /** `s.strip()` with no argument. */
  function Strip(s: string): (r: string)
    ensures |r| <= |s|
  {
    Trim(s, StrBlanks)
  }

  /** The left strip removes exactly the leading whitespace: a suffix is left that does not start with a space. */
  lemma {:induction false} LStripExact(s: string, blanks: Blanks)
    ensures var r := LStrip(s, blanks);
      && r == s[|s| - |r|..]
      && (forall i :: 0 <= i < |s| - |r| ==> IsBlank(s[i], blanks))
      && (|r| > 0 ==> !IsBlank(r[0], blanks))
  {
    if |s| > 0 && IsBlank(s[0], blanks) {
      LStripExact(s[1..], blanks);
    }
  }

  /** The right strip removes exactly the trailing whitespace: a prefix is left that does not end with a space. */
  lemma {:induction false} RStripExact(s: string, blanks: Blanks)
    ensures var r := RStrip(s, blanks);
      && r == s[..|r|]
      && (forall i :: |r| <= i < |s| ==> IsBlank(s[i], blanks))
      && (|r| > 0 ==> !IsBlank(r[|r| - 1], blanks))
  {
    if |s| > 0 && IsBlank(s[|s| - 1], blanks) {
      RStripExact(s[..|s| - 1], blanks);
    }
  }

  /**
   Trimming leaves the piece `s[i..i + |r|]` between leading and trailing
   whitespace; the piece neither starts nor ends with a space.
   */
  lemma TrimExact(s: string, blanks: Blanks) returns (i: nat)
    ensures var r := Trim(s, blanks);
      && i + |r| <= |s| && r == s[i..i + |r|]
      && (forall k :: 0 <= k < i ==> IsBlank(s[k], blanks))
      && (forall k :: i + |r| <= k < |s| ==> IsBlank(s[k], blanks))
      && (|r| > 0 ==> !IsBlank(r[0], blanks) && !IsBlank(r[|r| - 1], blanks))
  {
    var l := LStrip(s, blanks);
    LStripExact(s, blanks);
    RStripExact(l, blanks);
    i := |s| - |l|;
    var r := Trim(s, blanks);
    assert r == l[..|r|];
    assert r == s[i..i + |r|];
    forall k | i + |r| <= k < |s| ensures IsBlank(s[k], blanks) {
      assert s[k] == l[k - i];
    }
    if |r| > 0 {
      assert r[0] == l[0];
    }
  }

  /** A string without whitespace is its own trim, for either kind of whitespace. */
  lemma TrimNoSpace(s: string, blanks: Blanks)
    requires NoSpace(s)
    ensures Trim(s, blanks) == s
  {
    if |s| > 0 {
      assert !IsSpace(s[0]) && !IsSpace(s[|s| - 1]);
      assert LStrip(s, blanks) == s;
    }
  }

  /** Position of the first occurrence of `c` in `s`. */
  function IndexOf(s: string, c: char): (i: nat)
    requires c in s
    ensures i < |s| && s[i] == c && c !in s[..i]
    ensures forall j :: 0 <= j < i ==> s[j] != c
  {
    if s[0] == c then 0
    else
      assert c in s[1..];
      var j := IndexOf(s[1..], c);
      assert s[..j + 1] == [s[0]] + s[1..][..j];
      j + 1
  }

  /** The first separator of `s` is at `k` when `s[k]` is one and none precedes it. */
  lemma IndexOfFirst(s: string, c: char, k: nat)
    requires k < |s| && s[k] == c
    requires forall j :: 0 <= j < k ==> s[j] != c
    ensures IndexOf(s, c) == k
  {
  }

  /** `sep.join(parts)` for a one-character separator. */
  function Join(parts: seq<string>, sep: char): string
  {
    if |parts| == 0 then ""
    else if |parts| == 1 then parts[0]
    else parts[0] + [sep] + Join(parts[1..], sep)
  }

  /** Joining the parts from `k` on: the part at `k`, then a separator and the rest joined when there is a rest. */
  lemma JoinSuffix(parts: seq<string>, sep: char, k: nat)
    requires k < |parts|
    ensures Join(parts[k..], sep)
         == if k + 1 == |parts| then parts[k] else parts[k] + [sep] + Join(parts[k + 1..], sep)
  {
    assert parts[k..][1..] == parts[k + 1..];
  }

  /** Joining splits at any inner position: the parts before it joined, a separator, the parts after it joined. */
  lemma {:induction false} JoinSplit(parts: seq<string>, sep: char, k: nat)
    requires 0 < k < |parts|
    ensures Join(parts, sep) == Join(parts[..k], sep) + [sep] + Join(parts[k..], sep)
    decreases k
  {
    if k > 1 {
      JoinSplit(parts[1..], sep, k - 1);
      assert parts[1..][..k - 1] == parts[..k][1..];
      assert parts[1..][k - 1..] == parts[k..];
    }
  }

  /**
   `s.split(sep)` for a one-character separator: cut at every separator, so
   that two separators in a row give an empty part and the result is never
   empty. Joining the parts back gives `s`.
   */
  function Split(s: string, sep: char): (r: seq<string>)
    ensures |r| > 0
    ensures forall i :: 0 <= i < |r| ==> sep !in r[i]
    ensures Join(r, sep) == s
    decreases |s|
  {
    if sep !in s then [s]
    else
      var i := IndexOf(s, sep);
      var rest := Split(s[i + 1..], sep);
      var r := [s[..i]] + rest;
      assert r[1..] == rest;
      assert s == s[..i] + [sep] + s[i + 1..];
      r
  }

  /** Splitting a join of separator-free parts gives the parts back. */
  lemma {:induction false} SplitOfJoin(parts: seq<string>, sep: char)
    requires |parts| > 0
    requires forall i :: 0 <= i < |parts| ==> sep !in parts[i]
    ensures Split(Join(parts, sep), sep) == parts
  {
    if |parts| > 1 {
      var head := parts[0];
      var rest := Join(parts[1..], sep);
      var s := Join(parts, sep);
      assert s == head + [sep] + rest;
      assert sep !in parts[0];
      SplitCons(head, sep, rest);
      SplitOfJoin(parts[1..], sep);
    }
  }

  /** Splitting `w + [sep] + rest`, where `w` has no separator, peels `w` off. */
  lemma SplitCons(w: string, sep: char, rest: string)
    requires sep !in w
    ensures Split(w + [sep] + rest, sep) == [w] + Split(rest, sep)
  {
    var s := w + [sep] + rest;
    assert s[|w|] == sep;
    forall j | 0 <= j < |w|
      ensures s[j] != sep
    {
      assert s[j] == w[j];
    }
    IndexOfFirst(s, sep, |w|);
    assert s[..|w|] == w;
    assert s[|w| + 1..] == rest;
  }

  /** A string of `n` ASCII zeros. */
  function Zeros(n: nat): (r: string)
    ensures |r| == n
    ensures forall i :: 0 <= i < n ==> r[i] == '0'
  {
    seq(n, _ => '0')
  }

  /**
   `s.zfill(width)`: left-pads with ASCII zeros to `width`, placing the zeros
   after a leading `+` or `-` sign; a string already `width` long is returned
   unchanged.
   */
  function ZFill(s: string, width: nat): (r: string)
    ensures |r| == if |s| < width then width else |s|
    ensures |s| >= width ==> r == s
    ensures |s| < width && |s| > 0 && (s[0] == '+' || s[0] == '-') ==>
              r[0] == s[0] && r[width - |s| + 1..] == s[1..]
    ensures |s| < width && !(|s| > 0 && (s[0] == '+' || s[0] == '-')) ==>
              r[width - |s|..] == s
  {
    if |s| >= width then s
    else if |s| > 0 && (s[0] == '+' || s[0] == '-') then [s[0]] + Zeros(width - |s|) + s[1..]
    else Zeros(width - |s|) + s
  }

  /** Python's `s[i:j]` for non-negative bounds: out-of-range bounds are clamped. */
  function Slice(s: string, i: nat, j: nat): (r: string)
    ensures j <= |s| && i <= j ==> r == s[i..j]
    ensures |r| <= |s|
  {
    var a := if i < |s| then i else |s|;
    var b := if j < |s| then j else |s|;
    if a <= b then s[a..b] else ""
  }

  // ----- digits -----------------------------------------------------------

  datatype Radix = Decimal | Hex {
    function Base(): nat {
      if Decimal? then 10 else 16
    }
  }

  predicate IsDigit(c: char) {
    '0' <= c <= '9'
  }

  predicate IsDigitOf(c: char, radix: Radix) {
    IsDigit(c) || (radix == Hex && ('a' <= c <= 'f' || 'A' <= c <= 'F'))
  }

  predicate AllDigits(s: string) {
    forall i :: 0 <= i < |s| ==> IsDigit(s[i])
  }

  function DigitValue(c: char): nat {
    if IsDigit(c) then c as int - '0' as int
    else if 'a' <= c <= 'f' then c as int - 'a' as int + 10
    else if 'A' <= c <= 'F' then c as int - 'A' as int + 10
    else 0
  }

  function DigitChar(d: nat): (c: char)
    requires d < 10
    ensures IsDigit(c) && DigitValue(c) == d
  {
    ('0' as int + d) as char
  }

  /**
   A digit run as Python's `int()` accepts it: non-empty, made of digits of
   the radix, with single underscores allowed between two digits.
   */
  predicate Grouped(s: string, radix: Radix) {
    && |s| > 0
    && (forall i :: 0 <= i < |s| ==> IsDigitOf(s[i], radix) || (s[i] == '_' && 0 < i < |s| - 1))
    && (forall i, j :: 0 <= i < |s| && 0 <= j < |s| && j == i + 1 ==> !(s[i] == '_' && s[j] == '_'))
  }

  /** The value of a digit run in the radix, underscores skipped. */
  function ValueOf(s: string, radix: Radix): nat
  {
    if |s| == 0 then 0
    else if s[|s| - 1] == '_' then ValueOf(s[..|s| - 1], radix)
    else ValueOf(s[..|s| - 1], radix) * radix.Base() + DigitValue(s[|s| - 1])
  }

  /** The text after an optional leading `+` or `-`. */
  function Unsigned(t: string): (r: string)
    ensures |r| <= |t|
  {
    if |t| > 0 && (t[0] == '+' || t[0] == '-') then t[1..] else t
  }

  /**
   The digit run of an unsigned numeral: for base 16 an optional `0x`/`0X`
   prefix is dropped, together with one underscore that may follow it.
   */
  function DigitsOf(body: string, radix: Radix): (r: string)
    ensures radix == Decimal ==> r == body
  {
    if radix == Hex && |body| >= 2 && body[0] == '0' && (body[1] == 'x' || body[1] == 'X') then
      var rest := body[2..];
      if |rest| > 0 && rest[0] == '_' then rest[1..] else rest
    else body
  }

  /**
   Python's `int(s, base)` for base 10 and base 16, as a partial function:
   surrounding whitespace (as `int()` counts it) is ignored, then one optional sign, the optional
   base-16 prefix and a grouped digit run. `None` stands for the
   `ValueError` Python raises.
   */
  function ParseInt(s: string, radix: Radix): (r: Option<int>)
  {
    var t := Trim(s, IntBlanks);
    var digits := DigitsOf(Unsigned(t), radix);
    if Grouped(digits, radix) then
      var v: int := ValueOf(digits, radix);
      Some(if |t| > 0 && t[0] == '-' then -v else v)
    else None
  }

  /** `str(n)` for a natural number: decimal digits without leading zeros. */
  function NatToString(n: nat): (r: string)
    ensures |r| > 0 && AllDigits(r)
    ensures r[0] == '0' ==> n == 0
    ensures ValueOf(r, Decimal) == n
  {
    if n < 10 then [DigitChar(n)]
    else
      var r := NatToString(n / 10) + [DigitChar(n % 10)];
      assert r[..|r| - 1] == NatToString(n / 10);
      r
  }

  /** `str(n)` for any integer. */
  function IntToString(n: int): (r: string)
    ensures |r| > 0 && ',' !in r && '\n' !in r
  {
    if n < 0 then "-" + NatToString(-n) else NatToString(n)
  }

  // ----- lemmas -----------------------------------------------------------

  /** A run of ASCII digits is a grouped decimal digit run without whitespace. */
  lemma DigitsAreGrouped(s: string)
    requires |s| > 0 && AllDigits(s)
    ensures Grouped(s, Decimal) && NoSpace(s)
  {
    forall i | 0 <= i < |s|
      ensures IsDigitOf(s[i], Decimal) && !IsSpace(s[i])
    {
      assert IsDigit(s[i]);
    }
  }

  /** `int()` of a non-empty run of ASCII digits is that run's value. */
  lemma ParseDigits(s: string)
    requires |s| > 0 && AllDigits(s)
    ensures ParseInt(s, Decimal) == Some(ValueOf(s, Decimal))
  {
    DigitsAreGrouped(s);
    TrimNoSpace(s, IntBlanks);
    assert IsDigit(s[0]);
    assert Unsigned(s) == s;
  }

  /** `int()` of a minus sign followed by a non-empty run of ASCII digits is minus the run's value. */
  lemma ParseNegative(digits: string)
    requires |digits| > 0 && AllDigits(digits)
    ensures ParseInt("-" + digits, Decimal) == Some(0 - ValueOf(digits, Decimal))
  {
    SignedDigits(digits);
    DigitsAreGrouped(digits);
    ParseIntParts("-" + digits, Decimal, "-" + digits, digits);
  }

  /** `int()` succeeds once its trimmed text, unsigned and unprefixed, is a grouped digit run. */
  lemma ParseIntParts(s: string, radix: Radix, t: string, digits: string)
    requires Trim(s, IntBlanks) == t && DigitsOf(Unsigned(t), radix) == digits && Grouped(digits, radix)
    ensures ParseInt(s, radix) == Some(if |t| > 0 && t[0] == '-' then 0 - ValueOf(digits, radix) else ValueOf(digits, radix))
  {
  }

  /** A minus sign before ASCII digits: no whitespace to skip, and the digits once the sign is read. */
  lemma SignedDigits(digits: string)
    requires AllDigits(digits)
    ensures Trim("-" + digits, IntBlanks) == "-" + digits
    ensures Unsigned("-" + digits) == digits && DigitsOf(digits, Decimal) == digits
  {
    var s := "-" + digits;
    forall i | 0 <= i < |s|
      ensures !IsSpace(s[i])
    {
      if i > 0 {
        assert s[i] == digits[i - 1];
      }
    }
    TrimNoSpace(s, IntBlanks);
    assert s[1..] == digits;
  }

  /** `int(str(n)) == n` for every integer `n`. */
  lemma ParseIntToString(n: int)
    ensures ParseInt(IntToString(n), Decimal) == Some(n)
  {
    if n >= 0 {
      ParseDigits(NatToString(n));
    } else {
      ParseNegative(NatToString(-n));
    }
  }

  /** A character of `s` that none of its first `n` characters equals is in `s[n..]`. */
  lemma InTail(s: string, c: char, n: nat)
    requires c in s && n <= |s|
    requires forall j :: 0 <= j < n ==> s[j] != c
    ensures c in s[n..]
  {
    var j :| 0 <= j < |s| && s[j] == c;
    assert s[n..][j - n] == c;
  }

  /**
   `int()` raises on any text containing one of the separators U+001C to
   U+001F, wherever it stands: it neither skips them as whitespace nor
   reads them as a sign, prefix, digit or underscore.
   */
  lemma ParseIntSeparator(s: string, radix: Radix, k: nat)
    requires k < |s| && 28 <= s[k] as int <= 31
    ensures ParseInt(s, radix) == None
  {
    var c := s[k];
    var i := TrimExact(s, IntBlanks);
    var t := Trim(s, IntBlanks);
    assert !IsBlank(c, IntBlanks);
    assert i <= k < i + |t|;
    assert t[k - i] == c;
    var u := Unsigned(t);
    if |t| > 0 && (t[0] == '+' || t[0] == '-') {
      InTail(t, c, 1);
    }
    assert c in u;
    var d := DigitsOf(u, radix);
    if radix == Hex && |u| >= 2 && u[0] == '0' && (u[1] == 'x' || u[1] == 'X') {
      InTail(u, c, 2);
      if |u[2..]| > 0 && u[2..][0] == '_' {
        InTail(u[2..], c, 1);
      }
    }
    assert c in d;
    var j :| 0 <= j < |d| && d[j] == c;
    assert !IsDigitOf(d[j], radix) && d[j] != '_';
  }

  /** Whitespace in front of a text does not change its left strip. */
  lemma {:induction false} LStripBlankPrefix(pre: string, x: string, blanks: Blanks)
    requires AllBlank(pre, blanks)
    ensures LStrip(pre + x, blanks) == LStrip(x, blanks)
  {
    if |pre| > 0 {
      assert (pre + x)[0] == pre[0];
      assert (pre + x)[1..] == pre[1..] + x;
      LStripBlankPrefix(pre[1..], x, blanks);
    } else {
      assert pre + x == x;
    }
  }

  /** Whitespace after a text does not change its right strip. */
  lemma {:induction false} RStripBlankSuffix(y: string, post: string, blanks: Blanks)
    requires AllBlank(post, blanks)
    ensures RStrip(y + post, blanks) == RStrip(y, blanks)
  {
    if |post| > 0 {
      var s := y + post;
      assert s[|s| - 1] == post[|post| - 1];
      assert s[..|s| - 1] == y + post[..|post| - 1];
      RStripBlankSuffix(y, post[..|post| - 1], blanks);
    } else {
      assert y + post == y;
    }
  }

  /** The left strip of `x + post`, for whitespace `post`: all of it when `x` is blank, else `x`'s left strip and then `post`. */
  lemma {:induction false} LStripAppend(x: string, post: string, blanks: Blanks)
    requires AllBlank(post, blanks)
    ensures LStrip(x + post, blanks) == if LStrip(x, blanks) == "" then "" else LStrip(x, blanks) + post
  {
    if |x| == 0 {
      assert x + post == post && post + "" == post;
      LStripBlankPrefix(post, "", blanks);
    } else if IsBlank(x[0], blanks) {
      assert (x + post)[0] == x[0];
      assert (x + post)[1..] == x[1..] + post;
      LStripAppend(x[1..], post, blanks);
    } else {
      assert (x + post)[0] == x[0];
    }
  }

  /** Whitespace around a text does not change its trim. */
  lemma TrimPadded(pre: string, s: string, post: string, blanks: Blanks)
    requires AllBlank(pre, blanks) && AllBlank(post, blanks)
    ensures Trim(pre + s + post, blanks) == Trim(s, blanks)
  {
    assert pre + s + post == pre + (s + post);
    LStripBlankPrefix(pre, s + post, blanks);
    LStripAppend(s, post, blanks);
    if LStrip(s, blanks) != "" {
      RStripBlankSuffix(LStrip(s, blanks), post, blanks);
    }
  }

  /**
   `int()` ignores the whitespace it skips around a numeral, such as the
   line ending the refresher's last token still carries.
   */
  lemma ParseIntPadded(pre: string, s: string, post: string, radix: Radix)
    requires AllBlank(pre, IntBlanks) && AllBlank(post, IntBlanks)
    ensures ParseInt(pre + s + post, radix) == ParseInt(s, radix)
  {
    TrimPadded(pre, s, post, IntBlanks);
  }

  /**
   `str.strip()` and `int()` disagree on the file separator U+001C: the
   strip removes it, while `int()` raises on it.
   */
  lemma SeparatorExample(s: string)
    requires s == [28 as char, '1']
    ensures Strip(s) == "1"
    ensures ParseInt(s, Decimal) == None
  {
    assert IsBlank(s[0], StrBlanks) && s[1..] == "1";
    assert !IsBlank('1', StrBlanks);
    assert LStrip(s, StrBlanks) == "1";
    ParseIntSeparator(s, Decimal, 0);
  }

  /** Leading zeros do not change the value of a digit run. */
  lemma {:induction false} ValueOfZeros(k: nat, s: string, radix: Radix)
    ensures ValueOf(Zeros(k) + s, radix) == ValueOf(s, radix)
    decreases |s|, k
  {
    if |s| == 0 {
      assert Zeros(k) + s == Zeros(k);
      if k > 0 {
        assert Zeros(k)[..k - 1] == Zeros(k - 1);
        ValueOfZeros(k - 1, "", radix);
        assert Zeros(k - 1) + "" == Zeros(k - 1);
      }
    } else {
      var z := Zeros(k) + s;
      assert z[..|z| - 1] == Zeros(k) + s[..|s| - 1];
      assert z[|z| - 1] == s[|s| - 1];
      ValueOfZeros(k, s[..|s| - 1], radix);
    }
  }

  /** The value of a three-character digit run, written out positionally. */
  lemma ValueOfThree(s: string)
    requires |s| == 3 && AllDigits(s)
    ensures ValueOf(s, Decimal) == DigitValue(s[0]) * 100 + DigitValue(s[1]) * 10 + DigitValue(s[2])
  {
    assert IsDigit(s[0]) && IsDigit(s[1]) && IsDigit(s[2]);
    assert s[..2][..1] == s[..1];
    assert s[..2][1] == s[1];
    assert s[..1][..0] == "";
    assert ValueOf(s[..1], Decimal) == DigitValue(s[0]);
    assert ValueOf(s[..2], Decimal) == DigitValue(s[0]) * 10 + DigitValue(s[1]);
  }

  lemma DigitRoundTrip(c: char)
    requires IsDigit(c)
    ensures DigitChar(DigitValue(c)) == c
  {
  }

  /** `str(v).zfill(3)` spells out the hundreds, tens and units of `v < 1000`. */
  lemma PaddedDigits(v: nat)
    requires v < 1000
    ensures ZFill(NatToString(v), 3) == [DigitChar(v / 100), DigitChar(v / 10 % 10), DigitChar(v % 10)]
  {
    if v < 10 {
      assert NatToString(v) == [DigitChar(v)];
      assert ZFill([DigitChar(v)], 3) == Zeros(2) + [DigitChar(v)];
    } else if v < 100 {
      PaddedTwoDigits(v);
    } else {
      PaddedThreeDigits(v);
    }
  }

  lemma PaddedTwoDigits(v: nat)
    requires 10 <= v < 100
    ensures ZFill(NatToString(v), 3) == [DigitChar(0), DigitChar(v / 10), DigitChar(v % 10)]
  {
    assert NatToString(v / 10) == [DigitChar(v / 10)];
    assert NatToString(v) == [DigitChar(v / 10), DigitChar(v % 10)];
    assert ZFill([DigitChar(v / 10), DigitChar(v % 10)], 3) == Zeros(1) + [DigitChar(v / 10), DigitChar(v % 10)];
  }

  lemma PaddedThreeDigits(v: nat)
    requires 100 <= v < 1000
    ensures ZFill(NatToString(v), 3) == [DigitChar(v / 100), DigitChar(v / 10 % 10), DigitChar(v % 10)]
  {
    assert (v / 10) / 10 == v / 100;
    PaddedTwoDigits(v / 10);
    assert NatToString(v / 10) == [DigitChar(v / 100), DigitChar(v / 10 % 10)];
    assert NatToString(v) == [DigitChar(v / 100), DigitChar(v / 10 % 10), DigitChar(v % 10)];
  }

  lemma SplitDecimal(a: nat, b: nat, c: nat)
    requires a < 10 && b < 10 && c < 10
    ensures var v := a * 100 + b * 10 + c;
      v < 1000 && v / 100 == a && v / 10 % 10 == b && v % 10 == c
  {
    var v := a * 100 + b * 10 + c;
    assert v == (a * 10 + b) * 10 + c;
    assert v / 10 == a * 10 + b;
    assert v % 10 == c;
    assert (a * 10 + b) % 10 == b;
    assert v == a * 100 + (b * 10 + c);
  }

  /**
   A three-digit group round-trips through `int()`, `str()` and
   `zfill(3)`: `str(int(s)).zfill(3) == s`.
   */
  lemma ThreeDigitsRoundTrip(s: string)
    requires |s| == 3 && AllDigits(s)
    ensures ValueOf(s, Decimal) < 1000
    ensures ZFill(NatToString(ValueOf(s, Decimal)), 3) == s
  {
    ValueOfThree(s);
    ThreeDigitsSpell(s);
    PaddedOfDigits(DigitValue(s[0]), DigitValue(s[1]), DigitValue(s[2]));
  }

  lemma ThreeDigitsSpell(s: string)
    requires |s| == 3 && AllDigits(s)
    ensures DigitValue(s[0]) < 10 && DigitValue(s[1]) < 10 && DigitValue(s[2]) < 10
    ensures s == [DigitChar(DigitValue(s[0])), DigitChar(DigitValue(s[1])), DigitChar(DigitValue(s[2]))]
  {
    assert IsDigit(s[0]) && IsDigit(s[1]) && IsDigit(s[2]);
    DigitRoundTrip(s[0]);
    DigitRoundTrip(s[1]);
    DigitRoundTrip(s[2]);
  }

  /** The number with digits `a`, `b`, `c`, printed and padded to width 3, spells them back. */
  lemma PaddedOfDigits(a: nat, b: nat, c: nat)
    requires a < 10 && b < 10 && c < 10
    ensures a * 100 + b * 10 + c < 1000
    ensures ZFill(NatToString(a * 100 + b * 10 + c), 3) == [DigitChar(a), DigitChar(b), DigitChar(c)]
  {
    SplitDecimal(a, b, c);
    PaddedDigits(a * 100 + b * 10 + c);
  }

  /**
   Zero-padding a group of one to three digits to width 3 keeps its value and
   gives three digits.
   */
  lemma ZFillDigits(s: string)
    requires 1 <= |s| <= 3 && AllDigits(s)
    ensures |ZFill(s, 3)| == 3 && AllDigits(ZFill(s, 3))
    ensures ValueOf(ZFill(s, 3), Decimal) == ValueOf(s, Decimal)
  {
    if |s| < 3 {
      assert ZFill(s, 3) == Zeros(3 - |s|) + s;
      ValueOfZeros(3 - |s|, s, Decimal);
    }
  }
}
