/**
 * String helpers the controllers rely on (JavaScript's `trim`, `toLowerCase`,
 * `split`, `join`, `parseInt` and number formatting), on `seq<char>`.
 * Whitespace is an explicit character set and case folding covers ASCII and
 * Latin-1 letters only.
 */
module Text {
  import opened Common

  /** The characters `trim` removes and `\s` matches (approximated). */
  predicate IsSpace(c: char)
  {
    c == ' ' || c == '\t' || c == '\n' || c == '\r' || c == '\U{B}' || c == '\U{C}'
    || c == '\U{A0}' || c == '\U{FEFF}'
  }

  predicate IsDigit(c: char)
  {
    '0' <= c <= '9'
  }

  predicate IsAsciiLetter(c: char)
  {
    'a' <= c <= 'z' || 'A' <= c <= 'Z'
  }

  predicate AllSpace(s: string)
  {
    forall i :: 0 <= i < |s| ==> IsSpace(s[i])
  }

  predicate AllDigits(s: string)
  {
    forall i :: 0 <= i < |s| ==> IsDigit(s[i])
  }

  // ---------------------------------------------------------------- trimming

  function TrimStart(s: string): (r: string)
    ensures |r| <= |s| && r == s[|s| - |r|..]
    ensures AllSpace(s[..|s| - |r|])
    ensures r == [] || !IsSpace(r[0])
  {
    if s == [] || !IsSpace(s[0]) then s
    else
      var t := TrimStart(s[1..]);
      assert s[1..][..|s| - 1 - |t|] == s[1..|s| - |t|];
      t
  }

  function TrimEnd(s: string): (r: string)
    ensures |r| <= |s| && r == s[..|r|]
    ensures AllSpace(s[|r|..])
    ensures r == [] || !IsSpace(r[|r| - 1])
  {
    if s == [] || !IsSpace(s[|s| - 1]) then s
    else
      var t := TrimEnd(s[..|s| - 1]);
      assert s[..|s| - 1][|t|..] == s[|t|..|s| - 1];
      t
  }

  /** JavaScript `String.prototype.trim`. */
  function Trim(s: string): (r: string)
  {
    TrimEnd(TrimStart(s))
  }

  /** `s.trim()` is falsy exactly when `s` holds only whitespace. */
  lemma TrimEmptyIffAllSpace(s: string)
    ensures Trim(s) == [] <==> AllSpace(s)
  {
    var a := TrimStart(s);
    if Trim(s) == [] {
      assert s == s[..|s| - |a|] + a;
      assert AllSpace(a[0..]);
    }
  }

  /** A string without surrounding whitespace is its own trim. */
  lemma TrimNoSurroundingSpace(s: string)
    requires s == [] || (!IsSpace(s[0]) && !IsSpace(s[|s| - 1]))
    ensures Trim(s) == s
  {
  }

  /** Trimming twice changes nothing. */
  lemma {:induction false} TrimIdempotent(s: string)
    ensures Trim(Trim(s)) == Trim(s)
  {
    var t := Trim(s);
    if t != [] {
      var a := TrimStart(s);
      assert t == a[..|t|];
      assert t[0] == a[0];
      TrimNoSurroundingSpace(t);
    }
  }

  // ------------------------------------------------------------ case folding

  /** JavaScript `toLowerCase` on ASCII and Latin-1 capitals. */
  function LowerChar(c: char): (d: char)
  {
    if 'A' <= c <= 'Z' || ('À' <= c <= 'Þ' && c != '×')
    then (c as int + 32) as char
    else c
  }

  function ToLower(s: string): (r: string)
    ensures |r| == |s|
    ensures forall i :: 0 <= i < |s| ==> r[i] == LowerChar(s[i])
  {
    seq(|s|, i requires 0 <= i < |s| => LowerChar(s[i]))
  }

  /** Lower-casing is idempotent. */
  lemma ToLowerIdempotent(s: string)
    ensures ToLower(ToLower(s)) == ToLower(s)
  {
  }

  // ----------------------------------------------------- substring matching

  predicate StartsWith(s: string, prefix: string)
  {
    |prefix| <= |s| && s[..|prefix|] == prefix
  }

  /** `needle` occurs in `hay` starting at index `i`. */
  predicate OccursAt(hay: string, needle: string, i: int)
  {
    0 <= i <= |hay| - |needle| && hay[i..i + |needle|] == needle
  }

  /** `needle` occurs somewhere in `hay` (a substring test). */
  predicate Contains(hay: string, needle: string)
  {
    exists i :: 0 <= i <= |hay| - |needle| && OccursAt(hay, needle, i)
  }

  // --------------------------------------------------------- split and join

  /** JavaScript `s.split(sep)` for a one-character separator. */
  function Split(s: string, sep: char): (parts: seq<string>)
    ensures |parts| >= 1
    ensures forall k :: 0 <= k < |parts| ==> sep !in parts[k]
    decreases |s|
  {
    if s == [] then [[]]
    else
      var rest := Split(s[1..], sep);
      if s[0] == sep then [[]] + rest
      else [[s[0]] + rest[0]] + rest[1..]
  }

  /** JavaScript `parts.join(sep)`. */
  function Join(parts: seq<string>, sep: string): (s: string)
    decreases |parts|
  {
    if parts == [] then []
    else if |parts| == 1 then parts[0]
    else parts[0] + sep + Join(parts[1..], sep)
  }

  /** Splitting and joining back with the same separator gives the input. */
  lemma {:induction false} JoinSplit(s: string, sep: char)
    ensures Join(Split(s, sep), [sep]) == s
    decreases |s|
  {
    if s != [] {
      var rest := Split(s[1..], sep);
      JoinSplit(s[1..], sep);
      if s[0] == sep {
        assert Split(s, sep) == [[]] + rest;
        assert Join([[]] + rest, [sep]) == [] + [sep] + Join(rest, [sep]);
      } else {
        var parts := [[s[0]] + rest[0]] + rest[1..];
        assert Split(s, sep) == parts;
        if |rest| == 1 {
          assert Join(rest, [sep]) == rest[0];
        } else {
          assert rest == [rest[0]] + rest[1..];
          assert Join(rest, [sep]) == rest[0] + [sep] + Join(rest[1..], [sep]);
          assert parts[1..] == rest[1..];
        }
      }
    }
  }

  /** Without a separator there is one piece, the whole string. */
  lemma {:induction false} SplitNoSep(s: string, sep: char)
    requires sep !in s
    ensures Split(s, sep) == [s]
    decreases |s|
  {
    if s != [] {
      assert sep !in s[1..] by {
        forall k | 0 <= k < |s| - 1 ensures s[1..][k] != sep {
          assert s[1..][k] == s[k + 1];
        }
      }
      SplitNoSep(s[1..], sep);
      assert [s[0]] + s[1..] == s;
    }
  }

  /** With exactly one separator there are two pieces, before and after it. */
  lemma {:induction false} SplitAtOnly(s: string, sep: char, i: int)
    requires 0 <= i < |s| && s[i] == sep && sep !in s[..i] && sep !in s[i + 1..]
    ensures Split(s, sep) == [s[..i], s[i + 1..]]
    decreases i
  {
    if i == 0 {
      assert s[1..] == s[i + 1..];
      SplitNoSep(s[1..], sep);
    } else {
      assert s[1..][..i - 1] == s[1..i];
      assert s[1..][i - 1 + 1..] == s[i + 1..];
      var head := s[..i];
      assert sep !in s[1..i] by {
        forall k | 0 <= k < i - 1 ensures s[1..i][k] != sep {
          assert s[1..i][k] == head[k + 1];
        }
      }
      SplitAtOnly(s[1..], sep, i - 1);
      assert s[..i] == [s[0]] + s[1..i];
    }
  }

  /** A piece without the separator, then the separator: the piece comes off the front of the split. */
  lemma {:induction false} SplitAfterPiece(p: string, sep: char, r: string)
    requires sep !in p
    ensures Split(p + [sep] + r, sep) == [p] + Split(r, sep)
    decreases |p|
  {
    var s := p + [sep] + r;
    if p == [] {
      assert s[1..] == r;
    } else {
      assert sep !in p[1..] by {
        forall k | 0 <= k < |p| - 1 ensures p[1..][k] != sep {
          assert p[1..][k] == p[k + 1];
        }
      }
      assert s[1..] == p[1..] + [sep] + r;
      SplitAfterPiece(p[1..], sep, r);
      assert [p[0]] + p[1..] == p;
    }
  }

  /** Joining pieces that do not contain the separator and splitting again gives the pieces back. */
  lemma {:induction false} SplitJoin(parts: seq<string>, sep: char)
    requires parts != []
    requires forall k :: 0 <= k < |parts| ==> sep !in parts[k]
    ensures Split(Join(parts, [sep]), sep) == parts
    decreases |parts|
  {
    if |parts| == 1 {
      SplitNoSep(parts[0], sep);
    } else {
      SplitJoin(parts[1..], sep);
      SplitAfterPiece(parts[0], sep, Join(parts[1..], [sep]));
      assert [parts[0]] + parts[1..] == parts;
    }
  }

  /** The number of pieces is one more than the number of separators. */
  function Count(s: string, c: char): nat
  {
    if s == [] then 0 else (if s[0] == c then 1 else 0) + Count(s[1..], c)
  }

  lemma {:induction false} SplitCount(s: string, sep: char)
    ensures |Split(s, sep)| == Count(s, sep) + 1
    decreases |s|
  {
    if s != [] {
      SplitCount(s[1..], sep);
    }
  }

  // ------------------------------------------------------ decimal numerals

  function DigitValue(c: char): int
  {
    c as int - '0' as int
  }

  /** The value of a string of decimal digits, most significant first. */
  function DigitsValue(ds: string): (n: nat)
    requires AllDigits(ds)
  {
    if ds == [] then 0
    else DigitsValue(ds[..|ds| - 1]) * 10 + DigitValue(ds[|ds| - 1])
  }

  /** Length of the longest prefix of decimal digits. */
  function DigitPrefixLength(s: string): (k: nat)
    ensures k <= |s| && AllDigits(s[..k])
    ensures k == |s| || !IsDigit(s[k])
  {
    if s == [] || !IsDigit(s[0]) then 0
    else
      var k := DigitPrefixLength(s[1..]);
      assert s[..1 + k] == [s[0]] + s[1..][..k];
      1 + k
  }

  /**
   * JavaScript `parseInt(s, 10)`: leading whitespace skipped, an optional
   * sign, then the longest run of digits; `None` stands for NaN.
   */
  function ParseInt(s: string): (r: Option<int>)
  {
    var t := TrimStart(s);
    var neg := t != [] && t[0] == '-';
    var body := if t != [] && (t[0] == '-' || t[0] == '+') then t[1..] else t;
    var k := DigitPrefixLength(body);
    if k == 0 then None
    else
      var v: int := DigitsValue(body[..k]);
      Some(if neg then -v else v)
  }

  // ------------------------------------------------ parseInt without a radix

  predicate IsHexDigit(c: char)
  {
    IsDigit(c) || 'a' <= c <= 'f' || 'A' <= c <= 'F'
  }

  predicate AllHexDigits(s: string)
  {
    forall i :: 0 <= i < |s| ==> IsHexDigit(s[i])
  }

  function HexDigitValue(c: char): (v: int)
    requires IsHexDigit(c)
    ensures 0 <= v < 16
  {
    if IsDigit(c) then c as int - '0' as int
    else if 'a' <= c <= 'f' then c as int - 'a' as int + 10
    else c as int - 'A' as int + 10
  }

  /** The value of a string of hexadecimal digits, most significant first. */
  function HexValue(ds: string): (n: nat)
    requires AllHexDigits(ds)
  {
    if ds == [] then 0
    else HexValue(ds[..|ds| - 1]) * 16 + HexDigitValue(ds[|ds| - 1])
  }

  /** Length of the longest prefix of hexadecimal digits. */
  function HexPrefixLength(s: string): (k: nat)
    ensures k <= |s| && AllHexDigits(s[..k])
    ensures k == |s| || !IsHexDigit(s[k])
  {
    if s == [] || !IsHexDigit(s[0]) then 0
    else
      var k := HexPrefixLength(s[1..]);
      assert s[..1 + k] == [s[0]] + s[1..][..k];
      1 + k
  }

  /** The text after leading whitespace and one optional sign. */
  function Unsigned(s: string): string
  {
    var t := TrimStart(s);
    if t != [] && (t[0] == '-' || t[0] == '+') then t[1..] else t
  }

  /** The first character after leading whitespace is a minus sign. */
  predicate Negative(s: string)
  {
    var t := TrimStart(s);
    t != [] && t[0] == '-'
  }

  /** Starts with `0x` or `0X`. */
  predicate HexPrefixed(s: string)
  {
    |s| >= 2 && s[0] == '0' && (s[1] == 'x' || s[1] == 'X')
  }

  /**
   * JavaScript `parseInt(s)` with no radix: as `parseInt(s, 10)`, except
   * that a `0x` or `0X` after the sign switches to base 16, and then at
   * least one hexadecimal digit must follow.
   */
  function ParseIntAuto(s: string): (r: Option<int>)
    ensures !HexPrefixed(Unsigned(s)) ==> r == ParseInt(s)
    ensures HexPrefixed(Unsigned(s)) ==> (r.Some? <==> |Unsigned(s)| > 2 && IsHexDigit(Unsigned(s)[2]))
  {
    var body := Unsigned(s);
    if !HexPrefixed(body) then ParseInt(s)
    else
      var digits := body[2..];
      var k := HexPrefixLength(digits);
      if k == 0 then None
      else
        var v: int := HexValue(digits[..k]);
        Some(if Negative(s) then -v else v)
  }

  /** A decimal numeral never starts with `0x`, so both readings agree on it. */
  lemma ParseIntAutoIntToString(i: int)
    ensures ParseIntAuto(IntToString(i)) == Some(i)
  {
    var s := IntToString(i);
    var n := NatToString(if i < 0 then -i else i);
    assert TrimStart(s) == s by {
      assert !IsSpace(s[0]);
    }
    assert Unsigned(s) == n by {
      if i < 0 {
        assert s[1..] == n;
      }
    }
    assert !HexPrefixed(n);
    ParseIntIntToString(i);
  }

  /** Text that starts with neither whitespace nor a sign is its own unsigned part. */
  lemma UnsignedOfPlain(s: string)
    requires s != [] && !IsSpace(s[0]) && s[0] != '-' && s[0] != '+'
    ensures TrimStart(s) == s && Unsigned(s) == s && !Negative(s)
  {
  }

  /** Under radix 10, a `0` followed by a non-digit reads as 0. */
  lemma LeadingZeroReadsZero(s: string)
    requires |s| >= 2 && s[0] == '0' && !IsDigit(s[1])
    ensures ParseInt(s) == Some(0)
  {
    UnsignedOfPlain(s);
    assert DigitPrefixLength(s[1..]) == 0;
    assert s[..1] == "0";
    assert DigitsValue("0") == 0 by {
      assert "0"[..0] == [];
    }
  }

  /** `parseInt("0x1A")` is 26 where `parseInt("0x1A", 10)` is 0. */
  lemma HexReadsDifferently()
    ensures ParseIntAuto("0x1A") == Some(26)
    ensures ParseInt("0x1A") == Some(0)
  {
    var s := "0x1A";
    UnsignedOfPlain(s);
    assert s[2..] == "1A";
    assert HexPrefixLength("1A") == 2 by {
      assert HexPrefixLength("A") == 1 by {
        assert "A"[1..] == [];
      }
      assert "1A"[1..] == "A";
    }
    assert "1A"[..2] == "1A";
    assert HexValue("1A") == 26 by {
      assert "1A"[..1] == "1";
      assert HexValue("1") == 1 by {
        assert "1"[..0] == [];
      }
    }
    LeadingZeroReadsZero(s);
  }

  /** A bare `0x` is NaN under `parseInt`, not 0. */
  lemma BareHexPrefixIsNaN()
    ensures ParseIntAuto("0x") == None
    ensures ParseInt("0x") == Some(0)
  {
    UnsignedOfPlain("0x");
    LeadingZeroReadsZero("0x");
  }

  function DigitChar(d: int): (c: char)
    requires 0 <= d < 10
    ensures IsDigit(c) && DigitValue(c) == d
  {
    ('0' as int + d) as char
  }

  /** JavaScript `n.toString()` for a natural number. */
  function NatToString(n: nat): (s: string)
    ensures s != [] && AllDigits(s)
    ensures s[0] != '0' || n == 0
  {
    if n < 10 then [DigitChar(n)]
    else
      var p := NatToString(n / 10);
      p + [DigitChar(n % 10)]
  }

  /** JavaScript `${i}` for an integer. */
  function IntToString(i: int): (s: string)
    ensures s != []
  {
    if i < 0 then "-" + NatToString(-i) else NatToString(i)
  }

  /** Formatting a number and reading its digits back gives the number. */
  lemma {:induction false} DigitsValueNatToString(n: nat)
    ensures DigitsValue(NatToString(n)) == n
  {
    var s := NatToString(n);
    if n >= 10 {
      DigitsValueNatToString(n / 10);
      assert s[..|s| - 1] == NatToString(n / 10);
    }
  }

  /** `parseInt(n.toString())` is `n`. */
  lemma ParseIntNatToString(n: nat)
    ensures ParseInt(NatToString(n)) == Some(n)
  {
    var s := NatToString(n);
    assert !IsSpace(s[0]) && s[0] != '-' && s[0] != '+';
    assert TrimStart(s) == s;
    var k := DigitPrefixLength(s);
    assert k == |s|;
    assert s[..k] == s;
    DigitsValueNatToString(n);
  }

  /** `parseInt(`${i}`)` is `i`. */
  lemma ParseIntIntToString(i: int)
    ensures ParseInt(IntToString(i)) == Some(i)
  {
    if i >= 0 {
      ParseIntNatToString(i);
    } else {
      var s := NatToString(-i);
      var t := "-" + s;
      assert TrimStart(t) == t;
      assert t[1..] == s;
      var k := DigitPrefixLength(s);
      assert k == |s|;
      assert s[..k] == s;
      DigitsValueNatToString(-i);
    }
  }

  /** Numbers with four decimal digits print as four digits. */
  lemma {:induction false} NatToStringLength4(n: nat)
    requires 1000 <= n <= 9999
    ensures |NatToString(n)| == 4
  {
    assert NatToString(n) == NatToString(n / 10) + [DigitChar(n % 10)];
    assert NatToString(n / 10) == NatToString(n / 100) + [DigitChar(n / 10 % 10)];
    assert NatToString(n / 100) == NatToString(n / 1000) + [DigitChar(n / 100 % 10)];
    assert |NatToString(n / 1000)| == 1;
  }
}
