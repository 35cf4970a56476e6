/**
 * The handful of Go string operations the core relies on (`strings.Split`, `strings.Join`,
 * `strings.HasPrefix`, `strings.TrimPrefix`, `strings.TrimSuffix`, `fmt`'s `%d`,
 * `strconv.QuoteToASCII`), written over `string == seq<char>` and tied together by
 * round-trip lemmas.
 */
module Strings {
  import opened Wrappers

  /** Number of occurrences of `c` in `s`. */
  function CountChar(s: string, c: char): nat
  {
    if |s| == 0 then 0 else (if s[0] == c then 1 else 0) + CountChar(s[1..], c)
  }

  lemma {:induction false} CountCharAppend(a: string, b: string, c: char)
    ensures CountChar(a + b, c) == CountChar(a, c) + CountChar(b, c)
  {
    if |a| > 0 {
      assert (a + b)[1..] == a[1..] + b;
      CountCharAppend(a[1..], b, c);
    } else {
      assert a + b == b;
    }
  }

  lemma {:induction false} CountCharAbsent(s: string, c: char)
    requires c !in s
    ensures CountChar(s, c) == 0
  {
    if |s| > 0 {
      assert c !in s[1..];
      CountCharAbsent(s[1..], c);
    }
  }

  lemma {:induction false} CountCharPresent(s: string, c: char)
    requires c in s
    ensures CountChar(s, c) > 0
  {
    if s[0] != c {
      assert c in s[1..];
      CountCharPresent(s[1..], c);
    }
  }

  /** Go's `strings.Split(s, string(sep))`: the fields between separators; never empty. */
  function Split(s: string, sep: char): (parts: seq<string>)
    ensures |parts| >= 1
    ensures forall i :: 0 <= i < |parts| ==> sep !in parts[i]
    decreases |s|
  {
    if |s| == 0 then [""]
    else if s[0] == sep then [""] + Split(s[1..], sep)
    else
      var rest := Split(s[1..], sep);
      assert sep !in rest[0];
      [[s[0]] + rest[0]] + rest[1..]
  }

  /** Go's `strings.Join(parts, string(sep))`. */
  function Join(parts: seq<string>, sep: char): string
  {
    if |parts| == 0 then ""
    else if |parts| == 1 then parts[0]
    else parts[0] + [sep] + Join(parts[1..], sep)
  }

  /** Splitting always yields one more field than there are separators. */
  lemma {:induction false} SplitLength(s: string, sep: char)
    ensures |Split(s, sep)| == CountChar(s, sep) + 1
  {
    if |s| > 0 {
      SplitLength(s[1..], sep);
    }
  }

  /** A string without separators is a single field. */
  lemma {:induction false} SplitNoSeparator(s: string, sep: char)
    requires sep !in s
    ensures Split(s, sep) == [s]
  {
    if |s| > 0 {
      assert sep !in s[1..];
      SplitNoSeparator(s[1..], sep);
      assert [s[0]] + s[1..] == s;
    }
  }

  /** A separator between `a` and `b` splits exactly there. */
  lemma {:induction false} SplitAround(a: string, b: string, sep: char)
    ensures Split(a + [sep] + b, sep) == Split(a, sep) + Split(b, sep)
    decreases |a|
  {
    var s := a + [sep] + b;
    if |a| == 0 {
      assert s == [sep] + b;
      assert s[1..] == b;
    } else {
      assert s[0] == a[0];
      assert s[1..] == a[1..] + [sep] + b;
      SplitAround(a[1..], b, sep);
    }
  }

  /** Joining the fields of a split gives back the string. */
  lemma {:induction false} JoinSplit(s: string, sep: char)
    ensures Join(Split(s, sep), sep) == s
    decreases |s|
  {
    if |s| > 0 {
      JoinSplit(s[1..], sep);
      var rest := Split(s[1..], sep);
      if s[0] == sep {
        assert Split(s, sep) == [""] + rest;
        assert ([""] + rest)[1..] == rest;
        assert [s[0]] + s[1..] == s;
      } else {
        var parts := Split(s, sep);
        assert parts == [[s[0]] + rest[0]] + rest[1..];
        if |rest| == 1 {
          assert Join(rest, sep) == rest[0];
          assert [s[0]] + s[1..] == s;
        } else {
          assert parts[1..] == rest[1..];
          assert Join(rest, sep) == rest[0] + [sep] + Join(rest[1..], sep);
          assert [s[0]] + s[1..] == s;
        }
      }
    }
  }

  /** Splitting a join of separator-free fields gives back the fields. */
  lemma {:induction false} SplitJoin(parts: seq<string>, sep: char)
    requires |parts| >= 1
    requires forall i :: 0 <= i < |parts| ==> sep !in parts[i]
    ensures Split(Join(parts, sep), sep) == parts
  {
    if |parts| == 1 {
      SplitNoSeparator(parts[0], sep);
    } else {
      SplitJoin(parts[1..], sep);
      SplitNoSeparator(parts[0], sep);
      SplitAround(parts[0], Join(parts[1..], sep), sep);
      assert [parts[0]] + parts[1..] == parts;
    }
  }

  /** Joining two non-empty lists of fields puts one separator between the two joins. */
  lemma {:induction false} JoinAppend(p: seq<string>, q: seq<string>, sep: char)
    requires |p| >= 1 && |q| >= 1
    ensures Join(p + q, sep) == Join(p, sep) + [sep] + Join(q, sep)
    decreases |p|
  {
    if |p| == 1 {
      assert (p + q)[1..] == q;
    } else {
      assert (p + q)[1..] == p[1..] + q;
      JoinAppend(p[1..], q, sep);
    }
  }

  /** `s[i..]` starts with `p`. */
  predicate OccursAt(s: string, p: string, i: int)
  {
    0 <= i && i + |p| <= |s| && s[i..i + |p|] == p
  }

  /** An occurrence begins with the pattern's first character. */
  lemma OccursAtHead(s: string, p: string, j: int)
    requires |p| > 0
    ensures OccursAt(s, p, j) ==> j < |s| && s[j] == p[0]
  {
    if OccursAt(s, p, j) {
      assert s[j..j + |p|][0] == s[j];
    }
  }

  /** An occurrence in either part of a concatenation is an occurrence in the whole. */
  lemma OccursInConcat(a: string, b: string, p: string, j: int)
    ensures OccursAt(a, p, j) ==> OccursAt(a + b, p, j)
    ensures OccursAt(b, p, j) ==> OccursAt(a + b, p, |a| + j)
  {
    if OccursAt(a, p, j) {
      assert (a + b)[j..j + |p|] == a[j..j + |p|];
    }
    if OccursAt(b, p, j) {
      assert (a + b)[|a| + j..|a| + j + |p|] == b[j..j + |p|];
    }
  }

  /** The largest index `<= k` at which `p` occurs in `s`. */
  function LastOccurrenceAtOrBelow(s: string, p: string, k: nat): (r: Option<nat>)
    ensures r.Some? ==> r.value <= k && OccursAt(s, p, r.value)
    ensures r.Some? ==> forall j :: r.value < j <= k ==> !OccursAt(s, p, j)
    ensures r.None? ==> forall j :: 0 <= j <= k ==> !OccursAt(s, p, j)
    decreases k
  {
    if OccursAt(s, p, k) then Some(k)
    else if k == 0 then None
    else LastOccurrenceAtOrBelow(s, p, k - 1)
  }

  /** The last index at which `p` occurs in `s`, if any. */
  function LastOccurrence(s: string, p: string): (r: Option<nat>)
    ensures r.Some? ==> OccursAt(s, p, r.value)
    ensures r.Some? ==> forall j :: r.value < j ==> !OccursAt(s, p, j)
    ensures r.None? ==> forall j :: !OccursAt(s, p, j)
  {
    LastOccurrenceAtOrBelow(s, p, |s|)
  }

  /** Go's `strings.TrimPrefix`. */
  function TrimPrefix(s: string, p: string): (r: string)
    ensures p <= s ==> p + r == s
    ensures !(p <= s) ==> r == s
  {
    if p <= s then s[|p|..] else s
  }

  /** Go's `strings.TrimSuffix`. */
  function TrimSuffix(s: string, p: string): (r: string)
    ensures |p| <= |s| && s[|s| - |p|..] == p ==> r + p == s
    ensures !(|p| <= |s| && s[|s| - |p|..] == p) ==> r == s
  {
    if |p| <= |s| && s[|s| - |p|..] == p then s[..|s| - |p|] else s
  }

  predicate IsDigit(c: char) { '0' <= c <= '9' }

  function DigitChar(d: nat): (c: char)
    requires d < 10
    ensures IsDigit(c)
  {
    (('0' as int) + d) as char
  }

  function DigitValue(c: char): nat
    requires IsDigit(c)
  {
    (c as int) - ('0' as int)
  }

  /** Go's `%d` of a non-negative integer: its decimal digits, most significant first. */
  function NatToString(n: nat): (s: string)
    ensures |s| >= 1
    ensures forall i :: 0 <= i < |s| ==> IsDigit(s[i])
    decreases n
  {
    if n < 10 then [DigitChar(n)] else NatToString(n / 10) + [DigitChar(n % 10)]
  }

  /** Reads decimal digits back (the inverse of `NatToString`). */
  function ParseNat(s: string): nat
    requires forall i :: 0 <= i < |s| ==> IsDigit(s[i])
  {
    if |s| == 0 then 0 else ParseNat(s[..|s| - 1]) * 10 + DigitValue(s[|s| - 1])
  }

  lemma {:induction false} ParseNatToString(n: nat)
    ensures ParseNat(NatToString(n)) == n
    decreases n
  {
    var s := NatToString(n);
    if n >= 10 {
      ParseNatToString(n / 10);
      assert s[..|s| - 1] == NatToString(n / 10);
    }
  }

  /** Go's `%d` of an integer: an optional minus sign and the digits of its magnitude. */
  function IntToString(i: int): (s: string)
    ensures i >= 0 ==> s == NatToString(i)
    ensures i < 0 ==> s == "-" + NatToString(-i)
    ensures '\n' !in s
  {
    if i < 0 then "-" + NatToString(-i) else NatToString(i)
  }

  // ----- strconv.QuoteToASCII -----

  /** A lower-case hexadecimal digit. */
  function HexChar(d: nat): (c: char)
    requires d < 16
    ensures '0' <= c <= '9' || 'a' <= c <= 'f'
  {
    if d < 10 then (('0' as int) + d) as char else (('a' as int) + d - 10) as char
  }

  function HexValue(c: char): nat
  {
    if '0' <= c <= '9' then (c as int) - ('0' as int)
    else if 'a' <= c <= 'f' then (c as int) - ('a' as int) + 10
    else 0
  }

  function Pow16(w: nat): nat
  {
    if w == 0 then 1 else 16 * Pow16(w - 1)
  }

  /** The last `w` hexadecimal digits of `n`, most significant first. */
  function HexDigits(n: nat, w: nat): (s: string)
    ensures |s| == w
    ensures forall k :: 0 <= k < |s| ==> '0' <= s[k] <= '9' || 'a' <= s[k] <= 'f'
  {
    if w == 0 then "" else HexDigits(n / 16, w - 1) + [HexChar(n % 16)]
  }

  /** Reads hexadecimal digits back. */
  function ParseHex(s: string): nat
  {
    if |s| == 0 then 0 else ParseHex(s[..|s| - 1]) * 16 + HexValue(s[|s| - 1])
  }

  lemma {:induction false} ParseHexDigits(n: nat, w: nat)
    requires n < Pow16(w)
    ensures ParseHex(HexDigits(n, w)) == n
  {
    if w > 0 {
      var s := HexDigits(n, w);
      assert n / 16 < Pow16(w - 1);
      ParseHexDigits(n / 16, w - 1);
      assert s[..|s| - 1] == HexDigits(n / 16, w - 1);
      assert HexValue(HexChar(n % 16)) == n % 16;
    }
  }

  /** A character `QuoteToASCII` writes as itself: printable ASCII other than `"` and `\`. */
  predicate PlainASCII(c: char)
  {
    ' ' <= c <= '~' && c != '"' && c != '\\'
  }

  /**
   * How `strconv.QuoteToASCII` writes one character inside the quotes: `"` and `\`
   * backslashed, other printable ASCII as itself, the seven C escapes, `\xHH` for the
   * remaining control characters, `\uHHHH` and `\UHHHHHHHH` for everything beyond ASCII.
   */
  function EscapeASCII(c: char): (s: string)
    ensures |s| >= 1
    ensures forall k :: 0 <= k < |s| ==> ' ' <= s[k] <= '~'
  {
    var n := c as int;
    if c == '"' || c == '\\' then ['\\', c]
    else if PlainASCII(c) then [c]
    else if n == 7 then "\\a"
    else if n == 8 then "\\b"
    else if n == 12 then "\\f"
    else if n == 10 then "\\n"
    else if n == 13 then "\\r"
    else if n == 9 then "\\t"
    else if n == 11 then "\\v"
    else if n < 0x20 || n == 0x7f then "\\x" + HexDigits(n, 2)
    else if n < 0x10000 then "\\u" + HexDigits(n, 4)
    else "\\U" + HexDigits(n, 8)
  }

  /** `QuoteToASCII` without its surrounding quotes. */
  function Escape(s: string): (r: string)
    ensures forall k :: 0 <= k < |r| ==> ' ' <= r[k] <= '~'
  {
    if |s| == 0 then "" else EscapeASCII(s[0]) + Escape(s[1..])
  }

  /** `strconv.QuoteToASCII`: the escaped text in double quotes. */
  function QuoteASCII(s: string): string
  {
    "\"" + Escape(s) + "\""
  }

  /** The character a code point stands for; `?` for one that is not a character. */
  function CharOf(v: nat): char
  {
    if v < 0xD800 || 0xE000 <= v < 0x110000 then v as char else '?'
  }

  /** Reads one escape (or one plain character) at the front of `s`: the character and the length read. */
  function DecodeEscape(s: string): (r: (char, nat))
    requires |s| >= 1
    ensures 1 <= r.1 <= |s|
  {
    if s[0] != '\\' || |s| == 1 then (s[0], 1)
    else if s[1] == '"' || s[1] == '\\' then (s[1], 2)
    else if s[1] == 'a' then (7 as char, 2)
    else if s[1] == 'b' then (8 as char, 2)
    else if s[1] == 'f' then (12 as char, 2)
    else if s[1] == 'n' then (10 as char, 2)
    else if s[1] == 'r' then (13 as char, 2)
    else if s[1] == 't' then (9 as char, 2)
    else if s[1] == 'v' then (11 as char, 2)
    else if s[1] == 'x' && |s| >= 4 then (CharOf(ParseHex(s[2..4])), 4)
    else if s[1] == 'u' && |s| >= 6 then (CharOf(ParseHex(s[2..6])), 6)
    else if s[1] == 'U' && |s| >= 10 then (CharOf(ParseHex(s[2..10])), 10)
    else (s[0], 1)
  }

  /** Reads a whole escaped text back, as `strconv.Unquote` does inside the quotes. */
  function Unescape(s: string): string
    decreases |s|
  {
    if |s| == 0 then "" else var d := DecodeEscape(s); [d.0] + Unescape(s[d.1..])
  }

  /** The escape of `c` is read back as `c`, whatever follows it. */
  lemma DecodeEscapeASCII(c: char, rest: string)
    ensures DecodeEscape(EscapeASCII(c) + rest) == (c, |EscapeASCII(c)|)
  {
    var n := c as int;
    if !(c == '"' || c == '\\' || PlainASCII(c) || 7 <= n <= 13) {
      DecodeHexEscape(c, rest);
    }
  }

  /** The `\xHH`, `\uHHHH` and `\UHHHHHHHH` escapes are read back as the character they encode. */
  lemma DecodeHexEscape(c: char, rest: string)
    requires !(c == '"' || c == '\\' || PlainASCII(c) || 7 <= c as int <= 13)
    ensures DecodeEscape(EscapeASCII(c) + rest) == (c, |EscapeASCII(c)|)
  {
    var n := c as int;
    if n < 0x20 || n == 0x7f {
      assert EscapeASCII(c) == ['\\', 'x'] + HexDigits(n, 2);
      ReadHexEscape('x', 2, c, rest);
    } else if n < 0x10000 {
      assert EscapeASCII(c) == ['\\', 'u'] + HexDigits(n, 4);
      ReadHexEscape('u', 4, c, rest);
    } else {
      assert EscapeASCII(c) == ['\\', 'U'] + HexDigits(n, 8);
      assert Pow16(8) == 0x1_0000_0000;
      ReadHexEscape('U', 8, c, rest);
    }
  }

  /** A backslash, the escape letter and `w` hexadecimal digits of `c` are read back as `c`. */
  lemma ReadHexEscape(tag: char, w: nat, c: char, rest: string)
    requires (tag == 'x' && w == 2) || (tag == 'u' && w == 4) || (tag == 'U' && w == 8)
    requires c as int < Pow16(w)
    ensures DecodeEscape(['\\', tag] + HexDigits(c as int, w) + rest) == (c, w + 2)
  {
    var s := ['\\', tag] + HexDigits(c as int, w) + rest;
    assert s[2..w + 2] == HexDigits(c as int, w);
    ParseHexDigits(c as int, w);
  }

  /** Reading back an escaped text gives the text: `Unquote(QuoteToASCII(s)) == s`. */
  lemma {:induction false} UnescapeEscape(s: string)
    ensures Unescape(Escape(s)) == s
  {
    if |s| > 0 {
      var e := EscapeASCII(s[0]);
      DecodeEscapeASCII(s[0], Escape(s[1..]));
      assert (e + Escape(s[1..]))[|e|..] == Escape(s[1..]);
      UnescapeEscape(s[1..]);
    }
  }

  /** Text made only of printable ASCII other than `"` and `\` (such as `sha256:<hex>`) is written as it stands. */
  lemma {:induction false} EscapePlain(s: string)
    requires forall k :: 0 <= k < |s| ==> PlainASCII(s[k])
    ensures Escape(s) == s
  {
    if |s| > 0 {
      EscapePlain(s[1..]);
      assert [s[0]] + s[1..] == s;
    }
  }

  /** Escaping loses nothing: distinct strings escape differently. */
  lemma EscapeInjective(a: string, b: string)
    requires Escape(a) == Escape(b)
    ensures a == b
  {
    UnescapeEscape(a);
    UnescapeEscape(b);
  }
}
