/**
 * The few java.lang.String and java.lang.Integer operations the chat handler
 * and the view registry rely on, written over `string` (a `seq<char>`).
 * Each UTF-16 code unit of a Java string is represented by one `char`, a
 * different one for each code unit: a code unit outside the surrogate range
 * by the character it encodes, a surrogate by some character that is not a
 * decimal digit. The model only compares characters, counts them and reads
 * decimal digits, so lengths, positions and parsed numbers are those of the
 * Java string.
 */
module Strings {
  import opened Options

  /** True if every character of `s` is a space. */
  predicate AllSpaces(s: string) {
    forall i :: 0 <= i < |s| ==> s[i] == ' '
  }

  /** `n` space characters: the `sb.append(' ')` loops and `StringUtils.repeat(' ', n)`. */
  function Spaces(n: nat): (r: string)
    ensures |r| == n && AllSpaces(r)
  {
    if n == 0 then "" else Spaces(n - 1) + " "
  }

  /** `s.indexOf(c)` and `ArrayUtils.indexOf(s, c)`: the first position of `c`, or -1 when `c` does not occur. */
  function IndexOf<T(==)>(s: seq<T>, c: T): (i: int)
    ensures -1 <= i < |s|
    ensures i == -1 <==> c !in s
    ensures 0 <= i ==> s[i] == c && c !in s[..i]
  {
    if |s| == 0 then -1
    else if s[0] == c then 0
    else
      var j := IndexOf(s[1..], c);
      if j == -1 then -1
      else
        assert s[..j + 1] == [s[0]] + s[1..][..j];
        j + 1
  }

  /** The inverse of `Split`: the pieces with `sep` between each two of them. */
  function Join(parts: seq<string>, sep: char): string
    requires |parts| > 0
  {
    if |parts| == 1 then parts[0] else parts[0] + [sep] + Join(parts[1..], sep)
  }

  /**
   * `s.split(sep)`, keeping every piece, empty ones included (Java drops
   * trailing empty pieces; the callers here skip empty pieces anyway).
   */
  function Split(s: string, sep: char): (parts: seq<string>)
    ensures |parts| > 0
    decreases |s|
  {
    var i := IndexOf(s, sep);
    if i == -1 then [s] else [s[..i]] + Split(s[i + 1..], sep)
  }

  lemma JoinCons(p: string, rest: seq<string>, sep: char)
    requires |rest| > 0
    ensures Join([p] + rest, sep) == p + [sep] + Join(rest, sep)
  {
    assert ([p] + rest)[1..] == rest;
  }

  /** No piece holds the separator. */
  predicate NoSeparator(parts: seq<string>, sep: char) {
    forall k :: 0 <= k < |parts| ==> sep !in parts[k]
  }

  /** The pieces `Split` gives hold no separator. */
  lemma {:induction false} SplitPieces(s: string, sep: char)
    ensures NoSeparator(Split(s, sep), sep)
    decreases |s|
  {
    var i := IndexOf(s, sep);
    if i != -1 {
      var rest := Split(s[i + 1..], sep);
      SplitPieces(s[i + 1..], sep);
      ConsNoSeparator(s[..i], rest, sep);
    }
  }

  lemma ConsNoSeparator(p: string, rest: seq<string>, sep: char)
    requires sep !in p && NoSeparator(rest, sep)
    ensures NoSeparator([p] + rest, sep)
  {
    var parts := [p] + rest;
    forall k | 0 <= k < |parts| ensures sep !in parts[k] {
      if k > 0 { assert parts[k] == rest[k - 1]; }
    }
  }

  /** Joining the pieces with the separator gives the input back. */
  lemma {:induction false} SplitJoinBack(s: string, sep: char)
    ensures Join(Split(s, sep), sep) == s
    decreases |s|
  {
    var i := IndexOf(s, sep);
    if i != -1 {
      var rest := Split(s[i + 1..], sep);
      assert Split(s, sep) == [s[..i]] + rest;
      SplitJoinBack(s[i + 1..], sep);
      JoinAround(s, i, rest, sep);
    }
  }

  /** A text cut at a separator is the piece before it joined to the pieces of the rest. */
  lemma JoinAround(s: string, i: nat, rest: seq<string>, sep: char)
    requires i < |s| && s[i] == sep && |rest| > 0 && Join(rest, sep) == s[i + 1..]
    ensures Join([s[..i]] + rest, sep) == s
  {
    JoinCons(s[..i], rest, sep);
    assert s == s[..i] + [sep] + s[i + 1..];
  }

  /** Splitting at the first separator: the piece before it, then the rest split. */
  lemma SplitFirst(a: string, sep: char, b: string)
    requires sep !in a
    ensures Split(a + [sep] + b, sep) == [a] + Split(b, sep)
  {
    var s := a + [sep] + b;
    assert s[|a|] == sep;
    assert IndexOf(s, sep) == |a|;
    assert s[..|a|] == a && s[|a| + 1..] == b;
  }

  /** Splitting a joined list of separator-free pieces gives the pieces back. */
  lemma {:induction false} SplitJoin(parts: seq<string>, sep: char)
    requires |parts| > 0
    requires NoSeparator(parts, sep)
    ensures Split(Join(parts, sep), sep) == parts
  {
    if |parts| == 1 {
      assert IndexOf(parts[0], sep) == -1;
    } else {
      var rest := Join(parts[1..], sep);
      assert Join(parts, sep) == parts[0] + [sep] + rest;
      SplitFirst(parts[0], sep, rest);
      SplitJoin(parts[1..], sep);
      assert parts == [parts[0]] + parts[1..];
    }
  }

  /** The largest and the smallest Java `int`, 2^31 - 1 and -2^31. */
  const IntMax := 0x7FFF_FFFF
  const IntMin := -0x8000_0000

  /** A value a Java `int` can hold. */
  predicate IsInt32(x: int) {
    IntMin <= x <= IntMax
  }

  /** What a Java `int` expression with mathematical value `x` evaluates to: `x` wrapped modulo 2^32. */
  function ToInt32(x: int): (r: int)
    ensures IsInt32(r)
    ensures (x - r) % 0x1_0000_0000 == 0
    ensures IsInt32(x) ==> r == x
  {
    (x - IntMin) % 0x1_0000_0000 + IntMin
  }

  /**
   * The zero of the block of ten decimal digits `c` belongs to, or -1: the
   * characters of Unicode general category Nd in the Basic Multilingual
   * Plane, as in the Unicode 6.2 tables of Java 8 (ASCII, Arabic-Indic,
   * Devanagari, ..., fullwidth).
   */
  function DigitZero(c: char): (z: int)
    ensures z == -1 || ('0' as int <= z <= c as int < z + 10)
  {
    var x := c as int;
    if 0x0030 <= x < 0x003A then 0x0030
    else if 0x0660 <= x < 0x066A then 0x0660
    else if 0x06F0 <= x < 0x06FA then 0x06F0
    else if 0x07C0 <= x < 0x07CA then 0x07C0
    else if 0x0966 <= x < 0x0970 then 0x0966
    else if 0x09E6 <= x < 0x09F0 then 0x09E6
    else if 0x0A66 <= x < 0x0A70 then 0x0A66
    else if 0x0AE6 <= x < 0x0AF0 then 0x0AE6
    else if 0x0B66 <= x < 0x0B70 then 0x0B66
    else if 0x0BE6 <= x < 0x0BF0 then 0x0BE6
    else if 0x0C66 <= x < 0x0C70 then 0x0C66
    else if 0x0CE6 <= x < 0x0CF0 then 0x0CE6
    else if 0x0D66 <= x < 0x0D70 then 0x0D66
    else if 0x0E50 <= x < 0x0E5A then 0x0E50
    else if 0x0ED0 <= x < 0x0EDA then 0x0ED0
    else if 0x0F20 <= x < 0x0F2A then 0x0F20
    else if 0x1040 <= x < 0x104A then 0x1040
    else if 0x1090 <= x < 0x109A then 0x1090
    else if 0x17E0 <= x < 0x17EA then 0x17E0
    else if 0x1810 <= x < 0x181A then 0x1810
    else if 0x1946 <= x < 0x1950 then 0x1946
    else if 0x19D0 <= x < 0x19DA then 0x19D0
    else if 0x1A80 <= x < 0x1A8A then 0x1A80
    else if 0x1A90 <= x < 0x1A9A then 0x1A90
    else if 0x1B50 <= x < 0x1B5A then 0x1B50
    else if 0x1BB0 <= x < 0x1BBA then 0x1BB0
    else if 0x1C40 <= x < 0x1C4A then 0x1C40
    else if 0x1C50 <= x < 0x1C5A then 0x1C50
    else if 0xA620 <= x < 0xA62A then 0xA620
    else if 0xA8D0 <= x < 0xA8DA then 0xA8D0
    else if 0xA900 <= x < 0xA90A then 0xA900
    else if 0xA9D0 <= x < 0xA9DA then 0xA9D0
    else if 0xAA50 <= x < 0xAA5A then 0xAA50
    else if 0xABF0 <= x < 0xABFA then 0xABF0
    else if 0xFF10 <= x < 0xFF1A then 0xFF10
    else -1
  }

  /**
   * `Character.digit(c, 10)`: the decimal value of `c`, or -1 when it is not
   * a decimal digit. The ASCII digits have their usual values, and nothing
   * below `'0'` (the signs `+` and `-` among them) is a digit.
   */
  function JavaDigit(c: char): (d: int)
    ensures -1 <= d <= 9
    ensures '0' <= c <= '9' ==> d == (c as int) - ('0' as int)
    ensures c < '0' ==> d == -1
  {
    var z := DigitZero(c);
    if z == -1 then -1 else (c as int) - z
  }

  /** The character of a decimal digit, as `"" + i` writes it. */
  function DigitChar(d: nat): (c: char)
    requires d < 10
    ensures '0' <= c <= '9' && JavaDigit(c) == d
  {
    (('0' as int) + d) as char
  }

  /**
   * The digit loop of `Integer.parseInt`: the value of the decimal digits
   * `s`, most significant first, or None when `s` is empty or holds a
   * character that `Character.digit` does not read as a decimal digit.
   */
  function ParseDigits(s: string): (r: Option<nat>)
    decreases |s|
  {
    if |s| == 0 then None
    else
      var d := JavaDigit(s[|s| - 1]);
      if d < 0 then None
      else if |s| == 1 then Some(d)
      else
        match ParseDigits(s[..|s| - 1])
        case None => None
        case Some(v) => Some(10 * v + d)
  }

  /** The signs `Integer.parseInt` accepts in front of the digits. */
  predicate IsSign(c: char) {
    c == '+' || c == '-'
  }

  /**
   * `Integer.parseInt(s)` in radix 10: an optional `+` or `-`, then at least
   * one decimal digit, and a value that fits an `int`; None where it throws
   * NumberFormatException (an empty string, a lone sign, any other character,
   * an overflow).
   */
  function ParseInt(s: string): (r: Option<int>)
    ensures r.Some? ==> IsInt32(r.value)
    ensures r.Some? && '-' !in s ==> r.value >= 0
  {
    if |s| == 0 then None
    else
      var digits := if IsSign(s[0]) then s[1..] else s;
      match ParseDigits(digits)
      case None => None
      case Some(v) =>
        var x: int := if s[0] == '-' then 0 - v else v;
        if IsInt32(x) then Some(x) else None
  }

  /** A leading `+` changes nothing. */
  lemma ParseIntPlus(s: string)
    requires |s| > 0 && !IsSign(s[0])
    ensures ParseInt("+" + s) == ParseInt(s)
  {
    assert ("+" + s)[0] == '+' && ("+" + s)[1..] == s;
  }

  /** A leading `-` negates, down to -2^31 and no further. */
  lemma ParseIntMinus(s: string, v: nat)
    requires ParseDigits(s) == Some(v)
    ensures ParseInt("-" + s) == if v <= -IntMin then Some(0 - v) else None
  {
    assert ("-" + s)[0] == '-' && ("-" + s)[1..] == s;
  }

  /** Input `Integer.parseInt` always rejects: the empty string and a lone sign. */
  lemma ParseIntRejects(c: char)
    requires IsSign(c)
    ensures ParseInt("") == None && ParseInt([c]) == None
  {
    assert [c][1..] == [];
  }

  /** Java's decimal rendering of a non-negative int, as in `"New View (" + i + ")"`. */
  function NatToString(n: nat): (s: string)
    ensures |s| > 0 && '0' <= s[0] <= '9'
  {
    if n < 10 then [DigitChar(n)] else NatToString(n / 10) + [DigitChar(n % 10)]
  }

  /** Reading the rendering of a number digit by digit gives the number back. */
  lemma {:induction false} ParseDigitsToString(n: nat)
    ensures ParseDigits(NatToString(n)) == Some(n)
  {
    if n >= 10 {
      var s := NatToString(n);
      assert s[..|s| - 1] == NatToString(n / 10);
      ParseDigitsToString(n / 10);
    }
  }

  /** `Integer.parseInt` reads the rendering of a number back exactly when the number fits an `int`. */
  lemma ParseIntToString(n: nat)
    ensures ParseInt(NatToString(n)) == if n <= IntMax then Some(n) else None
  {
    ParseDigitsToString(n);
  }

  /** Different numbers render differently. */
  lemma NatToStringInjective(m: nat, n: nat)
    requires m != n
    ensures NatToString(m) != NatToString(n)
  {
    ParseDigitsToString(m);
    ParseDigitsToString(n);
  }

  /** The elements of a list, as a set. */
  function Elements<T>(s: seq<T>): set<T> {
    set x | x in s
  }
}
