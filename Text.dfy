/** The text primitives the protocol is built from: what .NET's
    String.Split(char), String.Trim(char), Int32.ToString() and
    Int32.Parse(string) do to the strings the game exchanges, and the
    round trips between them. */
module Text {

  datatype Option<+T> = None | Some(value: T)

  // ---------------------------------------------------------------------
  // Split and Join
  // ---------------------------------------------------------------------

  /** String.Split(sep): the maximal runs free of sep, empty runs included,
      so "" splits into [""] and "a||b" into ["a", "", "b"]. */
  function Split(s: string, sep: char): (parts: seq<string>)
    ensures |parts| > 0
  {
    if s == [] then [[]]
    else
      var rest := Split(s[1..], sep);
      if s[0] == sep then [[]] + rest
      else [[s[0]] + rest[0]] + rest[1..]
  }

  /** No part of a split holds the separator. */
  lemma {:induction false} SplitPartsFree(s: string, sep: char)
    ensures forall i :: 0 <= i < |Split(s, sep)| ==> sep !in Split(s, sep)[i]
  {
    if s != [] {
      SplitPartsFree(s[1..], sep);
      var rest := Split(s[1..], sep);
      if s[0] != sep {
        assert sep !in [s[0]] + rest[0];
      }
    }
  }

  /** The parts, one sep between neighbours. */
  function Join(parts: seq<string>, sep: char): string
    requires |parts| > 0
  {
    if |parts| == 1 then parts[0] else parts[0] + [sep] + Join(parts[1..], sep)
  }

  /** Joining what Split produced gives back the original string. */
  lemma {:induction false} JoinSplit(s: string, sep: char)
    ensures Join(Split(s, sep), sep) == s
  {
    if s != [] {
      JoinSplit(s[1..], sep);
      var rest := Split(s[1..], sep);
      if s[0] == sep {
        assert ([[]] + rest)[1..] == rest;
      } else if |rest| > 1 {
        assert ([[s[0]] + rest[0]] + rest[1..])[1..] == rest[1..];
      }
      assert [s[0]] + s[1..] == s;
    }
  }

  /** A character that no part holds and that is not the separator does not
      occur in the join. */
  lemma {:induction false} JoinAvoids(parts: seq<string>, sep: char, c: char)
    requires |parts| > 0 && sep != c
    requires forall i :: 0 <= i < |parts| ==> c !in parts[i]
    ensures c !in Join(parts, sep)
  {
    if |parts| > 1 {
      JoinAvoids(parts[1..], sep, c);
    }
  }

  lemma {:induction false} SplitOfPart(a: string, sep: char)
    requires sep !in a
    ensures Split(a, sep) == [a]
  {
    if a != [] {
      SplitOfPart(a[1..], sep);
      assert [a[0]] + a[1..] == a;
    }
  }

  lemma {:induction false} SplitAfterPart(a: string, sep: char, b: string)
    requires sep !in a
    ensures Split(a + [sep] + b, sep) == [a] + Split(b, sep)
  {
    var s := a + [sep] + b;
    if a == [] {
      assert s == [sep] + b && s[1..] == b;
    } else {
      SplitAfterPart(a[1..], sep, b);
      assert s[0] == a[0] && s[1..] == a[1..] + [sep] + b;
      assert [a[0]] + a[1..] == a;
    }
  }

  /** Splitting joined parts that are free of the separator gives the parts back. */
  lemma {:induction false} SplitJoin(parts: seq<string>, sep: char)
    requires |parts| > 0
    requires forall i :: 0 <= i < |parts| ==> sep !in parts[i]
    ensures Split(Join(parts, sep), sep) == parts
  {
    if |parts| == 1 {
      SplitOfPart(parts[0], sep);
    } else {
      SplitJoin(parts[1..], sep);
      SplitAfterPart(parts[0], sep, Join(parts[1..], sep));
      assert [parts[0]] + parts[1..] == parts;
    }
  }

  /** A join of a part in front of others is that part, a separator and
      the join of the others. */
  lemma JoinCons(x: string, parts: seq<string>, sep: char)
    requires |parts| > 0
    ensures Join([x] + parts, sep) == x + [sep] + Join(parts, sep)
  {
    assert ([x] + parts)[1..] == parts;
  }

  /** A join of five parts, spelled out. */
  lemma JoinFive(a: string, b: string, c: string, d: string, e: string, sep: char)
    ensures Join([a, b, c, d, e], sep) == a + [sep] + b + [sep] + c + [sep] + d + [sep] + e
  {
    JoinCons(d, [e], sep);
    JoinCons(c, [d, e], sep);
    JoinCons(b, [c, d, e], sep);
    JoinCons(a, [b, c, d, e], sep);
    assert [d] + [e] == [d, e];
    assert [c] + [d, e] == [c, d, e];
    assert [b] + [c, d, e] == [b, c, d, e];
    assert [a] + [b, c, d, e] == [a, b, c, d, e];
    assert a + [sep] + (b + [sep] + (c + [sep] + (d + [sep] + e)))
        == a + [sep] + b + [sep] + c + [sep] + d + [sep] + e;
  }

  /** Appending a part to a join appends one separator and the part: this is
      what a loop that accumulates `part + "|"` maintains. */
  lemma {:induction false} JoinSnoc(parts: seq<string>, sep: char, x: string)
    requires |parts| > 0
    ensures Join(parts + [x], sep) == Join(parts, sep) + [sep] + x
  {
    if |parts| == 1 {
      assert (parts + [x])[1..] == [x];
    } else {
      assert (parts + [x])[1..] == parts[1..] + [x];
      JoinSnoc(parts[1..], sep, x);
    }
  }

  /** A join starts with the first character of its first part. */
  lemma JoinFirst(parts: seq<string>, sep: char)
    requires |parts| > 0 && |parts[0]| > 0
    ensures |Join(parts, sep)| > 0 && Join(parts, sep)[0] == parts[0][0]
  {
  }

  /** A join whose first part does not start, and whose last part does not
      end, with the separator neither starts nor ends with it. */
  lemma JoinDelimited(parts: seq<string>, sep: char)
    requires |parts| > 0 && |parts[0]| > 0 && |parts[|parts| - 1]| > 0
    requires parts[0][0] != sep && parts[|parts| - 1][|parts[|parts| - 1]| - 1] != sep
    ensures var m := Join(parts, sep); |m| > 0 && m[0] != sep && m[|m| - 1] != sep
  {
    JoinFirst(parts, sep);
    JoinLast(parts, sep);
  }

  lemma {:induction false} JoinLast(parts: seq<string>, sep: char)
    requires |parts| > 0 && |parts[|parts| - 1]| > 0
    ensures |Join(parts, sep)| > 0
    ensures Join(parts, sep)[|Join(parts, sep)| - 1] == parts[|parts| - 1][|parts[|parts| - 1]| - 1]
  {
    if |parts| > 1 {
      JoinLast(parts[1..], sep);
    }
  }

  // ---------------------------------------------------------------------
  // Trim
  // ---------------------------------------------------------------------

  function TrimStart(s: string, c: char): (r: string)
    ensures |r| <= |s| && r == s[|s| - |r|..]
    ensures r == [] || r[0] != c
  {
    if |s| > 0 && s[0] == c then TrimStart(s[1..], c) else s
  }

  function TrimEnd(s: string, c: char): (r: string)
    ensures |r| <= |s| && r == s[..|r|]
    ensures r == [] || r[|r| - 1] != c
  {
    if |s| > 0 && s[|s| - 1] == c then TrimEnd(s[..|s| - 1], c) else s
  }

  /** String.Trim(c): every leading and every trailing c removed. */
  function Trim(s: string, c: char): (r: string)
    ensures r == [] || (r[0] != c && r[|r| - 1] != c)
  {
    TrimEnd(TrimStart(s, c), c)
  }

  /** Appending one c to a string that neither starts nor ends with c, then
      trimming c from both ends, gives the string back: the trim stops at
      the string's own first and last characters, whatever c it holds
      inside. */
  lemma TrimDelimited(s: string, c: char)
    requires |s| > 0 && s[0] != c && s[|s| - 1] != c
    ensures Trim(s + [c], c) == s
  {
    var t := s + [c];
    assert t[0] == s[0];
    assert TrimStart(t, c) == t;
    assert t[|t| - 1] == c && t[..|t| - 1] == s;
    assert TrimEnd(t, c) == TrimEnd(s, c);
    assert TrimEnd(s, c) == s;
  }

  // ---------------------------------------------------------------------
  // Decimal integers
  // ---------------------------------------------------------------------

  const Int32Min: int := -0x8000_0000
  const Int32Max: int := 0x7fff_ffff

  /** The range of C#'s int. */
  predicate IsInt32(n: int) { Int32Min <= n <= Int32Max }

  predicate IsDigit(c: char) { '0' <= c <= '9' }

  predicate AllDigits(s: string) { forall i :: 0 <= i < |s| ==> IsDigit(s[i]) }

  function DigitChar(d: int): (c: char)
    requires 0 <= d < 10
    ensures IsDigit(c) && c as int - '0' as int == d
  {
    (d + '0' as int) as char
  }

  /** The decimal numeral of n, without leading zeros. */
  function NatToString(n: nat): (s: string)
    ensures |s| > 0 && AllDigits(s)
    ensures n > 0 ==> s[0] != '0'
  {
    if n < 10 then [DigitChar(n)] else NatToString(n / 10) + [DigitChar(n % 10)]
  }

  /** Int32.ToString(): the numeral, with '-' in front when n is negative. */
  function IntToString(n: int): (s: string)
    ensures |s| > 0 && IsDigit(s[|s| - 1])
    ensures n >= 0 ==> AllDigits(s)
    ensures n < 0 ==> s[0] == '-' && AllDigits(s[1..])
    ensures '|' !in s && '%' !in s
  {
    if n < 0 then
      var digits := NatToString(-n);
      assert forall i :: 0 < i < |digits| + 1 ==> (['-'] + digits)[i] == digits[i - 1];
      ['-'] + digits
    else NatToString(n)
  }

  /** The value of a numeral. */
  function DigitsValue(s: string): nat
    requires AllDigits(s)
  {
    if s == [] then 0 else DigitsValue(s[..|s| - 1]) * 10 + (s[|s| - 1] as int - '0' as int)
  }

  /** Reading back a printed natural number gives the number. */
  lemma {:induction false} DigitsValueOfNat(n: nat)
    ensures DigitsValue(NatToString(n)) == n
  {
    if n >= 10 {
      DigitsValueOfNat(n / 10);
      var s := NatToString(n);
      assert s[..|s| - 1] == NatToString(n / 10);
    }
  }

  /** The white space Int32.Parse skips around a number: U+0009 to U+000D and U+0020. */
  predicate IsWhite(c: char) { c == ' ' || '\t' <= c <= '\r' }

  function TrimWhite(s: string): (r: string)
    ensures r == [] || (!IsWhite(r[0]) && !IsWhite(r[|r| - 1]))
  {
    if |s| > 0 && IsWhite(s[0]) then TrimWhite(s[1..])
    else if |s| > 0 && IsWhite(s[|s| - 1]) then TrimWhite(s[..|s| - 1])
    else s
  }

  /** s without its trailing '\0' characters. */
  function DropTrailingNuls(s: string): (r: string)
    ensures |r| <= |s| && r == s[..|r|]
    ensures forall i :: |r| <= i < |s| ==> s[i] == '\0'
    ensures r == [] || r[|r| - 1] != '\0'
  {
    if |s| > 0 && s[|s| - 1] == '\0' then DropTrailingNuls(s[..|s| - 1]) else s
  }

  /** Int32.Parse(s) with the invariant culture and NumberStyles.Integer:
      optional white space, an optional sign, one or more decimal digits,
      optional white space, then any number of '\0' characters, which the
      parser accepts after a number; the value must lie inside C#'s int
      range. None stands for the FormatException or OverflowException. */
  function ParseInt(s: string): (r: Option<int>)
    ensures r.Some? ==> IsInt32(r.value)
  {
    var t := TrimWhite(DropTrailingNuls(s));
    var signed := |t| > 0 && (t[0] == '-' || t[0] == '+');
    var digits := if signed then t[1..] else t;
    if digits == [] || !AllDigits(digits) then None
    else
      var v: int := if signed && t[0] == '-' then -(DigitsValue(digits) as int) else DigitsValue(digits);
      if IsInt32(v) then Some(v) else None
  }

  /** Int32.Parse reads back what Int32.ToString printed. */
  lemma ParseIntToString(n: int)
    requires IsInt32(n)
    ensures ParseInt(IntToString(n)) == Some(n)
  {
    var s := IntToString(n);
    assert DropTrailingNuls(s) == s;
    assert TrimWhite(s) == s;
    if n < 0 {
      DigitsValueOfNat(-n);
      assert s[1..] == NatToString(-n);
    } else {
      DigitsValueOfNat(n);
    }
  }

  /** Dropping trailing '\0's stops at the last character that is not one. */
  lemma {:induction false} DropTrailingNulsOfPadded(s: string, z: string)
    requires |s| > 0 && s[|s| - 1] != '\0'
    requires forall i :: 0 <= i < |z| ==> z[i] == '\0'
    ensures DropTrailingNuls(s + z) == s
  {
    if z != [] {
      var z' := z[..|z| - 1];
      assert (s + z)[..|s + z| - 1] == s + z';
      DropTrailingNulsOfPadded(s, z');
    }
  }

  /** Int32.Parse also reads a printed int followed by any run of '\0's. */
  lemma ParseIntTrailingNuls(n: int, z: string)
    requires IsInt32(n)
    requires forall i :: 0 <= i < |z| ==> z[i] == '\0'
    ensures ParseInt(IntToString(n) + z) == Some(n)
  {
    DropTrailingNulsOfPadded(IntToString(n), z);
    ParseIntToString(n);
  }
}
