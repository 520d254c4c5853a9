/** The .NET string operations the validator relies on, written out over
    `seq<char>`: white-space tests and trimming, ordinal substring search,
    splitting on a separator, and decimal integer text. */
module Text {
  import opened Basics

  /** `Char.IsWhiteSpace`: the Unicode space separators, the line and
      paragraph separators, and the control characters U+0009..U+000D,
      U+0085. */
  predicate IsWhiteSpace(c: char) {
    || c == ' '
    || ('\t' <= c <= '\r')
    || c == '\U{85}'
    || c == '\U{A0}'
    || c == '\U{1680}'
    || ('\U{2000}' <= c <= '\U{200A}')
    || c == '\U{2028}'
    || c == '\U{2029}'
    || c == '\U{202F}'
    || c == '\U{205F}'
    || c == '\U{3000}'
  }

  predicate AllWhiteSpace(s: string) {
    forall i :: 0 <= i < |s| ==> IsWhiteSpace(s[i])
  }

  /** `string.IsNullOrWhiteSpace`: null, empty, or white space only. */
  predicate IsNullOrWhiteSpace(c: Option<string>) {
    c.None? || AllWhiteSpace(c.value)
  }

  /** `sub` occurs in `s` starting at index `i`. */
  predicate OccursAt(s: string, sub: string, i: int) {
    0 <= i <= |s| - |sub| && s[i..i + |sub|] == sub
  }

  /** The index of the first character at or after `i` that is not white
      space, or `|s|`. */
  function SkipLeading(s: string, i: nat): (n: nat)
    requires i <= |s|
    ensures i <= n <= |s|
    ensures forall k :: i <= k < n ==> IsWhiteSpace(s[k])
    ensures n < |s| ==> !IsWhiteSpace(s[n])
    decreases |s| - i
  {
    if i < |s| && IsWhiteSpace(s[i]) then SkipLeading(s, i + 1) else i
  }

  /** The index just past the last character before `j`, and not before
      `lo`, that is not white space, or `lo`. */
  function SkipTrailing(s: string, lo: nat, j: nat): (m: nat)
    requires lo <= j <= |s|
    ensures lo <= m <= j
    ensures forall k :: m <= k < j ==> IsWhiteSpace(s[k])
    ensures m > lo ==> !IsWhiteSpace(s[m - 1])
  {
    if j > lo && IsWhiteSpace(s[j - 1]) then SkipTrailing(s, lo, j - 1) else j
  }

  /** `string.Trim()`: the slice of `s` left once the leading and then the
      trailing white space is cut away. */
  function Trim(s: string): (r: string)
    ensures |r| > 0 ==> !IsWhiteSpace(r[0]) && !IsWhiteSpace(r[|r| - 1])
    ensures exists i :: OccursAt(s, r, i)
    ensures r == "" <==> AllWhiteSpace(s)
  {
    var lo := SkipLeading(s, 0);
    var hi := SkipTrailing(s, lo, |s|);
    assert OccursAt(s, s[lo..hi], lo);
    s[lo..hi]
  }

  /** The trimmed text is what is left of `s` once a run of white space is
      cut from each end. */
  lemma TrimCutsWhiteSpace(s: string)
    ensures exists i, j :: 0 <= i <= j <= |s| && Trim(s) == s[i..j] && AllWhiteSpace(s[..i]) && AllWhiteSpace(s[j..])
  {
    var lo := SkipLeading(s, 0);
    var hi := SkipTrailing(s, lo, |s|);
    assert AllWhiteSpace(s[..lo]) && AllWhiteSpace(s[hi..]);
    assert Trim(s) == s[lo..hi];
  }

  /** Only one slice of `s` is cut away by white space on both sides and
      neither starts nor ends with white space: the trimmed text. With
      `TrimCutsWhiteSpace` this determines `Trim` completely. */
  lemma TrimUnique(s: string, i: nat, j: nat)
    requires i <= j <= |s|
    requires AllWhiteSpace(s[..i]) && AllWhiteSpace(s[j..])
    requires i < j ==> !IsWhiteSpace(s[i]) && !IsWhiteSpace(s[j - 1])
    ensures Trim(s) == s[i..j]
  {
    if i == j {
      assert forall k :: 0 <= k < |s| ==> IsWhiteSpace(s[k]) by {
        forall k | 0 <= k < |s|
          ensures IsWhiteSpace(s[k])
        {
          if k < i { assert s[..i][k] == s[k]; } else { assert s[j..][k - j] == s[k]; }
        }
      }
    } else {
      var lo := SkipLeading(s, 0);
      assert lo == i;
      var hi := SkipTrailing(s, lo, |s|);
      assert hi == j;
    }
  }

  /** Ordinal `string.Contains(sub)`: `sub` occurs somewhere in `s`.
      The empty string occurs in every string. */
  function Contains(s: string, sub: string): (b: bool)
    ensures b <==> exists i :: OccursAt(s, sub, i)
    decreases |s|
  {
    if |sub| > |s| then false
    else if sub <= s then
      assert OccursAt(s, sub, 0);
      true
    else
      ContainsStep(s, sub);
      Contains(s[1..], sub)
  }

  /** Outside the first position, the occurrences of `sub` in `s` are those
      in `s[1..]`, shifted by one. */
  lemma ContainsStep(s: string, sub: string)
    requires |s| > 0 && !(sub <= s)
    ensures (exists i :: OccursAt(s, sub, i)) <==> (exists j :: OccursAt(s[1..], sub, j))
  {
    if exists i :: OccursAt(s, sub, i) {
      var i :| OccursAt(s, sub, i);
      assert s[0..|sub|] == s[..|sub|];
      assert OccursAt(s[1..], sub, i - 1) by {
        assert s[1..][i - 1..i - 1 + |sub|] == s[i..i + |sub|];
      }
    }
    if exists j :: OccursAt(s[1..], sub, j) {
      var j :| OccursAt(s[1..], sub, j);
      assert OccursAt(s, sub, j + 1) by {
        assert s[1..][j..j + |sub|] == s[j + 1..j + 1 + |sub|];
      }
    }
  }

  /** `s.Replace(" ", "")`: every U+0020 removed, every other character
      kept in order. */
  function RemoveSpaces(s: string): (r: string)
    ensures ' ' !in r
    ensures forall c :: c != ' ' ==> multiset(r)[c] == multiset(s)[c]
    ensures ' ' !in s ==> r == s
  {
    if |s| == 0 then ""
    else
      var rest := RemoveSpaces(s[1..]);
      assert s == [s[0]] + s[1..];
      if s[0] == ' ' then rest else [s[0]] + rest
  }

  /** Removing the spaces of two texts one after the other is removing
      them from their concatenation: the kept characters stay in order. */
  lemma {:induction false} RemoveSpacesAppend(a: string, b: string)
    ensures RemoveSpaces(a + b) == RemoveSpaces(a) + RemoveSpaces(b)
  {
    if |a| == 0 {
      assert a + b == b;
    } else {
      var ab := a + b;
      assert ab[0] == a[0] && ab[1..] == a[1..] + b;
      RemoveSpacesAppend(a[1..], b);
      var rest := RemoveSpaces(a[1..]) + RemoveSpaces(b);
      assert RemoveSpaces(ab) == if a[0] == ' ' then rest else [a[0]] + rest;
      if a[0] != ' ' {
        assert [a[0]] + rest == ([a[0]] + RemoveSpaces(a[1..])) + RemoveSpaces(b);
      }
    }
  }

  /** The character of a decimal digit. */
  function DigitChar(d: nat): char
    requires d < 10
  {
    (48 + d) as char
  }

  predicate IsDigit(c: char) {
    '0' <= c <= '9'
  }

  /** `n.ToString()` for a non-negative integer: decimal digits, no sign,
      no leading zero. */
  function NatText(n: nat): (r: string)
    ensures |r| >= 1
    ensures forall i :: 0 <= i < |r| ==> IsDigit(r[i])
    ensures |r| > 1 ==> r[0] != '0'
  {
    if n < 10 then [DigitChar(n)] else NatText(n / 10) + [DigitChar(n % 10)]
  }

  /** Reads a non-empty run of decimal digits; anything else is refused. */
  function ParseNat(s: string): (r: Option<nat>)
    ensures r.Some? <==> |s| > 0 && forall i :: 0 <= i < |s| ==> IsDigit(s[i])
  {
    if |s| == 0 || !IsDigit(s[|s| - 1]) then None
    else
      var d := (s[|s| - 1] as int - 48) as nat;
      if |s| == 1 then Some(d)
      else match ParseNat(s[..|s| - 1])
        case None => None
        case Some(m) => Some(m * 10 + d)
  }

  /** Decimal text reads back as the number it was written from. */
  lemma {:induction false} NatTextRoundTrip(n: nat)
    ensures ParseNat(NatText(n)) == Some(n)
  {
    if n >= 10 {
      NatTextRoundTrip(n / 10);
      var s := NatText(n);
      assert s[..|s| - 1] == NatText(n / 10);
    }
  }

  /** Different numbers have different decimal text. */
  lemma NatTextInjective(m: nat, n: nat)
    requires NatText(m) == NatText(n)
    ensures m == n
  {
    NatTextRoundTrip(m);
    NatTextRoundTrip(n);
  }

  const Int32Min: int := -0x8000_0000
  const Int32Max: int := 0x7FFF_FFFF

  /** `int.Parse` on text that has already been trimmed: an optional sign
      followed by ASCII digits, within the range of a 32-bit integer.
      Every other text makes `int.Parse` throw, shown here as `None`. */
  function ParseInt32(s: string): (r: Option<int>)
    ensures r.Some? ==> Int32Min <= r.value <= Int32Max
  {
    var negative := |s| > 0 && s[0] == '-';
    var digits := if |s| > 0 && (s[0] == '-' || s[0] == '+') then s[1..] else s;
    match ParseNat(digits)
    case None => None
    case Some(n) =>
      var v: int := if negative then -(n as int) else n;
      if Int32Min <= v <= Int32Max then Some(v) else None
  }

  /** The decimal text of a positive 32-bit number parses back to it. */
  lemma ParseInt32OfNatText(n: nat)
    requires n <= Int32Max
    ensures ParseInt32(NatText(n)) == Some(n)
  {
    NatTextRoundTrip(n);
    assert IsDigit(NatText(n)[0]);
  }

  /** `z` leading zeros. */
  function Zeros(z: nat): (r: string)
    ensures |r| == z && forall i :: 0 <= i < z ==> r[i] == '0'
  {
    seq(z, _ => '0')
  }

  /** A non-empty run of zeros reads as 0. */
  lemma {:induction false} ParseNatZeros(z: nat)
    requires z >= 1
    ensures ParseNat(Zeros(z)) == Some(0)
  {
    if z > 1 {
      ParseNatZeros(z - 1);
      assert Zeros(z)[..z - 1] == Zeros(z - 1);
    }
  }

  /** Leading zeros do not change the number that digit text reads as. */
  lemma {:induction false} ParseNatPadded(z: nat, n: nat)
    ensures ParseNat(Zeros(z) + NatText(n)) == Some(n)
  {
    var s := Zeros(z) + NatText(n);
    if n < 10 {
      if z > 0 {
        ParseNatZeros(z);
        assert s[..|s| - 1] == Zeros(z);
      }
    } else {
      ParseNatPadded(z, n / 10);
      assert s[..|s| - 1] == Zeros(z) + NatText(n / 10);
    }
  }

  /** A text of two or more digits reads as ten times its leading part
      plus its last digit. */
  lemma ParseNatLast(s: string)
    requires |s| > 1 && ParseNat(s).Some?
    ensures ParseNat(s[..|s| - 1]).Some?
    ensures ParseNat(s).value == ParseNat(s[..|s| - 1]).value * 10 + (s[|s| - 1] as int - 48)
  {
  }

  /** A single digit is written as itself. */
  lemma NatTextDigit(d: nat)
    requires d < 10
    ensures NatText(d) == [DigitChar(d)]
  {
  }

  /** The decimal text of `10 * m + d` for a positive `m`. */
  lemma NatTextSnoc(m: nat, d: nat)
    requires m > 0 && d < 10
    ensures NatText(m * 10 + d) == NatText(m) + [DigitChar(d)]
  {
    var n := m * 10 + d;
    assert n / 10 == m && n % 10 == d;
  }

  /** One more leading zero. */
  lemma ZerosSnoc(z: nat)
    ensures Zeros(z) + NatText(0) == Zeros(z + 1)
  {
    assert NatText(0) == ['0'];
  }

  /** Appending digit `d` to padded decimal text: after zeros only it
      adds one more padding zero's worth, otherwise it writes `10 m + d`. */
  lemma PaddedSnoc(z: nat, m: nat, d: nat)
    requires d < 10
    ensures m == 0 ==> Zeros(z) + NatText(m) + [DigitChar(d)] == Zeros(z + 1) + NatText(d)
    ensures m > 0 ==> Zeros(z) + NatText(m) + [DigitChar(d)] == Zeros(z) + NatText(m * 10 + d)
  {
    NatTextDigit(d);
    if m == 0 {
      ZerosSnoc(z);
    } else {
      NatTextSnoc(m, d);
      assert (Zeros(z) + NatText(m)) + [DigitChar(d)] == Zeros(z) + (NatText(m) + [DigitChar(d)]);
    }
  }

  /** Every text that reads as a number is that number's decimal text
      after some leading zeros. */
  lemma {:induction false} ParseNatShape(s: string)
    requires ParseNat(s).Some?
    ensures exists z: nat :: s == Zeros(z) + NatText(ParseNat(s).value)
  {
    var n := ParseNat(s).value;
    var c := s[|s| - 1];
    var d := (c as int - 48) as nat;
    assert DigitChar(d) == c;
    if |s| == 1 {
      NatTextDigit(d);
      assert s == Zeros(0) + NatText(n);
    } else {
      var p := s[..|s| - 1];
      assert s == p + [c];
      ParseNatLast(s);
      ParseNatShape(p);
      var m := ParseNat(p).value;
      var z: nat :| p == Zeros(z) + NatText(m);
      PaddedSnoc(z, m, d);
      if m == 0 {
        assert s == Zeros(z + 1) + NatText(n);
      } else {
        assert s == Zeros(z) + NatText(n);
      }
    }
  }

  /** `int.Parse` on digit text `t`, bare or after a sign: the number `t`
      reads as, negated after a minus, when it fits in 32 bits. */
  lemma ParseInt32Signed(t: string, n: nat)
    requires |t| > 0 && IsDigit(t[0]) && ParseNat(t) == Some(n)
    ensures ParseInt32(t) == (if n <= Int32Max then Some(n) else None)
    ensures ParseInt32("+" + t) == (if n <= Int32Max then Some(n) else None)
    ensures ParseInt32("-" + t) == (if n <= -Int32Min then Some(-(n as int)) else None)
  {
    var plus, minus := "+" + t, "-" + t;
    assert plus[0] == '+' && plus[1..] == t;
    assert minus[0] == '-' && minus[1..] == t;
  }

  /** Exactly the texts `int.Parse` accepts: an optional sign, any number
      of leading zeros and the decimal text of a number, where a minus
      sign negates the number and the result must fit in 32 bits. */
  lemma ParseInt32OfText(z: nat, n: nat)
    ensures ParseInt32(Zeros(z) + NatText(n)) == (if n <= Int32Max then Some(n) else None)
    ensures ParseInt32("+" + (Zeros(z) + NatText(n))) == (if n <= Int32Max then Some(n) else None)
    ensures ParseInt32("-" + (Zeros(z) + NatText(n))) == (if n <= -Int32Min then Some(-(n as int)) else None)
  {
    var t := Zeros(z) + NatText(n);
    ParseNatPadded(z, n);
    assert IsDigit(t[0]) by {
      if z == 0 { assert t[0] == NatText(n)[0]; }
    }
    ParseInt32Signed(t, n);
  }

  /** `s` is the decimal text of `v` after `z` leading zeros, bare or
      signed: a plus sign only before a non-negative number, a minus sign
      only before a number that is not positive. */
  predicate SignedText(s: string, v: int, z: nat) {
    || (v >= 0 && s == Zeros(z) + NatText(v))
    || (v >= 0 && s == "+" + (Zeros(z) + NatText(v)))
    || (v <= 0 && s == "-" + (Zeros(z) + NatText(-v)))
  }

  /** Every text `int.Parse` accepts has the shape `ParseInt32OfText`
      describes, with the sign matching the result. */
  lemma ParseInt32Shape(s: string)
    requires ParseInt32(s).Some?
    ensures exists z: nat :: SignedText(s, ParseInt32(s).value, z)
  {
    var v := ParseInt32(s).value;
    var signed := s[0] == '-' || s[0] == '+';
    var digits := if signed then s[1..] else s;
    var n := ParseNat(digits).value;
    ParseNatShape(digits);
    var z: nat :| digits == Zeros(z) + NatText(n);
    if !signed {
      assert s == digits && v == n;
    } else if s[0] == '-' {
      assert s == "-" + digits && v == -(n as int);
    } else {
      assert s == "+" + digits && v == n;
    }
    assert SignedText(s, v, z);
  }

  /** `string.Split(sep)`: the pieces between separators, empty pieces
      included; text without a separator is one piece. */
  function Split(s: string, sep: char): (parts: seq<string>)
    ensures |parts| >= 1
    ensures forall i :: 0 <= i < |parts| ==> sep !in parts[i]
  {
    if |s| == 0 then [""]
    else
      var rest := Split(s[1..], sep);
      if s[0] == sep then [""] + rest
      else [[s[0]] + rest[0]] + rest[1..]
  }

  /** `string.Join(sep, parts)`. */
  function Join(parts: seq<string>, sep: char): string
    requires |parts| >= 1
  {
    if |parts| == 1 then parts[0] else parts[0] + [sep] + Join(parts[1..], sep)
  }

  /** Joining the pieces of a split gives back the original text. */
  lemma {:induction false} JoinSplit(s: string, sep: char)
    ensures Join(Split(s, sep), sep) == s
  {
    if |s| > 0 {
      var rest := Split(s[1..], sep);
      JoinSplit(s[1..], sep);
      if s[0] == sep {
        assert Split(s, sep)[1..] == rest;
      } else {
        var parts := Split(s, sep);
        if |rest| > 1 {
          assert parts[1..] == rest[1..];
          assert Join(rest, sep) == rest[0] + [sep] + Join(rest[1..], sep);
        }
      }
      assert s == [s[0]] + s[1..];
    }
  }

  /** A separator right after a separator-free prefix ends the first piece. */
  lemma {:induction false} SplitAtSeparator(a: string, b: string, sep: char)
    requires sep !in a
    ensures Split(a + [sep] + b, sep) == [a] + Split(b, sep)
  {
    if |a| == 0 {
      assert a + [sep] + b == [sep] + b;
      assert ([sep] + b)[1..] == b;
    } else {
      SplitAtSeparator(a[1..], b, sep);
      assert (a + [sep] + b)[1..] == a[1..] + [sep] + b;
      assert a == [a[0]] + a[1..];
    }
  }

  /** Text without a separator splits into itself. */
  lemma {:induction false} SplitNoSeparator(a: string, sep: char)
    requires sep !in a
    ensures Split(a, sep) == [a]
  {
    if |a| > 0 {
      SplitNoSeparator(a[1..], sep);
      assert a == [a[0]] + a[1..];
    }
  }

  /** Splitting a join of separator-free pieces gives back the pieces. */
  lemma {:induction false} SplitJoin(parts: seq<string>, sep: char)
    requires |parts| >= 1
    requires forall i :: 0 <= i < |parts| ==> sep !in parts[i]
    ensures Split(Join(parts, sep), sep) == parts
  {
    if |parts| == 1 {
      SplitNoSeparator(parts[0], sep);
    } else {
      SplitJoin(parts[1..], sep);
      SplitAtSeparator(parts[0], Join(parts[1..], sep), sep);
      assert parts == [parts[0]] + parts[1..];
    }
  }
}
