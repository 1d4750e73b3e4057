/**
  The string operations the handlers rely on: ASCII lower-casing, substring search
  (`includes`), decimal digits, two-character zero padding and JavaScript's `trim`.
 */
module Text {
  import opened Common

  predicate IsUpper(c: char)
  {
    'A' <= c <= 'Z'
  }

  function LowerChar(c: char): (l: char)
    ensures !IsUpper(l)
    ensures !IsUpper(c) ==> l == c
  {
    if IsUpper(c) then (c as int + 32) as char else c
  }

  /** `toLowerCase` restricted to the ASCII letters. */
  function Lower(s: string): (r: string)
    ensures |r| == |s|
    ensures forall i :: 0 <= i < |s| ==> r[i] == LowerChar(s[i])
  {
    seq(|s|, i requires 0 <= i < |s| => LowerChar(s[i]))
  }

  lemma LowerIdempotent(s: string)
    ensures Lower(Lower(s)) == Lower(s)
  {
  }

  lemma LowerSlice(s: string, i: int, j: int)
    requires 0 <= i <= j <= |s|
    ensures Lower(s[i..j]) == Lower(s)[i..j]
  {
  }

  /** `sub` occurs in `s` starting at index `i`. */
  predicate OccursAt(s: string, sub: string, i: int)
  {
    0 <= i <= |s| - |sub| && s[i..i + |sub|] == sub
  }

  /** `s.includes(sub)`. */
  predicate Contains(s: string, sub: string)
  {
    exists i | 0 <= i <= |s| - |sub| :: OccursAt(s, sub, i)
  }

  /** A substring of a substring is a substring. */
  lemma ContainsTransitive(a: string, b: string, c: string)
    requires Contains(a, b) && Contains(b, c)
    ensures Contains(a, c)
  {
    var i :| 0 <= i <= |a| - |b| && OccursAt(a, b, i);
    var j :| 0 <= j <= |b| - |c| && OccursAt(b, c, j);
    assert 0 <= i <= |a| - |b| && a[i..i + |b|] == b;
    assert 0 <= j <= |b| - |c| && b[j..j + |c|] == c;
    forall k | 0 <= k < |c|
      ensures a[i + j + k] == c[k]
    {
      assert c[k] == b[j + k] == a[i..i + |b|][j + k];
    }
    assert a[i + j..i + j + |c|] == c;
    assert OccursAt(a, c, i + j);
  }

  /** Lower-casing both sides keeps a substring a substring. */
  lemma ContainsLower(s: string, sub: string)
    requires Contains(s, sub)
    ensures Contains(Lower(s), Lower(sub))
  {
    var i :| 0 <= i <= |s| - |sub| && OccursAt(s, sub, i);
    assert 0 <= i <= |s| - |sub| && s[i..i + |sub|] == sub;
    LowerSlice(s, i, i + |sub|);
    assert Lower(s)[i..i + |sub|] == Lower(sub);
    assert OccursAt(Lower(s), Lower(sub), i);
  }

  predicate IsDigit(c: char)
  {
    '0' <= c <= '9'
  }

  predicate AllDigits(s: string)
  {
    forall i :: 0 <= i < |s| ==> IsDigit(s[i])
  }

  function DigitChar(n: int): (c: char)
    requires 0 <= n < 10
    ensures IsDigit(c)
  {
    ('0' as int + n) as char
  }

  function DigitValue(c: char): int
    requires IsDigit(c)
  {
    c as int - '0' as int
  }

  /** `String(n)` for a natural number. */
  function NatToString(n: nat): (s: string)
    ensures |s| >= 1 && AllDigits(s)
    decreases n
  {
    if n < 10 then [DigitChar(n)] else NatToString(n / 10) + [DigitChar(n % 10)]
  }

  /** `String(n)` for any integer: a minus sign in front of a negative number's digits. */
  function IntToString(n: int): (s: string)
    ensures |s| >= 1
    ensures n >= 0 ==> AllDigits(s)
    ensures n < 0 ==> s[0] == '-' && AllDigits(s[1..])
  {
    if n < 0 then "-" + NatToString(-n) else NatToString(n)
  }

  function DigitsValue(s: string): nat
    requires AllDigits(s)
    decreases |s|
  {
    if |s| == 0 then 0 else DigitsValue(s[..|s| - 1]) * 10 + DigitValue(s[|s| - 1])
  }

  /** `parseInt` on a string of decimal digits; anything else is not a number here. */
  function ParseNat(s: string): Option<nat>
  {
    if |s| > 0 && AllDigits(s) then Some(DigitsValue(s)) else None
  }

  lemma {:induction false} ParseNatToString(n: nat)
    ensures ParseNat(NatToString(n)) == Some(n)
    decreases n
  {
    if n >= 10 {
      ParseNatToString(n / 10);
      var s := NatToString(n);
      assert s[..|s| - 1] == NatToString(n / 10);
      assert DigitValue(s[|s| - 1]) == n % 10;
      assert DigitsValue(s) == (n / 10) * 10 + n % 10;
    }
  }

  /** A leading zero does not change the value of a digit string. */
  lemma LeadingZero(s: string)
    requires AllDigits(s)
    ensures AllDigits("0" + s) && DigitsValue("0" + s) == DigitsValue(s)
    decreases |s|
  {
    if |s| > 0 {
      assert ("0" + s)[..|"0" + s| - 1] == "0" + s[..|s| - 1];
      LeadingZero(s[..|s| - 1]);
    }
  }

  /** Padding a digit string with a zero keeps it a digit string of the same value. */
  lemma PadDigits(s: string)
    requires |s| >= 1 && AllDigits(s)
    ensures AllDigits(PadStart2(s)) && ParseNat(PadStart2(s)) == ParseNat(s)
  {
    if |s| == 1 {
      LeadingZero(s);
    }
  }

  /** `s.padStart(2, '0')`. */
  function PadStart2(s: string): (r: string)
    ensures |r| == if |s| >= 2 then |s| else 2
    ensures r[|r| - |s|..] == s
    ensures forall i :: 0 <= i < |r| - |s| ==> r[i] == '0'
  {
    if |s| >= 2 then s else if |s| == 1 then "0" + s else "00"
  }

  /** The characters `String.prototype.trim` removes: white space and line terminators. */
  predicate IsSpace(c: char)
  {
    c == ' ' || c == '\t' || c == '\n' || c == '\r' || c == '\U{0B}' || c == '\U{0C}' ||
    c == '\U{A0}' || c == '\U{1680}' || ('\U{2000}' <= c <= '\U{200A}') ||
    c == '\U{2028}' || c == '\U{2029}' || c == '\U{202F}' || c == '\U{205F}' ||
    c == '\U{3000}' || c == '\U{FEFF}'
  }

  function TrimStart(s: string): (r: string)
    ensures |r| <= |s| && r == s[|s| - |r|..]
    ensures |r| > 0 ==> !IsSpace(r[0])
    ensures forall i :: 0 <= i < |s| - |r| ==> IsSpace(s[i])
    decreases |s|
  {
    if |s| > 0 && IsSpace(s[0]) then TrimStart(s[1..]) else s
  }

  function TrimEnd(s: string): (r: string)
    ensures |r| <= |s| && r == s[..|r|]
    ensures |r| > 0 ==> !IsSpace(r[|r| - 1])
    ensures forall i :: |r| <= i < |s| ==> IsSpace(s[i])
    decreases |s|
  {
    if |s| > 0 && IsSpace(s[|s| - 1]) then TrimEnd(s[..|s| - 1]) else s
  }

  /** `r` is the infix of `s` starting at `a`, and everything of `s` around it is white space. */
  ghost predicate InfixAmidSpace(r: string, s: string, a: int)
  {
    && 0 <= a <= |s| - |r|
    && r == s[a..a + |r|]
    && (forall i :: 0 <= i < a ==> IsSpace(s[i]))
    && (forall i :: a + |r| <= i < |s| ==> IsSpace(s[i]))
  }

  /** `s.trim()`: the longest infix of `s` that neither starts nor ends with white space. */
  function Trim(s: string): (r: string)
    ensures exists a :: InfixAmidSpace(r, s, a)
    ensures |r| > 0 ==> !IsSpace(r[0]) && !IsSpace(r[|r| - 1])
  {
    var t := TrimStart(s);
    var r := TrimEnd(t);
    assert InfixAmidSpace(r, s, |s| - |t|);
    r
  }

  lemma TrimIdempotent(s: string)
    ensures Trim(Trim(s)) == Trim(s)
  {
    TrimUnchanged(Trim(s));
  }

  /** A string that does not begin or end with white space is its own trim. */
  lemma TrimUnchanged(s: string)
    requires |s| > 0 ==> !IsSpace(s[0]) && !IsSpace(s[|s| - 1])
    ensures Trim(s) == s
  {
    if |s| > 0 {
      NoLeadingSpace(s);
      NoTrailingSpace(s);
    }
  }

  lemma NoTrailingSpace(s: string)
    requires |s| > 0 && !IsSpace(s[|s| - 1])
    ensures TrimEnd(s) == s
  {
  }

  /** The longest prefix of `s` made of decimal digits. */
  function DigitPrefix(s: string): (r: string)
    ensures AllDigits(r) && |r| <= |s| && r == s[..|r|]
    ensures |r| < |s| ==> !IsDigit(s[|r|])
    decreases |s|
  {
    if |s| > 0 && IsDigit(s[0]) then [s[0]] + DigitPrefix(s[1..]) else []
  }

  predicate IsHexDigit(c: char)
  {
    IsDigit(c) || 'a' <= c <= 'f' || 'A' <= c <= 'F'
  }

  predicate AllHexDigits(s: string)
  {
    forall i :: 0 <= i < |s| ==> IsHexDigit(s[i])
  }

  function HexDigitValue(c: char): (v: int)
    requires IsHexDigit(c)
    ensures 0 <= v < 16
  {
    if IsDigit(c) then DigitValue(c)
    else if 'a' <= c <= 'f' then c as int - 'a' as int + 10
    else c as int - 'A' as int + 10
  }

  function HexDigitsValue(s: string): nat
    requires AllHexDigits(s)
    decreases |s|
  {
    if |s| == 0 then 0 else HexDigitsValue(s[..|s| - 1]) * 16 + HexDigitValue(s[|s| - 1])
  }

  /** The longest prefix of `s` made of hexadecimal digits. */
  function HexPrefix(s: string): (r: string)
    ensures AllHexDigits(r) && |r| <= |s| && r == s[..|r|]
    ensures |r| < |s| ==> !IsHexDigit(s[|r|])
    decreases |s|
  {
    if |s| > 0 && IsHexDigit(s[0]) then [s[0]] + HexPrefix(s[1..]) else []
  }

  /** After the sign, `0x` or `0X` switches `parseInt` to base 16. */
  predicate HexMarked(u: string)
  {
    |u| >= 2 && u[0] == '0' && (u[1] == 'x' || u[1] == 'X')
  }

  /** The value of the leading run of digits of `u` in the base its prefix selects; `None` without digits. */
  function Magnitude(u: string): Option<nat>
  {
    if HexMarked(u) then
      var digits := HexPrefix(u[2..]);
      if |digits| == 0 then None else Some(HexDigitsValue(digits))
    else
      var digits := DigitPrefix(u);
      if |digits| == 0 then None else Some(DigitsValue(digits))
  }

  /**
    `parseInt(s)` without a radix: leading white space is skipped, then the
    rest is read by `ReadSigned`.
   */
  function ParseInt(s: string): (r: Option<int>)
    ensures r.Some? ==> |TrimStart(s)| > 0
    ensures var t := TrimStart(s); var signed := |t| > 0 && (t[0] == '-' || t[0] == '+');
      r.None? <==> Magnitude(if signed then t[1..] else t).None?
  {
    ReadSigned(TrimStart(s))
  }

  /**
    What `parseInt` reads once the white space is gone: one `+` or `-`, then
    `0x`/`0X` selects base 16 and otherwise base 10 applies, and the longest run
    of digits of that base is read; without digits the result is NaN, here `None`.
   */
  function ReadSigned(t: string): (r: Option<int>)
    ensures r.Some? ==> |t| > 0
    ensures var signed := |t| > 0 && (t[0] == '-' || t[0] == '+');
      r.None? <==> Magnitude(if signed then t[1..] else t).None?
  {
    var signed := |t| > 0 && (t[0] == '-' || t[0] == '+');
    match Magnitude(if signed then t[1..] else t)
    case None => None
    case Some(v) => if signed && t[0] == '-' then Some(-(v as int)) else Some(v as int)
  }

  lemma DigitPrefixOfDigits(s: string, rest: string)
    requires AllDigits(s)
    requires |rest| > 0 ==> !IsDigit(rest[0])
    ensures DigitPrefix(s + rest) == s
    decreases |s|
  {
    if |s| > 0 {
      assert (s + rest)[1..] == s[1..] + rest;
      DigitPrefixOfDigits(s[1..], rest);
    } else {
      assert s + rest == rest;
    }
  }

  /** `parseInt(String(n))` is `n`, and so is `parseInt` of `n` followed by anything but a digit. */
  lemma ParseIntToString(n: nat, rest: string)
    requires |rest| > 0 ==> !IsDigit(rest[0])
    requires n == 0 && |rest| > 0 ==> rest[0] != 'x' && rest[0] != 'X'
    ensures ParseInt(NatToString(n) + rest) == Some(n as int)
  {
    var ds := NatToString(n);
    ParseNatToString(n);
    DigitFirst(ds, rest);
    DecimalNotHexMarked(n, rest);
    DigitPrefixOfDigits(ds, rest);
  }

  /** `parseInt(String(n))` is `n` for every integer. */
  lemma {:induction false} ParseIntIntToString(n: int)
    ensures ParseInt(IntToString(n)) == Some(n)
  {
    var s := IntToString(n);
    var k := if n < 0 then 1 else 0;
    var m: nat := if n < 0 then -n else n;
    assert s[k..|s|] == NatToString(m);
    ParseNatToString(m);
    ParseIntDecimal(s, k, |s|);
  }

  /** The text of a number is read in base 10: it starts `0x` only as `0` followed by an `x`. */
  lemma DecimalNotHexMarked(n: nat, rest: string)
    requires n == 0 && |rest| > 0 ==> rest[0] != 'x' && rest[0] != 'X'
    ensures !HexMarked(NatToString(n) + rest)
  {
    var ds := NatToString(n);
    var m := ds + rest;
    if |ds| >= 2 {
      assert m[1] == ds[1];
    } else if n > 0 {
      assert m[0] == DigitChar(n);
    }
  }

  /** `parseInt("0x10")` is 16. */
  lemma ParseIntHex()
    ensures ParseInt("0x10") == Some(16)
    ensures ParseInt("-0X1f") == Some(-31)
  {
    HexValues();
    var a := "0x10";
    NoLeadingSpace(a);
    assert a[2..] == "10";
    MagnitudeHex(a);
    var b := "-0X1f";
    NoLeadingSpace(b);
    assert b[1..][2..] == "1f";
    MagnitudeHex(b[1..]);
  }

  lemma HexValues()
    ensures HexDigitsValue("10") == 16 && HexDigitsValue("1f") == 31
  {
    assert "10"[..1] == "1" && "1f"[..1] == "1";
    assert HexDigitsValue("1") == 1;
  }

  /** After `0x`, a run of hexadecimal digits is read whole. */
  lemma MagnitudeHex(u: string)
    requires HexMarked(u) && |u| > 2 && AllHexDigits(u[2..])
    ensures Magnitude(u) == Some(HexDigitsValue(u[2..]))
  {
    HexPrefixAll(u[2..]);
  }

  lemma {:induction false} HexPrefixAll(s: string)
    requires AllHexDigits(s)
    ensures HexPrefix(s) == s
    decreases |s|
  {
    if |s| > 0 {
      HexPrefixAll(s[1..]);
    }
  }

  /** Text that starts with a digit has nothing to trim in front and no sign. */
  lemma DigitFirst(ds: string, rest: string)
    requires |ds| > 0 && IsDigit(ds[0])
    ensures var m := ds + rest; TrimStart(m) == m && m[0] != '-' && m[0] != '+'
  {
    var m := ds + rest;
    assert m[0] == ds[0];
    DigitNotSpace(m[0]);
    NoLeadingSpace(m);
  }

  lemma DigitNotSpace(c: char)
    requires IsDigit(c)
    ensures !IsSpace(c)
  {
  }

  lemma NoLeadingSpace(s: string)
    requires |s| > 0 && !IsSpace(s[0])
    ensures TrimStart(s) == s
  {
  }

  /** A minus sign in front negates the number. */
  lemma ParseIntNegative(n: nat, rest: string)
    requires |rest| > 0 ==> !IsDigit(rest[0])
    requires n == 0 && |rest| > 0 ==> rest[0] != 'x' && rest[0] != 'X'
    ensures ParseInt("-" + NatToString(n) + rest) == Some(-(n as int))
  {
    var ds := NatToString(n);
    ParseNatToString(n);
    MinusSplit(ds, rest);
    var m := "-" + ds + rest;
    NoLeadingSpace(m);
    DecimalNotHexMarked(n, rest);
    DigitPrefixOfDigits(ds, rest);
  }

  /** White space in front does not change what `parseInt` reads. */
  lemma {:induction false} ParseIntSkipsSpace(ws: string, t: string)
    requires forall i :: 0 <= i < |ws| ==> IsSpace(ws[i])
    ensures ParseInt(ws + t) == ParseInt(t)
  {
    TrimStartSpaces(ws, t);
  }

  /**
    `parseInt` of text that is an optional sign `s[..k]`, a run of decimal
    digits `s[k..e]` and then anything that does not continue the number: the
    digits' value, negated after `-`.
   */
  lemma {:induction false} ParseIntDecimal(s: string, k: nat, e: nat)
    requires k <= 1 && k < e <= |s|
    requires k == 1 ==> s[0] == '+' || s[0] == '-'
    requires AllDigits(s[k..e])
    requires e < |s| ==> !IsDigit(s[e])
    requires s[k..e] == "0" && e < |s| ==> s[e] != 'x' && s[e] != 'X'
    ensures var v := DigitsValue(s[k..e]);
      ParseInt(s) == Some(if k == 1 && s[0] == '-' then -(v as int) else v as int)
  {
    DecimalPieces(s, k, e);
    SignedMagnitude(s, k, DigitsValue(s[k..e]));
  }

  /**
    `parseInt` of text that is an optional sign `s[..k]`, `0x` or `0X`, a run
    of hexadecimal digits `s[k + 2..e]` and then anything that does not continue
    it: their base-16 value, negated after `-`.
   */
  lemma {:induction false} ParseIntHexDigits(s: string, k: nat, e: nat)
    requires k <= 1 && k + 2 < e <= |s|
    requires k == 1 ==> s[0] == '+' || s[0] == '-'
    requires s[k] == '0' && (s[k + 1] == 'x' || s[k + 1] == 'X')
    requires AllHexDigits(s[k + 2..e])
    requires e < |s| ==> !IsHexDigit(s[e])
    ensures var v := HexDigitsValue(s[k + 2..e]);
      ParseInt(s) == Some(if k == 1 && s[0] == '-' then -(v as int) else v as int)
  {
    HexPieces(s, k, e);
    SignedMagnitude(s, k, HexDigitsValue(s[k + 2..e]));
  }

  lemma {:induction false} DecimalPieces(s: string, k: nat, e: nat)
    requires k <= 1 && k < e <= |s|
    requires k == 1 ==> s[0] == '+' || s[0] == '-'
    requires AllDigits(s[k..e])
    requires e < |s| ==> !IsDigit(s[e])
    requires s[k..e] == "0" && e < |s| ==> s[e] != 'x' && s[e] != 'X'
    ensures IsDigit(s[k]) && Magnitude(s[k..]) == Some(DigitsValue(s[k..e]))
  {
    var ds, rest := s[k..e], s[e..];
    assert s[k..] == ds + rest && s[k] == ds[0];
    assert |rest| > 0 ==> rest[0] == s[e];
    DecimalMagnitude(ds, rest);
  }

  lemma {:induction false} HexPieces(s: string, k: nat, e: nat)
    requires k <= 1 && k + 2 < e <= |s|
    requires k == 1 ==> s[0] == '+' || s[0] == '-'
    requires s[k] == '0' && (s[k + 1] == 'x' || s[k + 1] == 'X')
    requires AllHexDigits(s[k + 2..e])
    requires e < |s| ==> !IsHexDigit(s[e])
    ensures IsDigit(s[k]) && Magnitude(s[k..]) == Some(HexDigitsValue(s[k + 2..e]))
  {
    var mark, h, rest := s[k..k + 2], s[k + 2..e], s[e..];
    assert s[k..] == mark + h + rest;
    assert |rest| > 0 ==> rest[0] == s[e];
    assert mark == "0x" || mark == "0X";
    HexMagnitude(mark, h, rest);
  }

  /** After an optional sign `t[..k]`, `parseInt` reads the magnitude of what follows. */
  lemma {:induction false} SignedMagnitude(t: string, k: nat, v: nat)
    requires k <= 1 && k < |t|
    requires k == 1 ==> t[0] == '+' || t[0] == '-'
    requires IsDigit(t[k]) && Magnitude(t[k..]) == Some(v)
    ensures ParseInt(t) == Some(if k == 1 && t[0] == '-' then -(v as int) else v as int)
  {
    DigitNotSpace(t[k]);
    NoLeadingSpace(t);
    if k == 0 {
      assert t[k..] == t;
    }
    ReadSignedValue(t, v);
  }

  lemma ReadSignedValue(t: string, v: nat)
    requires |t| > 0
    requires var signed := t[0] == '-' || t[0] == '+'; Magnitude(if signed then t[1..] else t) == Some(v)
    ensures ReadSigned(t) == Some(if t[0] == '-' then -(v as int) else v as int)
  {
  }

  lemma {:induction false} DecimalMagnitude(ds: string, rest: string)
    requires |ds| > 0 && AllDigits(ds)
    requires ds == "0" && |rest| > 0 ==> rest[0] != 'x' && rest[0] != 'X'
    requires |rest| > 0 ==> !IsDigit(rest[0])
    ensures var u := ds + rest; IsDigit(u[0]) && Magnitude(u) == Some(DigitsValue(ds))
  {
    assert (ds + rest)[0] == ds[0];
    DigitsNotHexMarked(ds, rest);
    DigitPrefixOfDigits(ds, rest);
  }

  lemma {:induction false} HexMagnitude(mark: string, h: string, rest: string)
    requires mark == "0x" || mark == "0X"
    requires AllHexDigits(h)
    requires |rest| > 0 ==> !IsHexDigit(rest[0])
    ensures var u := mark + h + rest; IsDigit(u[0]) && Magnitude(u) == (if |h| == 0 then None else Some(HexDigitsValue(h)))
  {
    var u := mark + h + rest;
    assert u[0] == '0' && HexMarked(u) && u[2..] == h + rest;
    HexPrefixOfHex(h, rest);
  }

  lemma {:induction false} TrimStartSpaces(ws: string, t: string)
    requires forall i :: 0 <= i < |ws| ==> IsSpace(ws[i])
    ensures TrimStart(ws + t) == TrimStart(t)
    decreases |ws|
  {
    if |ws| > 0 {
      assert (ws + t)[0] == ws[0];
      assert (ws + t)[1..] == ws[1..] + t;
      TrimStartSpaces(ws[1..], t);
    } else {
      assert ws + t == t;
    }
  }

  lemma {:induction false} DigitsNotHexMarked(ds: string, rest: string)
    requires |ds| > 0 && AllDigits(ds)
    requires ds == "0" && |rest| > 0 ==> rest[0] != 'x' && rest[0] != 'X'
    ensures !HexMarked(ds + rest)
  {
    var u := ds + rest;
    if |ds| >= 2 {
      assert u[1] == ds[1];
    } else if ds != "0" {
      assert u[0] == ds[0];
    } else if |rest| > 0 {
      assert u[1] == rest[0];
    }
  }

  lemma {:induction false} HexPrefixOfHex(h: string, rest: string)
    requires AllHexDigits(h)
    requires |rest| > 0 ==> !IsHexDigit(rest[0])
    ensures HexPrefix(h + rest) == h
    decreases |h|
  {
    if |h| > 0 {
      assert (h + rest)[0] == h[0];
      assert (h + rest)[1..] == h[1..] + rest;
      HexPrefixOfHex(h[1..], rest);
    } else {
      assert h + rest == rest;
    }
  }

  lemma MinusSplit(ds: string, rest: string)
    ensures var m := "-" + ds + rest; |m| > 0 && m[0] == '-' && m[1..] == ds + rest
  {
  }
}
