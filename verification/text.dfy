/** The .NET string operations the controllers rely on: whitespace tests,
    trimming, ASCII case folding, substring search, decimal digits and
    `Path.GetExtension`. A null string is modelled as "" wherever the
    controllers treat null and "" alike (`string.IsNullOrWhiteSpace`,
    `?? ""`, `x != null && x.Contains(..)`). Where they do not, the
    difference is modelled where it arises: a blank posted value binds to
    null (`BoundText`), and a null stored in a NOT NULL column makes the
    save fail (the visit note in `Appointments.BookAsWritten`, the
    administrator's note in `ManualPayment.DecideAsWritten`); a
    non-nullable string on a form is required (`Listings.AdminFormValid`,
    `ManualPayment.PaymentFormValid`). */
module Text {
  import opened Wrappers

  // ---------------------------------------------------------------------
  // Whitespace
  // ---------------------------------------------------------------------

  /** `char.IsWhiteSpace`: U+0009..U+000D, U+0020, U+0085, U+00A0 and the
      Unicode space separators. */
  predicate IsWhiteSpace(c: char) {
    var n := c as int;
    (9 <= n <= 13) || n == 0x20 || n == 0x85 || n == 0xA0 || n == 0x1680
    || (0x2000 <= n <= 0x200A) || n == 0x2028 || n == 0x2029
    || n == 0x202F || n == 0x205F || n == 0x3000
  }

  /** The white space `int.TryParse` skips (NumberStyles.AllowLeadingWhite
      and AllowTrailingWhite): U+0009..U+000D and U+0020 only. */
  predicate IsNumberWhite(c: char) {
    c == ' ' || (9 <= c as int <= 13)
  }

  /** Every character of `s` satisfies `white`. */
  predicate AllOf(s: string, white: char -> bool) {
    forall i :: 0 <= i < |s| ==> white(s[i])
  }

  /** `string.IsNullOrWhiteSpace`. */
  predicate IsBlank(s: string) {
    AllOf(s, IsWhiteSpace)
  }

  /** A posted form value bound to a `string` parameter: an absent ("")
      or blank value binds to null (`None`), any other value as it is. */
  function BoundText(s: string): (r: Option<string>)
    ensures r.None? <==> IsBlank(s)
    ensures r.Some? ==> r.value == s
  {
    if IsBlank(s) then None else Some(s)
  }

  /** The first `i` characters of `s` satisfy `white`. */
  predicate WhiteBefore(s: string, i: int, white: char -> bool) {
    0 <= i <= |s| && forall k :: 0 <= k < i ==> white(s[k])
  }

  /** The characters of `s` from `j` on satisfy `white`. */
  predicate WhiteFrom(s: string, j: int, white: char -> bool) {
    0 <= j <= |s| && forall k :: j <= k < |s| ==> white(s[k])
  }

  /** Drops the leading characters that satisfy `white`. */
  function TrimStartWith(s: string, white: char -> bool): (r: string)
    ensures |r| <= |s| && r == s[|s| - |r|..]
    ensures WhiteBefore(s, |s| - |r|, white)
    ensures |r| > 0 ==> !white(r[0])
  {
    if |s| > 0 && white(s[0]) then
      var r := TrimStartWith(s[1..], white);
      assert WhiteBefore(s, |s| - |r|, white) by {
        forall k | 1 <= k < |s| - |r| ensures white(s[k]) { assert s[k] == s[1..][k - 1]; }
      }
      r
    else
      s
  }

  /** Drops the trailing characters that satisfy `white`. */
  function TrimEndWith(s: string, white: char -> bool): (r: string)
    ensures |r| <= |s| && r == s[..|r|]
    ensures WhiteFrom(s, |r|, white)
    ensures |r| > 0 ==> !white(r[|r| - 1])
  {
    if |s| > 0 && white(s[|s| - 1]) then
      var r := TrimEndWith(s[..|s| - 1], white);
      assert WhiteFrom(s, |r|, white) by {
        forall k | |r| <= k < |s| - 1 ensures white(s[k]) { assert s[k] == s[..|s| - 1][k]; }
      }
      r
    else
      s
  }

  /** `r` is the slice of `s` from `i`, with only `white` characters
      before and after it. */
  predicate SliceBetweenWhite(s: string, r: string, i: int, white: char -> bool) {
    0 <= i <= |s| - |r| && r == s[i..i + |r|] && WhiteBefore(s, i, white) && WhiteFrom(s, i + |r|, white)
  }

  /** Drops the leading and trailing characters that satisfy `white`. */
  function TrimWith(s: string, white: char -> bool): (r: string)
    ensures |r| <= |s|
    ensures r == "" || (!white(r[0]) && !white(r[|r| - 1]))
    ensures r == "" <==> AllOf(s, white)
    ensures SliceBetweenWhite(s, r, |s| - |TrimStartWith(s, white)|, white)
  {
    var t := TrimStartWith(s, white);
    var r := TrimEndWith(t, white);
    TrimmedSlice(s, white, t, r);
    r
  }

  /** Trimming the end of the trimmed start leaves a slice of `s` with only
      `white` characters around it, empty just when `s` is all `white`. */
  lemma TrimmedSlice(s: string, white: char -> bool, t: string, r: string)
    requires |t| <= |s| && t == s[|s| - |t|..] && WhiteBefore(s, |s| - |t|, white)
    requires |t| > 0 ==> !white(t[0])
    requires |r| <= |t| && r == t[..|r|] && WhiteFrom(t, |r|, white)
    ensures SliceBetweenWhite(s, r, |s| - |t|, white)
    ensures r == "" <==> AllOf(s, white)
  {
    var i := |s| - |t|;
    assert WhiteFrom(s, i + |r|, white) by {
      forall k | i + |r| <= k < |s| ensures white(s[k]) { assert s[k] == t[k - i]; }
    }
    if r == "" {
      assert AllOf(s, white) by {
        forall k | 0 <= k < |s| ensures white(s[k]) {
          if k >= i { assert WhiteFrom(s, i, white); }
        }
      }
    } else {
      assert !white(s[i]) by { assert s[i] == t[0]; }
    }
  }

  /** `string.Trim()`: the text without its leading and trailing white
      space. */
  function Trim(s: string): (r: string)
    ensures r == "" <==> IsBlank(s)
    ensures r == "" || (!IsWhiteSpace(r[0]) && !IsWhiteSpace(r[|r| - 1]))
    ensures exists i :: SliceBetweenWhite(s, r, i, IsWhiteSpace)
  {
    TrimWith(s, IsWhiteSpace)
  }

  /** A slice of `s` with `white` characters only around it and none at
      its own ends is what trimming `s` gives. */
  lemma TrimWithSlice(s: string, white: char -> bool, i: int, j: int)
    requires 0 <= i < j <= |s|
    requires WhiteBefore(s, i, white) && WhiteFrom(s, j, white)
    requires !white(s[i]) && !white(s[j - 1])
    ensures TrimWith(s, white) == s[i..j]
  {
    var r := TrimWith(s, white);
    var i' := |s| - |TrimStartWith(s, white)|;
    assert SliceBetweenWhite(s, r, i', white);
    assert r != "" by { assert !white(s[i]); }
    var j' := i' + |r|;
    assert r[0] == s[i'] && r[|r| - 1] == s[j' - 1];
    InnerSliceUnique(s, white, i, j, i', j');
    assert r == s[i'..j'];
  }

  /** Two slices of `s`, each with non-`white` ends and only `white`
      characters around it, coincide. */
  lemma InnerSliceUnique(s: string, white: char -> bool, i: int, j: int, i': int, j': int)
    requires 0 <= i < j <= |s| && 0 <= i' < j' <= |s|
    requires WhiteBefore(s, i, white) && WhiteFrom(s, j, white)
    requires WhiteBefore(s, i', white) && WhiteFrom(s, j', white)
    requires !white(s[i]) && !white(s[j - 1]) && !white(s[i']) && !white(s[j' - 1])
    ensures i == i' && j == j'
  {
  }

  /** `Trim` keeps exactly the part between the leading and the trailing
      white space: any such slice is the result. */
  lemma TrimIsTheInnerSlice(s: string, i: int, j: int)
    requires 0 <= i < j <= |s|
    requires WhiteBefore(s, i, IsWhiteSpace) && WhiteFrom(s, j, IsWhiteSpace)
    requires !IsWhiteSpace(s[i]) && !IsWhiteSpace(s[j - 1])
    ensures Trim(s) == s[i..j]
  {
    TrimWithSlice(s, IsWhiteSpace, i, j);
  }

  /** A text with no `white` character at either end is its own trim. */
  lemma TrimWithNoEdges(s: string, white: char -> bool)
    requires |s| > 0 && !white(s[0]) && !white(s[|s| - 1])
    ensures TrimWith(s, white) == s
  {
  }

  /** Trimming twice is trimming once. */
  lemma TrimIdempotent(s: string)
    ensures Trim(Trim(s)) == Trim(s)
  {
    var u := Trim(s);
    if |u| > 0 {
      TrimWithNoEdges(u, IsWhiteSpace);
    }
  }

  /** `s.TrimEnd(c)`. */
  function TrimEndChar(s: string, c: char): (r: string)
    ensures |r| <= |s| && r == s[..|r|]
    ensures |r| > 0 ==> r[|r| - 1] != c
  {
    TrimEndWith(s, x => x == c)
  }

  // ---------------------------------------------------------------------
  // Case folding and comparison
  // ---------------------------------------------------------------------

  /** Lower-cases one ASCII letter; every other character is kept. */
  function LowerChar(c: char): char {
    if 'A' <= c <= 'Z' then (c as int + 32) as char else c
  }

  /** `ToLower()` / `ToLowerInvariant()` on the ASCII range. */
  function ToLower(s: string): (r: string)
    ensures |r| == |s|
    ensures forall i :: 0 <= i < |s| ==> r[i] == LowerChar(s[i])
  {
    seq(|s|, i requires 0 <= i < |s| => LowerChar(s[i]))
  }

  /** `string.Equals(a, b, StringComparison.OrdinalIgnoreCase)` on ASCII. */
  predicate EqualsIgnoreCase(a: string, b: string) {
    ToLower(a) == ToLower(b)
  }

  predicate StartsWith(s: string, prefix: string) {
    |prefix| <= |s| && s[..|prefix|] == prefix
  }

  /** `s.Contains(t)`: `t` occurs in `s` at some offset. */
  predicate Contains(s: string, t: string)
    decreases |s|
  {
    StartsWith(s, t) || (|s| > 0 && Contains(s[1..], t))
  }

  /** `t` occurs in `s` starting at offset `i`. */
  predicate OccursAt(s: string, t: string, i: int) {
    0 <= i <= |s| - |t| && s[i..i + |t|] == t
  }

  /** Substring search agrees with its definition by offsets. */
  lemma {:induction false} ContainsAtOffset(s: string, t: string)
    ensures Contains(s, t) <==> exists i :: OccursAt(s, t, i)
    decreases |s|
  {
    if StartsWith(s, t) {
      assert OccursAt(s, t, 0);
    } else if |s| > 0 {
      ContainsAtOffset(s[1..], t);
      if Contains(s[1..], t) {
        var i :| OccursAt(s[1..], t, i);
        assert s[i + 1..i + 1 + |t|] == s[1..][i..i + |t|];
        assert OccursAt(s, t, i + 1);
      }
      if exists i :: OccursAt(s, t, i) {
        var i :| OccursAt(s, t, i);
        assert i != 0;
        assert s[1..][i - 1..i - 1 + |t|] == s[i..i + |t|];
        assert OccursAt(s[1..], t, i - 1);
      }
    }
  }

  /** Ordinal lexicographic order, the model of `OrderBy` on a string key. */
  predicate LexLeq(a: string, b: string)
    decreases |a|
  {
    |a| == 0 || (|b| > 0 && (a[0] < b[0] || (a[0] == b[0] && LexLeq(a[1..], b[1..]))))
  }

  lemma {:induction false} LexLeqTotal(a: string, b: string)
    ensures LexLeq(a, b) || LexLeq(b, a)
    decreases |a|
  {
    if |a| > 0 && |b| > 0 && a[0] == b[0] {
      LexLeqTotal(a[1..], b[1..]);
    }
  }

  lemma {:induction false} LexLeqTransitive(a: string, b: string, c: string)
    requires LexLeq(a, b) && LexLeq(b, c)
    ensures LexLeq(a, c)
    decreases |a|
  {
    if |a| > 0 && a[0] == b[0] && b[0] == c[0] {
      LexLeqTransitive(a[1..], b[1..], c[1..]);
    }
  }

  lemma {:induction false} LexLeqAntisymmetric(a: string, b: string)
    requires LexLeq(a, b) && LexLeq(b, a)
    ensures a == b
    decreases |a|
  {
    if |a| > 0 {
      LexLeqAntisymmetric(a[1..], b[1..]);
      assert a == [a[0]] + a[1..] && b == [b[0]] + b[1..];
    }
  }

  // ---------------------------------------------------------------------
  // Decimal digits
  // ---------------------------------------------------------------------

  predicate IsDigit(c: char) {
    '0' <= c <= '9'
  }

  predicate AllDigits(s: string) {
    forall i :: 0 <= i < |s| ==> IsDigit(s[i])
  }

  function DigitChar(d: nat): (c: char)
    requires d < 10
    ensures IsDigit(c) && c as int - '0' as int == d
  {
    ('0' as int + d) as char
  }

  /** `n.ToString()` for a non-negative integer. */
  function NatToString(n: nat): (r: string)
    ensures |r| > 0 && AllDigits(r)
    decreases n
  {
    if n < 10 then [DigitChar(n)] else NatToString(n / 10) + [DigitChar(n % 10)]
  }

  /** The value of a string of decimal digits. */
  function DigitsValue(s: string): nat
    requires AllDigits(s)
  {
    if |s| == 0 then 0
    else 10 * DigitsValue(s[..|s| - 1]) + (s[|s| - 1] as int - '0' as int)
  }

  /** Printing a number and reading it back gives the number. */
  lemma {:induction false} DigitsRoundTrip(n: nat)
    ensures DigitsValue(NatToString(n)) == n
    decreases n
  {
    if n >= 10 {
      var p := NatToString(n / 10);
      var r := p + [DigitChar(n % 10)];
      assert r[..|r| - 1] == p;
      DigitsRoundTrip(n / 10);
    }
  }

  /** Distinct numbers print differently. */
  lemma NatToStringInjective(m: nat, n: nat)
    requires NatToString(m) == NatToString(n)
    ensures m == n
  {
    DigitsRoundTrip(m);
    DigitsRoundTrip(n);
  }

  /** Length of the longest all-digit prefix of `s`. */
  function DigitSpan(s: string): (k: nat)
    ensures k <= |s|
    ensures AllDigits(s[..k])
    ensures k < |s| ==> !IsDigit(s[k])
  {
    if |s| > 0 && IsDigit(s[0]) then
      var k := 1 + DigitSpan(s[1..]);
      assert s[..k] == [s[0]] + s[1..][..k - 1];
      k
    else
      0
  }

  const Int32Min: int := -0x8000_0000
  const Int32Max: int := 0x7FFF_FFFF

  /** `s` is number white space, an optional sign in `s[i..j]`, the digits
      `s[j..k]` and number white space again. */
  predicate NumeralAt(s: string, i: int, j: int, k: int) {
    && 0 <= i <= j < k <= |s| && j - i <= 1
    && WhiteBefore(s, i, IsNumberWhite) && WhiteFrom(s, k, IsNumberWhite)
    && (j == i + 1 ==> s[i] == '+' || s[i] == '-')
    && AllDigits(s[j..k])
  }

  /** The value such a numeral denotes. */
  function NumeralValue(s: string, i: int, j: int, k: int): int
    requires NumeralAt(s, i, j, k)
  {
    if j == i + 1 && s[i] == '-' then 0 - DigitsValue(s[j..k]) as int else DigitsValue(s[j..k])
  }

  /** The number a trimmed text spells: an optional sign and at least one
      digit, with a value inside the 32-bit range; `None` otherwise. */
  function ParseSigned(t: string): (r: Option<int>)
    ensures r.Some? ==> Int32Min <= r.value <= Int32Max
  {
    var signed := |t| > 0 && (t[0] == '-' || t[0] == '+');
    var body := if signed then t[1..] else t;
    if |body| == 0 || !AllDigits(body) then None
    else
      var v: int := if signed && t[0] == '-' then 0 - DigitsValue(body) as int else DigitsValue(body);
      if Int32Min <= v <= Int32Max then Some(v) else None
  }

  /** `int.TryParse(s, out v)` with the default NumberStyles.Integer:
      optional surrounding white space, an optional sign, at least one
      digit, and a value inside the 32-bit range. */
  function ParseInt32(s: string): (r: Option<int>)
    ensures r.Some? ==> Int32Min <= r.value <= Int32Max
    ensures r.Some? ==> exists i, j, k :: NumeralAt(s, i, j, k) && r.value == NumeralValue(s, i, j, k)
  {
    var t := TrimWith(s, IsNumberWhite);
    var r := ParseSigned(t);
    if r.Some? then
      TrimmedNumeral(s, t, r.value);
      r
    else r
  }

  /** The trimmed text read by `ParseInt32` is a numeral of `s`. */
  lemma TrimmedNumeral(s: string, t: string, v: int)
    requires exists i :: SliceBetweenWhite(s, t, i, IsNumberWhite)
    requires ParseSigned(t) == Some(v)
    ensures exists i, j, k :: NumeralAt(s, i, j, k) && v == NumeralValue(s, i, j, k)
  {
    var signed := |t| > 0 && (t[0] == '-' || t[0] == '+');
    var body := if signed then t[1..] else t;
    var i :| SliceBetweenWhite(s, t, i, IsNumberWhite);
    var j := if signed then i + 1 else i;
    var k := i + |t|;
    assert s[j..k] == body;
    assert NumeralAt(s, i, j, k);
    assert v == NumeralValue(s, i, j, k);
  }

  /** A numeral's text between its white space spells its value. */
  lemma SignedOfNumeral(s: string, i: int, j: int, k: int)
    requires NumeralAt(s, i, j, k)
    requires Int32Min <= NumeralValue(s, i, j, k) <= Int32Max
    ensures ParseSigned(s[i..k]) == Some(NumeralValue(s, i, j, k))
  {
    var t := s[i..k];
    var d := s[j..k];
    assert IsDigit(d[0]);
    var signed := |t| > 0 && (t[0] == '-' || t[0] == '+');
    assert signed == (j == i + 1) by {
      if j == i { assert t[0] == d[0]; }
    }
    var body := if signed then t[1..] else t;
    assert body == d;
  }

  /** Every numeral whose value fits in 32 bits is accepted, with that
      value: together with the contract of `ParseInt32`, the texts it
      accepts are exactly these. */
  lemma ParseInt32Accepts(s: string, i: int, j: int, k: int)
    requires NumeralAt(s, i, j, k)
    requires Int32Min <= NumeralValue(s, i, j, k) <= Int32Max
    ensures ParseInt32(s) == Some(NumeralValue(s, i, j, k))
  {
    var d := s[j..k];
    assert IsDigit(d[0]) && IsDigit(d[|d| - 1]);
    assert s[k - 1] == d[|d| - 1];
    assert !IsNumberWhite(s[i]) && !IsNumberWhite(s[k - 1]);
    TrimWithSlice(s, IsNumberWhite, i, k);
    SignedOfNumeral(s, i, j, k);
  }

  /** Every numeral printed from a 32-bit value parses back to it. */
  lemma ParseInt32OfNat(n: nat)
    requires n <= Int32Max
    ensures ParseInt32(NatToString(n)) == Some(n)
  {
    var s := NatToString(n);
    assert s[0..|s|] == s;
    assert NumeralAt(s, 0, 0, |s|);
    DigitsRoundTrip(n);
    ParseInt32Accepts(s, 0, 0, |s|);
  }

  // ---------------------------------------------------------------------
  // File names
  // ---------------------------------------------------------------------

  predicate IsDirectorySeparator(c: char) {
    c == '/' || c == '\\'
  }

  /** `s` names no directory. */
  predicate NoSeparator(s: string) {
    forall k :: 0 <= k < |s| ==> !IsDirectorySeparator(s[k])
  }

  lemma NoSeparatorConcat(a: string, b: string)
    requires NoSeparator(a) && NoSeparator(b)
    ensures NoSeparator(a + b)
  {
    assert forall k :: |a| <= k < |a + b| ==> (a + b)[k] == b[k - |a|];
  }

  /** `path[d..]` is an extension: a '.' that is not the final character,
      with no '.' or separator after it. */
  predicate ExtensionAt(path: string, d: int) {
    0 <= d < |path| - 1 && path[d] == '.'
    && forall k :: d < k < |path| ==> path[k] != '.' && !IsDirectorySeparator(path[k])
  }

  /** `Path.GetExtension(path)`: the text from the last '.' to the end,
      provided that '.' comes after the last directory separator and is not
      the final character; otherwise "". */
  function Extension(path: string): (r: string)
    ensures r == "" || (2 <= |r| <= |path| && r[0] == '.' && r == path[|path| - |r|..])
    ensures forall k :: 1 <= k < |r| ==> r[k] != '.' && !IsDirectorySeparator(r[k])
    ensures forall d :: ExtensionAt(path, d) ==> r == path[d..]
  {
    ExtensionScan(path, |path|)
  }

  /** Scans `path[..i]` backwards; `path[i..]` has no '.' or separator. */
  function ExtensionScan(path: string, i: nat): (r: string)
    requires i <= |path|
    requires forall k :: i <= k < |path| ==> path[k] != '.' && !IsDirectorySeparator(path[k])
    ensures r == "" || (2 <= |r| <= |path| && r[0] == '.' && r == path[|path| - |r|..])
    ensures forall k :: 1 <= k < |r| ==> r[k] != '.' && !IsDirectorySeparator(r[k])
    ensures forall d :: d < i && ExtensionAt(path, d) ==> r == path[d..]
  {
    if i == 0 then ""
    else if path[i - 1] == '.' then
      assert forall d :: d < i - 1 ==> !ExtensionAt(path, d);
      if i == |path| then "" else path[i - 1..]
    else if IsDirectorySeparator(path[i - 1]) then
      assert forall d :: d < i - 1 ==> !ExtensionAt(path, d);
      ""
    else ExtensionScan(path, i - 1)
  }
}
