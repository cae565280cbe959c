/**
 * The pieces of JavaScript's string and value semantics that the application relies on:
 * `String.prototype.trim`, `toLowerCase`, `includes`, `Array.prototype.join`, `String(value)`
 * and the dynamic values a request body can carry.
 */
module JsText {
  import opened Wrappers

  // ---------------------------------------------------------------- trim

  /** WhiteSpace and LineTerminator code points of ECMAScript: what `trim` strips. */
  predicate IsJsWhitespace(c: char) {
    || c == '\t' || c == '\n' || c == '\U{000B}' || c == '\U{000C}' || c == '\r' || c == ' '
    || c == '\U{00A0}' || c == '\U{1680}' || ('\U{2000}' <= c <= '\U{200A}')
    || c == '\U{2028}' || c == '\U{2029}' || c == '\U{202F}' || c == '\U{205F}'
    || c == '\U{3000}' || c == '\U{FEFF}'
  }

  predicate AllWhitespace(s: string) {
    forall i :: 0 <= i < |s| ==> IsJsWhitespace(s[i])
  }

  /** Drops the leading white space: the result is a suffix of `s` that starts with a visible character. */
  function TrimStart(s: string): (r: string)
    ensures |r| <= |s| && r == s[|s| - |r|..]
    ensures AllWhitespace(s[..|s| - |r|])
    ensures r != [] ==> !IsJsWhitespace(r[0])
  {
    if |s| > 0 && IsJsWhitespace(s[0]) then TrimStart(s[1..]) else s
  }

  /** Drops the trailing white space: the result is a prefix of `s` that ends with a visible character. */
  function TrimEnd(s: string): (r: string)
    ensures |r| <= |s| && r == s[..|r|]
    ensures AllWhitespace(s[|r|..])
    ensures r != [] ==> !IsJsWhitespace(r[|r| - 1])
  {
    if |s| > 0 && IsJsWhitespace(s[|s| - 1]) then
      var init := s[..|s| - 1];
      var r := TrimEnd(init);
      assert init[..|r|] == s[..|r|];
      assert forall i | |r| <= i < |s| :: s[|r|..][i - |r|] == s[i] && (i < |s| - 1 ==> init[|r|..][i - |r|] == s[i]);
      r
    else s
  }

  function Trim(s: string): string {
    TrimEnd(TrimStart(s))
  }

  /** `!x?.trim()`: the optional string is absent, or trimming leaves nothing. */
  predicate IsBlank(x: Option<string>) {
    x.None? || Trim(x.value) == ""
  }

  lemma AllWhitespaceConcat(a: string, b: string)
    requires AllWhitespace(a) && AllWhitespace(b)
    ensures AllWhitespace(a + b)
  {
    assert forall i | |a| <= i < |a + b| :: (a + b)[i] == b[i - |a|];
  }

  /** Trimming empties a string exactly when the string is made only of white space. */
  lemma TrimEmptyIff(s: string)
    ensures Trim(s) == "" <==> AllWhitespace(s)
  {
    var t := TrimStart(s);
    var k := |s| - |t|;
    assert s == s[..k] + t;
    if Trim(s) == "" {
      assert t[|TrimEnd(t)|..] == t;
      AllWhitespaceConcat(s[..k], t);
    } else {
      assert t[0] == s[k];
    }
  }

  /** A value with a visible character is never blank; one made only of white space always is. */
  lemma IsBlankIff(x: Option<string>)
    ensures IsBlank(x) <==> x.None? || AllWhitespace(x.value)
  {
    if x.Some? { TrimEmptyIff(x.value); }
  }

  // ---------------------------------------------------------------- toLowerCase

  /** Lower-case mapping of the Basic Latin and Latin-1 capitals (U+0041..U+005A, U+00C0..U+00DE except U+00D7). */
  function LowerChar(c: char): char {
    if 'A' <= c <= 'Z' || ('\U{00C0}' <= c <= '\U{00DE}' && c != '\U{00D7}') then (c as int + 32) as char else c
  }

  predicate IsUpper(c: char) {
    'A' <= c <= 'Z' || ('\U{00C0}' <= c <= '\U{00DE}' && c != '\U{00D7}')
  }

  function ToLower(s: string): (r: string)
    ensures |r| == |s|
    ensures forall i :: 0 <= i < |s| ==> r[i] == LowerChar(s[i])
  {
    seq(|s|, i requires 0 <= i < |s| => LowerChar(s[i]))
  }

  /** Lower-casing leaves no capital behind, and so a second pass changes nothing. */
  lemma ToLowerIdempotent(s: string)
    ensures forall i :: 0 <= i < |s| ==> !IsUpper(ToLower(s)[i])
    ensures ToLower(ToLower(s)) == ToLower(s)
  {
  }

  // ---------------------------------------------------------------- includes

  /** `q` occurs in `hay` starting at index `k`. */
  predicate OccursAt(hay: string, q: string, k: nat) {
    k + |q| <= |hay| && hay[k..k + |q|] == q
  }

  /** `hay.includes(q)`, scanning left to right. */
  function Includes(hay: string, q: string): bool
    decreases |hay|
  {
    if |q| <= |hay| && hay[..|q|] == q then true
    else if |hay| <= |q| then false
    else Includes(hay[1..], q)
  }

  /** A `true` answer of `includes` has an occurrence behind it. */
  lemma {:induction false} IncludesSound(hay: string, q: string)
    requires Includes(hay, q)
    ensures exists k: nat :: OccursAt(hay, q, k)
    decreases |hay|
  {
    if |q| <= |hay| && hay[..|q|] == q {
      assert OccursAt(hay, q, 0);
    } else {
      IncludesSound(hay[1..], q);
      var k: nat :| OccursAt(hay[1..], q, k);
      assert hay[k + 1..k + 1 + |q|] == hay[1..][k..k + |q|];
      assert OccursAt(hay, q, k + 1);
    }
  }

  /** Every occurrence is found by `includes`. */
  lemma {:induction false} IncludesComplete(hay: string, q: string, k: nat)
    requires OccursAt(hay, q, k)
    ensures Includes(hay, q)
    decreases k
  {
    if k == 0 {
      assert hay[..|q|] == hay[k..k + |q|];
    } else if hay[..|q|] != q {
      assert hay[1..][k - 1..k - 1 + |q|] == hay[k..k + |q|];
      IncludesComplete(hay[1..], q, k - 1);
    }
  }

  /** `includes` is true exactly when the query occurs at some position of the text. */
  lemma IncludesIff(hay: string, q: string)
    ensures Includes(hay, q) <==> exists k: nat :: OccursAt(hay, q, k)
  {
    if Includes(hay, q) {
      IncludesSound(hay, q);
    }
    forall k: nat | OccursAt(hay, q, k) ensures Includes(hay, q) {
      IncludesComplete(hay, q, k);
    }
  }

  /** The empty query occurs in every text. */
  lemma IncludesEmpty(hay: string)
    ensures Includes(hay, "")
  {
  }

  // ---------------------------------------------------------------- join

  /** `parts.join(' ')`. */
  function JoinWithSpace(parts: seq<string>): (r: string)
    ensures parts == [] ==> r == ""
  {
    if |parts| == 0 then ""
    else if |parts| == 1 then parts[0]
    else parts[0] + " " + JoinWithSpace(parts[1..])
  }

  /** Every joined part occurs in the joined text. */
  lemma {:induction false} JoinContainsParts(parts: seq<string>, j: nat)
    requires j < |parts|
    ensures exists k: nat :: OccursAt(JoinWithSpace(parts), parts[j], k)
  {
    var r := JoinWithSpace(parts);
    if |parts| == 1 {
      assert OccursAt(r, parts[j], 0);
    } else if j == 0 {
      assert r[..|parts[0]|] == parts[0];
      assert OccursAt(r, parts[j], 0);
    } else {
      JoinContainsParts(parts[1..], j - 1);
      var rest := JoinWithSpace(parts[1..]);
      var k: nat :| OccursAt(rest, parts[1..][j - 1], k);
      var off := |parts[0]| + 1;
      assert r == parts[0] + " " + rest;
      assert r[off + k..off + k + |parts[j]|] == rest[k..k + |parts[j]|];
      assert OccursAt(r, parts[j], off + k);
    }
  }

  // ---------------------------------------------------------------- String(number)

  function DigitChar(d: nat): (c: char)
    requires d < 10
    ensures '0' <= c <= '9'
    ensures c as int == '0' as int + d
  {
    "0123456789"[d]
  }

  /** `String(n)` for a non-negative integer: its decimal digits, without leading zeros. */
  function NatToDecimal(n: nat): (r: string)
    ensures |r| >= 1
    ensures forall i :: 0 <= i < |r| ==> '0' <= r[i] <= '9'
    ensures |r| == 1 <==> n < 10
  {
    if n < 10 then [DigitChar(n)] else NatToDecimal(n / 10) + [DigitChar(n % 10)]
  }

  /** `String(i)` for an integer. */
  function IntToDecimal(i: int): (r: string)
    ensures |r| >= 1
    ensures forall k :: 0 <= k < |r| ==> r[k] == '-' || '0' <= r[k] <= '9'
    ensures r[0] == '-' <==> i < 0
  {
    if i < 0 then "-" + NatToDecimal(-i) else NatToDecimal(i)
  }

  /** Different numbers are written differently. */
  lemma {:induction false} NatToDecimalInjective(a: nat, b: nat)
    requires NatToDecimal(a) == NatToDecimal(b)
    ensures a == b
  {
    var ra, rb := NatToDecimal(a), NatToDecimal(b);
    if a < 10 || b < 10 {
      assert a < 10 && b < 10;
      assert ra[0] == DigitChar(a) && rb[0] == DigitChar(b);
    } else {
      var n := |ra|;
      assert ra[..n - 1] == NatToDecimal(a / 10) && ra[n - 1] == DigitChar(a % 10);
      assert rb[..n - 1] == NatToDecimal(b / 10) && rb[n - 1] == DigitChar(b % 10);
      NatToDecimalInjective(a / 10, b / 10);
    }
  }

  lemma IntToDecimalInjective(a: int, b: int)
    requires IntToDecimal(a) == IntToDecimal(b)
    ensures a == b
  {
    var ra, rb := IntToDecimal(a), IntToDecimal(b);
    assert (a < 0) == (ra[0] == '-') == (rb[0] == '-') == (b < 0);
    if a < 0 {
      assert ra[1..] == NatToDecimal(-a) && rb[1..] == NatToDecimal(-b);
      NatToDecimalInjective(-a, -b);
    } else {
      NatToDecimalInjective(a, b);
    }
  }

  /** The only integer whose decimal text is "1" is 1. */
  lemma IntToDecimalIsOne(i: int)
    ensures IntToDecimal(i) == "1" <==> i == 1
  {
    if IntToDecimal(i) == "1" {
      assert IntToDecimal(1) == "1";
      IntToDecimalInjective(i, 1);
    }
  }

  // ---------------------------------------------------------------- dynamic values

  /**
   * A value found in a request body before validation. Numbers are the integral ones;
   * `Obj` is a plain object.
   */
  datatype JsValue = Undefined | Null | Bool(b: bool) | Num(n: int) | Str(s: string) | Obj

  /** `String(value)`. */
  function ToJsString(v: JsValue): string {
    match v
    case Undefined => "undefined"
    case Null => "null"
    case Bool(b) => if b then "true" else "false"
    case Num(n) => IntToDecimal(n)
    case Str(s) => s
    case Obj => "[object Object]"
  }

  /** class-validator's `@IsOptional()`: the value is null or undefined, so the other checks are skipped. */
  predicate IsNullish(v: JsValue) {
    v.Undefined? || v.Null?
  }

  /** `@IsString() @Length(min, max)`: a string whose length lies in [min, max]. */
  predicate IsStringOfLength(v: JsValue, min: nat, max: nat) {
    v.Str? && min <= |v.s| <= max
  }

  /**
   * `v ?? null` written to a text column: nullish values are NULL, any other value is stored
   * as its text, so a string is stored unchanged.
   */
  function AsColumnText(v: JsValue): (r: Option<string>)
    ensures r.None? <==> IsNullish(v)
    ensures r.Some? ==> r.value == ToJsString(v)
    ensures v.Str? ==> r == Some(v.s)
  {
    if IsNullish(v) then None else Some(ToJsString(v))
  }
}
