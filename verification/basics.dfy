/** Small value types and the JavaScript string primitives the generators rely on:
    decimal text of numbers, `toLowerCase`, `trim` and `slice`. */
module Basics {

  datatype Option<+T> = None | Some(value: T)

  datatype Result<+T, +E> = Ok(value: T) | Err(error: E)

  /** The outcome of a step that either completes or throws. */
  datatype Outcome<+E> = Pass | Fail(error: E)

  // ---------------------------------------------------------------- numbers

  predicate IsDigit(c: char) { '0' <= c <= '9' }

  function DigitChar(d: nat): (c: char)
    requires d < 10
    ensures IsDigit(c)
  {
    "0123456789"[d]
  }

  /** Decimal text of a natural number, as `Number.prototype.toString()` writes it. */
  function NatText(n: nat): (r: string)
    ensures |r| >= 1
    ensures forall i :: 0 <= i < |r| ==> IsDigit(r[i])
    decreases n
  {
    if n < 10 then [DigitChar(n)] else NatText(n / 10) + [DigitChar(n % 10)]
  }

  /** Decimal text of an integer, with a leading '-' for negative values. */
  function IntText(n: int): string
  {
    if n < 0 then "-" + NatText(-n) else NatText(n)
  }

  // ------------------------------------------------------------ lower-casing

  function LowerChar(c: char): char
  {
    if 'A' <= c <= 'Z' then (c as int + 32) as char else c
  }

  /** `String.prototype.toLowerCase`, restricted to the ASCII letters. */
  function ToLower(s: string): (r: string)
    ensures |r| == |s|
    decreases |s|
  {
    if s == [] then [] else [LowerChar(s[0])] + ToLower(s[1..])
  }

  /** `a.toLowerCase() === b`, compared one character at a time. */
  function LowerEquals(a: string, b: string): bool
    decreases |a|
  {
    if a == [] then b == []
    else b != [] && LowerChar(a[0]) == b[0] && LowerEquals(a[1..], b[1..])
  }

  /** The character-wise comparison is the comparison of the lower-cased text. */
  lemma {:induction false} LowerEqualsIff(a: string, b: string)
    ensures LowerEquals(a, b) <==> ToLower(a) == b
    decreases |a|
  {
    if a != [] && b != [] {
      LowerEqualsIff(a[1..], b[1..]);
      var t := ToLower(a);
      assert t == [LowerChar(a[0])] + ToLower(a[1..]);
      if t == b {
        assert b[1..] == t[1..];
      }
      if LowerEquals(a, b) {
        assert b == [b[0]] + b[1..];
      }
    }
  }

  /** Lower-casing twice is lower-casing once. */
  lemma {:induction false} ToLowerIdempotent(s: string)
    ensures ToLower(ToLower(s)) == ToLower(s)
    decreases |s|
  {
    if s != [] {
      var t := ToLower(s);
      assert t[0] == LowerChar(s[0]) && t[1..] == ToLower(s[1..]);
      ToLowerIdempotent(s[1..]);
    }
  }

  // ------------------------------------------------------------------- trim

  /** The characters `String.prototype.trim` removes: the white space of section
      12.2 of ECMA-262 (tab, vertical tab, form feed, the byte-order mark and every
      space separator of category Zs) and the line terminators of section 12.3. */
  predicate IsSpace(c: char)
  {
    c == ' ' || c == '\t' || c == '\n' || c == '\r' || c as int == 0x0B || c as int == 0x0C
    || c as int == 0xA0 || c as int == 0x1680 || 0x2000 <= c as int <= 0x200A
    || c as int == 0x2028 || c as int == 0x2029 || c as int == 0x202F || c as int == 0x205F
    || c as int == 0x3000 || c as int == 0xFEFF
  }

  /** Drops leading white space: the result is a suffix of `s`, everything dropped
      is white space and the result does not start with white space. */
  function TrimStart(s: string): (r: string)
    ensures |r| <= |s| && r == s[|s| - |r|..]
    ensures forall k :: 0 <= k < |s| - |r| ==> IsSpace(s[k])
    ensures r == [] || !IsSpace(r[0])
    decreases |s|
  {
    if s != [] && IsSpace(s[0]) then TrimStart(s[1..]) else s
  }

  /** Drops trailing white space: the result is a prefix of `s`, everything dropped
      is white space and the result does not end with white space. */
  function TrimEnd(s: string): (r: string)
    ensures |r| <= |s| && r == s[..|r|]
    ensures forall k :: |r| <= k < |s| ==> IsSpace(s[k])
    ensures r == [] || !IsSpace(r[|r| - 1])
    decreases |s|
  {
    if s != [] && IsSpace(s[|s| - 1]) then TrimEnd(s[..|s| - 1]) else s
  }

  /** `String.prototype.trim`. */
  function Trim(s: string): string
  {
    TrimEnd(TrimStart(s))
  }

  /** Trim keeps a contiguous piece of the input: it starts where `TrimStart`
      stopped. */
  lemma TrimIsSlice(s: string)
    ensures var i := |s| - |TrimStart(s)|;
            i + |Trim(s)| <= |s| && Trim(s) == s[i..i + |Trim(s)|]
  {
    var t := TrimStart(s);
    var i := |s| - |t|;
    var r := TrimEnd(t);
    assert t == s[i..] && r == t[..|r|];
    assert r == s[i..i + |r|];
  }

  /** Trim keeps a contiguous piece of the input with white space only around it
      and none at either of its ends. */
  lemma TrimIsInnerPiece(s: string)
    ensures var i := |s| - |TrimStart(s)|;
            var j := i + |Trim(s)|;
            0 <= i <= j <= |s| && Trim(s) == s[i..j]
            && (forall k :: 0 <= k < i ==> IsSpace(s[k]))
            && (forall k :: j <= k < |s| ==> IsSpace(s[k]))
            && (Trim(s) == [] || (!IsSpace(Trim(s)[0]) && !IsSpace(Trim(s)[|Trim(s)| - 1])))
  {
    TrimIsSlice(s);
    var t := TrimStart(s);
    var i := |s| - |t|;
    var r := TrimEnd(t);
    assert t == s[i..];
    forall k | i + |r| <= k < |s| ensures IsSpace(s[k]) {
      assert s[k] == t[k - i];
    }
    if r != [] {
      assert r[0] == t[0];
    }
  }

  // ------------------------------------------------------------------ slice

  function Min(a: nat, b: nat): nat { if a <= b then a else b }

  /** `String.prototype.slice(a, b)` for non-negative bounds: both are clamped to
      the length and an inverted range is empty. */
  function Slice(s: string, a: nat, b: nat): (r: string)
    ensures a <= b <= |s| ==> r == s[a..b]
    ensures |r| <= |s|
  {
    var lo := Min(a, |s|);
    var hi := Min(b, |s|);
    if lo < hi then s[lo..hi] else []
  }

  // ------------------------------------------------------------------- join

  /** `Array.prototype.join(sep)` on strings. */
  function Join(parts: seq<string>, sep: string): string
    decreases |parts|
  {
    if parts == [] then []
    else if |parts| == 1 then parts[0]
    else parts[0] + sep + Join(parts[1..], sep)
  }
}
