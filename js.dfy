/** The few JavaScript runtime behaviours the script's guards and filters rely
    on: `Number` values and their truthiness, `String.prototype.trim`,
    `toLowerCase` and `includes`. */
module Js {

  /** A JavaScript number as produced by `Number(text || 0)`: either NaN or a
      finite value. */
  datatype Number = NaN | Num(value: real)

  /** `!!n`: zero and NaN are falsy, every other number is truthy. */
  predicate Truthy(n: Number)
  {
    n.Num? && n.value != 0.0
  }

  /** `n >= bound` on a JavaScript number: false for NaN. */
  predicate AtLeast(n: Number, bound: real)
  {
    n.Num? && n.value >= bound
  }

  /** `n < bound`: also false for NaN. */
  predicate Below(n: Number, bound: real)
  {
    n.Num? && n.value < bound
  }

  /** The characters `trim` removes: ECMAScript WhiteSpace and LineTerminator. */
  predicate IsWhitespace(c: char)
  {
    c == ' ' || c == '\t' || c == '\n' || c == '\r'
    || c == '\U{000B}' || c == '\U{000C}' || c == '\U{00A0}' || c == '\U{1680}'
    || ('\U{2000}' <= c <= '\U{200A}')
    || c == '\U{2028}' || c == '\U{2029}' || c == '\U{202F}' || c == '\U{205F}'
    || c == '\U{3000}' || c == '\U{FEFF}'
  }

  /** Drops leading whitespace: the result is the suffix of `s` that starts at
      the first non-whitespace character. */
  function TrimStart(s: string): (r: string)
    ensures |r| <= |s| && r == s[|s| - |r|..]
    ensures forall i :: 0 <= i < |s| - |r| ==> IsWhitespace(s[i])
    ensures r == [] || !IsWhitespace(r[0])
  {
    if s != [] && IsWhitespace(s[0]) then TrimStart(s[1..]) else s
  }

  /** Drops trailing whitespace: the result is the prefix of `s` that ends at
      the last non-whitespace character. */
  function TrimEnd(s: string): (r: string)
    ensures |r| <= |s| && r == s[..|r|]
    ensures forall i :: |r| <= i < |s| ==> IsWhitespace(s[i])
    ensures r == [] || !IsWhitespace(r[|r| - 1])
  {
    if s != [] && IsWhitespace(s[|s| - 1]) then TrimEnd(s[..|s| - 1]) else s
  }

  /** `sub` occurs in `s` starting at index `k`. */
  predicate OccursAt(s: string, sub: string, k: nat)
  {
    k + |sub| <= |s| && s[k..k + |sub|] == sub
  }

  /** `r` is the slice of `s` at `k`, and everything before and after it is
      whitespace. */
  predicate TrimmedSlice(s: string, r: string, k: nat)
  {
    && OccursAt(s, r, k)
    && (forall i :: 0 <= i < k ==> IsWhitespace(s[i]))
    && (forall i :: k + |r| <= i < |s| ==> IsWhitespace(s[i]))
  }

  /** `String.prototype.trim`: the contiguous middle of `s` with no whitespace
      at either end, only whitespace around it; empty exactly when `s` is all
      whitespace. */
  function Trim(s: string): (r: string)
    ensures exists k: nat :: TrimmedSlice(s, r, k)
    ensures r == [] || (!IsWhitespace(r[0]) && !IsWhitespace(r[|r| - 1]))
    ensures r == [] <==> forall i :: 0 <= i < |s| ==> IsWhitespace(s[i])
  {
    TrimIsSlice(s);
    TrimEmptyIff(s);
    TrimEnd(TrimStart(s))
  }

  /** A prefix of a suffix of `s` is a slice of `s`. */
  lemma PrefixOfSuffix(s: string, t: string, r: string, k: nat)
    requires k <= |s| && t == s[k..]
    requires |r| <= |t| && r == t[..|r|]
    ensures OccursAt(s, r, k)
  {
    forall m | 0 <= m < |r| ensures s[k..k + |r|][m] == r[m] {
      assert s[k..k + |r|][m] == s[k + m] == t[m];
    }
  }

  /** Trimming both ends leaves the slice of `s` that starts where
      `TrimStart` stopped. */
  lemma TrimIsSlice(s: string)
    ensures TrimmedSlice(s, TrimEnd(TrimStart(s)), |s| - |TrimStart(s)|)
  {
    var t := TrimStart(s);
    var r := TrimEnd(t);
    var k := |s| - |t|;
    PrefixOfSuffix(s, t, r, k);
    WhitespaceAfter(s, t, |r|, k);
  }

  /** Whitespace at the end of a suffix of `s` is whitespace at the end of
      `s`. */
  lemma WhitespaceAfter(s: string, t: string, n: nat, k: nat)
    requires k <= |s| && t == s[k..] && n <= |t|
    requires forall i :: n <= i < |t| ==> IsWhitespace(t[i])
    ensures forall i :: k + n <= i < |s| ==> IsWhitespace(s[i])
  {
    forall i | k + n <= i < |s| ensures IsWhitespace(s[i]) {
      assert s[i] == t[i - k];
    }
  }

  /** Trimming both ends leaves nothing exactly when every character of `s`
      is whitespace. */
  lemma TrimEmptyIff(s: string)
    ensures TrimEnd(TrimStart(s)) == [] <==> forall i :: 0 <= i < |s| ==> IsWhitespace(s[i])
  {
    var t := TrimStart(s);
    var r := TrimEnd(t);
    if r == [] {
      assert t == [];
    } else {
      assert s[|s| - |t|] == t[0] == r[0];
    }
  }

  /** A value with no whitespace at either end is what `trim` gives back. */
  lemma TrimKeeps(s: string)
    requires s == [] || (!IsWhitespace(s[0]) && !IsWhitespace(s[|s| - 1]))
    ensures Trim(s) == s
  {
  }

  /** `toLowerCase` on the ASCII letters; every other character is kept. */
  function LowerChar(c: char): char
  {
    if 'A' <= c <= 'Z' then (c as int - 'A' as int + 'a' as int) as char else c
  }

  function ToLower(s: string): (r: string)
    ensures |r| == |s|
    ensures forall i :: 0 <= i < |s| ==> r[i] == LowerChar(s[i])
  {
    seq(|s|, i requires 0 <= i < |s| => LowerChar(s[i]))
  }

  /** `s.includes(sub)`, scanning left to right. */
  function Includes(s: string, sub: string): bool
    decreases |s|
  {
    if |sub| > |s| then false
    else if s[..|sub|] == sub then true
    else |s| > 0 && Includes(s[1..], sub)
  }

  /** An occurrence in the tail of `s` is an occurrence in `s` one place on. */
  lemma OccursShift(s: string, sub: string, k: nat)
    requires |s| > 0
    ensures OccursAt(s[1..], sub, k) <==> OccursAt(s, sub, k + 1)
  {
    if k + 1 + |sub| <= |s| {
      assert s[1..][k..k + |sub|] == s[k + 1..k + 1 + |sub|];
    }
  }

  /** `includes` holds exactly when `sub` occurs at some position of `s`. */
  lemma {:induction false} IncludesIff(s: string, sub: string)
    ensures Includes(s, sub) <==> exists k: nat :: OccursAt(s, sub, k)
    decreases |s|
  {
    if |sub| > |s| {
    } else if s[..|sub|] == sub {
      assert OccursAt(s, sub, 0);
    } else {
      IncludesIff(s[1..], sub);
      if Includes(s, sub) {
        var k: nat :| OccursAt(s[1..], sub, k);
        OccursShift(s, sub, k);
      } else {
        forall k: nat | OccursAt(s, sub, k) ensures false {
          assert k != 0;
          OccursShift(s, sub, k - 1);
        }
      }
    }
  }
}
