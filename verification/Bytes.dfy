/** Octets and the character tests of the C locale. */
module Bytes {

  type byte = b: int | 0 <= b < 256

  datatype Option<+T> = None | Some(value: T)

  const DOT: byte := 46
  const SPACE: byte := 32
  const TAB: byte := 9
  const NEWLINE: byte := 10
  const RETURN: byte := 13
  const HASH: byte := 35

  /** `tolower`: only the letters A to Z change. */
  function ToLower(b: byte): byte { if 65 <= b <= 90 then b + 32 else b }

  /** `isspace`: blank, tab, newline, vertical tab, form feed, carriage return. */
  predicate IsSpace(b: byte) { b == SPACE || 9 <= b <= 13 }

  function Lower(s: seq<byte>): (r: seq<byte>)
    ensures |r| == |s| && forall k :: 0 <= k < |r| ==> r[k] == ToLower(s[k])
  {
    seq(|s|, k requires 0 <= k < |s| => ToLower(s[k]))
  }

  /** The index of the first occurrence, or the length when there is none. */
  function Find(s: seq<byte>, c: byte): (n: nat)
    ensures n <= |s| && (forall k :: 0 <= k < n ==> s[k] != c) && (n < |s| ==> s[n] == c)
  {
    if s == [] || s[0] == c then 0 else 1 + Find(s[1..], c)
  }

  lemma FindBound(s: seq<byte>, c: byte)
    ensures Find(s, c) <= |s| && (Find(s, c) < |s| ==> s[Find(s, c)] == c)
    ensures forall k :: 0 <= k < Find(s, c) ==> s[k] != c
  {
  }

  lemma FindIs(s: seq<byte>, c: byte, n: nat)
    requires n <= |s| && (forall k :: 0 <= k < n ==> s[k] != c) && (n < |s| ==> s[n] == c)
    ensures Find(s, c) == n
  {
  }

  lemma LowerTwice(s: seq<byte>)
    ensures Lower(Lower(s)) == Lower(s)
  {
  }

  /** The same octet, or the capital and the small form of one letter. */
  predicate SameLetter(a: byte, b: byte) {
    a == b || (65 <= a <= 90 && b == a + 32) || (65 <= b <= 90 && a == b + 32)
  }

  /** The two strings differ at most in the case of letters. */
  predicate SameText(s: seq<byte>, t: seq<byte>) {
    |s| == |t| && forall k :: 0 <= k < |s| ==> SameLetter(s[k], t[k])
  }

  /** Lower-casing forgets exactly the case of the letters A to Z, and leaves no capital. */
  lemma LowerForgetsCase(s: seq<byte>, t: seq<byte>)
    ensures Lower(s) == Lower(t) <==> SameText(s, t)
    ensures SameText(s, Lower(s)) && forall k :: 0 <= k < |s| ==> !(65 <= Lower(s)[k] <= 90)
  {
    if Lower(s) == Lower(t) {
      forall k | 0 <= k < |s| ensures SameLetter(s[k], t[k]) {
        assert Lower(s)[k] == Lower(t)[k];
      }
    }
  }
}
