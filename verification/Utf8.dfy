/** Rust's lossy conversion of bytes to text: what is not well-formed UTF-8 becomes the replacement character. */
module Utf8 {
  import opened Names

  predicate Continues(b: int) { 0x80 <= b <= 0xBF }

  /** The length of the sequence that a byte starts; zero for a byte that starts none. */
  function Width(b: int): nat {
    if 0 <= b <= 0x7F then 1
    else if 0xC2 <= b <= 0xDF then 2
    else if 0xE0 <= b <= 0xEF then 3
    else if 0xF0 <= b <= 0xF4 then 4
    else 0
  }

  /** The second bytes that exclude overlong forms, surrogates and values beyond the last code point. */
  predicate Second(first: int, b: int) {
    if first == 0xE0 then 0xA0 <= b <= 0xBF
    else if first == 0xED then 0x80 <= b <= 0x9F
    else if first == 0xF0 then 0x90 <= b <= 0xBF
    else if first == 0xF4 then 0x80 <= b <= 0x8F
    else Continues(b)
  }

  /** How many bytes at the start of `s` are the beginning of one sequence; at least one. */
  function Span(s: Bytes): (n: nat)
    requires s != []
    ensures 1 <= n <= |s|
  {
    var w := Width(s[0]);
    if w <= 1 || |s| < 2 || !Second(s[0], s[1]) then 1
    else if w == 2 || |s| < 3 || !Continues(s[2]) then 2
    else if w == 3 || |s| < 4 || !Continues(s[3]) then 3
    else 4
  }

  predicate StartsWhole(s: Bytes)
    requires s != []
  {
    Span(s) == Width(s[0])
  }

  const REPLACEMENT: Bytes := [0xEF, 0xBF, 0xBD]

  function Lossy(s: Bytes): Bytes
    decreases |s|
  {
    if s == [] then []
    else (if StartsWhole(s) then s[..Span(s)] else REPLACEMENT) + Lossy(s[Span(s)..])
  }

  predicate WellFormed(s: Bytes)
    decreases |s|
  {
    s == [] || (StartsWhole(s) && WellFormed(s[Span(s)..]))
  }

  /** The conversion leaves exactly well-formed text alone. */
  lemma {:induction false} LossyKeepsIff(s: Bytes)
    ensures Lossy(s) == s <==> WellFormed(s)
    decreases |s|
  {
    if s != [] {
      var n := Span(s);
      var rest := s[n..];
      assert s == s[..n] + rest;
      LossyKeepsIff(rest);
      ReplacementIsWhole(s);
      if StartsWhole(s) {
        assert Lossy(s)[n..] == Lossy(rest);
      } else {
        assert REPLACEMENT <= Lossy(s);
      }
    }
  }

  lemma ReplacementIsWhole(s: Bytes)
    requires s != []
    ensures REPLACEMENT <= s ==> StartsWhole(s)
  {
    if REPLACEMENT <= s {
      assert s[0] == 0xEF && s[1] == 0xBF && s[2] == 0xBD;
    }
  }

  lemma {:induction false} LossyHasNoZero(s: Bytes)
    requires 0 !in s
    ensures 0 !in Lossy(s)
    decreases |s|
  {
    if s != [] {
      LossyHasNoZero(s[Span(s)..]);
    }
  }

  /** A byte that starts no sequence is replaced, whichever it is. */
  lemma StrayByte(b: int, rest: Bytes)
    requires Width(b) == 0
    ensures Lossy([b] + rest) == REPLACEMENT + Lossy(rest)
  {
    assert Span([b] + rest) == 1 && ([b] + rest)[1..] == rest;
  }

  /** A sequence that is cut short is replaced as a whole, by one replacement character. */
  lemma CutShortIsReplaced(s: Bytes, k: nat, rest: Bytes)
    requires s != [] && |s| == Width(s[0]) == Span(s) && 0 < k < |s|
    requires rest == [] || 0 <= rest[0] <= 0x7F
    ensures Lossy(s[..k] + rest) == REPLACEMENT + Lossy(rest)
  {
    var t := s[..k] + rest;
    assert t[0] == s[0] && (k > 1 ==> t[1] == s[1]) && (k > 2 ==> t[2] == s[2]);
    assert k < |t| ==> t[k] == rest[0];
    assert Span(t) == k && t[k..] == rest;
  }

  /** A whole sequence is kept. */
  lemma WholeIsKept(s: Bytes, rest: Bytes)
    requires s != [] && |s| == Width(s[0]) == Span(s)
    ensures Lossy(s + rest) == s + Lossy(rest)
  {
    var t := s + rest;
    assert forall i :: 0 <= i < |s| ==> t[i] == s[i];
    assert Span(t) == |s| && t[..|s|] == s && t[|s|..] == rest;
  }
}
