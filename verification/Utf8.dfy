/** Cutting a string that may end inside a character (u8_truncate and u8_strncpy in
  src/base/internal/strutils.cc), against the syntax of UTF-8 in section 4 of RFC 3629. */
module Utf8 {

  newtype Byte = x: int | 0 <= x < 0x100

  // ---------------------------------------------------------------------------
  // Section 4 of RFC 3629
  // ---------------------------------------------------------------------------

  predicate Tail(b: Byte) { 0x80 <= b <= 0xbf }

  /** The number of bytes of a character that starts with `b`; 0 if none does. */
  function Length(b: Byte): (n: nat)
    ensures n <= 4
  {
    if b <= 0x7f then 1
    else if 0xc2 <= b <= 0xdf then 2
    else if 0xe0 <= b <= 0xef then 3
    else if 0xf0 <= b <= 0xf4 then 4
    else 0
  }

  /** What may come second. */
  predicate Second(lead: Byte, b: Byte) {
    if lead == 0xe0 then 0xa0 <= b <= 0xbf
    else if lead == 0xed then 0x80 <= b <= 0x9f
    else if lead == 0xf0 then 0x90 <= b <= 0xbf
    else if lead == 0xf4 then 0x80 <= b <= 0x8f
    else Tail(b)
  }

  /** The bytes are the start of a character, or all of it. */
  predicate Begins(t: seq<Byte>) {
    && t != [] && |t| <= Length(t[0])
    && (|t| > 1 ==> Second(t[0], t[1]))
    && (forall i | 2 <= i < |t| :: Tail(t[i]))
  }

  predicate Character(t: seq<Byte>) { Begins(t) && |t| == Length(t[0]) }

  /** Valid so far, but incomplete. */
  predicate Partial(t: seq<Byte>) { Begins(t) && |t| < Length(t[0]) }

  predicate WellFormed(s: seq<Byte>)
    decreases |s|
  {
    s == [] || (var n := Length(s[0]); 0 < n <= |s| && Character(s[..n]) && WellFormed(s[n..]))
  }

  /** A partial character is one that something completes. */
  lemma PartialCompletes(t: seq<Byte>)
    ensures Partial(t) <==> t != [] && exists u: seq<Byte> :: u != [] && Character(t + u)
  {
    if Partial(t) {
      var n := Length(t[0]) - |t|;
      var second: Byte := if t[0] == 0xe0 then 0xa0 else if t[0] == 0xf0 then 0x90 else 0x80;
      var u := seq(n, i requires 0 <= i < n => if |t| + i == 1 then second else 0x80);
      assert Character(t + u);
    }
    if t != [] && exists u: seq<Byte> :: u != [] && Character(t + u) {
      var u: seq<Byte> :| u != [] && Character(t + u);
      assert forall i | 0 <= i < |t| :: (t + u)[i] == t[i];
    }
  }

  // ---------------------------------------------------------------------------
  // The macros of ICU
  // ---------------------------------------------------------------------------

  predicate IsSingle(b: Byte) { b < 0x80 }
  predicate IsLead(b: Byte) { 0xc2 <= b <= 0xf4 }
  predicate IsTrail(b: Byte) { 0x80 <= b <= 0xbf }

  const LEAD3_T1_BITS: seq<int> :=
    [0x20, 0x30, 0x30, 0x30, 0x30, 0x30, 0x30, 0x30, 0x30, 0x30, 0x30, 0x30, 0x30, 0x10, 0x30, 0x30]
  const LEAD4_T1_BITS: seq<int> :=
    [0x00, 0x00, 0x00, 0x00, 0x00, 0x00, 0x00, 0x00, 0x1e, 0x0f, 0x0f, 0x0f, 0x00, 0x00, 0x00, 0x00]

  const POWERS: seq<int> := [1, 2, 4, 8, 16, 32, 64, 128]

  /** `bits & (1 << k)` */
  predicate Bit(bits: int, k: int)
    requires 0 <= k < 8
  {
    (bits / POWERS[k]) % 2 == 1
  }

  predicate ValidLead3AndT1(lead: Byte, t1: Byte) { Bit(LEAD3_T1_BITS[lead as int % 16], t1 as int / 32) }
  predicate ValidLead4AndT1(lead: Byte, t1: Byte) { Bit(LEAD4_T1_BITS[t1 as int / 16], lead as int % 8) }

  lemma Lead3Table(lead: Byte, t1: Byte)
    requires 0xe0 <= lead <= 0xef && IsTrail(t1)
    ensures ValidLead3AndT1(lead, t1) <==> Second(lead, t1)
  {
    var k := t1 as int / 32;
    assert k == 4 || k == 5;
    assert k == 4 <==> t1 <= 0x9f;
    assert Bit(0x20, 5) && !Bit(0x20, 4) && Bit(0x30, 4) && Bit(0x30, 5) && Bit(0x10, 4) && !Bit(0x10, 5);
    var i := lead as int % 16;
    assert i == lead as int - 0xe0;
  }

  lemma Lead4Table(lead: Byte, t1: Byte)
    requires 0xf0 <= lead <= 0xf4 && IsTrail(t1)
    ensures ValidLead4AndT1(lead, t1) <==> Second(lead, t1)
  {
    var i, k := t1 as int / 16, lead as int % 8;
    assert 8 <= i <= 11 && k == lead as int - 0xf0;
    assert !Bit(0x1e, 0) && Bit(0x1e, 1) && Bit(0x1e, 2) && Bit(0x1e, 3) && Bit(0x1e, 4);
    assert Bit(0x0f, 0) && Bit(0x0f, 1) && Bit(0x0f, 2) && Bit(0x0f, 3) && !Bit(0x0f, 4);
  }

  /** u8_truncate */
  function Truncated(s: seq<Byte>): nat {
    var n := |s|;
    if n == 0 then n
    else
      var b1 := s[n - 1];
      if IsSingle(b1) then n
      else if IsLead(b1) then n - 1
      else if IsTrail(b1) && n >= 2 then
        var b2 := s[n - 2];
        if 0xe0 <= b2 <= 0xf4 then
          if (if b2 < 0xf0 then ValidLead3AndT1(b2, b1) else ValidLead4AndT1(b2, b1)) then n - 2 else n
        else if IsTrail(b2) && n >= 3 then
          var b3 := s[n - 3];
          if 0xf0 <= b3 <= 0xf4 && ValidLead4AndT1(b3, b2) then n - 3 else n
        else n
      else n
  }

  predicate PartialEnd(s: seq<Byte>, k: nat) { 0 < k <= |s| && Partial(s[|s| - k..]) }

  lemma PartialEndIff(s: seq<Byte>, k: nat)
    requires 0 < k <= |s|
    ensures var n := |s|;
            PartialEnd(s, k) <==>
              && k < Length(s[n - k])
              && (k >= 2 ==> Second(s[n - k], s[n - k + 1]))
              && (k == 3 ==> Tail(s[n - 1]))
  {
    var t := s[|s| - k..];
    assert forall i | 0 <= i < k :: t[i] == s[|s| - k + i];
  }

  /** For every string of bytes: if it ends in a partial character, that is what is cut off;
    otherwise nothing is. */
  lemma TruncatesPartial(s: seq<Byte>)
    ensures forall k: nat :: PartialEnd(s, k) ==> Truncated(s) == |s| - k
    ensures Truncated(s) <= |s| && (Truncated(s) < |s| ==> PartialEnd(s, |s| - Truncated(s)))
  {
    var n := |s|;
    forall k: nat | PartialEnd(s, k) ensures Truncated(s) == n - k {
      PartialEndIff(s, k);
      CutsEnd(s, k);
    }
    if Truncated(s) < n {
      var k := n - Truncated(s);
      PartialEndIff(s, k);
      CutIsPartial(s, k);
    }
  }

  lemma CutsEnd(s: seq<Byte>, k: nat)
    requires 0 < k <= |s| && k < Length(s[|s| - k])
    requires (k >= 2 ==> Second(s[|s| - k], s[|s| - k + 1])) && (k == 3 ==> Tail(s[|s| - 1]))
    ensures Truncated(s) == |s| - k
  {
    var n := |s|;
    if k == 2 {
      if s[n - 2] < 0xf0 { Lead3Table(s[n - 2], s[n - 1]); } else { Lead4Table(s[n - 2], s[n - 1]); }
    } else if k == 3 {
      Lead4Table(s[n - 3], s[n - 2]);
    }
  }

  lemma CutIsPartial(s: seq<Byte>, k: nat)
    requires s != [] && k > 0 && Truncated(s) == |s| - k
    ensures k <= 3 && k < Length(s[|s| - k])
    ensures (k >= 2 ==> Second(s[|s| - k], s[|s| - k + 1])) && (k == 3 ==> Tail(s[|s| - 1]))
  {
    var n := |s|;
    if k == 2 {
      if s[n - 2] < 0xf0 { Lead3Table(s[n - 2], s[n - 1]); } else { Lead4Table(s[n - 2], s[n - 1]); }
    } else if k == 3 {
      Lead4Table(s[n - 3], s[n - 2]);
    }
  }

  // ---------------------------------------------------------------------------
  // Prefixes of well-formed strings
  // ---------------------------------------------------------------------------

  lemma Slices(s: seq<Byte>, k: nat, r: nat, n: nat)
    requires k + r <= n <= |s|
    ensures s[..k + r][..k] == s[..k] && s[..k + r][k..] == s[k..][..r]
    ensures s[k..][r..n - k] == s[k + r..n]
  {
  }

  /** A prefix of a well-formed string is one followed by at most a partial character. */
  lemma {:induction false} PrefixSplits(s: seq<Byte>, n: nat) returns (m: nat)
    requires WellFormed(s) && n <= |s|
    ensures m <= n && WellFormed(s[..m]) && (m < n ==> Partial(s[m..n]))
    decreases |s|
  {
    m := 0;
    if s != [] {
      var k := Length(s[0]);
      if n >= k {
        var r := PrefixSplits(s[k..], n - k);
        m := k + r;
        Slices(s, k, r, n);
      } else if n > 0 {
        StartIsPartial(s[..k], n, s[0..n]);
      }
    }
  }

  lemma StartIsPartial(c: seq<Byte>, n: nat, t: seq<Byte>)
    requires Character(c) && 0 < n < |c| && t == c[..n]
    ensures Partial(t)
  {
  }

  /** No well-formed string ends in a partial character. */
  lemma {:induction false} WholeHasNoPartialEnd(s: seq<Byte>, k: nat)
    requires WellFormed(s)
    ensures !PartialEnd(s, k)
    decreases |s|
  {
    if 0 < k <= |s| {
      var n := Length(s[0]);
      if |s| - k >= n {
        WholeHasNoPartialEnd(s[n..], k);
        assert s[n..][|s| - n - k..] == s[|s| - k..];
      } else {
        PartialEndIff(s, k);
        StartsInside(s, n, |s| - k);
      }
    }
  }

  /** Inside a character there are only tails, and its own end is too near. */
  lemma StartsInside(s: seq<Byte>, n: nat, i: nat)
    requires WellFormed(s) && s != [] && n == Length(s[0]) && i < n
    ensures i > 0 ==> Length(s[i]) == 0
    ensures n <= |s|
  {
    if i > 0 {
      assert s[..n][i] == s[i] && s[..n][0] == s[0];
    }
  }

  /** A well-formed string followed by a partial character is not well-formed. */
  lemma LongestWhole(p: seq<Byte>, m: nat, n: nat)
    requires m < |p| && Partial(p[m..]) && m < n <= |p|
    ensures !WellFormed(p[..n])
  {
    if WellFormed(p[..n]) {
      assert PartialEnd(p[..n], n - m) by {
        assert p[..n][m..] == p[m..][..n - m];
        assert forall i | 0 <= i < n - m :: p[m..][..n - m][i] == p[m..][i];
      }
      WholeHasNoPartialEnd(p[..n], n - m);
    }
  }

  /** `m` is the length of the longest well-formed prefix; all of a whole string. */
  predicate IsLongest(p: seq<Byte>, m: nat) {
    && m <= |p| && WellFormed(p[..m])
    && (forall j | m < j <= |p| :: !WellFormed(p[..j]))
    && (WellFormed(p) ==> m == |p|)
  }

  /** On a prefix of a well-formed string u8_truncate gives the length of the longest
    well-formed prefix, which drops at most three bytes. */
  lemma TruncatesToLongest(s: seq<Byte>, n: nat)
    requires WellFormed(s) && n <= |s|
    ensures IsLongest(s[..n], Truncated(s[..n])) && n - 3 <= Truncated(s[..n])
  {
    var m := PrefixOfWhole(s, n);
    TruncatesSplit(s[..n], m);
  }

  lemma PrefixOfWhole(s: seq<Byte>, n: nat) returns (m: nat)
    requires WellFormed(s) && n <= |s|
    ensures m <= |s[..n]| && WellFormed(s[..n][..m]) && (m < |s[..n]| ==> Partial(s[..n][m..]))
  {
    m := PrefixSplits(s, n);
    assert s[..n][..m] == s[..m];
    assert s[..n][m..] == s[m..n];
  }

  lemma TruncatesSplit(p: seq<Byte>, m: nat)
    requires m <= |p| && WellFormed(p[..m]) && (m < |p| ==> Partial(p[m..]))
    ensures IsLongest(p, Truncated(p)) && |p| - 3 <= Truncated(p)
  {
    if m < |p| { CutsPartial(p, m); } else { KeepsWhole(p); }
  }

  lemma CutsPartial(p: seq<Byte>, m: nat)
    requires m < |p| && WellFormed(p[..m]) && Partial(p[m..])
    ensures IsLongest(p, m) && Truncated(p) == m && |p| - 3 <= m
  {
    assert PartialEnd(p, |p| - m);
    TruncatesPartial(p);
    forall j | m < j <= |p| ensures !WellFormed(p[..j]) { LongestWhole(p, m, j); }
    assert p[..|p|] == p;
  }

  lemma KeepsWhole(p: seq<Byte>)
    requires WellFormed(p[..|p|])
    ensures IsLongest(p, |p|) && Truncated(p) == |p|
  {
    assert p[..|p|] == p;
    TruncatesPartial(p);
    WholeHasNoPartialEnd(p, |p| - Truncated(p));
  }

  // ---------------------------------------------------------------------------
  // u8_strncpy
  // ---------------------------------------------------------------------------

  /** strnlen */
  function BeforeNul(s: seq<Byte>): (n: nat)
    ensures n <= |s| && (n < |s| ==> s[n] == 0) && forall i | 0 <= i < n :: s[i] != 0
  {
    if s == [] || s[0] == 0 then 0 else 1 + BeforeNul(s[1..])
  }

  lemma TruncatedBound(s: seq<Byte>)
    ensures Truncated(s) <= |s|
  {
  }

  /** `src` are the bytes at the source, at least `maxlen` of them or up to a NUL. */
  method U8Strncpy(dest: array<Byte>, src: seq<Byte>, maxlen: nat) returns (len: nat)
    requires maxlen <= dest.Length && (maxlen <= |src| || BeforeNul(src) < |src|)
    modifies dest
    ensures var text := src[..if BeforeNul(src) < maxlen then BeforeNul(src) else maxlen];
            len == Truncated(text) <= maxlen && dest[..maxlen] == text[..len] + seq(maxlen - len, _ => 0)
    ensures dest[maxlen..] == old(dest[maxlen..])
  {
    var text := src[..if BeforeNul(src) < maxlen then BeforeNul(src) else maxlen];
    TruncatedBound(text);
    len := Truncated(text);
    forall i | len <= i < maxlen {
      dest[i] := 0;
    }
    forall i | 0 <= i < len {
      dest[i] := src[i];
    }
  }
}
