/** Base64 (base64_encode and base64_decode in src/ofile.cc), against section 4 of RFC 4648. */
module Base64 {

  const PAD := '='

  /** The letters, the digits, '+' and '/'. */
  function Chars(i: nat): char
    requires i < 64
  {
    if i < 26 then 'A' + i as char
    else if i < 52 then 'a' + (i - 26) as char
    else if i < 62 then '0' + (i - 52) as char
    else if i == 62 then '+' else '/'
  }

  /** Table 1 of section 4 of RFC 4648, which is BASE64_CHARS. */
  const UPPER: string := "ABCDEFGHIJKLMNOPQRSTUVWXYZ"
  const LOWER: string := "abcdefghijklmnopqrstuvwxyz"
  const OTHERS: string := "0123456789+/"
  const ALPHABET := UPPER + LOWER + OTHERS

  lemma CharsAreAlphabet(i: nat)
    requires i < 64
    ensures |ALPHABET| == 64 && Chars(i) == ALPHABET[i]
  {
    if i < 26 { UpperAt(i); } else if i < 52 { LowerAt(i - 26); } else { OtherAt(i - 52); }
  }

  lemma UpperAt(i: nat)
    requires i < 26
    ensures UPPER[i] == Chars(i)
  {
  }

  lemma LowerAt(i: nat)
    requires i < 26
    ensures LOWER[i] == Chars(26 + i)
  {
  }

  lemma OtherAt(i: nat)
    requires i < 12
    ensures OTHERS[i] == Chars(52 + i)
  {
  }

  predicate IsBase64(c: char) { 'A' <= c <= 'Z' || 'a' <= c <= 'z' || '0' <= c <= '9' || c == '+' || c == '/' }

  /** A character that the decoder goes on with. */
  predicate Letter(c: char) { c != PAD && IsBase64(c) }

  function CharOf(d: bv8): char
    requires d < 64
  {
    Chars(d as nat)
  }

  /** string::find, cut to a byte: what is not in the alphabet, like the NULs that fill up the
    last group, is 255. */
  function FindFrom(c: char, i: nat): bv8
    requires i <= 64
    decreases 64 - i
  {
    if i == 64 then 255 else if Chars(i) == c then i as bv8 else FindFrom(c, i + 1)
  }

  function Find(c: char): bv8 { FindFrom(c, 0) }

  lemma CharsDistinct(i: nat, j: nat)
    requires i < j < 64
    ensures Chars(i) != Chars(j)
  {
  }

  lemma {:induction false} FindsFrom(d: nat, i: nat)
    requires i <= d < 64
    ensures FindFrom(Chars(d), i) == d as bv8
    decreases d - i
  {
    if i < d {
      CharsDistinct(i, d);
      FindsFrom(d, i + 1);
    }
  }

  /** Finding inverts the alphabet. */
  lemma FindCharOf(d: bv8)
    requires d < 64
    ensures Find(CharOf(d)) == d && Letter(CharOf(d))
  {
    FindsFrom(d as nat, 0);
  }

  // ---------------------------------------------------------------------------
  // One group
  // ---------------------------------------------------------------------------

  datatype Four = Four(w: bv8, x: bv8, y: bv8, z: bv8)

  /** char_array_3 into char_array_4 */
  function Split(a: bv8, b: bv8, c: bv8): Four {
    Four((a & 0xfc) >> 2, ((a & 0x03) << 4) + ((b & 0xf0) >> 4), ((b & 0x0f) << 2) + ((c & 0xc0) >> 6), c & 0x3f)
  }

  datatype Three = Three(a: bv8, b: bv8, c: bv8)

  /** char_array_4 into char_array_3 */
  function Join(w: bv8, x: bv8, y: bv8, z: bv8): Three {
    Three((w << 2) + ((x & 0x30) >> 4), ((x & 0xf) << 4) + ((y & 0x3c) >> 2), ((y & 0x3) << 6) + z)
  }

  lemma SplitIsDigits(a: bv8, b: bv8, c: bv8)
    ensures var d := Split(a, b, c); d.w < 64 && d.x < 64 && d.y < 64 && d.z < 64
  {
  }

  /** The three bytes in a row are the four digits in a row: 24 bits. */
  lemma SameBits(a: bv8, b: bv8, c: bv8)
    ensures var d := Split(a, b, c);
            (a as bv24 << 16) | (b as bv24 << 8) | c as bv24
            == (d.w as bv24 << 18) | (d.x as bv24 << 12) | (d.y as bv24 << 6) | d.z as bv24
  {
  }

  lemma JoinInvertsSplit(a: bv8, b: bv8, c: bv8)
    ensures var d := Split(a, b, c); Join(d.w, d.x, d.y, d.z) == Three(a, b, c)
  {
  }

  // ---------------------------------------------------------------------------
  // Encoding and decoding
  // ---------------------------------------------------------------------------

  function Group(a: bv8, b: bv8, c: bv8): (g: string)
    ensures |g| == 4
  {
    SplitIsDigits(a, b, c);
    var d := Split(a, b, c);
    [CharOf(d.w), CharOf(d.x), CharOf(d.y), CharOf(d.z)]
  }

  function Encoded(s: seq<bv8>): string {
    if s == [] then ""
    else if |s| == 1 then Group(s[0], 0, 0)[..2] + [PAD, PAD]
    else if |s| == 2 then Group(s[0], s[1], 0)[..3] + [PAD]
    else Group(s[0], s[1], s[2]) + Encoded(s[3..])
  }

  /** How many characters the decoder reads. */
  function Run(t: string): (n: nat)
    ensures n <= |t| && Letters(t[..n]) && (n < |t| ==> !Letter(t[n]))
  {
    if t != "" && Letter(t[0]) then 1 + Run(t[1..]) else 0
  }

  predicate Letters(t: string) { forall i | 0 <= i < |t| :: Letter(t[i]) }

  function Degroup(w: char, x: char, y: char, z: char): Three { Join(Find(w), Find(x), Find(y), Find(z)) }

  const NUL: char := 0 as char

  /** Decoding of letters; the last group is filled up with NULs, and gives one byte less
    than it has letters. */
  function Bytes(t: string): seq<bv8> {
    if |t| < 2 then []
    else if |t| == 2 then [Degroup(t[0], t[1], NUL, NUL).a]
    else if |t| == 3 then var d := Degroup(t[0], t[1], t[2], NUL); [d.a, d.b]
    else var d := Degroup(t[0], t[1], t[2], t[3]); [d.a, d.b, d.c] + Bytes(t[4..])
  }

  function Decoded(t: string): seq<bv8> { Bytes(t[..Run(t)]) }

  lemma GroupDecodes(a: bv8, b: bv8, c: bv8)
    ensures var g := Group(a, b, c); Letters(g) && Degroup(g[0], g[1], g[2], g[3]) == Three(a, b, c)
  {
    var d := Split(a, b, c);
    SplitIsDigits(a, b, c);
    FindCharOf(d.w);
    FindCharOf(d.x);
    FindCharOf(d.y);
    FindCharOf(d.z);
    JoinInvertsSplit(a, b, c);
  }

  /** What fills up the last group does not matter for the bytes that are kept. */
  lemma FillIgnored(w: char, x: char, y: char, z: char)
    ensures Degroup(w, x, NUL, NUL).a == Degroup(w, x, y, z).a
    ensures Degroup(w, x, y, NUL).a == Degroup(w, x, y, z).a && Degroup(w, x, y, NUL).b == Degroup(w, x, y, z).b
  {
  }

  lemma {:induction false} RunAppend(t: string, u: string)
    requires Letters(t)
    ensures Run(t + u) == |t| + Run(u) && (t + u)[..Run(t + u)] == t + u[..Run(u)]
  {
    if t == "" {
      assert t + u == u;
    } else {
      assert (t + u)[1..] == t[1..] + u;
      RunAppend(t[1..], u);
    }
  }

  lemma GroupThenRest(g: string, rest: string, three: Three)
    requires |g| == 4 && Letters(g) && Degroup(g[0], g[1], g[2], g[3]) == three
    ensures Decoded(g + rest) == [three.a, three.b, three.c] + Decoded(rest)
  {
    RunAppend(g, rest);
    assert (g + rest[..Run(rest)])[4..] == rest[..Run(rest)];
  }

  lemma LastGroup(g: string, three: Three)
    requires |g| == 4 && Letters(g) && Degroup(g[0], g[1], g[2], g[3]) == three
    ensures Decoded(g[..2] + [PAD, PAD]) == [three.a]
    ensures Decoded(g[..3] + [PAD]) == [three.a, three.b]
  {
    FillIgnored(g[0], g[1], g[2], g[3]);
    RunAppend(g[..2], [PAD, PAD]);
    RunAppend(g[..3], [PAD]);
    assert Run([PAD, PAD]) == 0 && Run([PAD]) == 0;
  }

  /** Decoding inverts encoding, for every sequence of bytes. */
  lemma {:induction false} RoundTrip(s: seq<bv8>)
    ensures Decoded(Encoded(s)) == s
  {
    if s != [] {
      var a, b, c := s[0], if |s| > 1 then s[1] else 0, if |s| > 2 then s[2] else 0;
      GroupDecodes(a, b, c);
      if |s| < 3 {
        LastGroup(Group(a, b, c), Three(a, b, c));
      } else {
        GroupThenRest(Group(a, b, c), Encoded(s[3..]), Three(a, b, c));
        RoundTrip(s[3..]);
        assert s == [a, b, c] + s[3..];
      }
    }
  }

  function Pads(n: nat): nat { if n % 3 == 0 then 0 else 3 - n % 3 }

  /** Letters, and `n` signs of padding at the end only. */
  predicate Padded(t: string, n: nat) {
    n <= |t| && Letters(t[..|t| - n]) && forall i | |t| - n <= i < |t| :: t[i] == PAD
  }

  /** The length is 4 * ceil(n / 3), and the padding as the standard has it. */
  lemma {:induction false} EncodedShape(s: seq<bv8>)
    ensures |Encoded(s)| == (|s| + 2) / 3 * 4 && Padded(Encoded(s), Pads(|s|))
    decreases |s|
  {
    if s != [] {
      var a, b, c := s[0], if |s| > 1 then s[1] else 0, if |s| > 2 then s[2] else 0;
      GroupDecodes(a, b, c);
      if |s| >= 3 {
        EncodedShape(s[3..]);
        ShapeStep(Group(a, b, c), Encoded(s[3..]), |s|);
      }
    }
  }

  lemma ShapeStep(g: string, rest: string, n: nat)
    requires |g| == 4 && Letters(g) && n >= 3 && |rest| == (n - 3 + 2) / 3 * 4 && Padded(rest, Pads(n - 3))
    ensures |g + rest| == (n + 2) / 3 * 4 && Padded(g + rest, Pads(n))
  {
    assert (g + rest)[..4 + |rest| - Pads(n)] == g + rest[..|rest| - Pads(n)];
  }

  // ---------------------------------------------------------------------------
  // The loops
  // ---------------------------------------------------------------------------

  lemma EncodedGroup(p: seq<bv8>, rest: seq<bv8>)
    requires |p| == 3
    ensures Encoded(p + rest) == Group(p[0], p[1], p[2]) + Encoded(rest)
  {
    assert (p + rest)[3..] == rest;
  }

  /** The body of the encoding loop. */
  method EncodeByte(charArray3: array<bv8>, i: nat, c: bv8, ret: string, ghost rest: seq<bv8>) returns (r: string, k: nat)
    requires charArray3.Length == 3 && i < 3
    modifies charArray3
    ensures k < 3 && r + Encoded(charArray3[..k] + rest) == ret + Encoded(old(charArray3[..i]) + ([c] + rest))
  {
    ghost var p := charArray3[..i];
    charArray3[i] := c;
    r, k := ret, i + 1;
    assert charArray3[..k] + rest == p + ([c] + rest);
    if k == 3 {
      EncodedGroup(charArray3[..3], rest);
      r := r + Group(charArray3[0], charArray3[1], charArray3[2]);
      k := 0;
      assert charArray3[..0] + rest == rest;
    }
  }

  /** base64_encode */
  method Base64Encode(buf: seq<bv8>) returns (ret: string)
    ensures ret == Encoded(buf)
  {
    ret := "";
    var i := 0;
    var charArray3 := new bv8[3](_ => 0);
    assert charArray3[..0] + buf[0..] == buf;
    for j := 0 to |buf|
      invariant 0 <= i < 3 && ret + Encoded(charArray3[..i] + buf[j..]) == Encoded(buf)
    {
      assert buf[j..] == [buf[j]] + buf[j + 1..];
      ret, i := EncodeByte(charArray3, i, buf[j], ret, buf[j + 1..]);
    }
    assert charArray3[..i] + buf[|buf|..] == charArray3[..i];
    if i > 0 {
      var last := EncodeLast(charArray3, i);
      ret := ret + last;
    }
  }

  /** The last, short group, filled up with zeros and padded. */
  method EncodeLast(charArray3: array<bv8>, i: nat) returns (r: string)
    requires charArray3.Length == 3 && 0 < i < 3
    modifies charArray3
    ensures r == Encoded(old(charArray3[..i]))
  {
    for j := i to 3
      invariant charArray3[..i] == old(charArray3[..i]) && forall m | i <= m < j :: charArray3[m] == 0
    {
      charArray3[j] := 0;
    }
    r := Group(charArray3[0], charArray3[1], charArray3[2])[..i + 1];
    r := r + if i == 1 then [PAD, PAD] else [PAD];
    assert charArray3[..i][0] == charArray3[0] && (i == 2 ==> charArray3[..i][1] == charArray3[1]);
  }

  lemma BytesGroup(p: string, rest: string)
    requires |p| == 4
    ensures var d := Degroup(p[0], p[1], p[2], p[3]); Bytes(p + rest) == [d.a, d.b, d.c] + Bytes(rest)
  {
    assert (p + rest)[4..] == rest;
  }

  function Rest(t: string, i: nat): string
    requires i <= |t|
  {
    t[i..][..Run(t[i..])]
  }

  lemma RestStep(t: string, i: nat)
    requires i <= |t|
    ensures i < |t| && Letter(t[i]) ==> Rest(t, i) == [t[i]] + Rest(t, i + 1)
    ensures i == |t| || !Letter(t[i]) ==> Rest(t, i) == ""
  {
    if i < |t| { assert t[i..][1..] == t[i + 1..]; }
  }

  /** The body of the decoding loop. */
  method DecodeChar(charArray4: array<char>, i: nat, c: char, ret: seq<bv8>, ghost rest: string) returns (r: seq<bv8>, k: nat)
    requires charArray4.Length == 4 && i < 4
    modifies charArray4
    ensures k < 4 && r + Bytes(charArray4[..k] + rest) == ret + Bytes(old(charArray4[..i]) + ([c] + rest))
  {
    ghost var p := charArray4[..i];
    charArray4[i] := c;
    r, k := ret, i + 1;
    ghost var q := charArray4[..k];
    assert q + rest == p + ([c] + rest);
    if k == 4 {
      var d := Degroup(charArray4[0], charArray4[1], charArray4[2], charArray4[3]);
      BytesGroup(q, rest);
      r, k := r + [d.a, d.b, d.c], 0;
      assert charArray4[..0] + rest == rest && r + Bytes(rest) == ret + ([d.a, d.b, d.c] + Bytes(rest));
    }
  }

  /** base64_decode */
  method Base64Decode(encoded: string) returns (ret: seq<bv8>)
    ensures ret == Decoded(encoded)
  {
    ret := [];
    var i, pos := 0, 0;
    var charArray4 := new char[4](_ => NUL);
    assert charArray4[..0] + Rest(encoded, 0) == encoded[..Run(encoded)] by { assert encoded[0..] == encoded; }
    while pos < |encoded| && encoded[pos] != PAD && IsBase64(encoded[pos])
      invariant 0 <= i < 4 && pos <= |encoded|
      invariant ret + Bytes(charArray4[..i] + Rest(encoded, pos)) == Decoded(encoded)
    {
      RestStep(encoded, pos);
      ret, i := DecodeChar(charArray4, i, encoded[pos], ret, Rest(encoded, pos + 1));
      pos := pos + 1;
    }
    RestStep(encoded, pos);
    assert charArray4[..i] + Rest(encoded, pos) == charArray4[..i];
    if i > 0 {
      var last := DecodeLast(charArray4, i);
      ret := ret + last;
    }
  }

  /** The last, short group, filled up with NULs. */
  method DecodeLast(charArray4: array<char>, i: nat) returns (r: seq<bv8>)
    requires charArray4.Length == 4 && 0 < i < 4
    modifies charArray4
    ensures r == Bytes(old(charArray4[..i]))
  {
    ghost var last := charArray4[..i];
    for j := i to 4
      invariant charArray4[..i] == last && forall m | i <= m < j :: charArray4[m] == NUL
    {
      charArray4[j] := NUL;
    }
    var d := Degroup(charArray4[0], charArray4[1], charArray4[2], charArray4[3]);
    r := [d.a, d.b, d.c][..i - 1];
    assert forall m | 0 <= m < i :: last[m] == charArray4[m];
  }
}
