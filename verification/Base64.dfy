/** Base64: three bytes in four characters of six bits. */
module Base64 {
  import opened Wrappers

  type Byte = n: nat | n < 256
  type Sextet = n: nat | n < 64

  // ── Groups ───────────────────────────────────────────────

  /** Up to three bytes as the high bits of 24. The bits of each are apart, so that a sum is what
      or-ing them gives. */
  function Joined(chunk: seq<Byte>): (n: nat)
    requires 1 <= |chunk| <= 3
    ensures n < 0x100_0000
  {
    var a: nat := chunk[0];
    var b: nat := if |chunk| > 1 then chunk[1] else 0;
    var c: nat := if |chunk| > 2 then chunk[2] else 0;
    a * 0x1_0000 + b * 0x100 + c
  }

  function SextetAt(n: nat, i: nat): Sextet
    requires i < 4
  {
    if i == 0 then n / 0x4_0000 % 64 else if i == 1 then n / 0x1000 % 64 else if i == 2 then n / 0x40 % 64 else n % 64
  }

  /** The first bytes of `chunk` need one sextet more than there are bytes. */
  function Sextets(chunk: seq<Byte>): seq<Sextet>
    requires 1 <= |chunk| <= 3
  {
    seq(|chunk| + 1, i requires 0 <= i < |chunk| + 1 => SextetAt(Joined(chunk), i))
  }

  /** Up to four sextets as the high bits of 24. */
  function Gathered(chunk: seq<Sextet>): nat
    requires 1 <= |chunk| <= 4
  {
    var a: nat := chunk[0];
    var b: nat := if |chunk| > 1 then chunk[1] else 0;
    var c: nat := if |chunk| > 2 then chunk[2] else 0;
    var d: nat := if |chunk| > 3 then chunk[3] else 0;
    a * 0x4_0000 + b * 0x1000 + c * 0x40 + d
  }

  function ByteAt(n: nat, i: nat): Byte
    requires i < 3
  {
    if i == 0 then n / 0x1_0000 % 256 else if i == 1 then n / 0x100 % 256 else n % 256
  }

  /** The whole bytes among the bits of `chunk`. */
  function Bytes(chunk: seq<Sextet>): (bytes: seq<Byte>)
    requires 1 <= |chunk| <= 4
    ensures |bytes| == |chunk| * 6 / 8
  {
    seq(|chunk| * 6 / 8, i requires 0 <= i < |chunk| * 6 / 8 => ByteAt(Gathered(chunk), i))
  }

  lemma Quotient(n: nat, q: nat, r: nat, k: nat)
    requires k == 4 || k == 16 || k == 64 || k == 0x100 || k == 0x1000 || k == 0x1_0000 || k == 0x4_0000
    requires r < k && n == q * k + r
    ensures n / k == q && n % k == r
  {}

  /** The sextets of three bytes, by their bits. */
  lemma ThreeBytes(a: nat, b: nat, c: nat)
    requires a < 256 && b < 256 && c < 256
    ensures var n := a * 0x1_0000 + b * 0x100 + c;
      && SextetAt(n, 0) == a / 4 && SextetAt(n, 1) == a % 4 * 16 + b / 16
      && SextetAt(n, 2) == b % 16 * 4 + c / 64 && SextetAt(n, 3) == c % 64
  {
    var n := a * 0x1_0000 + b * 0x100 + c;
    var a1, a0, b1, b0, c1, c0 := a / 4, a % 4, b / 16, b % 16, c / 64, c % 64;
    assert a == a1 * 4 + a0 && b == b1 * 16 + b0 && c == c1 * 64 + c0;
    Quotient(n, a1, a0 * 0x1_0000 + b * 0x100 + c, 0x4_0000);
    Quotient(n, a * 16 + b1, b0 * 0x100 + c, 0x1000);
    Quotient(n, a * 0x400 + b * 4 + c1, c0, 64);
    Quotient(a * 16 + b1, a1, a0 * 16 + b1, 64);
    Quotient(a * 0x400 + b * 4 + c1, a * 16 + b1, b0 * 4 + c1, 64);
  }

  lemma FourSextets(a: nat, b: nat, c: nat)
    requires a < 256 && b < 256 && c < 256
    ensures Gathered([a / 4, a % 4 * 16 + b / 16, b % 16 * 4 + c / 64, c % 64]) == a * 0x1_0000 + b * 0x100 + c
  {}

  lemma BytesOf(a: nat, b: nat, c: nat)
    requires a < 256 && b < 256 && c < 256
    ensures var n := a * 0x1_0000 + b * 0x100 + c; ByteAt(n, 0) == a && ByteAt(n, 1) == b && ByteAt(n, 2) == c
  {
    var n := a * 0x1_0000 + b * 0x100 + c;
    Quotient(n, a * 0x100 + b, c, 0x100);
    Quotient(n, a, b * 0x100 + c, 0x1_0000);
    Quotient(a * 0x100 + b, a, b, 0x100);
  }

  lemma SextetsOf(chunk: seq<Byte>)
    requires 1 <= |chunk| <= 3
    ensures var a: nat := chunk[0]; var b: nat := if |chunk| > 1 then chunk[1] else 0;
      var c: nat := if |chunk| > 2 then chunk[2] else 0;
      Sextets(chunk) == [a / 4, a % 4 * 16 + b / 16, b % 16 * 4 + c / 64, c % 64][..|chunk| + 1]
  {
    var a: nat := chunk[0];
    var b: nat := if |chunk| > 1 then chunk[1] else 0;
    var c: nat := if |chunk| > 2 then chunk[2] else 0;
    assert Joined(chunk) == a * 0x1_0000 + b * 0x100 + c;
    hide Joined, SextetAt;
    ThreeBytes(a, b, c);
  }

  /** The bytes of a group come back from its sextets. */
  lemma GroupRoundTrip(chunk: seq<Byte>)
    requires 1 <= |chunk| <= 3
    ensures 2 <= |Sextets(chunk)| == |chunk| + 1 <= 4 && Bytes(Sextets(chunk)) == chunk
  {
    var a: nat := chunk[0];
    var b: nat := if |chunk| > 1 then chunk[1] else 0;
    var c: nat := if |chunk| > 2 then chunk[2] else 0;
    SextetsOf(chunk);
    FourSextets(a, b, c);
    BytesOf(a, b, c);
    hide Sextets, ByteAt;
    var all := [a / 4, a % 4 * 16 + b / 16, b % 16 * 4 + c / 64, c % 64];
    assert Gathered(Sextets(chunk)) == Gathered(all);
  }

  // ── Sequences ────────────────────────────────────────────

  function Take<T>(s: seq<T>, n: nat): seq<T> { if |s| < n then s else s[..n] }

  function Drop<T>(s: seq<T>, n: nat): (r: seq<T>)
    ensures |r| == if |s| < n then 0 else |s| - n
  {
    if |s| < n then [] else s[n..]
  }

  function Encode(bytes: seq<Byte>): seq<Sextet>
    decreases |bytes|
  {
    if bytes == [] then [] else Sextets(Take(bytes, 3)) + Encode(Drop(bytes, 3))
  }

  function Decode(sextets: seq<Sextet>): seq<Byte>
    decreases |sextets|
  {
    if sextets == [] then [] else Bytes(Take(sextets, 4)) + Decode(Drop(sextets, 4))
  }

  /** Every byte string comes back from its sextets. */
  lemma {:induction false} RoundTrip(bytes: seq<Byte>)
    ensures Decode(Encode(bytes)) == bytes
    ensures |Encode(bytes)| == (|bytes| * 4 + 2) / 3
    decreases |bytes|
  {
    if bytes != [] {
      var chunk, rest := Take(bytes, 3), Drop(bytes, 3);
      var all := Sextets(chunk) + Encode(rest);
      GroupRoundTrip(chunk);
      RoundTrip(rest);
      if |bytes| >= 3 {
        assert Take(all, 4) == Sextets(chunk) && Drop(all, 4) == Encode(rest);
        assert bytes == chunk + rest;
      } else {
        assert Take(all, 4) == Sextets(chunk) && Drop(all, 4) == [];
      }
    }
  }

  // ── Characters ───────────────────────────────────────────

  /** The characters of the alphabet, `last` for 63. */
  function CharOf(v: Sextet, last: char): char {
    if v < 26 then 'A' + v as char
    else if v < 52 then 'a' + (v - 26) as char
    else if v < 62 then '0' + (v - 52) as char
    else if v == 62 then '+' else last
  }

  function ValueOf(c: char, last: char): (v: Option<Sextet>) {
    if 'A' <= c <= 'Z' then Some(c as int - 'A' as int)
    else if 'a' <= c <= 'z' then Some(c as int - 'a' as int + 26)
    else if '0' <= c <= '9' then Some(c as int - '0' as int + 52)
    else if c == '+' then Some(62)
    else if c == last then Some(63) else None
  }

  lemma CharRoundTrip(v: Sextet, last: char)
    requires last == '/' || last == ','
    ensures ValueOf(CharOf(v, last), last) == Some(v)
    ensures '+' <= CharOf(v, last) <= 'z' && CharOf(v, last) !in {'-', '=', '&'}
  {}

  function Text(sextets: seq<Sextet>, last: char): (s: string)
    ensures |s| == |sextets| && forall i :: 0 <= i < |s| ==> s[i] == CharOf(sextets[i], last)
  {
    seq(|sextets|, i requires 0 <= i < |sextets| => CharOf(sextets[i], last))
  }

  function Values(s: string, last: char): (r: Option<seq<Sextet>>)
    ensures r.Some? ==> |r.value| == |s| && forall i :: 0 <= i < |s| ==> ValueOf(s[i], last) == Some(r.value[i])
    ensures r.Some? <==> forall i :: 0 <= i < |s| ==> ValueOf(s[i], last).Some?
  {
    if s == [] then Some([])
    else match (ValueOf(s[0], last), Values(s[1..], last))
      case (Some(v), Some(vs)) => Some([v] + vs)
      case _ => None
  }

  lemma TextRoundTrip(sextets: seq<Sextet>, last: char)
    requires last == '/' || last == ','
    ensures Values(Text(sextets, last), last) == Some(sextets)
  {
    var s := Text(sextets, last);
    forall i | 0 <= i < |s| ensures ValueOf(s[i], last) == Some(sextets[i]) {
      CharRoundTrip(sextets[i], last);
    }
    assert Values(s, last).Some? && Values(s, last).value == sextets;
    assert Values(s, last).Some?;
  }

  /** The alphabet: letters, digits and `+` in order, then `last`. */
  lemma Alphabet(v: Sextet, last: char)
    ensures CharOf(0, last) == 'A' && CharOf(25, last) == 'Z' && CharOf(26, last) == 'a' && CharOf(51, last) == 'z'
    ensures CharOf(52, last) == '0' && CharOf(61, last) == '9' && CharOf(62, last) == '+' && CharOf(63, last) == last
    ensures v !in {25, 51, 61, 62, 63} ==> CharOf(v + 1, last) as int == CharOf(v, last) as int + 1
  {}

  // ── The number the bits stand for ────────────────────────

  /** The number whose digits these are, the first one the highest. */
  function Number(base: nat, digits: seq<nat>): nat {
    if digits == [] then 0 else Number(base, digits[..|digits| - 1]) * base + digits[|digits| - 1]
  }

  lemma NumberMore(base: nat, digits: seq<nat>, d: nat)
    ensures Number(base, digits + [d]) == Number(base, digits) * base + d
  {
    assert (digits + [d])[..|digits|] == digits;
  }

  lemma NumberTwo(base: nat, digits: seq<nat>, a: nat, b: nat)
    ensures Number(base, digits + [a, b]) == (Number(base, digits) * base + a) * base + b
  {
    NumberMore(base, digits, a);
    NumberMore(base, digits + [a], b);
    assert digits + [a, b] == digits + [a] + [b];
  }

  lemma NumberThree(base: nat, digits: seq<nat>, a: nat, b: nat, c: nat)
    ensures Number(base, digits + [a, b, c]) == ((Number(base, digits) * base + a) * base + b) * base + c
  {
    NumberTwo(base, digits, a, b);
    NumberMore(base, digits + [a, b], c);
    assert digits + [a, b, c] == digits + [a, b] + [c];
  }

  lemma NumberFour(base: nat, digits: seq<nat>, a: nat, b: nat, c: nat, d: nat)
    ensures Number(base, digits + [a, b, c, d]) == (((Number(base, digits) * base + a) * base + b) * base + c) * base + d
  {
    NumberThree(base, digits, a, b, c);
    NumberMore(base, digits + [a, b, c], d);
    assert digits + [a, b, c, d] == digits + [a, b, c] + [d];
  }

  /** What the last sextets add when so many bytes are left over: bits that are zero. */
  function Unused(bytes: nat): nat { if bytes % 3 == 1 then 16 else if bytes % 3 == 2 then 4 else 1 }

  /** Eight bits as six and six. */
  lemma EightBits(n: nat, a: nat)
    ensures (n * 64 + a / 4) * 64 + a % 4 * 16 == (n * 0x100 + a) * 16
  {
    assert a == a / 4 * 4 + a % 4;
  }

  lemma SixteenBits(n: nat, a: nat, b: nat)
    ensures ((n * 64 + a / 4) * 64 + (a % 4 * 16 + b / 16)) * 64 + b % 16 * 4 == ((n * 0x100 + a) * 0x100 + b) * 4
  {
    assert a == a / 4 * 4 + a % 4 && b == b / 16 * 16 + b % 16;
  }

  lemma AllBits(n: nat, a: nat, b: nat, c: nat)
    ensures (((n * 64 + a / 4) * 64 + (a % 4 * 16 + b / 16)) * 64 + (b % 16 * 4 + c / 64)) * 64 + c % 64
         == ((n * 0x100 + a) * 0x100 + b) * 0x100 + c
  {
    assert a == a / 4 * 4 + a % 4 && b == b / 16 * 16 + b % 16 && c == c / 64 * 64 + c % 64;
  }

  lemma GroupNumber(sextets: seq<nat>, bytes: seq<nat>, chunk: seq<Byte>)
    requires 1 <= |chunk| <= 3 && Number(64, sextets) == Number(256, bytes)
    ensures Number(64, sextets + Sextets(chunk)) == Number(256, bytes + chunk) * Unused(|chunk|)
  {
    hide Number, Sextets;
    if |chunk| == 1 {
      OneByte(sextets, bytes, chunk[0]);
      assert chunk == [chunk[0]];
    } else if |chunk| == 2 {
      TwoBytes(sextets, bytes, chunk[0], chunk[1]);
      assert chunk == [chunk[0], chunk[1]];
    } else {
      WholeGroup(sextets, bytes, chunk[0], chunk[1], chunk[2]);
      assert chunk == [chunk[0], chunk[1], chunk[2]];
    }
  }

  lemma OneByte(sextets: seq<nat>, bytes: seq<nat>, a: Byte)
    requires Number(64, sextets) == Number(256, bytes)
    ensures Number(64, sextets + Sextets([a])) == Number(256, bytes + [a]) * 16
  {
    hide Number, Sextets;
    var x: nat := a;
    SextetsOf([a]);
    assert Sextets([a]) == [x / 4, x % 4 * 16];
    NumberTwo(64, sextets, x / 4, x % 4 * 16);
    NumberMore(256, bytes, a);
    EightBits(Number(256, bytes), a);
  }

  lemma TwoBytes(sextets: seq<nat>, bytes: seq<nat>, a: Byte, b: Byte)
    requires Number(64, sextets) == Number(256, bytes)
    ensures Number(64, sextets + Sextets([a, b])) == Number(256, bytes + [a, b]) * 4
  {
    hide Number, Sextets;
    var x: nat, y: nat := a, b;
    SextetsOf([a, b]);
    assert Sextets([a, b]) == [x / 4, x % 4 * 16 + y / 16, y % 16 * 4];
    NumberThree(64, sextets, x / 4, x % 4 * 16 + y / 16, y % 16 * 4);
    NumberTwo(256, bytes, a, b);
    SixteenBits(Number(256, bytes), a, b);
  }

  lemma WholeGroup(sextets: seq<nat>, bytes: seq<nat>, a: Byte, b: Byte, c: Byte)
    requires Number(64, sextets) == Number(256, bytes)
    ensures Number(64, sextets + Sextets([a, b, c])) == Number(256, bytes + [a, b, c])
  {
    hide Number, Sextets;
    var x: nat, y: nat, z: nat := a, b, c;
    SextetsOf([a, b, c]);
    assert Sextets([a, b, c]) == [x / 4, x % 4 * 16 + y / 16, y % 16 * 4 + z / 64, z % 64];
    NumberFour(64, sextets, x / 4, x % 4 * 16 + y / 16, y % 16 * 4 + z / 64, z % 64);
    NumberThree(256, bytes, a, b, c);
    AllBits(Number(256, bytes), a, b, c);
  }

  lemma {:induction false} EncodeMore(bytes: seq<Byte>, chunk: seq<Byte>)
    requires |bytes| % 3 == 0 && 1 <= |chunk| <= 3
    ensures Encode(bytes + chunk) == Encode(bytes) + Sextets(chunk)
    decreases |bytes|
  {
    var all := bytes + chunk;
    if bytes == [] {
      assert all == chunk && Take(chunk, 3) == chunk && Drop(chunk, 3) == [];
      assert Encode([]) == [] && Encode(chunk) == Sextets(chunk) + Encode([]);
    } else {
      EncodeMore(bytes[3..], chunk);
      assert Take(all, 3) == Take(bytes, 3) && Drop(all, 3) == bytes[3..] + chunk && Drop(bytes, 3) == bytes[3..];
    }
  }

  /** The sextets are the digits in base 64 of the number whose digits in base 256 are the bytes,
      the last one filled up with zero bits. */
  lemma {:induction false} EncodeNumber(bytes: seq<Byte>)
    ensures Number(64, Encode(bytes)) == Number(256, bytes) * Unused(|bytes|)
    decreases |bytes|
  {
    if bytes != [] {
      var k := if |bytes| % 3 == 0 then 3 else |bytes| % 3;
      var front, chunk := bytes[..|bytes| - k], bytes[|bytes| - k..];
      assert bytes == front + chunk;
      assert |front| % 3 == 0 && Unused(|chunk|) == Unused(|bytes|);
      EncodeMore(front, chunk);
      EncodeNumber(front);
      hide Number, Encode;
      assert Unused(|front|) == 1;
      GroupNumber(Encode(front), front, chunk);
    }
  }

  lemma NumberOfChunk(chunk: seq<Sextet>)
    requires 1 <= |chunk| <= 4
    ensures Gathered(chunk) == Number(64, chunk) * Left(|chunk|)
  {
    hide Number;
    var a: nat := chunk[0];
    NothingNumbered(64);
    NumberMore(64, [], a);
    if |chunk| > 1 {
      NumberTwo(64, [], a, chunk[1]);
    }
    if |chunk| > 2 {
      NumberThree(64, [], a, chunk[1], chunk[2]);
    }
    if |chunk| > 3 {
      NumberFour(64, [], a, chunk[1], chunk[2], chunk[3]);
    }
    assert [] + chunk == chunk;
    assert chunk == match |chunk|
      case 1 => [a]
      case 2 => [a, chunk[1]]
      case 3 => [a, chunk[1], chunk[2]]
      case _ => [a, chunk[1], chunk[2], chunk[3]];
  }

  lemma NothingNumbered(base: nat)
    ensures Number(base, []) == 0
  {}

  /** The weight of the last of so many sextets among 24 bits. */
  function Left(sextets: nat): nat {
    if sextets == 1 then 0x4_0000 else if sextets == 2 then 0x1000 else if sextets == 3 then 64 else 1
  }
}
