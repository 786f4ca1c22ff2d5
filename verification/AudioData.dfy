/** Audio carried as padded base64 (section 4 of RFC 4648). Texts are taken byte by byte. */
module AudioData {
  import opened Wrappers
  import opened Base64

  const INVALID := "the audio's data is not base64"

  /** The trailing equals signs. */
  function Padding(text: string): (n: nat)
    ensures n <= |text|
  {
    if text == [] || text[|text| - 1] != '=' then 0 else 1 + Padding(text[..|text| - 1])
  }

  function Trimmed(text: string): string { text[..|text| - Padding(text)] }

  /** The number of bytes `text` stands for: none if its padding is all there is. */
  function DecodedLen(text: string): (n: nat)
    ensures n == 0 || n + Padding(text) == |text| / 4 * 3
  {
    var n := |text| / 4 * 3;
    if Padding(text) > n then 0 else n - Padding(text)
  }

  predicate IsPadded(text: string) {
    |text| % 4 == 0 && Padding(text) <= 2 && Values(Trimmed(text), '/').Some?
  }

  /** Adds the next sextet of a group to the high bits of 24. */
  function Weight(i: nat): nat
    requires i < 4
  {
    if i == 0 then 0x4_0000 else if i == 1 then 0x1000 else if i == 2 then 0x40 else 1
  }

  lemma GatheredMore(vs: seq<Sextet>, v: Sextet)
    requires |vs| < 4
    ensures Gathered(vs + [v]) == (if vs == [] then 0 else Gathered(vs)) + (v as nat) * Weight(|vs|)
  {
    var all := vs + [v];
    assert forall i :: 0 <= i < |vs| ==> all[i] == vs[i];
  }

  /** The bits of a group of characters, if they all are of the alphabet. */
  method Gather(chunk: string) returns (n: Option<nat>)
    requires 1 <= |chunk| <= 4
    ensures n.Some? <==> Values(chunk, '/').Some?
    ensures n.Some? ==> n.value == Gathered(Values(chunk, '/').value)
  {
    var bits := 0;
    ghost var vs: seq<Sextet> := [];
    for i := 0 to |chunk|
      invariant |vs| == i && forall j :: 0 <= j < i ==> ValueOf(chunk[j], '/') == Some(vs[j])
      invariant bits == if i == 0 then 0 else Gathered(vs)
    {
      var v := ValueOf(chunk[i], '/');
      if v.None? {
        return None;
      }
      GatheredMore(vs, v.value);
      vs := vs + [v.value];
      var sextet: nat := v.value;
      bits := bits + sextet * Weight(i);
    }
    assert Values(chunk, '/').value == vs;
    n := Some(bits);
  }

  /** `first`, then what comes after it, if anything does. */
  function Then<T>(first: seq<T>, rest: Option<seq<T>>): Option<seq<T>> {
    match rest case None => None case Some(more) => Some(first + more)
  }

  lemma ThenThen<T>(a: seq<T>, b: seq<T>, c: Option<seq<T>>)
    ensures Then(a, Then(b, c)) == Then(a + b, c) && Then([], c) == c
  {
    if c.Some? {
      assert a + (b + c.value) == (a + b) + c.value && [] + c.value == c.value;
    }
  }

  lemma {:induction false} ValuesSplit(s: string, k: nat)
    requires k <= |s|
    ensures Values(s, '/') == match Values(s[..k], '/')
                              case None => None
                              case Some(a) => Then(a, Values(s[k..], '/'))
  {
    if k == 0 {
      assert s[0..] == s;
      ThenThen([], [], Values(s, '/'));
    } else {
      assert s[..k][1..] == s[1..][..k - 1] && s[k..] == s[1..][k - 1..];
      ValuesSplit(s[1..], k - 1);
      if Values(s[..k], '/').Some? {
        ThenThen([ValueOf(s[0], '/').value], Values(s[1..][..k - 1], '/').value, Values(s[k..], '/'));
      }
    }
  }

  /** The bytes of a text, if it is one of the alphabet. */
  function Meaning(s: string): Option<seq<Byte>> {
    match Values(s, '/') case None => None case Some(vs) => Some(Decode(vs))
  }

  lemma MeaningOfGroup(chunk: string)
    requires 1 <= |chunk| <= 4
    ensures Meaning(chunk) == match Values(chunk, '/') case None => None case Some(vs) => Some(Bytes(vs))
  {
    hide Values;
    if Values(chunk, '/').Some? {
      OneGroup(Values(chunk, '/').value);
    }
  }

  lemma OneGroup(group: seq<Sextet>)
    requires 1 <= |group| <= 4
    ensures Decode(group) == Bytes(group)
  {
    TakesGroup(group, []);
    assert group + [] == group && Bytes(group) + [] == Bytes(group);
  }

  /** A text means the bytes of its first group, then those of the rest. */
  lemma MeaningSplit(s: string, k: nat)
    requires k <= |s| && (k == 4 || (1 <= k < 4 && k == |s|))
    ensures Meaning(s) == match Meaning(s[..k]) case None => None case Some(a) => Then(a, Meaning(s[k..]))
  {
    MeaningOfGroup(s[..k]);
    ValuesSplit(s, k);
    if Values(s, '/').Some? {
      TakesGroup(Values(s[..k], '/').value, Values(s[k..], '/').value);
    }
  }

  method DecodeGroup(chunk: string) returns (bytes: Option<seq<Byte>>)
    requires 1 <= |chunk| <= 4
    ensures bytes == Meaning(chunk)
  {
    MeaningOfGroup(chunk);
    var n := Gather(chunk);
    if n.None? {
      return None;
    }
    var produced := |chunk| * 6 / 8;
    bytes := Some(seq(produced, i requires 0 <= i < produced => ByteAt(n.value, i)));
    assert bytes.value == Bytes(Values(chunk, '/').value);
  }

  method DecodeGroups(bytes: string) returns (out: Option<seq<Byte>>)
    ensures out == Meaning(bytes)
  {
    hide Meaning;
    var done: seq<Byte> := [];
    var at := 0;
    assert bytes[0..] == bytes;
    ThenThen([], [], Meaning(bytes));
    while at < |bytes|
      invariant 0 <= at <= |bytes|
      invariant Meaning(bytes) == Then(done, Meaning(bytes[at..]))
    {
      ghost var left := bytes[at..];
      var chunk := if |bytes| - at < 4 then bytes[at..] else bytes[at..at + 4];
      assert chunk == left[..|chunk|] && left[|chunk|..] == bytes[at + |chunk|..];
      MeaningSplit(left, |chunk|);
      var more := DecodeGroup(chunk);
      if more.None? {
        return None;
      }
      ThenThen(done, more.value, Meaning(left[|chunk|..]));
      done := done + more.value;
      at := at + |chunk|;
    }
    NothingMeant();
    assert bytes[at..] == [] && done + [] == done;
    out := Some(done);
  }

  /** The bytes of padded base64; anything else is refused. */
  method DecodeBase64(text: string) returns (r: Result<seq<Byte>, string>)
    ensures r.Ok? <==> IsPadded(text)
    ensures r.Ok? ==> Meaning(Trimmed(text)) == Some(r.value) && |r.value| == DecodedLen(text)
    ensures r.Err? ==> r.error == INVALID
  {
    var bytes := Trimmed(text);
    MeaningOfValues(bytes);
    if |text| % 4 != 0 || |text| - |bytes| > 2 {
      return Err(INVALID);
    }
    var out := DecodeGroups(bytes);
    if out.None? {
      return Err(INVALID);
    }
    LengthIsExact(text);
    r := Ok(out.value);
  }

  lemma NothingMeant()
    ensures Meaning([]) == Some([])
  {}

  lemma MeaningOfValues(s: string)
    ensures Meaning(s).Some? <==> Values(s, '/').Some?
  {}

  lemma TakesGroup(group: seq<Sextet>, rest: seq<Sextet>)
    requires |group| == 4 || (1 <= |group| < 4 && rest == [])
    ensures Decode(group + rest) == Bytes(group) + Decode(rest)
  {
    assert Take(group + rest, 4) == group && Drop(group + rest, 4) == rest;
  }

  // ── Lengths and round trips ──────────────────────────────

  lemma {:induction false} DecodeLength(sextets: seq<Sextet>)
    ensures |Decode(sextets)| == |sextets| / 4 * 3 + |sextets| % 4 * 6 / 8
    decreases |sextets|
  {
    if sextets != [] {
      DecodeLength(Drop(sextets, 4));
    }
  }

  /** The size announced is that of the bytes decoded. */
  lemma LengthIsExact(text: string)
    requires IsPadded(text)
    ensures Meaning(Trimmed(text)).Some? && |Meaning(Trimmed(text)).value| == DecodedLen(text)
  {
    DecodeLength(Values(Trimmed(text), '/').value);
  }

  function Equals(n: nat): (s: string)
    ensures |s| == n && forall i :: 0 <= i < n ==> s[i] == '='
  {
    seq(n, _ => '=')
  }

  /** Base64 of `bytes`, padded to a multiple of four characters. */
  function Encoded(bytes: seq<Byte>): string {
    Text(Encode(bytes), '/') + Equals((3 - |bytes| % 3) % 3)
  }

  lemma {:induction false} PaddingOf(s: string, n: nat)
    requires forall i :: 0 <= i < |s| ==> s[i] != '='
    ensures Padding(s + Equals(n)) == n
    decreases n
  {
    var text := s + Equals(n);
    if n > 0 {
      assert text[..|text| - 1] == s + Equals(n - 1);
      PaddingOf(s, n - 1);
    } else {
      assert text == s;
    }
  }

  /** Every byte string comes back from its padded base64, of the size announced. */
  lemma AudioRoundTrip(bytes: seq<Byte>)
    ensures var text := Encoded(bytes);
      && IsPadded(text) && DecodedLen(text) == |bytes|
      && Meaning(Trimmed(text)) == Some(bytes)
  {
    hide Encode, Decode, Values, Padding, DecodedLen;
    var text, body := Encoded(bytes), Text(Encode(bytes), '/');
    forall i | 0 <= i < |body| ensures body[i] != '=' {
      CharRoundTrip(Encode(bytes)[i], '/');
    }
    var pad := (3 - |bytes| % 3) % 3;
    PaddingOf(body, pad);
    assert text == body + Equals(pad);
    assert Trimmed(text) == body;
    TextRoundTrip(Encode(bytes), '/');
    RoundTrip(bytes);
    PaddedLength(|bytes|);
    LengthIsExact(text);
  }

  lemma PaddedLength(n: nat)
    ensures ((n * 4 + 2) / 3 + (3 - n % 3) % 3) % 4 == 0
  {
    var q, r := n / 3, n % 3;
    assert n == 3 * q + r;
    assert (n * 4 + 2) / 3 == 4 * q + (4 * r + 2) / 3;
  }
}
