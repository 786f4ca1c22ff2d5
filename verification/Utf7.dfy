/** Folder names in modified UTF-7 (section 5.1.3 of RFC 3501). */
module Utf7 {
  import opened Wrappers
  import opened Base64

  type Unit = n: nat | n < 0x1_0000

  predicate IsPlain(c: char) { ' ' <= c <= '~' }

  // ── UTF-16 ───────────────────────────────────────────────

  /** The UTF-16 units of a character: one, or a surrogate pair. */
  function Units(c: char): (units: seq<Unit>)
    ensures 1 <= |units| <= 2
  {
    var n := c as int;
    if n < 0x1_0000 then [n] else [0xD800 + (n - 0x1_0000) / 0x400, 0xDC00 + (n - 0x1_0000) % 0x400]
  }

  function AllUnits(s: string): seq<Unit> {
    if s == [] then [] else Units(s[0]) + AllUnits(s[1..])
  }

  predicate IsHigh(u: Unit) { 0xD800 <= u < 0xDC00 }

  predicate IsLow(u: Unit) { 0xDC00 <= u < 0xE000 }

  function FromUnits(units: seq<Unit>): Option<string>
    decreases |units|
  {
    if units == [] then Some("")
    else if IsHigh(units[0]) then
      if |units| < 2 || !IsLow(units[1]) then None
      else
        var high: nat, low: nat := units[0], units[1];
        var c := (0x1_0000 + (high - 0xD800) * 0x400 + (low - 0xDC00)) as char;
        match FromUnits(units[2..]) case None => None case Some(rest) => Some([c] + rest)
    else if IsLow(units[0]) then None
    else match FromUnits(units[1..]) case None => None case Some(rest) => Some([units[0] as char] + rest)
  }

  lemma {:induction false} UnitsRoundTrip(s: string)
    ensures FromUnits(AllUnits(s)) == Some(s)
  {
    if s != [] {
      UnitsRoundTrip(s[1..]);
      var units := AllUnits(s);
      assert s == [s[0]] + s[1..];
      assert units[|Units(s[0])|..] == AllUnits(s[1..]);
    }
  }

  lemma {:induction false} AllUnitsAppend(a: string, b: string)
    ensures AllUnits(a + b) == AllUnits(a) + AllUnits(b)
  {
    if a == [] {
      assert a + b == b;
    } else {
      assert (a + b)[1..] == a[1..] + b;
      AllUnitsAppend(a[1..], b);
    }
  }

  /** Most significant byte first. */
  function BigEndian(units: seq<Unit>): (bytes: seq<Byte>)
    ensures |bytes| == 2 * |units|
  {
    if units == [] then [] else [units[0] / 256, units[0] % 256] + BigEndian(units[1..])
  }

  function FromBytes(bytes: seq<Byte>): Option<seq<Unit>>
    decreases |bytes|
  {
    if bytes == [] then Some([])
    else if |bytes| == 1 then None
    else match FromBytes(bytes[2..])
      case None => None
      case Some(rest) => var hi: nat, lo: nat := bytes[0], bytes[1]; Some([hi * 256 + lo] + rest)
  }

  lemma {:induction false} BytesRoundTrip(units: seq<Unit>)
    ensures FromBytes(BigEndian(units)) == Some(units)
  {
    if units != [] {
      BytesRoundTrip(units[1..]);
      assert BigEndian(units)[2..] == BigEndian(units[1..]);
      assert units == [units[0]] + units[1..];
    }
  }

  // ── Encoding ─────────────────────────────────────────────

  /** A run of other characters: `&`, base64 with `,` for `/` and no padding, `-`. */
  function Flushed(pending: seq<Unit>): string {
    if pending == [] then "" else "&" + Text(Encode(BigEndian(pending)), ',') + "-"
  }

  function Plain(c: char): string { if c == '&' then "&-" else [c] }

  /** The text of `name` after a pending run. */
  function EncodedAfter(pending: seq<Unit>, name: string): string
    decreases |name|
  {
    if name == [] then Flushed(pending)
    else if IsPlain(name[0]) then Flushed(pending) + Plain(name[0]) + EncodedAfter([], name[1..])
    else EncodedAfter(pending + Units(name[0]), name[1..])
  }

  function Encoded(name: string): string { EncodedAfter([], name) }

  class Encoder {
    var out: string
    var pending: seq<Unit>

    constructor ()
      ensures out == "" && pending == []
    {
      out, pending := "", [];
    }

    /** Writes the pending run. */
    method Flush()
      modifies this
      ensures out == old(out) + Flushed(old(pending)) && pending == []
    {
      if pending == [] {
        return;
      }
      out := out + "&";
      WriteGroups(BigEndian(pending));
      out := out + "-";
      pending := [];
    }

    method WriteGroups(bytes: seq<Byte>)
      modifies this
      ensures out == old(out) + Text(Encode(bytes), ',') && pending == old(pending)
    {
      hide Encode, Text;
      var at := 0;
      assert bytes[0..] == bytes;
      while at < |bytes|
        invariant 0 <= at <= |bytes| && pending == old(pending)
        invariant old(out) + Text(Encode(bytes), ',') == out + Text(Encode(bytes[at..]), ',')
      {
        var rest := bytes[at..];
        var group := Sextets(Take(rest, 3));
        assert bytes[at + |Take(rest, 3)|..] == Drop(rest, 3);
        FirstGroup(rest);
        out := out + Text(group, ',');
        at := at + |Take(rest, 3)|;
      }
      assert bytes[at..] == [];
      NoGroup();
    }

    method Add(name: string)
      requires pending == []
      modifies this
      ensures out == old(out) + Encoded(name) && pending == []
    {
      assert name[0..] == name;
      for i := 0 to |name|
        invariant old(out) + Encoded(name) == out + EncodedAfter(pending, name[i..])
      {
        var c := name[i];
        assert name[i..][1..] == name[i + 1..];
        if IsPlain(c) {
          Flush();
          out := out + Plain(c);
        } else {
          pending := pending + Units(c);
        }
      }
      assert name[|name|..] == [];
      Flush();
    }
  }

  lemma FirstGroup(bytes: seq<Byte>)
    requires bytes != []
    ensures Text(Encode(bytes), ',') == Text(Sextets(Take(bytes, 3)), ',') + Text(Encode(Drop(bytes, 3)), ',')
  {
    TextAppend(Sextets(Take(bytes, 3)), Encode(Drop(bytes, 3)));
  }

  lemma NoGroup()
    ensures Text(Encode([]), ',') == ""
  {}

  lemma TextAppend(a: seq<Sextet>, b: seq<Sextet>)
    ensures Text(a + b, ',') == Text(a, ',') + Text(b, ',')
  {}

  /** A folder name, encoded. */
  method EncodeName(name: string) returns (text: string)
    ensures text == Encoded(name)
  {
    var encoder := new Encoder();
    encoder.Add(name);
    text := encoder.out;
  }

  // ── Decoding ─────────────────────────────────────────────

  /** The text before the first `-`, and what is after it. */
  function UntilDash(s: string): (r: Option<(string, string)>)
    ensures r.Some? ==> |r.value.0| + |r.value.1| < |s|
  {
    if s == [] then None
    else if s[0] == '-' then Some(("", s[1..]))
    else match UntilDash(s[1..]) case None => None case Some((a, b)) => Some(([s[0]] + a, b))
  }

  /** The characters of a run of base64. */
  function Run(b64: string): Option<string> {
    match Values(b64, ',')
    case None => None
    case Some(sextets) => match FromBytes(Decode(sextets)) case None => None case Some(units) => FromUnits(units)
  }

  function Decoded(s: string): Option<string>
    decreases |s|
  {
    if s == [] then Some("")
    else if s[0] == '&' then
      match UntilDash(s[1..])
      case None => None
      case Some((b64, rest)) =>
        (match (if b64 == "" then Some("&") else Run(b64), Decoded(rest))
         case (Some(run), Some(more)) => Some(run + more)
         case _ => None)
    else if IsPlain(s[0]) then
      match Decoded(s[1..]) case None => None case Some(more) => Some([s[0]] + more)
    else None
  }

  lemma {:induction false} DashAfter(a: string, rest: string)
    requires forall i :: 0 <= i < |a| ==> a[i] != '-'
    ensures UntilDash(a + "-" + rest) == Some((a, rest))
  {
    var s := a + "-" + rest;
    if a != [] {
      assert s[1..] == a[1..] + "-" + rest;
      DashAfter(a[1..], rest);
      assert [a[0]] + a[1..] == a;
    } else {
      assert s[1..] == rest;
    }
  }

  /** The base64 of a run is read back as its characters. */
  lemma RunRoundTrip(run: string)
    requires run != []
    ensures var b64 := Text(Encode(BigEndian(AllUnits(run))), ',');
      b64 != [] && Run(b64) == Some(run) && forall i :: 0 <= i < |b64| ==> IsPlain(b64[i]) && b64[i] != '-'
  {
    var bytes := BigEndian(AllUnits(run));
    var sextets := Encode(bytes);
    TextRoundTrip(sextets, ',');
    RoundTrip(bytes);
    BytesRoundTrip(AllUnits(run));
    UnitsRoundTrip(run);
    forall i | 0 <= i < |sextets| ensures IsPlain(Text(sextets, ',')[i]) && Text(sextets, ',')[i] != '-' {
      CharRoundTrip(sextets[i], ',');
    }
  }

  lemma RunReads(b64: string, run: string, rest: string, more: string)
    requires b64 != [] && Run(b64) == Some(run) && forall i :: 0 <= i < |b64| ==> b64[i] != '-'
    requires Decoded(rest) == Some(more)
    ensures Decoded("&" + b64 + "-" + rest) == Some(run + more)
  {
    hide Run;
    DashAfter(b64, rest);
    var s := "&" + b64 + "-" + rest;
    assert s[1..] == b64 + "-" + rest;
  }

  lemma FlushedReads(run: string, rest: string, more: string)
    requires Decoded(rest) == Some(more)
    ensures Decoded(Flushed(AllUnits(run)) + rest) == Some(run + more)
  {
    hide Decoded, Run, Encode, Text, BigEndian;
    if run == [] {
      assert Flushed([]) + rest == rest && run + more == more;
    } else {
      RunRoundTrip(run);
      assert AllUnits(run) != [];
      RunReads(Text(Encode(BigEndian(AllUnits(run))), ','), run, rest, more);
    }
  }

  lemma PlainReads(c: char, rest: string, more: string)
    requires IsPlain(c) && Decoded(rest) == Some(more)
    ensures Decoded(Plain(c) + rest) == Some([c] + more)
  {
    var s := Plain(c) + rest;
    if c == '&' {
      assert s[1..] == "" + "-" + rest;
      DashAfter("", rest);
    } else {
      assert s[1..] == rest;
    }
  }

  lemma AddsUnits(run: string, c: char)
    ensures AllUnits(run + [c]) == AllUnits(run) + Units(c)
  {
    AllUnitsAppend(run, [c]);
    assert AllUnits([c]) == Units(c) + [] == Units(c);
  }

  lemma {:induction false} DecodesAfter(run: string, name: string)
    ensures Decoded(EncodedAfter(AllUnits(run), name)) == Some(run + name)
    decreases |name|
  {
    hide Decoded, Flushed, AllUnits, Plain, Units;
    if name == [] {
      NothingDecodes();
      FlushedReads(run, "", "");
      assert Flushed(AllUnits(run)) + "" == Flushed(AllUnits(run)) && run + "" == run + name;
    } else {
      var c, rest := name[0], name[1..];
      assert name == [c] + rest;
      if IsPlain(c) {
        NothingDecodes();
        DecodesAfter("", rest);
        assert "" + rest == rest;
        var tail := EncodedAfter([], rest);
        PlainReads(c, tail, rest);
        FlushedReads(run, Plain(c) + tail, [c] + rest);
        assert Flushed(AllUnits(run)) + Plain(c) + tail == Flushed(AllUnits(run)) + (Plain(c) + tail);
      } else {
        AddsUnits(run, c);
        DecodesAfter(run + [c], rest);
        assert (run + [c]) + rest == run + name;
      }
    }
  }

  lemma NothingDecodes()
    ensures Decoded("") == Some("") && AllUnits("") == []
  {}

  /** Every name comes back from its encoding. */
  lemma NameRoundTrip(name: string)
    ensures Decoded(Encoded(name)) == Some(name)
  {
    DecodesAfter("", name);
    assert "" + name == name;
  }

  predicate AllPlain(s: string) { forall i :: 0 <= i < |s| ==> IsPlain(s[i]) }

  lemma FlushedIsPlain(run: string)
    ensures AllPlain(Flushed(AllUnits(run)))
  {
    if run != [] {
      RunRoundTrip(run);
    }
  }

  /** What is written is printable ASCII. */
  lemma {:induction false} EncodedIsPlain(run: string, name: string)
    ensures AllPlain(EncodedAfter(AllUnits(run), name))
    decreases |name|
  {
    hide Flushed, AllUnits, Units;
    FlushedIsPlain(run);
    if name != [] {
      if IsPlain(name[0]) {
        NothingDecodes();
        EncodedIsPlain("", name[1..]);
      } else {
        AddsUnits(run, name[0]);
        EncodedIsPlain(run + [name[0]], name[1..]);
      }
    }
  }

  // ── The encoding, by what is written ─────────────────────

  /** A character beyond the first plane is a high and a low surrogate: the ten high and the ten low
      bits of what it is beyond. */
  lemma Surrogates(c: char)
    ensures c as int < 0x1_0000 ==> Units(c) == [c as int]
    ensures c as int >= 0x1_0000 ==>
      && |Units(c)| == 2 && 0xD800 <= Units(c)[0] < 0xDC00 && 0xDC00 <= Units(c)[1] < 0xE000
      && (Units(c)[0] as nat - 0xD800) * 0x400 + (Units(c)[1] as nat - 0xDC00) + 0x1_0000 == c as int
  {}

  /** The bytes are those of the number the units are the digits of. */
  lemma {:induction false} BytesInOrder(units: seq<Unit>)
    ensures Number(256, BigEndian(units)) == Number(0x1_0000, units)
  {
    if units != [] {
      var front, last := units[..|units| - 1], units[|units| - 1];
      var u: nat := last;
      BytesInOrder(front);
      BigEndianMore(front, last);
      assert units == front + [last];
      NumberTwo(256, BigEndian(front), u / 256, u % 256);
      NumberMore(0x1_0000, front, u);
      assert u == u / 256 * 256 + u % 256;
    }
  }

  lemma {:induction false} BigEndianMore(units: seq<Unit>, u: Unit)
    ensures BigEndian(units + [u]) == BigEndian(units) + [u / 256, u % 256]
  {
    if units == [] {
      assert [] + [u] == [u];
    } else {
      assert (units + [u])[1..] == units[1..] + [u];
      BigEndianMore(units[1..], u);
    }
  }

  /** A printable character is written as it is, `&` as `&-`. */
  lemma PlainIsKept(c: char, rest: string)
    requires ' ' <= c <= '~'
    ensures Encoded([c] + rest) == (if c == '&' then "&-" else [c]) + Encoded(rest)
  {
    assert ([c] + rest)[1..] == rest;
  }

  /** No printable character of ASCII in it. */
  predicate NonePlain(s: string) { forall i :: 0 <= i < |s| ==> s[i] < ' ' || s[i] > '~' }

  lemma {:induction false} RunGrows(pending: seq<Unit>, run: string, rest: string)
    requires NonePlain(run)
    ensures EncodedAfter(pending, run + rest) == EncodedAfter(pending + AllUnits(run), rest)
    decreases |run|
  {
    if run == [] {
      assert run + rest == rest && pending + [] == pending;
    } else {
      assert (run + rest)[1..] == run[1..] + rest;
      RunGrows(pending + Units(run[0]), run[1..], rest);
      assert pending + Units(run[0]) + AllUnits(run[1..]) == pending + AllUnits(run);
    }
  }

  /** A run of other characters, as long as it goes, is written as one, between `&` and `-`. */
  lemma RunIsOne(run: string, rest: string)
    requires run != [] && NonePlain(run) && (rest == [] || ' ' <= rest[0] <= '~')
    ensures Encoded(run + rest) == "&" + Text(Encode(BigEndian(AllUnits(run))), ',') + "-" + Encoded(rest)
  {
    RunGrows([], run, rest);
    assert [] + AllUnits(run) == AllUnits(run) && AllUnits(run) != [];
    FlushedFirst(AllUnits(run), rest);
  }

  /** Written are the digits in base 64 of the number whose digits the UTF-16 units are, the last one
      filled up with zero bits. */
  lemma UnitsNumber(units: seq<Unit>)
    ensures var sextets := Encode(BigEndian(units));
      && |sextets| == (|units| * 8 + 2) / 3
      && Number(64, sextets) == Number(0x1_0000, units) * Unused(|units| * 2)
  {
    RoundTrip(BigEndian(units));
    EncodeNumber(BigEndian(units));
    BytesInOrder(units);
  }

  lemma FlushedFirst(pending: seq<Unit>, rest: string)
    requires rest == [] || IsPlain(rest[0])
    ensures EncodedAfter(pending, rest) == Flushed(pending) + Encoded(rest)
  {
    hide Encode, BigEndian, Text, Plain;
    var written := Flushed(pending);
    if rest == [] {
      assert written + "" == written;
    } else {
      var first, more := Plain(rest[0]), EncodedAfter([], rest[1..]);
      assert Encoded(rest) == "" + first + more == first + more;
      assert written + first + more == written + (first + more);
    }
  }

  lemma ExampleBits()
    ensures BigEndian([0x53F0, 0x5317]) == [0x53, 0xF0, 0x53, 0x17]
    ensures Encode([0x53, 0xF0, 0x53, 0x17]) == [20, 63, 1, 19, 5, 48]
    ensures Text([20, 63, 1, 19, 5, 48], ',') == "U,BTFw"
  {}

  lemma ExampleUnits()
    ensures AllUnits("\U{53F0}\U{5317}") == [0x53F0, 0x5317] && NonePlain("\U{53F0}\U{5317}")
  {
    var a, b := "\U{53F0}", "\U{5317}";
    assert "\U{53F0}\U{5317}" == a + b;
    AllUnitsAppend(a, b);
    assert a[1..] == "" && b[1..] == "";
  }

  /** A folder of the example of section 5.1.3 of RFC 3501. */
  lemma ExampleFolder()
    ensures Encoded("\U{53F0}\U{5317}") == "&U,BTFw-"
  {
    ExampleBits();
    var run := "\U{53F0}\U{5317}";
    ExampleUnits();
    assert run + "" == run;
    hide Encoded, Encode, Text, BigEndian, AllUnits, NonePlain;
    RunIsOne(run, "");
    NothingEncoded();
    assert "&" + "U,BTFw" + "-" + "" == "&U,BTFw-";
  }

  lemma NothingEncoded()
    ensures Encoded("") == ""
  {}

  // ── Quoting ──────────────────────────────────────────────

  function Replaced(s: string, c: char, with: string): string {
    if s == [] then "" else (if s[0] == c then with else [s[0]]) + Replaced(s[1..], c, with)
  }

  /** The encoded name between quotes, quotes and backslashes escaped. */
  function Quoted(name: string): string {
    "\"" + Replaced(Replaced(Encoded(name), '\\', "\\\\"), '"', "\\\"") + "\""
  }

  /** The content of a quoted string after its opening quote, and what follows its closing quote. */
  function Unquoted(s: string): Option<(string, string)> {
    if s == [] then None
    else if s[0] == '"' then Some(("", s[1..]))
    else if s[0] != '\\' then match Unquoted(s[1..]) case None => None case Some((a, b)) => Some(([s[0]] + a, b))
    else if |s| < 2 || (s[1] != '"' && s[1] != '\\') then None
    else match Unquoted(s[2..]) case None => None case Some((a, b)) => Some(([s[1]] + a, b))
  }

  function Escaped(s: string): string { Replaced(Replaced(s, '\\', "\\\\"), '"', "\\\"") }

  lemma {:induction false} ReplacedAppend(a: string, b: string, c: char, with: string)
    ensures Replaced(a + b, c, with) == Replaced(a, c, with) + Replaced(b, c, with)
  {
    if a == [] {
      assert a + b == b;
    } else {
      assert (a + b)[1..] == a[1..] + b;
      ReplacedAppend(a[1..], b, c, with);
    }
  }

  /** A character as it is escaped. */
  function EscapedOne(c: char): string { if c == '\\' || c == '"' then ['\\', c] else [c] }

  lemma EscapedFirst(s: string)
    requires s != []
    ensures Escaped(s) == EscapedOne(s[0]) + Escaped(s[1..])
  {
    var c, tail := s[0], s[1..];
    var first := if c == '\\' then "\\\\" else [c];
    ReplacedAppend(first, Replaced(tail, '\\', "\\\\"), '"', "\\\"");
    EscapedChar(c);
  }

  lemma {:induction false} UnquotedEscaped(s: string, rest: string)
    ensures Unquoted(Escaped(s) + "\"" + rest) == Some((s, rest))
  {
    hide Escaped, Replaced;
    var all := Escaped(s) + "\"" + rest;
    if s == [] {
      NothingEscaped();
      assert all[1..] == rest;
    } else {
      EscapedFirst(s);
      var tail := Escaped(s[1..]) + "\"" + rest;
      assert all == EscapedOne(s[0]) + tail;
      UnquotedEscaped(s[1..], rest);
      assert all[|EscapedOne(s[0])|..] == tail;
      assert [s[0]] + s[1..] == s;
    }
  }

  lemma NothingEscaped()
    ensures Escaped("") == ""
  {}

  lemma EscapedChar(c: char)
    ensures var first := if c == '\\' then "\\\\" else [c];
      Replaced(first, '"', "\\\"") == EscapedOne(c)
  {
    if c == '\\' {
      assert Replaced("\\\\"[1..], '"', "\\\"") == "\\";
    }
  }

  /** A quoted name is read back up to its own closing quote, all of it printable ASCII: nothing in
      a name can end the string, or the line, before. */
  lemma QuotedReads(name: string, rest: string)
    ensures var quoted := Quoted(name);
      && quoted != [] && quoted[0] == '"' && Unquoted(quoted[1..] + rest) == Some((Encoded(name), rest))
      && AllPlain(Encoded(name))
  {
    var quoted := Quoted(name);
    NothingDecodes();
    UnquotedEscaped(Encoded(name), rest);
    assert quoted[1..] + rest == Escaped(Encoded(name)) + "\"" + rest;
    EncodedIsPlain("", name);
  }
}
