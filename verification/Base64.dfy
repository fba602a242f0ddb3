// Base64 (section 4 of RFC 4648) as the board writes and reads it
// (velaops_serial_tunnel.c:65-96, 185-283) and as the relay does
// (serial_llm_relay.py:273-288, 425).

module Base64 {
  import opened Common

  const RESP_MAX := 256 * 1024   // VELAOPS_TUNNEL_RESP_MAX
  const LINE := 48               // characters of one echoed line

  // ---------------------------------------------------------------- the alphabet

  // g_b64
  function Letter(x: int): (c: char)
    requires 0 <= x < 64
    ensures IsLetter(c)
  {
    if x < 26 then ('A' as int + x) as char
    else if x < 52 then ('a' as int + x - 26) as char
    else if x < 62 then ('0' as int + x - 52) as char
    else if x == 62 then '+'
    else '/'
  }

  // The letters in their order.
  const ALPHABET := "ABCDEFGHIJKLMNOPQRSTUVWXYZ" + "abcdefghijklmnopqrstuvwxyz" + "0123456789+/"

  lemma LetterIsAt(x: int)
    requires 0 <= x < 64
    ensures |ALPHABET| == 64 && Letter(x) == ALPHABET[x]
  {
    if x < 26 { Capital(x); } else if x < 52 { Small(x - 26); } else { OtherAt(x - 52); }
  }

  lemma OtherAt(x: int)
    requires 0 <= x < 12
    ensures "0123456789+/"[x] == if x < 10 then ('0' as int + x) as char else if x == 10 then '+' else '/'
  {
  }

  predicate IsLetter(c: char) {
    'A' <= c <= 'Z' || 'a' <= c <= 'z' || '0' <= c <= '9' || c == '+' || c == '/'
  }

  // velaops_tunnel_b64_value: the position in g_b64, where strchr also finds the
  // terminator behind the 64 letters.
  function Value(c: char): (v: int)
    ensures -1 <= v <= 64
  {
    if 'A' <= c <= 'Z' then c as int - 'A' as int
    else if 'a' <= c <= 'z' then c as int - 'a' as int + 26
    else if '0' <= c <= '9' then c as int - '0' as int + 52
    else if c == '+' then 62
    else if c == '/' then 63
    else if c == '\0' then 64
    else -1
  }

  lemma ValueOfLetter(x: int)
    requires 0 <= x < 64
    ensures Value(Letter(x)) == x
  {
  }

  // ---------------------------------------------------------------- encoding

  // The four letters of up to three bytes.
  function Quad(d: seq<Byte>): (q: string)
    requires d != []
    ensures |q| == 4 && !Skipped(q[0])
  {
    var d1 := if |d| > 1 then d[1] else 0;
    var d2 := if |d| > 2 then d[2] else 0;
    [Letter(d[0] / 4),
     Letter(d[0] % 4 * 16 + d1 / 16),
     if |d| > 1 then Letter(d1 % 16 * 4 + d2 / 64) else '=',
     if |d| > 2 then Letter(d2 % 64) else '=']
  }

  function Encode(data: seq<Byte>): string
    decreases |data|
  {
    if data == [] then "" else Quad(data) + Encode(Past3(data))
  }

  function Past3(data: seq<Byte>): (r: seq<Byte>)
    ensures |r| == Less(|data|, 3)
  {
    if |data| <= 3 then [] else data[3..]
  }

  function Less(n: nat, k: nat): nat { if n <= k then 0 else n - k }

  // How many quads n bytes take.
  function Quads(n: nat): nat {
    if n == 0 then 0 else 1 + Quads(Less(n, 3))
  }

  lemma {:induction false} QuadsIs(n: nat)
    ensures Quads(n) == (n + 2) / 3
  {
    if n > 0 { QuadsIs(Less(n, 3)); }
  }

  lemma {:induction false} EncodeQuads(data: seq<Byte>)
    ensures |Encode(data)| == 4 * Quads(|data|)
    decreases |data|
  {
    if data != [] { EncodeQuads(Past3(data)); }
  }

  lemma EncodeLength(data: seq<Byte>)
    ensures |Encode(data)| == 4 * ((|data| + 2) / 3)
  {
    EncodeQuads(data);
    QuadsIs(|data|);
  }

  // The test vectors of section 10 of RFC 4648: "foobar" and "fo".
  lemma Vectors()
    ensures Encode([0x66, 0x6f, 0x6f, 0x62, 0x61, 0x72]) == "Zm9vYmFy" && Encode([0x66, 0x6f]) == "Zm8="
  {
    FirstQuad();
    SecondQuad();
    assert [0x66, 0x6f, 0x6f, 0x62, 0x61, 0x72][3..] == [0x62, 0x61, 0x72];
    assert Encode([0x62, 0x61, 0x72]) == Quad([0x62, 0x61, 0x72]) + ""
      && Encode([0x66, 0x6f]) == Quad([0x66, 0x6f]) + "";
  }

  lemma FirstQuad()
    ensures Quad([0x66, 0x6f, 0x6f, 0x62, 0x61, 0x72]) == "Zm9v" && Quad([0x66, 0x6f]) == "Zm8="
  {
  }

  lemma SecondQuad()
    ensures Quad([0x62, 0x61, 0x72]) == "YmFy"
  {
  }

  // The bits the source takes out of its 24-bit word are those of the bytes.
  lemma WordBits(a: Byte, b: Byte, c: Byte)
    ensures var v := a * 0x10000 + b * 0x100 + c;
            && v / 0x40000 % 64 == a / 4 && v / 0x1000 % 64 == a % 4 * 16 + b / 16
            && v / 64 % 64 == b % 16 * 4 + c / 64 && v % 64 == c % 64
  {
    var v := a * 0x10000 + b * 0x100 + c;
    var (a1, a0) := (a / 4, a % 4);
    var (b1, b0) := (b / 16, b % 16);
    var (c1, c0) := (c / 64, c % 64);
    Field(v, 0x40000, 0, a1, a0 * 0x10000 + b * 0x100 + c);
    Field(v, 0x1000, a1, a0 * 16 + b1, b0 * 0x100 + c);
    Field(v, 64, a * 16 + b1, b0 * 4 + c1, c0);
    Field(v, 1, a * 0x400 + b * 4 + c1, c0, 0);
  }

  // A field of 6 bits inside a word.
  lemma Field(v: int, k: int, high: int, field: int, low: int)
    requires k == 0x40000 || k == 0x1000 || k == 64 || k == 1
    requires v == (high * 64 + field) * k + low && 0 <= low < k && 0 <= field < 64
    ensures v / k % 64 == field
  {
    if k == 0x40000 {
      assert v / 0x40000 == high * 64 + field;
    } else if k == 0x1000 {
      assert v / 0x1000 == high * 64 + field;
    } else if k == 64 {
      assert v / 64 == high * 64 + field;
    } else {
      assert v / 1 == high * 64 + field;
    }
  }

  function From(data: seq<Byte>, i: nat): seq<Byte> {
    if i < |data| then data[i..] else []
  }

  lemma EncodeStep(done: string, data: seq<Byte>, i: nat)
    requires i < |data| && done + Encode(From(data, i)) == Encode(data)
    ensures done + Quad(data[i..]) + Encode(From(data, i + 3)) == Encode(data)
  {
    assert Past3(data[i..]) == From(data, i + 3);
    Grouped(done, Quad(data[i..]), Encode(From(data, i + 3)));
  }

  // velaops_tunnel_b64_encode, into a buffer with room for a terminator.
  method B64Encode(data: seq<Byte>) returns (out: array<char>)
    ensures fresh(out) && out.Length == |Encode(data)| + 1 == 4 * ((|data| + 2) / 3) + 1
    ensures out[..out.Length - 1] == Encode(data) && out[out.Length - 1] == '\0'
  {
    EncodeLength(data);
    out := new char[4 * ((|data| + 2) / 3) + 1];
    WriteQuads(out, data);
  }

  method WriteQuads(out: array<char>, data: seq<Byte>)
    requires out.Length == |Encode(data)| + 1
    modifies out
    ensures out[..out.Length - 1] == Encode(data) && out[out.Length - 1] == '\0'
  {
    var i, o := 0, 0;
    while i < |data|
      invariant 0 <= o < out.Length
      invariant out[..o] + Encode(From(data, i)) == Encode(data)
      decreases |data| - i
    {
      EncodeStep(out[..o], data, i);
      var b := if i + 1 < |data| then data[i + 1] else 0;
      var c := if i + 2 < |data| then data[i + 2] else 0;
      o := WriteQuad(out, o, data[i], b, c, data[i..]);
      i := i + 3;
    }
    out[o] := '\0';
  }

  // One turn of the loop, for the bytes d that are left.
  method WriteQuad(out: array<char>, o: nat, a: Byte, b: Byte, c: Byte, d: seq<Byte>) returns (o': nat)
    requires o + 4 < out.Length && d != [] && a == d[0]
    requires b == (if |d| > 1 then d[1] else 0) && c == (if |d| > 2 then d[2] else 0)
    modifies out
    ensures o' == o + 4 && out[..o'] == old(out[..o]) + Quad(d)
  {
    var v := a * 0x10000 + b * 0x100 + c;
    WordBits(a, b, c);
    out[o] := Letter(v / 0x40000 % 64);
    out[o + 1] := Letter(v / 0x1000 % 64);
    out[o + 2] := if |d| > 1 then Letter(v / 64 % 64) else '=';
    out[o + 3] := if |d| > 2 then Letter(v % 64) else '=';
    o' := o + 4;
  }

  // ---------------------------------------------------------------- the board's decoder

  predicate Skipped(c: char) { c == '=' || c == '\n' || c == '\r' || c == ' ' || c == '\t' }

  function At(text: string, i: nat): int {
    if i < |text| then Value(text[i]) else -1
  }

  // hi * k | lo cut to a byte.  Only a terminator read as 64 makes lo reach k.
  function Join(hi: int, k: int, lo: int): (b: Byte)
    requires (k == 4 || k == 16 || k == 64) && 0 <= hi && 0 <= lo <= k
  {
    var h := hi % (256 / k);
    if lo < k then h * k + lo else if h % 2 == 1 then h * k else h * k + k
  }

  // The bytes of four values, of which the last two may be missing.
  function Unpacked(a: int, b: int, c: int, d: int): (r: seq<Byte>)
    requires 0 <= a <= 64 && 0 <= b <= 64 && -1 <= c <= 64 && -1 <= d <= 64
    ensures 1 <= |r| <= 3
  {
    [Join(a, 4, b / 16)]
    + (if c >= 0 then [Join(b, 16, c / 4)] else [])
    + (if d >= 0 then [Join(if c < 0 then 0 else c, 64, d)] else [])
  }

  function Decode(text: string): seq<Byte>
    decreases |text|
  {
    if text == "" then []
    else if Skipped(text[0]) then Decode(text[1..])
    else if At(text, 0) < 0 || At(text, 1) < 0 then []
    else Unpacked(At(text, 0), At(text, 1), At(text, 2), At(text, 3)) + Decode(Past4(text))
  }

  function Past4(text: string): (r: string)
    ensures |r| == Less(|text|, 4)
  {
    if |text| <= 4 then "" else text[4..]
  }

  function TextFrom(text: string, i: nat): string {
    if i < |text| then text[i..] else ""
  }

  // Two oddities of the decoder: a NUL counts as 64, and a '=' in third place as 0 if a
  // letter follows.
  lemma Oddities()
    ensures Decode(['A', 'A', 'A', '\0']) == [0, 0, 64] && Decode(['A', 'A', '=', 'B']) == [0, 1]
  {
    var (nul, pad) := (['A', 'A', 'A', '\0'], ['A', 'A', '=', 'B']);
    assert At(nul, 0) == 0 && At(nul, 1) == 0 && At(nul, 2) == 0 && At(nul, 3) == 64;
    assert At(pad, 0) == 0 && At(pad, 1) == 0 && At(pad, 2) == -1 && At(pad, 3) == 1;
    assert Unpacked(0, 0, 0, 64) == [0, 0, 64] && Unpacked(0, 0, -1, 1) == [0, 1];
    assert Decode(Past4(nul)) == [] && Decode(Past4(pad)) == [];
  }

  lemma DecodeStep(done: seq<Byte>, text: string, i: nat)
    requires i < |text| && done + Decode(TextFrom(text, i)) == Decode(text)
    ensures Skipped(text[i]) ==> done + Decode(TextFrom(text, i + 1)) == Decode(text)
    ensures !Skipped(text[i]) && (At(text, i) < 0 || At(text, i + 1) < 0) ==> done == Decode(text)
    ensures !Skipped(text[i]) && At(text, i) >= 0 && At(text, i + 1) >= 0 ==>
              done + Unpacked(At(text, i), At(text, i + 1), At(text, i + 2), At(text, i + 3))
                + Decode(TextFrom(text, i + 4))
              == Decode(text)
  {
    var rest := text[i..];
    assert Past4(rest) == TextFrom(text, i + 4) && rest[1..] == TextFrom(text, i + 1);
    assert At(rest, 0) == At(text, i) && At(rest, 1) == At(text, i + 1);
    assert At(rest, 2) == At(text, i + 2) && At(rest, 3) == At(text, i + 3);
    if !Skipped(text[i]) && At(text, i) >= 0 && At(text, i + 1) >= 0 {
      var u := Unpacked(At(text, i), At(text, i + 1), At(text, i + 2), At(text, i + 3));
      Grouped(done, u, Decode(TextFrom(text, i + 4)));
    }
  }

  // velaops_tunnel_load_response, for the file's text.
  method LoadResponse(text: string) returns (r: Option<seq<Byte>>)
    ensures r == if 0 < |text| <= RESP_MAX then Some(Decode(text)) else None
  {
    if |text| == 0 || |text| > RESP_MAX {
      return None;
    }
    var data := new Byte[|text| + 1];
    var i, o: nat := 0, 0;
    while i < |text|
      invariant o <= i && o <= |text| && fresh(data) && data.Length == |text| + 1
      invariant data[..o] + Decode(TextFrom(text, i)) == Decode(text)
      decreases |text| - i
    {
      DecodeStep(data[..o], text, i);
      if Skipped(text[i]) {
        i := i + 1;
      } else {
        var a, b, c, d := At(text, i), At(text, i + 1), At(text, i + 2), At(text, i + 3);
        if a < 0 || b < 0 {
          return Some(data[..o]);
        }
        o := Put(data, o, a, b, c, d);
        i := i + 4;
      }
    }
    assert data[..o] + [] == data[..o];
    r := Some(data[..o]);
  }

  method Put(data: array<Byte>, o: nat, a: int, b: int, c: int, d: int) returns (o': nat)
    requires 0 <= a <= 64 && 0 <= b <= 64 && -1 <= c <= 64 && -1 <= d <= 64
    requires o + |Unpacked(a, b, c, d)| <= data.Length
    modifies data
    ensures o' == o + |Unpacked(a, b, c, d)| && data[..o'] == old(data[..o]) + Unpacked(a, b, c, d)
  {
    data[o] := Join(a, 4, b / 16);
    o' := o + 1;
    if c >= 0 {
      data[o'] := Join(b, 16, c / 4);
      o' := o' + 1;
    }
    if d >= 0 {
      data[o'] := Join(if c < 0 then 0 else c, 64, d);
      o' := o' + 1;
    }
  }

  // ---------------------------------------------------------------- decoding undoes encoding

  lemma JoinBytes(a: Byte, b: Byte, c: Byte)
    ensures Join(a / 4, 4, (a % 4 * 16 + b / 16) / 16) == a
    ensures Join(a % 4 * 16 + b / 16, 16, (b % 16 * 4 + c / 64) / 4) == b
    ensures Join(b % 16 * 4 + c / 64, 64, c % 64) == c
  {
    Joins(a / 4, a % 4, b / 16, 16);
    Joins(b / 16 + a % 4 * 16, b % 16, c / 64, 4);
    assert (a % 4 * 16 + b / 16) % 16 == b / 16;
    assert (b % 16 * 4 + c / 64) % 4 == c / 64;
  }

  // A field read back from above the next one.
  lemma Joins(high: int, low: int, next: int, k: int)
    requires (k == 4 || k == 16) && 0 <= low && 0 <= next < k
    ensures (low * k + next) / k == low
  {
  }

  lemma QuadValues(d: seq<Byte>)
    requires d != []
    ensures var d1, d2 := if |d| > 1 then d[1] else 0, if |d| > 2 then d[2] else 0;
            && At(Quad(d), 0) == d[0] / 4 && At(Quad(d), 1) == d[0] % 4 * 16 + d1 / 16
            && At(Quad(d), 2) == (if |d| > 1 then d1 % 16 * 4 + d2 / 64 else -1)
            && At(Quad(d), 3) == (if |d| > 2 then d2 % 64 else -1)
  {
    var d1, d2 := if |d| > 1 then d[1] else 0, if |d| > 2 then d[2] else 0;
    ValueOfLetter(d[0] / 4);
    ValueOfLetter(d[0] % 4 * 16 + d1 / 16);
    ValueOfLetter(d1 % 16 * 4 + d2 / 64);
    ValueOfLetter(d2 % 64);
  }

  function Three(d: seq<Byte>): seq<Byte> { if |d| <= 3 then d else d[..3] }

  lemma QuadUnpacks(d: seq<Byte>)
    requires d != []
    ensures At(Quad(d), 0) >= 0 && At(Quad(d), 1) >= 0
    ensures Unpacked(At(Quad(d), 0), At(Quad(d), 1), At(Quad(d), 2), At(Quad(d), 3)) == Three(d)
  {
    var d1, d2 := if |d| > 1 then d[1] else 0, if |d| > 2 then d[2] else 0;
    QuadValues(d);
    JoinBytes(d[0], d1, d2);
  }

  lemma QuadDecodes(d: seq<Byte>, rest: string)
    requires d != []
    ensures Decode(Quad(d) + rest) == Three(d) + Decode(rest)
  {
    var text := Quad(d) + rest;
    QuadUnpacks(d);
    assert At(text, 0) == At(Quad(d), 0) && At(text, 1) == At(Quad(d), 1);
    assert At(text, 2) == At(Quad(d), 2) && At(text, 3) == At(Quad(d), 3);
    assert Past4(text) == rest;
  }

  // Whatever follows the encoded bytes.
  lemma {:induction false} DecodeEncode(data: seq<Byte>, rest: string)
    ensures Decode(Encode(data) + rest) == data + Decode(rest)
    decreases |data|
  {
    if data == [] {
      assert Encode(data) + rest == rest && data + Decode(rest) == Decode(rest);
    } else {
      Grouped(Quad(data), Encode(Past3(data)), rest);
      QuadDecodes(data, Encode(Past3(data)) + rest);
      DecodeEncode(Past3(data), rest);
      Grouped(Three(data), Past3(data), Decode(rest));
      assert Three(data) + Past3(data) == data;
    }
  }

  lemma BoardRoundTrip(data: seq<Byte>)
    ensures Decode(Encode(data)) == data
  {
    DecodeEncode(data, "");
    assert Encode(data) + "" == Encode(data) && data + [] == data;
  }

  // ---------------------------------------------------------------- the relay writes the response

  // Lines of 48 characters, each ended by the newline echo adds.
  function Wrapped(text: string): string
    decreases |text|
  {
    if text == "" then ""
    else if |text| <= LINE then text + "\n"
    else text[..LINE] + "\n" + Wrapped(text[LINE..])
  }

  // _push_b64: the remote file after the echo commands.
  method PushB64(text: string) returns (remote: string)
    ensures remote == Wrapped(text)
  {
    remote := "";
    var i := 0;
    while i < |text|
      invariant 0 <= i && remote + Wrapped(TextFrom(text, i)) == Wrapped(text)
      decreases |text| - i
    {
      var chunk := text[i..if i + LINE < |text| then i + LINE else |text|];
      WrapStep(remote, text, i, chunk);
      remote := remote + chunk + "\n";
      i := i + LINE;
    }
    assert remote + "" == remote;
  }

  lemma WrapStep(done: string, text: string, i: nat, chunk: string)
    requires i < |text| && chunk == text[i..if i + LINE < |text| then i + LINE else |text|]
    requires done + Wrapped(TextFrom(text, i)) == Wrapped(text)
    ensures done + chunk + "\n" + Wrapped(TextFrom(text, i + LINE)) == Wrapped(text)
  {
    var rest := text[i..];
    if |rest| > LINE {
      assert rest[..LINE] == chunk && rest[LINE..] == TextFrom(text, i + LINE);
    } else {
      assert rest == chunk;
    }
    assert done + chunk + "\n" + Wrapped(TextFrom(text, i + LINE))
      == done + (chunk + "\n" + Wrapped(TextFrom(text, i + LINE)));
  }

  lemma EncodeThree(a: seq<Byte>, b: seq<Byte>)
    requires |a| >= 3
    ensures Encode(a + b) == Quad(a) + Encode(a[3..] + b)
  {
    assert Past3(a + b) == a[3..] + b;
    assert (a + b)[0] == a[0] && (a + b)[1] == a[1] && (a + b)[2] == a[2];
  }

  lemma {:induction false} EncodeConcat(k: nat, a: seq<Byte>, b: seq<Byte>)
    requires |a| == 3 * k
    ensures Encode(a + b) == Encode(a) + Encode(b) && |Encode(a)| == 4 * k
  {
    if k == 0 {
      assert a + b == b;
    } else {
      EncodeConcat(k - 1, a[3..], b);
      EncodeThree(a, b);
      EncodeThree(a, []);
      assert a + [] == a && a[3..] + [] == a[3..];
      Grouped(Quad(a), Encode(a[3..]), Encode(b));
    }
  }

  // A line of encoded bytes decodes to them.
  lemma LineDecodes(a: seq<Byte>, rest: string)
    ensures Decode(Encode(a) + "\n" + rest) == a + Decode(rest)
  {
    Grouped(Encode(a), "\n", rest);
    DecodeEncode(a, "\n" + rest);
    assert ("\n" + rest)[1..] == rest;
  }

  lemma SplitLines(data: seq<Byte>)
    requires |data| > 36
    ensures Wrapped(Encode(data)) == Encode(data[..36]) + "\n" + Wrapped(Encode(data[36..]))
  {
    var (a, b) := (data[..36], data[36..]);
    EncodeConcat(12, a, b);
    EncodeQuads(b);
    assert a + b == data;
    assert (Encode(a) + Encode(b))[..LINE] == Encode(a) && (Encode(a) + Encode(b))[LINE..] == Encode(b);
  }

  lemma QuadsOfLine(n: nat)
    requires 0 < n <= 36
    ensures 0 < 4 * Quads(n) <= LINE
  {
    QuadsIs(n);
  }

  lemma ShortText(text: string)
    requires 0 < |text| <= LINE
    ensures Wrapped(text) == text + "\n" + ""
  {
    assert text + "\n" + "" == text + "\n";
  }

  // A line holds the letters of 36 bytes, so lines never cut a quad.
  lemma {:induction false} DecodeWrapped(data: seq<Byte>)
    ensures Decode(Wrapped(Encode(data))) == data
    decreases |data|
  {
    if data != [] {
      if |data| <= 36 {
        EncodeQuads(data);
        QuadsOfLine(|data|);
        ShortText(Encode(data));
        LineDecodes(data, "");
        assert data + [] == data;
      } else {
        SplitLines(data);
        DecodeWrapped(data[36..]);
        LineDecodes(data[..36], Wrapped(Encode(data[36..])));
        assert data[..36] + data[36..] == data;
      }
    }
  }

  // The size of the file the board has to load.
  lemma {:induction false} WrappedLength(text: string)
    ensures |Wrapped(text)| == |text| + (|text| + LINE - 1) / LINE
    decreases |text|
  {
    if |text| > LINE {
      WrappedLength(text[LINE..]);
    }
  }

  // What the relay pushes the board loads: every response that is not empty and
  // whose wrapped text fits the limit, and no other.
  method Respond(response: seq<Byte>) returns (loaded: Option<seq<Byte>>)
    ensures loaded == if response != [] && |Wrapped(Encode(response))| <= RESP_MAX then Some(response) else None
  {
    var remote := PushB64(Encode(response));
    DecodeWrapped(response);
    EncodeQuads(response);
    loaded := LoadResponse(remote);
  }

  // ---------------------------------------------------------------- the relay reads a request

  // b64decode as CPython does it without validation, on letters and '='.  `quad` is
  // the place in the group of four, `left` the bits not yet written.
  function StdDecode(text: string, quad: nat, left: nat, pads: nat): Option<seq<Byte>>
    requires quad < 4 && left < 64
    decreases |text|
  {
    if text == "" then (if quad == 0 then Some([]) else None)
    else if text[0] == '=' then
      if quad >= 2 && quad + pads + 1 >= 4 then Some([])
      else StdDecode(text[1..], quad, left, if quad >= 2 then pads + 1 else pads)
    else if !IsLetter(text[0]) then StdDecode(text[1..], quad, left, pads)
    else
      var v := Value(text[0]);
      if quad == 0 then StdDecode(text[1..], 1, v, 0)
      else if quad == 1 then Put1(Join(left, 4, v / 16), StdDecode(text[1..], 2, v % 16, 0))
      else if quad == 2 then Put1(Join(left, 16, v / 4), StdDecode(text[1..], 3, v % 4, 0))
      else Put1(Join(left, 64, v), StdDecode(text[1..], 0, 0, 0))
  }

  function Put1(b: Byte, r: Option<seq<Byte>>): Option<seq<Byte>> {
    if r.Some? then Some([b] + r.value) else None
  }

  function B64Decode(text: string): Option<seq<Byte>> { StdDecode(text, 0, 0, 0) }

  // Letters alone decode exactly when they come in fours.
  lemma {:induction false} LettersDecode(text: string, quad: nat, left: nat, pads: nat)
    requires quad < 4 && left < 64 && forall c :: c in text ==> IsLetter(c)
    ensures StdDecode(text, quad, left, pads).Some? <==> (quad + |text|) % 4 == 0
    decreases |text|
  {
    if text != "" {
      var v := Value(text[0]);
      assert text[0] in text && 0 <= v < 64;
      if quad == 0 {
        LettersDecode(text[1..], 1, v, 0);
      } else if quad == 1 {
        LettersDecode(text[1..], 2, v % 16, 0);
      } else if quad == 2 {
        LettersDecode(text[1..], 3, v % 4, 0);
      } else {
        LettersDecode(text[1..], 0, 0, 0);
      }
    }
  }

  // A '=' in front counts for nothing, one behind two letters is not enough, and what
  // follows enough of them is not looked at.
  lemma PaddingCounts(x: char, y: char, text: string)
    requires IsLetter(x) && IsLetter(y)
    ensures B64Decode("=" + text) == B64Decode(text)
    ensures B64Decode([x] + ([y] + "=")) == None
    ensures B64Decode([x] + ([y] + ("==" + text))) == Some([Join(Value(x), 4, Value(y) / 16)])
  {
    assert ("=" + text)[1..] == text && "="[1..] == "";
    StdStep(x, [y] + "=", 0, 0, 0);
    StdStep(y, "=", 1, Value(x), 0);
    StdStep(x, [y] + ("==" + text), 0, 0, 0);
    StdStep(y, "==" + text, 1, Value(x), 0);
    StdPad(text, Value(y) % 16);
    assert StdDecode("=", 2, Value(y) % 16, 0) == StdDecode("", 2, Value(y) % 16, 1);
    assert [Join(Value(x), 4, Value(y) / 16)] + [] == [Join(Value(x), 4, Value(y) / 16)];
  }

  // One letter or one '=' in front of the rest.
  lemma StdStep(c: char, rest: string, quad: nat, left: nat, pads: nat)
    requires quad < 4 && left < 64 && IsLetter(c)
    ensures StdDecode([c] + rest, quad, left, pads)
         == if quad == 0 then StdDecode(rest, 1, Value(c), 0)
            else if quad == 1 then Put1(Join(left, 4, Value(c) / 16), StdDecode(rest, 2, Value(c) % 16, 0))
            else if quad == 2 then Put1(Join(left, 16, Value(c) / 4), StdDecode(rest, 3, Value(c) % 4, 0))
            else Put1(Join(left, 64, Value(c)), StdDecode(rest, 0, 0, 0))
  {
    assert ([c] + rest)[1..] == rest;
  }

  lemma StdPad(rest: string, left: nat)
    requires left < 64
    ensures StdDecode("==" + rest, 2, left, 0) == Some([]) && StdDecode("=" + rest, 3, left, 0) == Some([])
  {
    assert ("==" + rest)[1..] == "=" + rest;
  }

  lemma Split4(q: string, rest: string)
    requires |q| == 4
    ensures q + rest == [q[0]] + ([q[1]] + ([q[2]] + ([q[3]] + rest)))
  {
  }

  // The high field only counts as far as it is kept.
  lemma JoinKept(hi: nat, k: int, lo: int)
    requires (k == 16 || k == 64) && 0 <= lo < k
    ensures Join(hi % (256 / k), k, lo) == Join(hi, k, lo)
  {
  }

  lemma QuadStd(d: seq<Byte>, rest: string)
    requires |d| >= 3
    ensures B64Decode(Quad(d) + rest) == Put1(d[0], Put1(d[1], Put1(d[2], B64Decode(rest))))
  {
    var q := Quad(d);
    var (x, y, z, w) := (At(q, 0), At(q, 1), At(q, 2), At(q, 3));
    QuadLetters(d);
    Split4(q, rest);
    StdStep(q[0], [q[1]] + ([q[2]] + ([q[3]] + rest)), 0, 0, 0);
    StdStep(q[1], [q[2]] + ([q[3]] + rest), 1, x, 0);
    StdStep(q[2], [q[3]] + rest, 2, y % 16, 0);
    StdStep(q[3], rest, 3, z % 4, 0);
    JoinKept(y, 16, z / 4);
    JoinKept(z, 64, w);
    QuadJoins(d);
  }

  lemma QuadLetters(d: seq<Byte>)
    requires d != []
    ensures IsLetter(Quad(d)[0]) && IsLetter(Quad(d)[1])
    ensures if |d| > 1 then IsLetter(Quad(d)[2]) else Quad(d)[2] == '='
    ensures if |d| > 2 then IsLetter(Quad(d)[3]) else Quad(d)[3] == '='
    ensures forall k :: 0 <= k < 4 && IsLetter(Quad(d)[k]) ==> 0 <= At(Quad(d), k) < 64
  {
  }

  lemma QuadJoins(d: seq<Byte>)
    requires d != []
    ensures var (x, y, z, w) := (At(Quad(d), 0), At(Quad(d), 1), At(Quad(d), 2), At(Quad(d), 3));
            && 0 <= x < 64 && 0 <= y < 64 && Join(x, 4, y / 16) == d[0]
            && (|d| > 1 ==> 0 <= z < 64 && Join(y, 16, z / 4) == d[1])
            && (|d| > 2 ==> 0 <= w < 64 && Join(z, 64, w) == d[2])
  {
    var d1, d2 := if |d| > 1 then d[1] else 0, if |d| > 2 then d[2] else 0;
    QuadValues(d);
    JoinBytes(d[0], d1, d2);
  }

  // The last quad, of one or two bytes.
  lemma LastStd(d: seq<Byte>)
    requires 1 <= |d| <= 2
    ensures B64Decode(Quad(d)) == Some(d)
  {
    var q := Quad(d);
    var (x, y, z) := (At(q, 0), At(q, 1), At(q, 2));
    QuadLetters(d);
    QuadJoins(d);
    Split4(q, "");
    assert q + "" == q && [q[3]] + "" == [q[3]];
    StdStep(q[0], [q[1]] + ([q[2]] + [q[3]]), 0, 0, 0);
    StdStep(q[1], [q[2]] + [q[3]], 1, x, 0);
    if |d| == 1 {
      StdPad("", y % 16);
      assert d == [d[0]] + [];
      assert [q[2]] + [q[3]] == "==" + "";
    } else {
      StdStep(q[2], [q[3]], 2, y % 16, 0);
      JoinKept(y, 16, z / 4);
      StdPad("", z % 4);
      assert d == [d[0]] + ([d[1]] + []);
      assert [q[3]] == "=" + "";
    }
  }

  // The relay reads back every byte string the board encodes.
  lemma {:induction false} RelayRoundTrip(data: seq<Byte>)
    ensures B64Decode(Encode(data)) == Some(data)
    decreases |data|
  {
    if |data| >= 3 {
      QuadStd(data, Encode(Past3(data)));
      RelayRoundTrip(Past3(data));
      assert [data[0]] + ([data[1]] + ([data[2]] + Past3(data))) == data;
    } else if data != [] {
      LastStd(data);
      assert Quad(data) + "" == Quad(data);
    }
  }
}
