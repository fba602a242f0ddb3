// The text a request is signed over, built in C (velaops_protocol.c:18-265) and in
// Python (protocol.py:74-169), and the headers that carry its metadata.

module Canonical {
  import opened Common
  import opened Splitting
  import opened Decimal
  import opened Patterns

  const ALGORITHM := "VELAOPS-HMAC-SHA256"
  const VERSION := "1"
  const MAX_TARGET := 2048
  const MAX_TIME: nat := 0x7fff_ffff_ffff_ffff

  type CString = s: string | '\0' !in s witness ""
  type Digest = d: seq<Byte> | |d| == 32 witness seq(32, i => 0)

  datatype Result<+T> = Ok(value: T) | Err(code: ErrorCode)
  datatype ErrorCode = UnsupportedVersion | InvalidAuth

  datatype Status = Fine | InvalidMetadata | InvalidMethod | InvalidTarget | SecretTooShort | BufferTooSmall
    | CryptoError

  // AuthMetadata; the C structure holds 64-bit timestamps.
  datatype Metadata = Metadata(version: string, device: string, request: string, timestamp: int, nonce: string)

  // ---------------------------------------------------------------- what both sides accept

  predicate IsHex(c: char) { '0' <= c <= '9' || 'a' <= c <= 'f' }
  predicate IsDeviceChar(c: char) { IsAlnum(c) || c == '.' || c == '_' || c == '-' }
  predicate IsTargetChar(c: char) { c as int <= 0x7f && c != '\r' && c != '\n' && c != '#' }
  predicate IsUpper(c: char) { 'A' <= c <= 'Z' }

  predicate HexText(s: string, n: nat) { |s| == n && forall c :: c in s ==> IsHex(c) }

  predicate DeviceId(s: string) {
    1 <= |s| <= 64 && IsAlnum(s[0]) && forall c :: c in s ==> IsDeviceChar(c)
  }

  predicate Method(s: string) { s != "" && forall c :: c in s ==> IsUpper(c) }

  predicate Target(s: string) {
    s != "" && s[0] == '/' && |s| <= MAX_TARGET && forall c :: c in s ==> IsTargetChar(c)
  }

  predicate Named(m: Metadata) {
    m.version == VERSION && DeviceId(m.device) && HexText(m.request, 32) && HexText(m.nonce, 32)
  }

  predicate Valid(m: Metadata) { Named(m) && 0 <= m.timestamp <= MAX_TIME }

  // ---------------------------------------------------------------- the text

  function HexDigit(n: int): (c: char)
    requires 0 <= n < 16
    ensures IsHex(c)
  {
    if n < 10 then ('0' as int + n) as char else ('a' as int + n - 10) as char
  }

  function Hex(d: seq<Byte>): (s: string)
    ensures |s| == 2 * |d| && forall c :: c in s ==> IsHex(c)
  {
    if d == [] then "" else [HexDigit(d[0] / 16), HexDigit(d[0] % 16)] + Hex(d[1..])
  }

  function Fields(m: Metadata, verb: string, target: string, d: Digest): (fs: seq<string>)
    requires m.timestamp >= 0
    ensures |fs| == 9
  {
    [ALGORITHM, m.version, m.device, m.request, Shown(m.timestamp), m.nonce, verb, target, Hex(d)]
  }

  // "\n".join
  function Lines(fs: seq<string>): string {
    if fs == [] then "" else if |fs| == 1 then fs[0] else fs[0] + "\n" + Lines(fs[1..])
  }

  function Text(m: Metadata, verb: string, target: string, d: Digest): string
    requires m.timestamp >= 0
  {
    Lines(Fields(m, verb, target, d))
  }

  // ---------------------------------------------------------------- no two requests share a text

  lemma {:induction false} LinesAreTerminated(fs: seq<string>)
    requires fs != []
    ensures Lines(fs) == Terminated('\n', fs[..|fs| - 1]) + fs[|fs| - 1]
    decreases |fs|
  {
    var n := |fs| - 1;
    if n > 0 {
      LinesAreTerminated(fs[1..]);
      assert fs[1..][..n - 1] == fs[..n][1..];
      assert Lines(fs) == fs[0] + "\n" + (Terminated('\n', fs[..n][1..]) + fs[n]);
    } else {
      assert fs[..0] == [];
    }
  }

  // Lines read back as the fields they were made of.
  lemma LinesSplit(fs: seq<string>)
    requires fs != [] && NoneHas('\n', fs) && fs[|fs| - 1] != ""
    ensures Parts('\n', Lines(fs)) == fs
  {
    var (front, last) := (fs[..|fs| - 1], fs[|fs| - 1]);
    LinesAreTerminated(fs);
    FrontHasNone('\n', fs);
    PartsUnended('\n', front, last);
    FrontAndLast(fs);
  }

  lemma FrontAndLast<T>(s: seq<T>)
    requires s != []
    ensures s[..|s| - 1] + [s[|s| - 1]] == s
  {
  }

  lemma FrontHasNone(sep: char, fs: seq<string>)
    requires fs != [] && NoneHas(sep, fs)
    ensures NoneHas(sep, fs[..|fs| - 1]) && sep !in fs[|fs| - 1]
  {
    assert fs[|fs| - 1] in fs;
    forall p | p in fs[..|fs| - 1] ensures sep !in p {
      assert p in fs;
    }
  }

  ghost predicate OneLine(s: string) { '\n' !in s }

  lemma FieldsOneLine(m: Metadata, verb: string, target: string, d: Digest)
    requires Valid(m) && Method(verb) && Target(target)
    ensures NoneHas('\n', Fields(m, verb, target, d))
  {
    assert '\n' !in Shown(m.timestamp) by {
      assert forall i :: 0 <= i < |Shown(m.timestamp)| ==> IsDigit(Shown(m.timestamp)[i]);
    }
    assert OneLine(ALGORITHM);
    assert !IsHex('\n') && !IsDeviceChar('\n') && !IsTargetChar('\n') && !IsUpper('\n');
  }

  lemma {:induction false} HexInjective(a: seq<Byte>, b: seq<Byte>)
    requires Hex(a) == Hex(b)
    ensures a == b
    decreases |a|
  {
    if a != [] {
      var (x, y) := (Hex(a), Hex(b));
      assert x[0] == y[0] && x[1] == y[1];
      HexDigits(a[0], b[0]);
      assert x[2..] == Hex(a[1..]) && y[2..] == Hex(b[1..]);
      HexInjective(a[1..], b[1..]);
      assert a == [a[0]] + a[1..] && b == [b[0]] + b[1..];
    }
  }

  lemma HexDigits(x: Byte, y: Byte)
    requires HexDigit(x / 16) == HexDigit(y / 16) && HexDigit(x % 16) == HexDigit(y % 16)
    ensures x == y
  {
  }

  // The text determines device, request id, timestamp, nonce, method, target and body
  // hash.
  lemma TextInjective(m: Metadata, verb: string, target: string, d: Digest,
                      m': Metadata, verb': string, target': string, d': Digest)
    requires Valid(m) && Method(verb) && Target(target) && Valid(m') && Method(verb') && Target(target')
    requires Text(m, verb, target, d) == Text(m', verb', target', d')
    ensures m == m' && verb == verb' && target == target' && d == d'
  {
    var (fs, fs') := (Fields(m, verb, target, d), Fields(m', verb', target', d'));
    FieldsOneLine(m, verb, target, d);
    FieldsOneLine(m', verb', target', d');
    LinesSplit(fs);
    LinesSplit(fs');
    assert fs[2] == fs'[2] && fs[3] == fs'[3] && fs[4] == fs'[4] && fs[5] == fs'[5];
    assert fs[6] == fs'[6] && fs[7] == fs'[7] && fs[8] == fs'[8];
    ShownInjective(m.timestamp, m'.timestamp);
    HexInjective(d, d');
  }

  // The text is nine lines in this order.
  lemma TextLines(m: Metadata, verb: string, target: string, d: Digest)
    requires Valid(m) && Method(verb) && Target(target)
    ensures Parts('\n', Text(m, verb, target, d))
         == ["VELAOPS-HMAC-SHA256", "1", m.device, m.request, Shown(m.timestamp), m.nonce, verb, target, Hex(d)]
  {
    FieldsOneLine(m, verb, target, d);
    LinesSplit(Fields(m, verb, target, d));
  }

  // Hexadecimal digits are lower-case, the high one first.
  lemma {:induction false} HexAt(d: seq<Byte>, k: nat)
    requires k < |d|
    ensures Hex(d)[2 * k] == "0123456789abcdef"[d[k] / 16] && Hex(d)[2 * k + 1] == "0123456789abcdef"[d[k] % 16]
    decreases k
  {
    if k == 0 {
      DigitAt(d[0] / 16);
      DigitAt(d[0] % 16);
    } else {
      HexAt(d[1..], k - 1);
      assert Hex(d)[2..] == Hex(d[1..]);
      assert Hex(d)[2 * k] == Hex(d)[2..][2 * (k - 1)] && Hex(d)[2 * k + 1] == Hex(d)[2..][2 * (k - 1) + 1];
    }
  }

  lemma DigitAt(n: int)
    requires 0 <= n < 16
    ensures HexDigit(n) == "0123456789abcdef"[n]
  {
  }

  // ---------------------------------------------------------------- the C builder

  method IsFixedLowerHex(value: CString, length: nat) returns (ok: bool)
    ensures ok <==> HexText(value, length)
  {
    if |value| != length {
      return false;
    }
    var i := 0;
    while i < length
      invariant 0 <= i <= length
      invariant forall c :: c in value[..i] ==> IsHex(c)
    {
      if !IsHex(value[i]) {
        return false;
      }
      i := i + 1;
    }
    return true;
  }

  method ValidDeviceId(id: CString) returns (ok: bool)
    ensures ok <==> DeviceId(id)
  {
    if |id| == 0 || |id| > 64 || !IsAlnum(id[0]) {
      return false;
    }
    var i := 1;
    while i < |id|
      invariant 1 <= i <= |id|
      invariant forall c :: c in id[..i] ==> IsDeviceChar(c)
    {
      if !IsDeviceChar(id[i]) {
        return false;
      }
      i := i + 1;
    }
    return true;
  }

  method ValidMethod(verb: CString) returns (ok: bool)
    ensures ok <==> Method(verb)
  {
    if verb == "" {
      return false;
    }
    var cursor := 0;
    while cursor < |verb|
      invariant 0 <= cursor <= |verb|
      invariant forall c :: c in verb[..cursor] ==> IsUpper(c)
    {
      if !IsUpper(verb[cursor]) {
        return false;
      }
      cursor := cursor + 1;
    }
    return true;
  }

  method ValidTarget(target: CString) returns (ok: bool)
    ensures ok <==> Target(target)
  {
    if target == "" || target[0] != '/' || |target| > MAX_TARGET {
      return false;
    }
    var i := 0;
    while i < |target|
      invariant 0 <= i <= |target|
      invariant forall c :: c in target[..i] ==> IsTargetChar(c)
    {
      if !IsTargetChar(target[i]) {
        return false;
      }
      i := i + 1;
    }
    return true;
  }

  // velaops_hex_encode
  method HexEncode(input: seq<Byte>, output: array<char>)
    requires output.Length == 2 * |input| + 1
    modifies output
    ensures output[..2 * |input|] == Hex(input) && output[2 * |input|] == '\0'
  {
    var i := 0;
    while i < |input|
      invariant 0 <= i <= |input|
      invariant output[..2 * i] + Hex(input[i..]) == Hex(input)
    {
      ghost var done := output[..2 * i];
      output[2 * i] := HexDigit(input[i] / 16);
      output[2 * i + 1] := HexDigit(input[i] % 16);
      HexStep(done, input, i);
      assert output[..2 * i + 2] == done + [HexDigit(input[i] / 16), HexDigit(input[i] % 16)];
      i := i + 1;
    }
    assert output[..2 * i] + "" == output[..2 * i];
    output[2 * i] := '\0';
  }

  lemma HexStep(done: string, input: seq<Byte>, i: nat)
    requires i < |input|
    ensures done + Hex(input[i..]) == done + [HexDigit(input[i] / 16), HexDigit(input[i] % 16)] + Hex(input[i + 1..])
  {
    assert input[i..][1..] == input[i + 1..];
  }

  // A C caller's metadata: no character is NUL and the time fits 64 bits.
  predicate InC(m: Metadata) {
    '\0' !in m.version && '\0' !in m.device && '\0' !in m.request && '\0' !in m.nonce
    && -(MAX_TIME as int) - 1 <= m.timestamp <= MAX_TIME
  }

  method ValidateMetadata(m: Metadata) returns (ok: bool)
    requires InC(m)
    ensures ok <==> Valid(m)
  {
    if m.version != VERSION {
      return false;
    }
    var device := ValidDeviceId(m.device);
    var request := IsFixedLowerHex(m.request, 32);
    var nonce := IsFixedLowerHex(m.nonce, 32);
    return device && request && nonce && m.timestamp >= 0;
  }

  // What the builder answers, and how long the text is when it knows.
  function Built(m: Metadata, verb: string, target: string, digest: Option<Digest>, room: nat): (Status, Option<nat>) {
    if !Valid(m) then (InvalidMetadata, None)
    else if !Method(verb) then (InvalidMethod, None)
    else if !Target(target) then (InvalidTarget, None)
    else if digest.None? then (CryptoError, None)
    else
      var n := |Text(m, verb, target, digest.value)|;
      (if room <= n then BufferTooSmall else Fine, Some(n))
  }

  // velaops_build_canonical_request.  `digest` is what hashing the body gives; a null
  // output is an array without room.
  method BuildCanonical(verb: CString, target: CString, digest: Option<Digest>, m: Metadata, output: array<char>)
    returns (status: Status, length: Option<nat>)
    requires InC(m)
    modifies output
    ensures (status, length) == Built(m, verb, target, digest, output.Length)
    ensures status == Fine ==>
              output[..length.value] == Text(m, verb, target, digest.value) && output[length.value] == '\0'
    ensures status != Fine ==> output[..] == old(output[..])
  {
    var ok := ValidateMetadata(m);
    if !ok {
      return InvalidMetadata, None;
    }
    ok := ValidMethod(verb);
    if !ok {
      return InvalidMethod, None;
    }
    ok := ValidTarget(target);
    if !ok {
      return InvalidTarget, None;
    }
    if digest.None? {
      return CryptoError, None;
    }
    var hash := new char[65];
    HexEncode(digest.value, hash);
    var bodyHash := hash[..64];
    var timestamp := Shown(m.timestamp);
    var required := |ALGORITHM| + |m.version| + |m.device| + |m.request| + |timestamp| + |m.nonce| + |verb| + |target|
                    + |bodyHash| + 8;
    PrintedText(m, verb, target, digest.value);
    if output.Length <= required {
      return BufferTooSmall, Some(required);
    }
    var text := Printf9(ALGORITHM, m.version, m.device, m.request, timestamp, m.nonce, verb, target, bodyHash);
    Copy(output, text);
    return Fine, Some(required);
  }

  // The format "%s\n%s\n%s\n%s\n%s\n%s\n%s\n%s\n%s".
  function Printf9(a: string, b: string, c: string, d: string, e: string, f: string, g: string, h: string,
          i: string): string {
    a + "\n" + b + "\n" + c + "\n" + d + "\n" + e + "\n" + f + "\n" + g + "\n" + h + "\n" + i
  }

  method Copy(output: array<char>, text: string)
    requires |text| < output.Length
    modifies output
    ensures output[..|text|] == text && output[|text|] == '\0'
  {
    var i := 0;
    while i < |text|
      invariant 0 <= i <= |text| && output[..i] == text[..i]
    {
      output[i] := text[i];
      i := i + 1;
    }
    output[i] := '\0';
  }

  // The format gives the joined lines, of the length the first pass adds up.
  lemma PrintedText(m: Metadata, verb: string, target: string, d: Digest)
    requires m.timestamp >= 0
    ensures Printf9(ALGORITHM, m.version, m.device, m.request, Shown(m.timestamp), m.nonce, verb, target, Hex(d))
         == Text(m, verb, target, d)
    ensures |Text(m, verb, target, d)|
         == |ALGORITHM| + |m.version| + |m.device| + |m.request| + |Shown(m.timestamp)| + |m.nonce| + |verb| + |target|
            + |Hex(d)| + 8
  {
    PrintedLines(ALGORITHM, m.version, m.device, m.request, Shown(m.timestamp), m.nonce, verb, target, Hex(d));
  }

  lemma PrintedLines(a: string, b: string, c: string, d: string, e: string, f: string, g: string, h: string, i: string)
    ensures Lines([a, b, c, d, e, f, g, h, i]) == Printf9(a, b, c, d, e, f, g, h, i)
  {
    FourMore([a], b, c, d, e);
    FourMore([a, b, c, d, e], f, g, h, i);
    assert [a] + [b, c, d, e] == [a, b, c, d, e];
    assert [a, b, c, d, e] + [f, g, h, i] == [a, b, c, d, e, f, g, h, i];
  }

  lemma FourMore(fs: seq<string>, x: string, y: string, z: string, w: string)
    requires fs != []
    ensures Lines(fs + [x, y, z, w]) == Lines(fs) + "\n" + x + "\n" + y + "\n" + z + "\n" + w
  {
    OneMore(fs, x);
    OneMore(fs + [x], y);
    OneMore(fs + [x] + [y], z);
    OneMore(fs + [x] + [y] + [z], w);
    assert fs + [x] + [y] + [z] + [w] == fs + [x, y, z, w];
  }

  lemma {:induction false} OneMore(fs: seq<string>, x: string)
    requires fs != []
    ensures Lines(fs + [x]) == Lines(fs) + "\n" + x
    decreases |fs|
  {
    if |fs| == 1 {
      assert (fs + [x])[1..] == [x];
    } else {
      OneMore(fs[1..], x);
      assert (fs + [x])[1..] == fs[1..] + [x];
    }
  }

  // What signing answers: the text is hashed whole, or the first complaint stands.
  function Signed(secret: seq<Byte>, m: Metadata, verb: string, target: string, digest: Option<Digest>,
                  mac: (seq<Byte>, string) -> Option<Digest>): (Status, string)
  {
    if |secret| < 32 then (SecretTooShort, "")
    else if !Valid(m) then (InvalidMetadata, "")
    else if !Method(verb) then (InvalidMethod, "")
    else if !Target(target) then (InvalidTarget, "")
    else if digest.None? then (CryptoError, "")
    else
      var code := mac(secret, Text(m, verb, target, digest.value));
      if code.None? then (CryptoError, "") else (Fine, Hex(code.value))
  }

  // The first complaint is the answer; without one the signature is of the whole text.
  lemma SignedIs(secret: seq<Byte>, m: Metadata, verb: string, target: string, digest: Option<Digest>,
        mac: (seq<Byte>, string) -> Option<Digest>)
    ensures var (status, signature) := Signed(secret, m, verb, target, digest, mac);
            && (status == SecretTooShort <==> |secret| < 32)
            && (status == InvalidMetadata <==> |secret| >= 32 && !Valid(m))
            && (status == InvalidMethod <==> |secret| >= 32 && Valid(m) && !Method(verb))
            && (status == InvalidTarget <==> |secret| >= 32 && Valid(m) && Method(verb) && !Target(target))
            && (status == Fine <==> |secret| >= 32 && Valid(m) && Method(verb) && Target(target) && digest.Some?
                                    && mac(secret, Text(m, verb, target, digest.value)).Some?)
            && (status == Fine ==> signature == Hex(mac(secret, Text(m, verb, target, digest.value)).value))
            && (status != Fine ==> signature == "") && status != BufferTooSmall
  {
  }

  lemma BuiltIs(m: Metadata, verb: string, target: string, digest: Option<Digest>, room: nat)
    ensures var (status, length) := Built(m, verb, target, digest, room);
            && (status == InvalidMetadata <==> !Valid(m))
            && (status == InvalidMethod <==> Valid(m) && !Method(verb))
            && (status == InvalidTarget <==> Valid(m) && Method(verb) && !Target(target))
            && (status == CryptoError <==> Valid(m) && Method(verb) && Target(target) && digest.None?)
            && (status == Fine <==> length.Some? && length.value < room)
            && (length.Some? <==> Valid(m) && Method(verb) && Target(target) && digest.Some?)
            && (length.Some? ==> length.value == |Text(m, verb, target, digest.value)|) && status != SecretTooShort
  {
  }

  // velaops_calculate_signature, while memory lasts: a first pass for the length, a
  // second that always finds room.
  method CalculateSignature(secret: seq<Byte>, verb: CString, target: CString, digest: Option<Digest>, m: Metadata,
                            mac: (seq<Byte>, string) -> Option<Digest>) returns (status: Status, signature: string)
    requires InC(m)
    ensures (status, signature) == Signed(secret, m, verb, target, digest, mac)
    ensures status != BufferTooSmall
  {
    if |secret| < 32 {
      return SecretTooShort, "";
    }
    var nothing := new char[0];
    var first, length := BuildCanonical(verb, target, digest, m, nothing);
    if first != BufferTooSmall {
      return first, "";
    }
    var canonical := new char[length.value + 1];
    status, length := BuildCanonical(verb, target, digest, m, canonical);
    var code := mac(secret, canonical[..length.value]);
    if code.None? {
      return CryptoError, "";
    }
    var hex := new char[65];
    HexEncode(code.value, hex);
    return Fine, hex[..64];
  }

  // ---------------------------------------------------------------- the Python builder

  // The patterns of protocol.py:25-28.
  const DEVICE_MARKS := [Span('.', '.'), Span('_', '_'), Span('-', '-')]
  const DEVICE_ID_PATTERN := [Item(ALNUM, 1, Some(1)), Item(ALNUM + DEVICE_MARKS, 0, Some(63))]
  const METHOD_PATTERN := [Item([UPPER], 1, None)]

  function HexPattern(n: nat): seq<Item> { [Item([DIGIT, Span('a', 'f')], n, Some(n))] }

  lemma SpansOf(c: char)
    ensures InSpans(c, ALNUM) <==> IsAlnum(c)
    ensures InSpans(c, ALNUM + DEVICE_MARKS) <==> IsDeviceChar(c)
    ensures InSpans(c, [UPPER]) <==> IsUpper(c)
    ensures InSpans(c, [DIGIT, Span('a', 'f')]) <==> IsHex(c)
  {
    AlnumAnd(c, []);
    assert ALNUM + [] == ALNUM;
    AlnumAnd(c, DEVICE_MARKS);
    ThreeSpans(c, DEVICE_MARKS);
    InFirst(c, UPPER, []);
    InFirst(c, Span('a', 'f'), []);
    InFirst(c, DIGIT, [Span('a', 'f')] + []);
    assert [UPPER] == [UPPER] + [] && [DIGIT, Span('a', 'f')] == [DIGIT] + ([Span('a', 'f')] + []);
  }

  // The C loops and the Python patterns accept the same.
  lemma PatternsAgree(s: string, n: nat)
    ensures FullMatch(DEVICE_ID_PATTERN, s) <==> DeviceId(s)
    ensures FullMatch(METHOD_PATTERN, s) <==> Method(s)
    ensures FullMatch(HexPattern(n), s) <==> HexText(s, n)
  {
    forall c { SpansOf(c); }
    DevicePattern(s);
    MatchesOne(METHOD_PATTERN[0], s);
    MatchesOne(HexPattern(n)[0], s);
    assert s[..|s|] == s;
  }

  lemma DevicePattern(s: string)
    ensures FullMatch(DEVICE_ID_PATTERN, s) <==> DeviceId(s)
  {
    MatchesTwo(DEVICE_ID_PATTERN[0], DEVICE_ID_PATTERN[1], s);
    forall c { SpansOf(c); }
    if s != "" {
      assert s[1..][..|s| - 1] == s[1..] && s == [s[0]] + s[1..];
    }
  }

  // AuthMetadata.validate
  ghost function Validate(m: Metadata): Option<ErrorCode> {
    if m.version != VERSION then Some(UnsupportedVersion)
    else if !FullMatch(DEVICE_ID_PATTERN, m.device) then Some(InvalidAuth)
    else if !FullMatch(HexPattern(32), m.request) || !FullMatch(HexPattern(32), m.nonce) then Some(InvalidAuth)
    else if m.timestamp < 0 || m.timestamp > 0x7fff_ffff_ffff_ffff then Some(InvalidAuth)
    else None
  }

  // canonical_request, for the digest of the body
  ghost function CanonicalRequest(verb: string, target: string, d: Digest, m: Metadata): Result<string> {
    var refusal := Validate(m);
    if refusal.Some? then Err(refusal.value)
    else if !FullMatch(METHOD_PATTERN, verb) then Err(InvalidAuth)
    else if target == "" || target[0] != '/' || |target| > MAX_TARGET || exists c :: c in target && c as int > 0x7f
      then Err(InvalidAuth)
    else if '\r' in target || '\n' in target || '#' in target then Err(InvalidAuth)
    else Ok(Lines([ALGORITHM, m.version, m.device, m.request, Shown(m.timestamp), m.nonce, verb, target, Hex(d)]))
  }

  lemma ValidateIs(m: Metadata)
    ensures Validate(m).None? <==> Valid(m)
    ensures Validate(m) == Some(UnsupportedVersion) <==> m.version != VERSION
  {
    PatternsAgree(m.device, 32);
    PatternsAgree(m.request, 32);
    PatternsAgree(m.nonce, 32);
  }

  lemma PythonAccepts(verb: string, target: string, d: Digest, m: Metadata)
    ensures CanonicalRequest(verb, target, d, m).Ok? <==> Valid(m) && Method(verb) && Target(target)
    ensures CanonicalRequest(verb, target, d, m).Ok?
            ==> CanonicalRequest(verb, target, d, m).value == Text(m, verb, target, d)
    ensures CanonicalRequest(verb, target, d, m) == Err(UnsupportedVersion) <==> m.version != VERSION
  {
    ValidateIs(m);
    PatternsAgree(verb, 0);
    if Target(target) {
      assert !IsTargetChar('\r') && !IsTargetChar('\n') && !IsTargetChar('#');
    }
  }

  // On everything a C caller can pass, the two builders accept the same requests and
  // agree on the text, whose length the C one tells in either pass.
  lemma BuildersAgree(verb: CString, target: CString, d: Digest, m: Metadata, room: nat)
    requires InC(m)
    ensures var (python, (status, length)) := (CanonicalRequest(verb, target, d, m),
            Built(m, verb, target, Some(d), room));
            && (python.Ok? <==> status == Fine || status == BufferTooSmall)
            && (python.Ok? ==> python.value == Text(m, verb, target, d) && length == Some(|python.value|)
                               && (status == Fine <==> room > |python.value|))
  {
    PythonAccepts(verb, target, d, m);
  }

  // Signed alike means asked alike.
  lemma RequestInjective(verb: string, target: string, d: Digest, m: Metadata, verb': string, target': string,
          d': Digest, m': Metadata)
    requires CanonicalRequest(verb, target, d, m).Ok?
    requires CanonicalRequest(verb', target', d', m') == CanonicalRequest(verb, target, d, m)
    ensures m == m' && verb == verb' && target == target' && d == d'
  {
    PythonAccepts(verb, target, d, m);
    PythonAccepts(verb', target', d', m');
    TextInjective(m, verb, target, d, m', verb', target', d');
  }

  // ---------------------------------------------------------------- headers

  const H_VERSION := "X-VelaOps-Version"
  const H_DEVICE := "X-VelaOps-Device"
  const H_REQUEST := "X-VelaOps-Request-ID"
  const H_TIMESTAMP := "X-VelaOps-Timestamp"
  const H_NONCE := "X-VelaOps-Nonce"
  const H_SIGNATURE := "X-VelaOps-Signature"

  datatype Header = Header(name: string, value: string)

  // str.lower on ASCII names
  function Lowered(s: string): (t: string)
    ensures |t| == |s|
  {
    if s == "" then "" else [Lower(s[0])] + Lowered(s[1..])
  }

  // Names lowered; of equal names the last counts.
  function Normalized(hs: seq<Header>): map<string, string> {
    if hs == [] then map[]
    else Normalized(hs[..|hs| - 1])[Lowered(hs[|hs| - 1].name) := hs[|hs| - 1].value]
  }

  // Six headers by name and value.
  function Six(na: string, nb: string, nc: string, nd: string, ne: string, nf: string,
               a: string, b: string, c: string, d: string, e: string, f: string): seq<Header>
  {
    [Header(na, a), Header(nb, b), Header(nc, c), Header(nd, d), Header(ne, e), Header(nf, f)]
  }

  // to_headers
  ghost function ToHeaders(m: Metadata, signature: string): Result<seq<Header>> {
    var refusal := Validate(m);
    if refusal.Some? then Err(refusal.value)
    else if !FullMatch(HexPattern(64), signature) then Err(InvalidAuth)
    else Ok(Six(H_VERSION, H_DEVICE, H_REQUEST, H_TIMESTAMP, H_NONCE, H_SIGNATURE,
                m.version, m.device, m.request, Shown(m.timestamp), m.nonce, signature))
  }

  predicate IsDecimal(s: string) { s != "" && forall c :: c in s ==> IsDigit(c) }

  function Get(h: map<string, string>, name: string): Option<string> {
    if Lowered(name) in h then Some(h[Lowered(name)]) else None
  }

  // from_headers
  ghost function FromHeaders(hs: seq<Header>): Result<(Metadata, string)> {
    FromMap(Normalized(hs))
  }

  ghost function FromMap(h: map<string, string>): Result<(Metadata, string)> {
    Parsed(Get(h, H_TIMESTAMP), Get(h, H_VERSION), Get(h, H_DEVICE), Get(h, H_REQUEST), Get(h, H_NONCE),
      Get(h, H_SIGNATURE))
  }

  ghost function Parsed(time: Option<string>, version: Option<string>, device: Option<string>, request: Option<string>,
                  nonce: Option<string>, signature: Option<string>): Result<(Metadata, string)>
  {
    if time.None? || !IsDecimal(time.value) then Err(InvalidAuth)
    else if version.None? || device.None? || request.None? || nonce.None? then Err(InvalidAuth)
    else Checked(Metadata(version.value, device.value, request.value, Read(time.value, 0), nonce.value), signature)
  }

  ghost function Checked(m: Metadata, signature: Option<string>): Result<(Metadata, string)> {
    var refusal := Validate(m);
    if refusal.Some? then Err(refusal.value)
    else if signature.None? || !FullMatch(HexPattern(64), signature.value) then Err(InvalidAuth)
    else Ok((m, signature.value))
  }

  lemma {:induction false} LowerAt(s: string, i: nat)
    requires i < |s|
    ensures Lowered(s)[i] == Lower(s[i])
    decreases i
  {
    if i > 0 { LowerAt(s[1..], i - 1); }
  }

  // The six names stay apart when lowered: by their lengths, or by their initials.
  lemma NamesDiffer()
    ensures |H_VERSION| == 17 && |H_DEVICE| == 16 && |H_REQUEST| == 20 && |H_TIMESTAMP| == 19 && |H_NONCE| == 15
    ensures |H_SIGNATURE| == 19 && Lowered(H_TIMESTAMP) != Lowered(H_SIGNATURE)
  {
    LowerAt(H_TIMESTAMP, 10);
    LowerAt(H_SIGNATURE, 10);
  }

  // Six names that stay apart when lowered.
  ghost predicate Apart(a: string, b: string, c: string, d: string, e: string, f: string) {
    && Lowered(a) !in {Lowered(b), Lowered(c), Lowered(d), Lowered(e), Lowered(f)}
    && Lowered(b) !in {Lowered(c), Lowered(d), Lowered(e), Lowered(f)}
    && Lowered(c) !in {Lowered(d), Lowered(e), Lowered(f)}
    && Lowered(d) !in {Lowered(e), Lowered(f)} && Lowered(e) != Lowered(f)
  }

  lemma NamesApart()
    ensures Apart(H_VERSION, H_DEVICE, H_REQUEST, H_TIMESTAMP, H_NONCE, H_SIGNATURE)
  {
    NamesDiffer();
    ApartByLength(H_VERSION, H_DEVICE, H_REQUEST, H_TIMESTAMP, H_NONCE, H_SIGNATURE);
  }

  lemma ApartByLength(a: string, b: string, c: string, d: string, e: string, f: string)
    requires |a| !in {|b|, |c|, |d|, |e|, |f|} && |b| !in {|c|, |d|, |e|, |f|}
    requires |c| !in {|d|, |e|, |f|} && |d| != |e| && |e| != |f| && Lowered(d) != Lowered(f)
    ensures Apart(a, b, c, d, e, f)
  {
  }

  lemma NormalizedAppend(hs: seq<Header>, h: Header)
    ensures Normalized(hs + [h]) == Normalized(hs)[Lowered(h.name) := h.value]
  {
    assert (hs + [h])[..|hs|] == hs;
  }

  lemma SixMap(na: string, nb: string, nc: string, nd: string, ne: string, nf: string,
               a: string, b: string, c: string, d: string, e: string, f: string)
    ensures Normalized(Six(na, nb, nc, nd, ne, nf, a, b, c, d, e, f))
         == map[][Lowered(na) := a][Lowered(nb) := b][Lowered(nc) := c]
            [Lowered(nd) := d][Lowered(ne) := e][Lowered(nf) := f]
  {
    var h := [Header(na, a)];
    NormalizedAppend([], Header(na, a));
    assert [] + h == h;
    NormalizedAppend(h, Header(nb, b));
    NormalizedAppend(h + [Header(nb, b)], Header(nc, c));
    NormalizedAppend(h + [Header(nb, b)] + [Header(nc, c)], Header(nd, d));
    NormalizedAppend(h + [Header(nb, b)] + [Header(nc, c)] + [Header(nd, d)], Header(ne, e));
    NormalizedAppend(h + [Header(nb, b)] + [Header(nc, c)] + [Header(nd, d)] + [Header(ne, e)], Header(nf, f));
    assert h + [Header(nb, b)] + [Header(nc, c)] + [Header(nd, d)] + [Header(ne, e)] + [Header(nf, f)]
        == Six(na, nb, nc, nd, ne, nf, a, b, c, d, e, f);
  }

  // Each value is found under its own name.
  lemma SixRead(na: string, nb: string, nc: string, nd: string, ne: string, nf: string,
                a: string, b: string, c: string, d: string, e: string, f: string)
    requires Apart(na, nb, nc, nd, ne, nf)
    ensures var h := Normalized(Six(na, nb, nc, nd, ne, nf, a, b, c, d, e, f));
            && Get(h, na) == Some(a) && Get(h, nb) == Some(b) && Get(h, nc) == Some(c)
            && Get(h, nd) == Some(d) && Get(h, ne) == Some(e) && Get(h, nf) == Some(f)
  {
    SixMap(na, nb, nc, nd, ne, nf, a, b, c, d, e, f);
  }

  lemma ShownIsDecimal(n: nat)
    ensures IsDecimal(Shown(n))
  {
    assert forall i :: 0 <= i < |Shown(n)| ==> IsDigit(Shown(n)[i]);
  }

  lemma ParsedRoundTrip(m: Metadata, signature: string)
    requires Valid(m) && HexText(signature, 64)
    ensures Parsed(Some(Shown(m.timestamp)), Some(m.version), Some(m.device), Some(m.request), Some(m.nonce),
            Some(signature))
         == Ok((m, signature))
  {
    ShownIsDecimal(m.timestamp);
    ReadShown(m.timestamp);
    ValidateIs(m);
    PatternsAgree(signature, 64);
  }

  lemma ParsedSound(time: Option<string>, version: Option<string>, device: Option<string>, request: Option<string>,
                    nonce: Option<string>, signature: Option<string>)
    requires Parsed(time, version, device, request, nonce, signature).Ok?
    ensures var (m, s) := Parsed(time, version, device, request, nonce, signature).value; Valid(m) && HexText(s, 64)
  {
    ValidateIs(Parsed(time, version, device, request, nonce, signature).value.0);
    PatternsAgree(signature.value, 64);
  }

  lemma SixParsed(na: string, nb: string, nc: string, nd: string, ne: string, nf: string, m: Metadata,
          signature: string)
    requires Apart(na, nb, nc, nd, ne, nf) && Valid(m) && HexText(signature, 64)
    ensures var h := Normalized(Six(na, nb, nc, nd, ne, nf, m.version, m.device, m.request, Shown(m.timestamp),
            m.nonce, signature));
            Parsed(Get(h, nd), Get(h, na), Get(h, nb), Get(h, nc), Get(h, ne), Get(h, nf)) == Ok((m, signature))
  {
    SixRead(na, nb, nc, nd, ne, nf, m.version, m.device, m.request, Shown(m.timestamp), m.nonce, signature);
    ParsedRoundTrip(m, signature);
  }

  // The headers sent for this metadata.
  function Sent(m: Metadata, signature: string): seq<Header>
    requires m.timestamp >= 0
  {
    Six(H_VERSION, H_DEVICE, H_REQUEST, H_TIMESTAMP, H_NONCE, H_SIGNATURE,
        m.version, m.device, m.request, Shown(m.timestamp), m.nonce, signature)
  }

  lemma HeadersSent(m: Metadata, signature: string)
    requires Valid(m) && HexText(signature, 64)
    ensures ToHeaders(m, signature) == Ok(Sent(m, signature))
  {
    ValidateIs(m);
    PatternsAgree(signature, 64);
  }

  lemma HeadersRead(m: Metadata, signature: string)
    requires Valid(m) && HexText(signature, 64)
    ensures FromHeaders(Sent(m, signature)) == Ok((m, signature))
  {
    NamesApart();
    SixParsed(H_VERSION, H_DEVICE, H_REQUEST, H_TIMESTAMP, H_NONCE, H_SIGNATURE, m, signature);
  }

  // Headers carry metadata and signature unchanged.
  lemma HeadersRoundTrip(m: Metadata, signature: string)
    requires Valid(m) && HexText(signature, 64)
    ensures ToHeaders(m, signature).Ok? && FromHeaders(ToHeaders(m, signature).value) == Ok((m, signature))
  {
    HeadersSent(m, signature);
    HeadersRead(m, signature);
  }

  // Whatever headers are accepted, the same metadata and signature can be sent on.
  lemma AcceptedCanBeSent(hs: seq<Header>)
    requires FromHeaders(hs).Ok?
    ensures var (m, signature) := FromHeaders(hs).value;
            Valid(m) && ToHeaders(m, signature).Ok? && FromHeaders(ToHeaders(m, signature).value) == FromHeaders(hs)
  {
    var (m, signature) := FromHeaders(hs).value;
    var h := Normalized(hs);
    ParsedSound(Get(h, H_TIMESTAMP), Get(h, H_VERSION), Get(h, H_DEVICE), Get(h, H_REQUEST), Get(h, H_NONCE),
      Get(h, H_SIGNATURE));
    HeadersRoundTrip(m, signature);
  }

  // The case of header names does not matter.
  lemma {:induction false} CaseIsIgnored(hs: seq<Header>, hs': seq<Header>)
    requires |hs| == |hs'|
    requires forall i :: 0 <= i < |hs| ==> Lowered(hs[i].name) == Lowered(hs'[i].name) && hs[i].value == hs'[i].value
    ensures Normalized(hs) == Normalized(hs')
    decreases |hs|
  {
    if hs != [] {
      CaseIsIgnored(hs[..|hs| - 1], hs'[..|hs| - 1]);
    }
  }

  // Of headers with the same name the last counts, whatever the case of its letters.
  lemma LastHeaderCounts(hs: seq<Header>, h: Header, name: string)
    requires Lowered(name) == Lowered(h.name)
    ensures Get(Normalized(hs + [h]), name) == Some(h.value)
  {
    NormalizedAppend(hs, h);
  }

  // The timestamp text itself survives exactly when it has no leading zero.
  lemma TimestampText(text: string)
    requires IsDecimal(text)
    ensures Shown(Read(text, 0)) == text <==> |text| == 1 || text[0] != '0'
  {
    if |text| == 1 || text[0] != '0' {
      ShownOfRead(text);
    } else {
      NoLeadingZero(Read(text, 0));
    }
  }

  lemma {:induction false} NoLeadingZero(n: nat)
    ensures n > 0 ==> Shown(n)[0] != '0'
    ensures n == 0 ==> |Shown(n)| == 1
  {
    if n >= 10 {
      NoLeadingZero(n / 10);
      assert Shown(n)[0] == Shown(n / 10)[0];
    }
  }

  lemma {:induction false} ShownOfRead(text: string)
    requires IsDecimal(text) && (|text| == 1 || text[0] != '0')
    ensures Shown(Read(text, 0)) == text && (text[0] != '0' ==> Read(text, 0) > 0)
    decreases |text|
  {
    var n := |text| - 1;
    assert text[n] in text && IsDigit(text[n]);
    if n == 0 {
      ReadDigit(text[0], 0);
      assert text == [text[0]];
    } else {
      var front := text[..n];
      assert front[0] == text[0] && forall c :: c in front ==> c in text;
      ShownOfRead(front);
      ReadLast(front, text[n]);
      assert front + [text[n]] == text;
    }
  }

  lemma ReadLast(front: string, last: char)
    requires IsDecimal(front) && IsDigit(last)
    ensures var d := last as int - '0' as int; Read(front + [last], 0) == 10 * Read(front, 0) + d
    ensures Read(front, 0) > 0 ==> Shown(Read(front + [last], 0)) == Shown(Read(front, 0)) + [last]
  {
    assert forall i :: 0 <= i < |front| ==> front[i] in front;
    ReadJoined(front, [last], 0);
    ReadDigit(last, Read(front, 0));
    var d := last as int - '0' as int;
    assert DigitOf(d) == last;
    TenTimes(Read(front, 0), d);
  }

  lemma TenTimes(n: nat, d: nat)
    requires d < 10
    ensures (10 * n + d) / 10 == n && (10 * n + d) % 10 == d
  {
  }
}
