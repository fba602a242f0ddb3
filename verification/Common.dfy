// What several components share: an optional value, bytes, and C strings in buffers.

module Common {

  datatype Option<+T> = None | Some(value: T)

  type Byte = b: int | 0 <= b < 256

  function Pow256(n: nat): nat {
    if n == 0 then 1 else 0x100 * Pow256(n - 1)
  }

  // ---------------------------------------------------------------- little-endian fields

  function LittleEndian(d: seq<Byte>): nat {
    if d == [] then 0 else (d[0] as int) + 0x100 * LittleEndian(d[1..])
  }

  function Digits(w: nat, n: nat): (d: seq<Byte>)
    ensures |d| == n
  {
    if n == 0 then [] else [w % 0x100] + Digits(w / 0x100, n - 1)
  }

  lemma {:induction false} DigitsRead(w: nat, n: nat)
    requires w < Pow256(n)
    ensures LittleEndian(Digits(w, n)) == w
  {
    if n > 0 {
      DigitsRead(w / 0x100, n - 1);
      assert Digits(w, n)[1..] == Digits(w / 0x100, n - 1);
    }
  }

  // Reading a field and writing it again changes nothing.
  lemma {:induction false} NumberShows(d: seq<Byte>)
    ensures Digits(LittleEndian(d), |d|) == d && LittleEndian(d) < Pow256(|d|)
    decreases |d|
  {
    if d != [] {
      NumberShows(d[1..]);
      assert d == [d[0]] + d[1..];
    }
  }

  // The low byte comes first.
  lemma LowFirst()
    ensures Digits(0x0403_0201, 4) == [1, 2, 3, 4]
  {
    assert Digits(0x0403, 2) == [3] + Digits(4, 1) && Digits(4, 1) == [4] + Digits(0, 0);
    assert Digits(0x0403_0201, 4) == [1] + Digits(0x0403_02, 3) && Digits(0x0403_02, 3) == [2] + Digits(0x0403, 2);
  }

  lemma ByteRead(b: nat)
    requires b < 0x100
    ensures (b as bv8) as nat == b
  {
    assert b as bv8 == (b as bv16) as bv8;
  }

  // ---------------------------------------------------------------- strings

  // The C string a buffer starts with.
  function CStr<T(==)>(nul: T, buffer: seq<T>): (s: seq<T>)
    ensures nul !in s && s <= buffer
    ensures nul !in buffer ==> s == buffer
  {
    if buffer == [] || buffer[0] == nul then [] else [buffer[0]] + CStr(nul, buffer[1..])
  }

  // An ASCII letter in lower case.
  function Lower(c: char): char {
    if 'A' <= c <= 'Z' then (c as int + 32) as char else c
  }

  // Each capital becomes the small letter at its place in the alphabet.
  lemma LowerAlphabet(i: nat)
    requires i < 26
    ensures Lower("ABCDEFGHIJKLMNOPQRSTUVWXYZ"[i]) == "abcdefghijklmnopqrstuvwxyz"[i]
    ensures Lower("abcdefghijklmnopqrstuvwxyz"[i]) == "abcdefghijklmnopqrstuvwxyz"[i]
  {
    Capital(i);
    Small(i);
  }

  lemma Capital(i: nat)
    requires i < 26
    ensures "ABCDEFGHIJKLMNOPQRSTUVWXYZ"[i] as int == 'A' as int + i
  {
  }

  lemma Small(i: nat)
    requires i < 26
    ensures "abcdefghijklmnopqrstuvwxyz"[i] as int == 'a' as int + i
  {
  }

  // strlcpy into a buffer of `size` characters.
  function Cut<T>(s: seq<T>, size: nat): (t: seq<T>)
    requires size > 0
    ensures |t| < size && t <= s
    ensures |s| < size ==> t == s
  {
    if |s| >= size then s[..size - 1] else s
  }

  lemma Grouped<T>(a: seq<T>, b: seq<T>, c: seq<T>)
    ensures a + b + c == a + (b + c)
  {
  }
}
