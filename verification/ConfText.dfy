// The "key=value" text of the configuration store (velaops_conf.c:365-495): what a
// text says as a map, and how a rewrite changes that map.

module ConfText {
  import opened Common
  import opened Crc
  import opened ConfSlots
  import opened Splitting

  const NL: bv8 := 0x0a
  const EQ: bv8 := 0x3d

  // ---------------------------------------------------------------- entries

  // The line is an entry for this key.
  predicate HasKey(line: Bytes, key: Bytes) {
    |line| > |key| && line[..|key|] == key && line[|key|] == EQ
  }

  // A key and a value a line can carry.
  ghost predicate IsKey(key: Bytes) { NL !in key && EQ !in key && NoNul(key) }
  ghost predicate IsValue(value: Bytes) { NL !in value && NoNul(value) }

  function Entry(key: Bytes, value: Bytes): Bytes { key + [EQ] + value }

  // What velaops_conf_get finds: the first line with the key.
  function Find(ls: seq<Bytes>, key: Bytes): Option<Bytes> {
    if ls == [] then None
    else if HasKey(ls[0], key) then Some(ls[0][|key| + 1..])
    else Find(ls[1..], key)
  }

  function Lookup(text: Bytes, key: Bytes): Option<Bytes> { Find(Parts(NL, text), key) }

  // The lines conf_rewrite keeps.
  function Without(ls: seq<Bytes>, key: Bytes): seq<Bytes> {
    if ls == [] then []
    else if HasKey(ls[0], key) then Without(ls[1..], key)
    else [ls[0]] + Without(ls[1..], key)
  }

  function Setting(key: Bytes, value: Option<Bytes>): seq<Bytes> {
    if value.Some? then [Entry(key, value.value)] else []
  }

  // The text after setting a key, or deleting it for None.
  function Rewritten(text: Bytes, key: Bytes, value: Option<Bytes>): Bytes {
    Terminated(NL, Without(Parts(NL, text), key) + Setting(key, value))
  }

  // An entry's key is what stands before its first '='.
  function FirstEq(line: Bytes): nat {
    if line == [] || line[0] == EQ then 0 else 1 + FirstEq(line[1..])
  }

  lemma {:induction false} FirstEqAt(line: Bytes, key: Bytes)
    requires EQ !in key && HasKey(line, key)
    ensures FirstEq(line) == |key|
    decreases |key|
  {
    if key != [] {
      assert key[0] == line[..|key|][0] == line[0];
      assert line[1..][..|key| - 1] == line[..|key|][1..] == key[1..];
      FirstEqAt(line[1..], key[1..]);
    }
  }

  lemma KeyIsUnique(line: Bytes, k: Bytes, k': Bytes)
    requires IsKey(k) && IsKey(k') && HasKey(line, k) && HasKey(line, k')
    ensures k == k'
  {
    FirstEqAt(line, k);
    FirstEqAt(line, k');
  }

  lemma EntryHasKey(key: Bytes, value: Bytes)
    ensures HasKey(Entry(key, value), key) && Entry(key, value)[|key| + 1..] == value
  {
  }

  lemma {:induction false} FindWithout(ls: seq<Bytes>, key: Bytes, k: Bytes)
    requires IsKey(key) && IsKey(k)
    ensures Find(Without(ls, key), k) == if k == key then None else Find(ls, k)
    decreases |ls|
  {
    if ls != [] {
      FindWithout(ls[1..], key, k);
      if HasKey(ls[0], key) {
        if HasKey(ls[0], k) { KeyIsUnique(ls[0], key, k); }
      } else {
        assert ([ls[0]] + Without(ls[1..], key))[1..] == Without(ls[1..], key);
      }
    }
  }

  lemma {:induction false} FindAppend(a: seq<Bytes>, b: seq<Bytes>, k: Bytes)
    ensures Find(a + b, k) == if Find(a, k).Some? then Find(a, k) else Find(b, k)
    decreases |a|
  {
    if a == [] {
      assert a + b == b;
    } else {
      assert (a + b)[1..] == a[1..] + b;
      FindAppend(a[1..], b, k);
    }
  }

  lemma {:induction false} WithoutHasNoBreaks(ls: seq<Bytes>, key: Bytes)
    requires NoneHas(NL, ls)
    ensures NoneHas(NL, Without(ls, key))
    decreases |ls|
  {
    if ls != [] { WithoutHasNoBreaks(ls[1..], key); }
  }

  // The text is a finite map: rewriting one key changes that key and no other, from
  // any starting text.
  lemma RewriteIsMapUpdate(text: Bytes, key: Bytes, value: Option<Bytes>, k: Bytes)
    requires IsKey(key) && IsKey(k) && (value.Some? ==> IsValue(value.value))
    ensures Lookup(Rewritten(text, key, value), k) == if k == key then value else Lookup(text, k)
  {
    var kept, set_ := Without(Parts(NL, text), key), Setting(key, value);
    PartsHaveNone(NL, text);
    WithoutHasNoBreaks(Parts(NL, text), key);
    PartsOfTerminated(NL, kept + set_);
    FindWithout(Parts(NL, text), key, k);
    FindAppend(kept, set_, k);
    if value.Some? {
      EntryHasKey(key, value.value);
      if HasKey(Entry(key, value.value), k) { KeyIsUnique(Entry(key, value.value), key, k); }
      assert Find(set_[1..], k).None?;
    }
  }

  lemma {:induction false} WithoutCounts(ls: seq<Bytes>, key: Bytes, l: Bytes)
    ensures multiset(Without(ls, key))[l] == if HasKey(l, key) then 0 else multiset(ls)[l]
    decreases |ls|
  {
    if ls != [] {
      assert ls == [ls[0]] + ls[1..];
      WithoutCounts(ls[1..], key, l);
    }
  }

  // All other lines stay, comments and broken ones too, and the key is left with one line
  // or none.
  lemma OtherLinesStay(text: Bytes, key: Bytes, value: Option<Bytes>, l: Bytes)
    requires IsKey(key) && (value.Some? ==> IsValue(value.value))
    ensures multiset(Parts(NL, Rewritten(text, key, value)))[l]
         == if !HasKey(l, key) then multiset(Parts(NL, text))[l]
            else if value.Some? && l == key + [EQ] + value.value then 1 else 0
  {
    var kept, set_ := Without(Parts(NL, text), key), Setting(key, value);
    PartsHaveNone(NL, text);
    WithoutHasNoBreaks(Parts(NL, text), key);
    PartsOfTerminated(NL, kept + set_);
    WithoutCounts(Parts(NL, text), key, l);
    if value.Some? { EntryHasKey(key, value.value); }
  }

  lemma {:induction false} LinesNoNul(text: Bytes)
    requires NoNul(text)
    ensures forall l :: l in Parts(NL, text) ==> NoNul(l)
    decreases |text|
  {
    if text != [] { LinesNoNul(Behind(NL, text)); }
  }

  lemma {:induction false} UnlinesNoNul(ls: seq<Bytes>)
    requires forall l :: l in ls ==> NoNul(l)
    ensures NoNul(Terminated(NL, ls))
    decreases |ls|
  {
    if ls != [] {
      assert ls[0] in ls;
      UnlinesNoNul(ls[1..]);
    }
  }

  lemma {:induction false} WithoutIn(ls: seq<Bytes>, key: Bytes)
    ensures forall l :: l in Without(ls, key) ==> l in ls
    decreases |ls|
  {
    if ls != [] { WithoutIn(ls[1..], key); }
  }

  lemma RewrittenNoNul(text: Bytes, key: Bytes, value: Option<Bytes>)
    requires NoNul(text) && NoNul(key) && (value.Some? ==> NoNul(value.value))
    ensures NoNul(Rewritten(text, key, value))
  {
    LinesNoNul(text);
    WithoutIn(Parts(NL, text), key);
    UnlinesNoNul(Without(Parts(NL, text), key) + Setting(key, value));
  }
}
