// The configuration store of velaops_conf.c over its two flash blocks.
//
// What the flash does with a block write is an argument of every call that writes:
// `Write` says whether it was reported as done and what the block holds afterwards.

module ConfStore {
  import opened Common
  import opened Crc
  import opened ConfSlots
  import opened ConfText
  import opened Splitting

  class ConfStore {
    const eraseSize: nat
    var blocks: seq<Bytes>

    ghost predicate Valid()
      reads this
    {
      && HEADER + MAX_PAYLOAD <= eraseSize <= 4096
      && |blocks| == 2 && |blocks[0]| == |blocks[1]| == eraseSize
    }

    ghost function Parsed(): View
      requires Valid()
      reads this
    {
      View(Parse(blocks[0]), Parse(blocks[1]))
    }

    // A save or clear with these outcomes may happen now.
    ghost predicate CanEnd(text: Bytes, w: Write)
      requires Valid() && NoNul(text)
      reads this
    {
      Storable(text) ==> Possible(w, blocks[Parsed().Target()], Image(Parsed().NextSeq(), text, eraseSize))
    }

    // The write of this text ended well: its block now holds it under the next number.
    ghost predicate EndsWell(text: Bytes, w: Write)
      requires Valid()
      reads this
    {
      w.ok && |w.left| >= HEADER && Parse(w.left) == Some(Slot(Parsed().NextSeq(), text))
    }

    // The write was reported as done and left the whole block.
    ghost predicate IntactWrite(text: Bytes, w: Write)
      requires Valid()
      reads this
    {
      w.ok && |text| <= MAX_PAYLOAD && w.left == Image(Parsed().NextSeq(), text, eraseSize)
    }

    lemma IntactEndsWell(text: Bytes, w: Write)
      requires Valid() && Storable(text) && IntactWrite(text, w)
      ensures EndsWell(text, w)
    {
      ParseImage(Parsed().NextSeq(), text, eraseSize);
    }

    // What the blocks hold once a save's write has ended.
    ghost function AfterWrite(w: Write): seq<Bytes>
      requires Valid()
      reads this
    {
      blocks[Parsed().Target() := w.left]
    }

    ghost predicate CanClear(wa: Write, wb: Write)
      requires Valid()
      reads this
    {
      Possible(wa, blocks[0], Erased(eraseSize)) && Possible(wb, blocks[1], Erased(eraseSize))
    }

    // conf_load_internal
    method LoadInternal() returns (best: Option<Slot>)
      requires Valid()
      ensures best == Parsed().Newest()
    {
      best := None;
      var i := 0;
      while i < 2
        invariant 0 <= i <= 2
        invariant i == 0 ==> best.None?
        invariant i == 1 ==> best == Parse(blocks[0])
        invariant i == 2 ==> best == Parsed().Newest()
      {
        var slot := Parse(blocks[i]);
        if slot.Some? && (best.None? || slot.value.seqno > best.value.seqno) {
          best := slot;
        }
        i := i + 1;
      }
    }

    // velaops_conf_save; `w` is how the block write ends.
    method Save(text: Bytes, w: Write) returns (ret: int)
      requires Valid() && NoNul(text) && CanEnd(text, w)
      modifies this`blocks
      ensures Valid()
      ensures ret == 0 || ret == -1
      ensures !Storable(text) ==> ret == -1 && blocks == old(blocks)
      ensures Storable(text) ==>
                && SaveOutcome(old(Parsed()), text, w.ok, Parse(w.left))
                && Parsed() == old(Parsed()).Put(old(Parsed()).Target(), Parse(w.left))
                && blocks == old(AfterWrite(w))
                && (ret == 0 <==> SaveSucceeds(text, w.ok, Parse(w.left)))
                && (ret == 0 <==> old(EndsWell(text, w)))
    {
      ret := -1;
      if |text| == 0 || |text| > MAX_PAYLOAD {
        return;
      }
      var seqno, target := Plan();
      var slot := Image(seqno, text, eraseSize);
      PossibleOutcome(w, blocks[target], seqno, text);
      ret := WriteAndCheck(target, slot, text, w);
    }

    // Where the next save goes and under which number (lines 315-325 and 335).
    method Plan() returns (seqno: nat, target: nat)
      requires Valid()
      ensures seqno == Parsed().NextSeq() < SEQ_LIMIT && target == Parsed().Target() < 2
    {
      var newest := LoadInternal();
      seqno, target := 0, 0;
      if newest.Some? {
        seqno := newest.value.seqno;
        target := if seqno % 2 == 0 then 1 else 0;
      }
      seqno := (seqno + 1) % SEQ_LIMIT;
    }

    // The write, the read back and the comparison (lines 347-359).
    method WriteAndCheck(target: nat, slot: Bytes, text: Bytes, w: Write) returns (ret: int)
      requires Valid() && target < 2 && Possible(w, blocks[target], slot) && |slot| == eraseSize
      modifies this`blocks
      ensures Valid() && blocks == old(blocks)[target := w.left]
      ensures Parsed() == old(Parsed()).Put(target, Parse(w.left))
      ensures ret == if SaveSucceeds(text, w.ok, Parse(w.left)) then 0 else -1
    {
      ret := -1;
      blocks := blocks[target := w.left];
      if w.ok {
        var check := Parse(blocks[target]);
        if check.Some? && check.value.text == text {
          ret := 0;
        }
      }
    }

    // velaops_conf_clear; `wa` and `wb` are how the two block writes end.
    method Clear(wa: Write, wb: Write) returns (ret: int)
      requires Valid() && CanClear(wa, wb)
      modifies this`blocks
      ensures Valid() && blocks == [wa.left, wb.left]
      ensures Parsed() == View(Parse(wa.left), Parse(wb.left))
      ensures Outcome(wa.ok, Parse(wa.left), old(Parsed()).a, None)
              && Outcome(wb.ok, Parse(wb.left), old(Parsed()).b, None)
      ensures ret == if wa.ok && wb.ok then 0 else -1
    {
      ret := 0;
      blocks := blocks[0 := wa.left];
      if !wa.ok {
        ret := -1;
      }
      blocks := blocks[1 := wb.left];
      if !wb.ok {
        ret := -1;
      }
    }

    // What velaops_conf_load puts into a buffer of CONF_MAX_PAYLOAD + 1 bytes; a store
    // that does not load reads as the empty text in conf_rewrite and has no keys.
    ghost function StoredText(): (t: Bytes)
      requires Valid()
      ensures NoNul(t)
      reads this
    {
      ParsedNoNul(blocks[0]);
      ParsedNoNul(blocks[1]);
      if Parsed().Text().Some? then Parsed().Text().value else []
    }

    method Load() returns (text: Bytes)
      requires Valid()
      ensures text == StoredText()
    {
      var best := LoadInternal();
      text := if best.Some? then best.value.text else [];
    }

    // velaops_conf_get with a buffer of `size` bytes.
    method Get(key: Bytes, size: nat) returns (ret: int, out: Bytes)
      requires Valid()
      ensures size == 0 ==> ret == -1
      ensures size > 0 ==> ret == if Lookup(StoredText(), key).Some? then 0 else -1
      ensures out == if ret == 0 then Cut(Lookup(StoredText(), key).value, size) else []
    {
      ret, out := -1, [];
      if size == 0 {
        return;
      }
      var cursor := Load();
      while cursor != []
        invariant Find(Parts(NL, cursor), key) == Lookup(StoredText(), key)
        invariant ret == -1
        decreases |cursor|
      {
        var line := cursor[..Upto(NL, cursor)];
        cursor := Behind(NL, cursor);
        if HasKey(line, key) {
          return 0, Cut(line[|key| + 1..], size);
        }
      }
    }

    // What conf_rewrite may end in: the outcome of the save or of the clear it ends with.
    ghost predicate CanRewrite(key: Bytes, value: Option<Bytes>, w: Write, wb: Write)
      requires Valid()
      reads this
    {
      var text := Rewritten(StoredText(), key, value);
      NoNul(text) ==> if text == [] then CanClear(w, wb) else CanEnd(text, w)
    }

    // conf_rewrite: velaops_conf_set for a value, velaops_conf_del for None.
    method Rewrite(key: Bytes, value: Option<Bytes>, w: Write, wb: Write) returns (ret: int)
      requires Valid() && NoNul(key) && (value.Some? ==> NoNul(value.value)) && CanRewrite(key, value, w, wb)
      modifies this`blocks
      ensures Valid() && (ret == 0 || ret == -1)
      ensures |Rewritten(old(StoredText()), key, value)| > MAX_PAYLOAD ==> ret == -1 && blocks == old(blocks)
      ensures |Rewritten(old(StoredText()), key, value)| <= MAX_PAYLOAD ==>
                var text := Rewritten(old(StoredText()), key, value);
                if text == [] then (ret == 0 <==> w.ok && wb.ok) && blocks == [w.left, wb.left]
                else (ret == 0 <==> old(EndsWell(text, w))) && blocks == old(AfterWrite(w))
      ensures old(Parsed()).Parity() && old(Parsed()).CanCount() ==>
                && Parsed().Parity()
                && (ret == 0 ==> StoredText() == Rewritten(old(StoredText()), key, value))
    {
      var text := Load();
      var ok, out := Composed(text, key, value);
      if !ok {
        return -1;
      }
      RewrittenNoNul(text, key, value);
      ret := Commit(out, w, wb);
    }

    // The end of conf_rewrite: an empty text clears the store, any other is saved.
    method Commit(out: Bytes, w: Write, wb: Write) returns (ret: int)
      requires Valid() && NoNul(out) && |out| <= MAX_PAYLOAD
      requires if out == [] then CanClear(w, wb) else CanEnd(out, w)
      modifies this`blocks
      ensures Valid() && (ret == 0 || ret == -1)
      ensures if out == [] then (ret == 0 <==> w.ok && wb.ok) && blocks == [w.left, wb.left]
              else (ret == 0 <==> old(EndsWell(out, w))) && blocks == old(AfterWrite(w))
      ensures old(Parsed()).Parity() && old(Parsed()).CanCount() ==>
                Parsed().Parity() && (ret == 0 ==> StoredText() == out)
    {
      ghost var before := Parsed();
      if |out| > 0 {
        ret := Save(out, w);
        if before.Parity() && before.CanCount() {
          SaveKeepsParity(before, out, w.ok, Parse(w.left));
          if ret == 0 { SaveIsLoaded(before, out, w.ok, Parse(w.left)); }
        }
      } else {
        ret := Clear(w, wb);
        if before.Parity() {
          ClearKeepsParity(before, w.ok, Parse(w.left), wb.ok, Parse(wb.left));
        }
      }
    }

    // Setting a key and reading it back; every other key reads as before.
    method Set(key: Bytes, value: Bytes, w: Write) returns (ret: int)
      requires Valid() && NoNul(key) && NoNul(value) && CanRewrite(key, Some(value), w, w)
      modifies this`blocks
      ensures Valid()
      ensures |Rewritten(old(StoredText()), key, Some(value))| > MAX_PAYLOAD ==> ret == -1 && blocks == old(blocks)
      ensures |Rewritten(old(StoredText()), key, Some(value))| <= MAX_PAYLOAD ==>
                && blocks == old(AfterWrite(w))
                && (ret == 0 <==> old(EndsWell(Rewritten(StoredText(), key, Some(value)), w)))
                && (old(IntactWrite(Rewritten(StoredText(), key, Some(value)), w)) ==> ret == 0)
      ensures old(Parsed()).Parity() && old(Parsed()).CanCount() ==> Parsed().Parity()
      ensures ret == 0 && old(Parsed()).Parity() && old(Parsed()).CanCount() && IsKey(key) && IsValue(value) ==>
                forall k :: IsKey(k) ==>
                  Lookup(StoredText(), k) == if k == key then Some(value) else Lookup(old(StoredText()), k)
    {
      ghost var t := StoredText();
      RewrittenNoNul(t, key, Some(value));
      SettingNotEmpty(t, key, value);
      if IntactWrite(Rewritten(t, key, Some(value)), w) { IntactEndsWell(Rewritten(t, key, Some(value)), w); }
      ret := Rewrite(key, Some(value), w, w);
      if IsKey(key) && IsValue(value) {
        forall k | IsKey(k)
          ensures Lookup(Rewritten(t, key, Some(value)), k) == if k == key then Some(value) else Lookup(t, k)
        {
          RewriteIsMapUpdate(t, key, Some(value), k);
        }
      }
    }

    method Del(key: Bytes, w: Write, wb: Write) returns (ret: int)
      requires Valid() && NoNul(key) && CanRewrite(key, None, w, wb)
      modifies this`blocks
      ensures Valid()
      ensures |Rewritten(old(StoredText()), key, None)| > MAX_PAYLOAD ==> ret == -1 && blocks == old(blocks)
      ensures |Rewritten(old(StoredText()), key, None)| <= MAX_PAYLOAD ==>
                var text := Rewritten(old(StoredText()), key, None);
                if text == [] then (ret == 0 <==> w.ok && wb.ok) && blocks == [w.left, wb.left]
                else (ret == 0 <==> old(EndsWell(text, w))) && blocks == old(AfterWrite(w))
      ensures old(Parsed()).Parity() && old(Parsed()).CanCount() ==> Parsed().Parity()
      ensures ret == 0 && old(Parsed()).Parity() && old(Parsed()).CanCount() && IsKey(key) ==>
                forall k :: IsKey(k) ==>
                  Lookup(StoredText(), k) == if k == key then None else Lookup(old(StoredText()), k)
    {
      ghost var t := StoredText();
      ret := Rewrite(key, None, w, wb);
      if IsKey(key) {
        forall k | IsKey(k) ensures Lookup(Rewritten(t, key, None), k) == if k == key then None else Lookup(t, k) {
          RewriteIsMapUpdate(t, key, None, k);
        }
      }
    }
  }

  lemma SettingNotEmpty(text: Bytes, key: Bytes, value: Bytes)
    ensures Rewritten(text, key, Some(value)) != []
  {
    AppendPart(NL, Without(Parts(NL, text), key), Entry(key, value));
  }

  lemma ParsedNoNul(block: Bytes)
    requires |block| >= HEADER
    ensures Parse(block).Some? ==> NoNul(Parse(block).value.text)
  {
  }

  // The text conf_rewrite puts together, if it fits (lines 429-472).
  method Composed(text: Bytes, key: Bytes, value: Option<Bytes>) returns (ok: bool, out: Bytes)
    ensures ok <==> |Rewritten(text, key, value)| <= MAX_PAYLOAD
    ensures ok ==> out == Rewritten(text, key, value)
  {
    ghost var kept := Without(Parts(NL, text), key);
    ok, out := Filtered(text, key);
    if !ok {
      if value.Some? { AppendPart(NL, kept, Entry(key, value.value)); } else { assert kept + [] == kept; }
      return;
    }
    if value.Some? {
      AppendPart(NL, kept, Entry(key, value.value));
      if |out| + |key| + |value.value| + 3 > MAX_PAYLOAD + 1 {
        return false, out;
      }
      out := out + Entry(key, value.value) + [NL];
    } else {
      assert kept + [] == kept;
    }
  }

  // What the next line adds to the copy.
  lemma NextLine(out: Bytes, cur: Bytes, key: Bytes)
    requires cur != []
    ensures var line := cur[..Upto(NL, cur)];
            var rest := Terminated(NL, Without(Parts(NL, Behind(NL, cur)), key));
            out + Terminated(NL, Without(Parts(NL, cur), key))
            == if HasKey(line, key) then out + rest else (out + line + [NL]) + rest
  {
    var line := cur[..Upto(NL, cur)];
    var ps := Parts(NL, Behind(NL, cur));
    assert Parts(NL, cur) == [line] + ps;
    TerminatedFirst(line, ps, key);
    if !HasKey(line, key) {
      Regrouped(out, line, Terminated(NL, Without(ps, key)));
    }
  }

  lemma TerminatedFirst(line: Bytes, ps: seq<Bytes>, key: Bytes)
    ensures Terminated(NL, Without([line] + ps, key))
         == if HasKey(line, key) then Terminated(NL, Without(ps, key))
           else line + [NL] + Terminated(NL, Without(ps, key))
  {
    assert ([line] + ps)[1..] == ps;
    assert ([line] + Without(ps, key))[1..] == Without(ps, key);
  }

  lemma Regrouped(out: Bytes, line: Bytes, rest: Bytes)
    ensures out + (line + [NL] + rest) == (out + line + [NL]) + rest
  {
  }

  // The loop of conf_rewrite: copies the lines without the key, as long as they fit.
  method Filtered(text: Bytes, key: Bytes) returns (ok: bool, out: Bytes)
    ensures ok <==> |Terminated(NL, Without(Parts(NL, text), key))| <= MAX_PAYLOAD
    ensures ok ==> out == Terminated(NL, Without(Parts(NL, text), key))
  {
    out := [];
    var cur := text;
    while cur != []
      invariant |out| <= MAX_PAYLOAD
      invariant out + Terminated(NL, Without(Parts(NL, cur), key)) == Terminated(NL, Without(Parts(NL, text), key))
      decreases |cur|
    {
      var line := cur[..Upto(NL, cur)];
      NextLine(out, cur, key);
      if !HasKey(line, key) {
        if |out| + |line| + 1 >= MAX_PAYLOAD + 1 {
          return false, out;
        }
        out := out + line + [NL];
      }
      cur := Behind(NL, cur);
    }
    assert out + [] == out;
    ok := true;
  }
}
