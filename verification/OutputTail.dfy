// The output buffer of exec_command (velaops_ssh.c:863-902): it keeps the end of what a
// command prints, shifting in place when a chunk does not fit.

module OutputTail {

  // The last k characters.
  function Last(s: string, k: nat): (t: string)
    ensures |t| == if |s| <= k then |s| else k
  {
    if |s| <= k then s else s[|s| - k..]
  }

  function Printed(chunks: seq<string>): string {
    if chunks == [] then "" else Printed(chunks[..|chunks| - 1]) + chunks[|chunks| - 1]
  }

  // What is printed is the chunks one behind the other.
  lemma {:induction false} PrintedJoined(a: seq<string>, b: seq<string>)
    ensures Printed(a + b) == Printed(a) + Printed(b)
    ensures |a| == 1 ==> Printed(a) == a[0]
    decreases |b|
  {
    if b == [] {
      assert a + b == a;
    } else {
      assert (a + b)[..|a + b| - 1] == a + b[..|b| - 1];
      PrintedJoined(a, b[..|b| - 1]);
    }
  }

  // The end of a text can be kept chunk by chunk.
  lemma LastAppend(s: string, c: string, k: nat)
    ensures Last(Last(s, k) + c, k) == Last(s + c, k)
  {
  }

  // The three ways a chunk can fit.
  lemma KeptParts(s: string, c: string, keep: nat)
    requires |s| <= keep
    ensures |c| >= keep ==> Last(s + c, keep) == c[|c| - keep..]
    ensures |c| < keep < |s| + |c| ==> Last(s + c, keep) == s[|s| + |c| - keep..] + c
    ensures |s| + |c| <= keep ==> Last(s + c, keep) == s + c
  {
  }

  // memmove towards the front.
  method MoveDown(out: array<char>, from: nat, n: nat)
    requires from + n <= out.Length
    modifies out
    ensures out[..n] == old(out[from..from + n])
  {
    var i := 0;
    while i < n
      invariant 0 <= i <= n
      invariant out[..i] == old(out[from..from + i])
      invariant forall k :: i <= k < out.Length ==> out[k] == old(out[k])
    {
      out[i] := out[from + i];
      i := i + 1;
    }
  }

  // memcpy behind what is there.
  method Append(out: array<char>, total: nat, chunk: string)
    requires total + |chunk| < out.Length
    modifies out
    ensures out[..total + |chunk|] == old(out[..total]) + chunk && out[total + |chunk|] == '\0'
  {
    var i := 0;
    while i < |chunk|
      invariant 0 <= i <= |chunk| && out[..total + i] == old(out[..total]) + chunk[..i]
    {
      out[total + i] := chunk[i];
      i := i + 1;
    }
    out[total + i] := '\0';
  }

  // One chunk read from the channel.
  method TakeChunk(out: array<char>, total: nat, chunk: string) returns (total': nat)
    requires total < out.Length && out.Length > 1
    modifies out
    ensures total' < out.Length && out[total'] == '\0'
    ensures out[..total'] == Last(old(out[..total]) + chunk, out.Length - 1)
  {
    var keep := out.Length - 1;
    KeptParts(out[..total], chunk, keep);
    if |chunk| >= keep {
      Append(out, 0, chunk[|chunk| - keep..]);
      total' := keep;
      assert out[..total'] == chunk[|chunk| - keep..];
    } else if total + |chunk| > keep {
      var drop := total + |chunk| - keep;
      assert out[..total][drop..] == out[drop..total];
      MoveDown(out, drop, total - drop);
      Append(out, total - drop, chunk);
      total' := total - drop + |chunk|;
    } else {
      Append(out, total, chunk);
      total' := total + |chunk|;
    }
  }

  // The read loop of exec_command, for the chunks the channel delivers.
  method Collect(out: array<char>, chunks: seq<string>) returns (total: nat)
    requires out.Length > 1
    modifies out
    ensures total < out.Length && out[total] == '\0' && out[..total] == Last(Printed(chunks), out.Length - 1)
  {
    out[0] := '\0';
    total := 0;
    var i := 0;
    while i < |chunks|
      invariant 0 <= i <= |chunks| && total < out.Length && out[total] == '\0'
      invariant out[..total] == Last(Printed(chunks[..i]), out.Length - 1)
    {
      assert chunks[..i + 1][..i] == chunks[..i];
      LastAppend(Printed(chunks[..i]), chunks[i], out.Length - 1);
      total := TakeChunk(out, total, chunks[i]);
      i := i + 1;
    }
    assert chunks[..i] == chunks;
  }
}
