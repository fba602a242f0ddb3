// Text cut at a separator: lines of a configuration text, entries of a comma list.
// A trailing separator adds no empty part, as in the cursor loops of the C code.

module Splitting {

  // Where the first part of a text ends.
  function Upto<T(==)>(sep: T, text: seq<T>): (n: nat)
    ensures n <= |text| && sep !in text[..n]
    ensures n < |text| ==> text[n] == sep
  {
    if text == [] || text[0] == sep then 0 else 1 + Upto(sep, text[1..])
  }

  // The text behind the first part and its separator.
  function Behind<T(==)>(sep: T, text: seq<T>): seq<T> {
    var n := Upto(sep, text);
    if n < |text| then text[n + 1..] else []
  }

  function Parts<T(==)>(sep: T, text: seq<T>): seq<seq<T>>
    decreases |text|
  {
    if text == [] then [] else [text[..Upto(sep, text)]] + Parts(sep, Behind(sep, text))
  }

  // Parts put together, each followed by the separator.
  function Terminated<T>(sep: T, ps: seq<seq<T>>): seq<T> {
    if ps == [] then [] else ps[0] + [sep] + Terminated(sep, ps[1..])
  }

  ghost predicate NoneHas<T>(sep: T, ps: seq<seq<T>>) {
    forall p :: p in ps ==> sep !in p
  }

  lemma {:induction false} PartsHaveNone<T>(sep: T, text: seq<T>)
    ensures NoneHas(sep, Parts(sep, text))
    decreases |text|
  {
    if text != [] { PartsHaveNone(sep, Behind(sep, text)); }
  }

  lemma {:induction false} UptoAt<T>(sep: T, p: seq<T>, rest: seq<T>)
    requires sep !in p
    ensures Upto(sep, p + [sep] + rest) == |p|
    decreases |p|
  {
    if p != [] {
      assert (p + [sep] + rest)[1..] == p[1..] + [sep] + rest;
      UptoAt(sep, p[1..], rest);
    }
  }

  lemma {:induction false} UptoEnd<T>(sep: T, p: seq<T>)
    requires sep !in p
    ensures Upto(sep, p) == |p|
    decreases |p|
  {
    if p != [] { UptoEnd(sep, p[1..]); }
  }

  // A part in front of a separator.
  lemma FirstPart<T>(sep: T, p: seq<T>, rest: seq<T>)
    requires sep !in p
    ensures Parts(sep, p + [sep] + rest) == [p] + Parts(sep, rest)
  {
    UptoAt(sep, p, rest);
    var text := p + [sep] + rest;
    assert text[..|p|] == p && text[|p| + 1..] == rest;
  }

  // Splitting undoes joining.
  lemma {:induction false} PartsOfTerminated<T>(sep: T, ps: seq<seq<T>>)
    requires NoneHas(sep, ps)
    ensures Parts(sep, Terminated(sep, ps)) == ps
    decreases |ps|
  {
    if ps != [] {
      assert ps[0] in ps;
      PartsOfTerminated(sep, ps[1..]);
      FirstPart(sep, ps[0], Terminated(sep, ps[1..]));
    }
  }

  lemma {:induction false} TerminatedAppend<T>(sep: T, a: seq<seq<T>>, b: seq<seq<T>>)
    ensures Terminated(sep, a + b) == Terminated(sep, a) + Terminated(sep, b)
    decreases |a|
  {
    if a == [] {
      assert a + b == b;
    } else {
      assert (a + b)[1..] == a[1..] + b;
      TerminatedAppend(sep, a[1..], b);
    }
  }

  lemma AppendPart<T>(sep: T, ps: seq<seq<T>>, p: seq<T>)
    ensures Terminated(sep, ps + [p]) == Terminated(sep, ps) + p + [sep]
  {
    TerminatedAppend(sep, ps, [p]);
    assert [p][1..] == [];
    assert Terminated(sep, [p]) == p + [sep];
  }

  lemma OnlyPart<T>(sep: T, p: seq<T>)
    requires sep !in p && p != []
    ensures Parts(sep, p) == [p]
  {
    UptoEnd(sep, p);
    assert p[..|p|] == p;
  }

  // Without the last separator nothing changes, as long as the last part is not empty.
  lemma {:induction false} PartsUnended<T>(sep: T, ps: seq<seq<T>>, last: seq<T>)
    requires NoneHas(sep, ps) && sep !in last && last != []
    ensures Parts(sep, Terminated(sep, ps) + last) == ps + [last]
    decreases |ps|
  {
    if ps == [] {
      OnlyPart(sep, last);
      assert Terminated(sep, ps) + last == last;
    } else {
      assert ps[0] in ps;
      PartsUnended(sep, ps[1..], last);
      FirstPart(sep, ps[0], Terminated(sep, ps[1..]) + last);
      Regroup(ps[0], [sep], Terminated(sep, ps[1..]), last);
      assert [ps[0]] + (ps[1..] + [last]) == ps + [last];
    }
  }

  lemma Regroup<T>(a: seq<T>, b: seq<T>, c: seq<T>, d: seq<T>)
    ensures (a + b + c) + d == a + b + (c + d)
  {
  }
}
