// The regular expressions of the Python code: character classes repeated and put one
// behind the other, matched against a whole text.

module Patterns {
  import opened Common

  datatype Span = Span(low: char, high: char)

  // A class with the least and, if there is one, the largest number of times it is taken.
  datatype Item = Item(spans: seq<Span>, least: nat, most: Option<nat>)

  predicate InSpans(c: char, spans: seq<Span>) {
    spans != [] && (spans[0].low <= c <= spans[0].high || InSpans(c, spans[1..]))
  }

  lemma InFirst(c: char, span: Span, rest: seq<Span>)
    ensures InSpans(c, [span] + rest) <==> span.low <= c <= span.high || InSpans(c, rest)
  {
    assert ([span] + rest)[1..] == rest;
  }

  const UPPER := Span('A', 'Z')
  const SMALL := Span('a', 'z')
  const DIGIT := Span('0', '9')
  const ALNUM := [UPPER, SMALL, DIGIT]

  predicate IsAlnum(c: char) { '0' <= c <= '9' || 'A' <= c <= 'Z' || 'a' <= c <= 'z' }

  predicate Within(c: char, span: Span) { span.low <= c <= span.high }

  lemma AlnumAnd(c: char, more: seq<Span>)
    ensures InSpans(c, ALNUM + more) <==> IsAlnum(c) || InSpans(c, more)
  {
    InFirst(c, DIGIT, more);
    InFirst(c, SMALL, [DIGIT] + more);
    InFirst(c, UPPER, [SMALL] + ([DIGIT] + more));
    assert ALNUM + more == [UPPER] + ([SMALL] + ([DIGIT] + more));
  }

  lemma ThreeSpans(c: char, spans: seq<Span>)
    requires |spans| == 3
    ensures InSpans(c, spans) <==> Within(c, spans[0]) || Within(c, spans[1]) || Within(c, spans[2])
  {
    ThreeMore(c, spans, []);
    assert spans == [spans[0]] + ([spans[1]] + ([spans[2]] + []));
  }

  lemma ThreeMore(c: char, spans: seq<Span>, rest: seq<Span>)
    requires |spans| >= 3
    ensures InSpans(c, [spans[0]] + ([spans[1]] + ([spans[2]] + rest)))
       <==> Within(c, spans[0]) || Within(c, spans[1]) || Within(c, spans[2]) || InSpans(c, rest)
  {
    InFirst(c, spans[2], rest);
    InFirst(c, spans[1], [spans[2]] + rest);
    InFirst(c, spans[0], [spans[1]] + ([spans[2]] + rest));
  }

  lemma SixSpans(c: char, spans: seq<Span>)
    requires |spans| == 6
    ensures InSpans(c, spans) <==>
              || Within(c, spans[0]) || Within(c, spans[1]) || Within(c, spans[2])
              || Within(c, spans[3]) || Within(c, spans[4]) || Within(c, spans[5])
  {
    ThreeMore(c, spans, spans[3..]);
    ThreeSpans(c, spans[3..]);
    assert spans == [spans[0]] + ([spans[1]] + ([spans[2]] + spans[3..]));
  }

  ghost predicate Takes(item: Item, s: string, n: nat) {
    && item.least <= n <= |s| && (item.most.Some? ==> n <= item.most.value)
    && forall c :: c in s[..n] ==> InSpans(c, item.spans)
  }

  // re.fullmatch
  ghost predicate FullMatch(items: seq<Item>, s: string)
    decreases |items|
  {
    if items == [] then s == ""
    else exists n: nat :: Takes(items[0], s, n) && FullMatch(items[1..], s[n..])
  }

  lemma MatchesOne(item: Item, s: string)
    ensures FullMatch([item], s) <==> Takes(item, s, |s|)
  {
    assert [item][1..] == [];
    if Takes(item, s, |s|) {
      assert s[|s|..] == "" && FullMatch([item][1..], s[|s|..]);
    }
  }

  // A class taken once in front of another.
  lemma MatchesTwo(first: Item, rest: Item, s: string)
    requires first.least == 1 && first.most == Some(1)
    ensures FullMatch([first, rest], s) <==> s != "" && InSpans(s[0], first.spans) && Takes(rest, s[1..], |s| - 1)
  {
    assert [first, rest][1..] == [rest];
    if FullMatch([first, rest], s) {
      var n: nat :| Takes(first, s, n) && FullMatch([first, rest][1..], s[n..]);
      assert s[0] in s[..1];
      MatchesOne(rest, s[1..]);
    }
    if s != "" && InSpans(s[0], first.spans) && Takes(rest, s[1..], |s| - 1) {
      MatchesOne(rest, s[1..]);
      assert Takes(first, s, 1) && FullMatch([first, rest][1..], s[1..]);
    }
  }
}
