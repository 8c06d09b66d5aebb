/** Pairing emphasis delimiters (lib/discussion-markdown.js). */
module Emphasis {
  // matchEmphasis, with its capped stack of openers: a simplification of section 6.2 of CommonMark 0.31.2.

  import opened Util
  import opened TagWords

  // n: delimiter characters not consumed yet. opens and closes: the tags it was turned into,
  // in output order.
  datatype Token =
    | Text(v: string)
    | Html(word: seq<Piece>)
    | Delim(ch: char, n: nat, open: bool, close: bool, opens: seq<Tag>, closes: seq<Tag>)

  const MAX_DELIMS: nat := 64

  function OpenWord(tags: seq<Tag>): seq<Piece> {
    if tags == [] then [] else [Open(tags[0])] + OpenWord(tags[1..])
  }

  function CloseWord(tags: seq<Tag>): seq<Piece> {
    if tags == [] then [] else [Close(tags[0])] + CloseWord(tags[1..])
  }

  // What one token renders to.
  function Word(t: Token): seq<Piece> {
    match t
    case Text(v) => Chars(v)
    case Html(word) => word
    case Delim(ch, n, _, _, opens, closes) => CloseWord(closes) + Repeat(ch, n) + OpenWord(opens)
  }

  function Words(ts: seq<Token>): seq<Piece> {
    if ts == [] then [] else Word(ts[0]) + Words(ts[1..])
  }

  // ---- the algorithm on values --------------------------------------------------------

  // pairs: which opener each closer was matched with, in order.
  datatype Pair = Pair(opener: nat, closer: nat)
  datatype Match = Match(ts: seq<Token>, stack: seq<nat>, pairs: seq<Pair>)

  // A delimiter as the scanner makes it, or as matching leaves it: strikes go two at a time.
  predicate StrikesWhole(t: Token) {
    t.Delim? && t.ch == '~' ==> t.n == 0 || t.n == 2
  }

  // Stacked openers come before k, in order, and still have characters.
  ghost predicate Valid(m: Match, k: nat) {
    && k <= |m.ts|
    && (forall i :: 0 <= i < |m.ts| ==> StrikesWhole(m.ts[i]))
    && (forall q :: 0 <= q < |m.stack| ==> m.stack[q] < k && m.ts[m.stack[q]].Delim? && m.ts[m.stack[q]].n > 0 && m.ts[m.stack[q]].open)
    && (forall p, q :: 0 <= p < q < |m.stack| ==> m.stack[p] < m.stack[q])
  }

  // The innermost stacked opener of a character: its place in the stack, or -1.
  function FindOpener(ts: seq<Token>, stack: seq<nat>, ch: char): (at: int)
    requires forall q :: 0 <= q < |stack| ==> stack[q] < |ts| && ts[stack[q]].Delim?
    ensures -1 <= at < |stack|
    ensures at >= 0 ==> ts[stack[at]].ch == ch && ts[stack[at]].n > 0
    ensures forall q :: at < q < |stack| ==> !(ts[stack[q]].ch == ch && ts[stack[q]].n > 0)
  {
    if stack == [] then -1
    else
      var o := ts[stack[|stack| - 1]];
      if o.ch == ch && o.n > 0 then |stack| - 1 else FindOpener(ts, stack[..|stack| - 1], ch)
  }

  function Use(o: Token, d: Token): nat
    requires o.Delim? && d.Delim?
  {
    if d.ch == '~' then 2 else if o.n >= 2 && d.n >= 2 then 2 else 1
  }

  function TagOf(o: Token, d: Token): Tag
    requires o.Delim? && d.Delim?
  {
    if d.ch == '~' then Del else if Use(o, d) == 2 then Strong else Em
  }

  function Consume(o: Token, use: nat, t: Tag): Token
    requires o.Delim? && o.n >= use
  {
    o.(n := o.n - use, opens := [t] + o.opens)
  }

  function ConsumeClose(d: Token, use: nat, t: Tag): Token
    requires d.Delim? && d.n >= use
  {
    d.(n := d.n - use, closes := d.closes + [t])
  }

  // One match of the closer at k with the stacked opener at `at`.
  function MatchOne(m: Match, k: nat, at: nat): Match
    requires Valid(m, k) && k < |m.ts| && m.ts[k].Delim? && m.ts[k].n > 0
    requires at < |m.stack| && m.ts[m.stack[at]].ch == m.ts[k].ch
  {
    var s := m.stack[at];
    var o, d := m.ts[s], m.ts[k];
    var o' := Consume(o, Use(o, d), TagOf(o, d));
    Match(m.ts[s := o'][k := ConsumeClose(d, Use(o, d), TagOf(o, d))],
          if o'.n > 0 then m.stack[..at + 1] else m.stack[..at],
          m.pairs + [Pair(s, k)])
  }

  lemma MatchOneValid(m: Match, k: nat, at: nat)
    requires Valid(m, k) && k < |m.ts| && m.ts[k].Delim? && m.ts[k].n > 0
    requires at < |m.stack| && m.ts[m.stack[at]].ch == m.ts[k].ch
    ensures Valid(MatchOne(m, k, at), k)
  {
    var r, s := MatchOne(m, k, at), m.stack[at];
    forall i | 0 <= i < |r.ts| ensures StrikesWhole(r.ts[i]) {
      assert StrikesWhole(m.ts[i]);
    }
    forall q | 0 <= q < |r.stack|
      ensures r.stack[q] < k && r.ts[r.stack[q]].Delim? && r.ts[r.stack[q]].n > 0 && r.ts[r.stack[q]].open
    {
      assert r.stack[q] == m.stack[q] && (q < at ==> m.stack[q] < s);
    }
  }

  // The while loop of a closer.
  function CloseAll(m: Match, k: nat): (r: Match)
    requires Valid(m, k) && k < |m.ts| && m.ts[k].Delim?
    ensures Valid(r, k) && |r.ts| == |m.ts| && r.ts[k].Delim?
    decreases m.ts[k].n
  {
    if m.ts[k].n == 0 then m
    else
      var at := FindOpener(m.ts, m.stack, m.ts[k].ch);
      if at == -1 then m
      else
        MatchOneValid(m, k, at);
        CloseAll(MatchOne(m, k, at), k)
  }

  // One token of the outer loop.
  function Visit(m: Match, k: nat): (r: Match)
    requires Valid(m, k) && k < |m.ts|
    ensures Valid(r, k + 1) && |r.ts| == |m.ts|
  {
    if !m.ts[k].Delim? then m
    else
      var c := if m.ts[k].close then CloseAll(m, k) else m;
      if c.ts[k].n > 0 && c.ts[k].open && |c.stack| < MAX_DELIMS then c.(stack := c.stack + [k]) else c
  }

  function VisitFrom(m: Match, k: nat): (r: Match)
    requires Valid(m, k)
    ensures Valid(r, |m.ts|) && |r.ts| == |m.ts|
    decreases |m.ts| - k
  {
    if k == |m.ts| then m else VisitFrom(Visit(m, k), k + 1)
  }

  // Tokens as the scanner produces them.
  ghost predicate FreshToken(t: Token) {
    && StrikesWhole(t)
    && (t.Delim? ==> t.opens == [] && t.closes == [])
    && (t.Html? ==> Nested(t.word))
  }

  ghost predicate Fresh(ts: seq<Token>) {
    forall i :: 0 <= i < |ts| ==> FreshToken(ts[i])
  }

  function MatchAll(ts: seq<Token>): Match
    requires Fresh(ts)
  {
    VisitFrom(Match(ts, [], []), 0)
  }

  // ---- the algorithm in place ------------------------------------------------------------

  // The backward search for an opener.
  method SearchOpener(tokens: array<Token>, stack: seq<nat>, ch: char) returns (at: int)
    requires forall q :: 0 <= q < |stack| ==> stack[q] < tokens.Length && tokens[stack[q]].Delim?
    ensures at == FindOpener(tokens[..], stack, ch)
  {
    at := |stack| - 1;
    while at >= 0
      invariant -1 <= at < |stack|
      invariant FindOpener(tokens[..], stack[..at + 1], ch) == FindOpener(tokens[..], stack, ch)
    {
      var o := tokens[stack[at]];
      assert stack[..at + 1][..at] == stack[..at];
      if o.ch == ch && o.n > 0 {
        break;
      }
      at := at - 1;
    }
  }

  // Consume characters of both ends and tag them.
  method MatchInPlace(tokens: array<Token>, k: nat, at: nat, stack0: seq<nat>, ghost pairs0: seq<Pair>)
    returns (stack: seq<nat>, ghost pairs: seq<Pair>)
    requires Valid(Match(tokens[..], stack0, pairs0), k) && k < tokens.Length && tokens[k].Delim? && tokens[k].n > 0
    requires at < |stack0| && tokens[stack0[at]].ch == tokens[k].ch
    modifies tokens
    ensures Match(tokens[..], stack, pairs) == MatchOne(old(Match(tokens[..], stack0, pairs0)), k, at)
  {
    var s := stack0[at];
    var o, d := tokens[s], tokens[k];
    var use, tag := 1, Em;
    if d.ch == '~' {
      use, tag := 2, Del;
    } else if o.n >= 2 && d.n >= 2 {
      use, tag := 2, Strong;
    }
    tokens[s] := o.(n := o.n - use, opens := [tag] + o.opens);
    tokens[k] := d.(n := d.n - use, closes := d.closes + [tag]);
    stack := if o.n - use > 0 then stack0[..at + 1] else stack0[..at];
    pairs := pairs0 + [Pair(s, k)];
  }

  method CloseInPlace(tokens: array<Token>, k: nat, stack0: seq<nat>, ghost pairs0: seq<Pair>)
    returns (stack: seq<nat>, ghost pairs: seq<Pair>)
    requires k < tokens.Length && tokens[k].Delim?
    requires Valid(Match(tokens[..], stack0, pairs0), k)
    modifies tokens
    ensures Match(tokens[..], stack, pairs) == CloseAll(old(Match(tokens[..], stack0, pairs0)), k)
  {
    stack, pairs := stack0, pairs0;
    ghost var start := Match(tokens[..], stack, pairs);
    while tokens[k].n > 0
      invariant tokens[k].Delim? && Valid(Match(tokens[..], stack, pairs), k)
      invariant CloseAll(Match(tokens[..], stack, pairs), k) == CloseAll(start, k)
      decreases tokens[k].n
    {
      var at := SearchOpener(tokens, stack, tokens[k].ch);
      if at == -1 {
        break;
      }
      MatchOneValid(Match(tokens[..], stack, pairs), k, at);
      stack, pairs := MatchInPlace(tokens, k, at, stack, pairs);
    }
  }

  method VisitInPlace(tokens: array<Token>, k: nat, stack0: seq<nat>, ghost pairs0: seq<Pair>)
    returns (stack: seq<nat>, ghost pairs: seq<Pair>)
    requires k < tokens.Length && Valid(Match(tokens[..], stack0, pairs0), k)
    modifies tokens
    ensures Match(tokens[..], stack, pairs) == Visit(old(Match(tokens[..], stack0, pairs0)), k)
  {
    stack, pairs := stack0, pairs0;
    if tokens[k].Delim? {
      if tokens[k].close {
        stack, pairs := CloseInPlace(tokens, k, stack, pairs);
      }
      if tokens[k].n > 0 && tokens[k].open && |stack| < MAX_DELIMS {
        stack := stack + [k];
      }
    }
  }

  method MatchEmphasis(tokens: array<Token>)
    requires Fresh(tokens[..])
    modifies tokens
    ensures tokens[..] == MatchAll(old(tokens[..])).ts
  {
    var stack: seq<nat> := [];
    ghost var pairs: seq<Pair> := [];
    ghost var result := MatchAll(tokens[..]);
    for k := 0 to tokens.Length
      invariant Valid(Match(tokens[..], stack, pairs), k)
      invariant VisitFrom(Match(tokens[..], stack, pairs), k) == result
    {
      stack, pairs := VisitInPlace(tokens, k, stack, pairs);
    }
  }

  // ---- what matching keeps -------------------------------------------------------------------

  // Everything a stacked opener s has already enclosed: its own opening tags, and the
  // tokens from there up to k.
  function Inside(ts: seq<Token>, s: nat, k: nat): seq<Piece>
    requires s < k <= |ts| && ts[s].Delim?
  {
    OpenWord(ts[s].opens) + Words(ts[s + 1..k])
  }

  // The word so far, with some closing tags behind it, is nested, and so is what each
  // stacked opener encloses.
  ghost predicate SuffixesNested(m: Match, k: nat, closing: seq<Piece>) {
    && Valid(m, k)
    && Nested(Words(m.ts[..k]) + closing)
    && forall q :: 0 <= q < |m.stack| ==> Nested(Inside(m.ts, m.stack[q], k) + closing)
  }

  lemma {:induction false} WordsConcat(a: seq<Token>, b: seq<Token>)
    ensures Words(a + b) == Words(a) + Words(b)
  {
    if a == [] {
      assert a + b == b;
    } else {
      assert (a + b)[1..] == a[1..] + b;
      WordsConcat(a[1..], b);
    }
  }

  lemma {:induction false} CloseWordSnoc(tags: seq<Tag>, t: Tag)
    ensures CloseWord(tags + [t]) == CloseWord(tags) + [Close(t)]
  {
    if tags == [] {
      assert [] + [t] == [t] && [t][1..] == [];
    } else {
      assert (tags + [t])[1..] == tags[1..] + [t];
      CloseWordSnoc(tags[1..], t);
    }
  }

  lemma RegroupCut<T>(a: seq<T>, c: seq<T>, r: seq<T>, o: seq<T>, b: seq<T>)
    ensures a + ((c + r + o) + b) == a + c + r + (o + b)
  {
  }

  lemma RegroupAround<T>(lead: seq<T>, w: seq<T>, c: seq<T>, r: seq<T>, inside: seq<T>, closing: seq<T>)
    ensures lead + (w + c + r + inside) + closing == (lead + w + c) + r + (inside + closing)
  {
  }

  lemma RegroupWrapped<T>(lead: seq<T>, w: seq<T>, c: seq<T>, r: seq<T>, t: seq<T>, inside: seq<T>, closing: seq<T>, u: seq<T>)
    ensures lead + (w + c + r + (t + inside)) + (closing + u) == (lead + w + c) + r + (t + (inside + closing) + u)
  {
  }

  lemma RegroupInner<T>(t: seq<T>, inside: seq<T>, closing: seq<T>, u: seq<T>)
    ensures (t + inside) + (closing + u) == t + (inside + closing) + u
  {
  }

  lemma WordsCut(a: seq<Token>, t: Token, b: seq<Token>)
    ensures Words(a + ([t] + b)) == Words(a) + (Word(t) + Words(b))
  {
    WordsConcat(a, [t] + b);
    assert ([t] + b)[1..] == b;
  }

  // A word cut at the token s: what is before its literal characters, then those, its
  // opening tags, and what follows.
  lemma WordsAround(ts: seq<Token>, i: nat, s: nat, k: nat)
    requires i <= s < k <= |ts| && ts[s].Delim?
    ensures Words(ts[i..k]) == Words(ts[i..s]) + CloseWord(ts[s].closes) + Repeat(ts[s].ch, ts[s].n) + Inside(ts, s, k)
  {
    var a, b := ts[i..s], ts[s + 1..k];
    assert ts[i..k] == a + ([ts[s]] + b);
    WordsCut(a, ts[s], b);
    RegroupCut(Words(a), CloseWord(ts[s].closes), Repeat(ts[s].ch, ts[s].n), OpenWord(ts[s].opens), Words(b));
  }

  // After a match the opener encloses one more tag in front.
  lemma InsideAfterMatch(m: Match, k: nat, at: nat)
    requires Valid(m, k) && k < |m.ts| && m.ts[k].Delim? && m.ts[k].n > 0
    requires at < |m.stack| && m.ts[m.stack[at]].ch == m.ts[k].ch
    ensures var (r, s, t) := (MatchOne(m, k, at), m.stack[at], TagOf(m.ts[m.stack[at]], m.ts[k]));
            && Inside(r.ts, s, k) == [Open(t)] + Inside(m.ts, s, k)
            && CloseWord(r.ts[k].closes) == CloseWord(m.ts[k].closes) + [Close(t)]
  {
    var (r, s, t) := (MatchOne(m, k, at), m.stack[at], TagOf(m.ts[m.stack[at]], m.ts[k]));
    var opens := m.ts[s].opens;
    CloseWordSnoc(m.ts[k].closes, t);
    assert r.ts[s + 1..k] == m.ts[s + 1..k];
    assert ([t] + opens)[1..] == opens;
    assert OpenWord([t] + opens) == [Open(t)] + OpenWord(opens);
    var rest := Words(m.ts[s + 1..k]);
    assert ([Open(t)] + OpenWord(opens)) + rest == [Open(t)] + (OpenWord(opens) + rest);
  }

  // The step of the argument: with `inner` enclosed by the opener, consuming characters of
  // the opener and putting tags around `inner` keeps the whole nested.
  lemma WrapKeepsNested(front: seq<Piece>, ch: char, n: nat, n': nat, t: Tag, inner: seq<Piece>)
    requires Nested(front + Repeat(ch, n) + inner) && Nested(inner)
    ensures Nested(front + Repeat(ch, n') + ([Open(t)] + inner + [Close(t)]))
  {
    NestedFront(front + Repeat(ch, n), inner);
    RepeatNested(ch, n);
    NestedFront(front, Repeat(ch, n));
    RepeatNested(ch, n');
    NestedConcat(front, Repeat(ch, n'));
    NestedWrap(t, inner);
    NestedConcat(front + Repeat(ch, n'), [Open(t)] + inner + [Close(t)]);
  }

  // One match, seen from the start i of any enclosing stretch.
  lemma MatchOneAround(m: Match, k: nat, at: nat, lead: seq<Piece>, i: nat)
    requires Valid(m, k) && k < |m.ts| && m.ts[k].Delim? && m.ts[k].n > 0
    requires at < |m.stack| && m.ts[m.stack[at]].ch == m.ts[k].ch
    requires i <= m.stack[at]
    requires Nested(Inside(m.ts, m.stack[at], k) + CloseWord(m.ts[k].closes))
    requires Nested(lead + Words(m.ts[i..k]) + CloseWord(m.ts[k].closes))
    ensures var r := MatchOne(m, k, at);
            Nested(lead + Words(r.ts[i..k]) + CloseWord(r.ts[k].closes))
  {
    var r := MatchOne(m, k, at);
    var s, closing := m.stack[at], CloseWord(m.ts[k].closes);
    var o, n', t := m.ts[s], r.ts[s].n, TagOf(m.ts[s], m.ts[k]);
    var w, c, inside := Words(m.ts[i..s]), CloseWord(o.closes), Inside(m.ts, s, k);
    WordsAround(m.ts, i, s, k);
    RegroupAround(lead, w, c, Repeat(o.ch, o.n), inside, closing);
    WrapKeepsNested(lead + w + c, o.ch, o.n, n', t, inside + closing);
    WordsAround(r.ts, i, s, k);
    InsideAfterMatch(m, k, at);
    assert r.ts[i..s] == m.ts[i..s];
    RegroupWrapped(lead, w, c, Repeat(o.ch, n'), [Open(t)], inside, closing, [Close(t)]);
  }

  lemma MatchOneNested(m: Match, k: nat, at: nat)
    requires k < |m.ts| && m.ts[k].Delim? && m.ts[k].n > 0
    requires SuffixesNested(m, k, CloseWord(m.ts[k].closes))
    requires at < |m.stack| && m.ts[m.stack[at]].ch == m.ts[k].ch
    ensures var r := MatchOne(m, k, at);
            SuffixesNested(r, k, CloseWord(r.ts[k].closes))
  {
    var r := MatchOne(m, k, at);
    MatchOneValid(m, k, at);
    MatchOneAtStart(m, k, at);
    forall q | 0 <= q < |r.stack| ensures Nested(Inside(r.ts, r.stack[q], k) + CloseWord(r.ts[k].closes)) {
      MatchOneAtOpener(m, k, at, q);
    }
  }

  lemma MatchOneAtStart(m: Match, k: nat, at: nat)
    requires k < |m.ts| && m.ts[k].Delim? && m.ts[k].n > 0
    requires SuffixesNested(m, k, CloseWord(m.ts[k].closes))
    requires at < |m.stack| && m.ts[m.stack[at]].ch == m.ts[k].ch
    ensures var r := MatchOne(m, k, at);
            Nested(Words(r.ts[..k]) + CloseWord(r.ts[k].closes))
  {
    var r := MatchOne(m, k, at);
    assert m.ts[..k] == m.ts[0..k] && r.ts[..k] == r.ts[0..k];
    assert [] + Words(m.ts[0..k]) == Words(m.ts[0..k]) && [] + Words(r.ts[0..k]) == Words(r.ts[0..k]);
    MatchOneAround(m, k, at, [], 0);
  }

  lemma MatchOneAtOpener(m: Match, k: nat, at: nat, q: nat)
    requires Valid(m, k) && k < |m.ts| && m.ts[k].Delim? && m.ts[k].n > 0
    requires q <= at < |m.stack| && m.ts[m.stack[at]].ch == m.ts[k].ch
    requires Nested(Inside(m.ts, m.stack[at], k) + CloseWord(m.ts[k].closes))
    requires Nested(Inside(m.ts, m.stack[q], k) + CloseWord(m.ts[k].closes))
    ensures var r := MatchOne(m, k, at);
            Nested(Inside(r.ts, m.stack[q], k) + CloseWord(r.ts[k].closes))
  {
    if q < at {
      MatchOneOutside(m, k, at, m.stack[q]);
    } else {
      MatchOneMatched(m, k, at);
    }
  }

  // The matched opener itself.
  lemma MatchOneMatched(m: Match, k: nat, at: nat)
    requires Valid(m, k) && k < |m.ts| && m.ts[k].Delim? && m.ts[k].n > 0
    requires at < |m.stack| && m.ts[m.stack[at]].ch == m.ts[k].ch
    requires Nested(Inside(m.ts, m.stack[at], k) + CloseWord(m.ts[k].closes))
    ensures Nested(Inside(MatchOne(m, k, at).ts, m.stack[at], k) + CloseWord(MatchOne(m, k, at).ts[k].closes))
  {
    var s, r := m.stack[at], MatchOne(m, k, at);
    InsideAfterMatch(m, k, at);
    WrapOutside(TagOf(m.ts[s], m.ts[k]), Inside(m.ts, s, k), CloseWord(m.ts[k].closes), Inside(r.ts, s, k), CloseWord(r.ts[k].closes));
  }

  // An opener outside the matched one.
  lemma MatchOneOutside(m: Match, k: nat, at: nat, p: nat)
    requires Valid(m, k) && k < |m.ts| && m.ts[k].Delim? && m.ts[k].n > 0
    requires at < |m.stack| && m.ts[m.stack[at]].ch == m.ts[k].ch
    requires p < m.stack[at] && m.ts[p].Delim?
    requires Nested(Inside(m.ts, m.stack[at], k) + CloseWord(m.ts[k].closes))
    requires Nested(Inside(m.ts, p, k) + CloseWord(m.ts[k].closes))
    ensures var r := MatchOne(m, k, at);
            r.ts[p].Delim? && Nested(Inside(r.ts, p, k) + CloseWord(r.ts[k].closes))
  {
    assert MatchOne(m, k, at).ts[p] == m.ts[p];
    MatchOneAround(m, k, at, OpenWord(m.ts[p].opens), p + 1);
  }

  lemma WrapOutside(t: Tag, inside: seq<Piece>, closing: seq<Piece>, inside': seq<Piece>, closing': seq<Piece>)
    requires Nested(inside + closing) && inside' == [Open(t)] + inside && closing' == closing + [Close(t)]
    ensures Nested(inside' + closing')
  {
    NestedWrap(t, inside + closing);
    RegroupInner([Open(t)], inside, closing, [Close(t)]);
  }

  lemma {:induction false} CloseAllNested(m: Match, k: nat)
    requires k < |m.ts| && m.ts[k].Delim?
    requires SuffixesNested(m, k, CloseWord(m.ts[k].closes))
    ensures SuffixesNested(CloseAll(m, k), k, CloseWord(CloseAll(m, k).ts[k].closes))
    decreases m.ts[k].n
  {
    if m.ts[k].n > 0 {
      var at := FindOpener(m.ts, m.stack, m.ts[k].ch);
      if at != -1 {
        MatchOneValid(m, k, at);
        MatchOneNested(m, k, at);
        CloseAllNested(MatchOne(m, k, at), k);
      }
    }
  }

  // Tokens from k on are as the scanner made them.
  ghost predicate FreshFrom(ts: seq<Token>, k: nat) {
    k <= |ts| && Fresh(ts[k..])
  }

  lemma {:induction false} CloseAllLeavesRest(m: Match, k: nat)
    requires Valid(m, k) && k < |m.ts| && m.ts[k].Delim?
    ensures var r := CloseAll(m, k);
            && r.ts[k + 1..] == m.ts[k + 1..]
            && r.ts[k].opens == m.ts[k].opens
    decreases m.ts[k].n
  {
    if m.ts[k].n > 0 {
      var at := FindOpener(m.ts, m.stack, m.ts[k].ch);
      if at != -1 {
        MatchOneValid(m, k, at);
        CloseAllLeavesRest(MatchOne(m, k, at), k);
      }
    }
  }

  lemma WordsSnoc(ts: seq<Token>, i: nat, k: nat)
    requires i <= k < |ts|
    ensures Words(ts[i..k + 1]) == Words(ts[i..k]) + Word(ts[k])
  {
    assert ts[i..k + 1] == ts[i..k] + [ts[k]];
    WordsConcat(ts[i..k], [ts[k]]);
    assert [ts[k]][1..] == [];
    assert Words([ts[k]]) == Word(ts[k]) + [];
  }

  lemma RegroupAdvance<T>(lead: seq<T>, w: seq<T>, done: seq<T>, rest: seq<T>)
    ensures lead + (w + (done + rest)) + [] == (lead + w + done) + rest
  {
  }

  // Reading the token k, of which `done` was read already, keeps a stretch nested.
  lemma AdvanceOne(ts: seq<Token>, lead: seq<Piece>, i: nat, k: nat, done: seq<Piece>, rest: seq<Piece>)
    requires i <= k < |ts| && Word(ts[k]) == done + rest && Nested(rest)
    requires Nested(lead + Words(ts[i..k]) + done)
    ensures Nested(lead + Words(ts[i..k + 1]) + [])
  {
    WordsSnoc(ts, i, k);
    RegroupAdvance(lead, Words(ts[i..k]), done, rest);
    NestedConcat(lead + Words(ts[i..k]) + done, rest);
  }

  lemma AdvanceNested(m: Match, k: nat, done: seq<Piece>, rest: seq<Piece>)
    requires k < |m.ts| && Word(m.ts[k]) == done + rest && Nested(rest)
    requires SuffixesNested(m, k, done)
    ensures SuffixesNested(m, k + 1, [])
  {
    assert m.ts[0..k] == m.ts[..k] && m.ts[0..k + 1] == m.ts[..k + 1];
    assert [] + Words(m.ts[0..k]) == Words(m.ts[..k]) && [] + Words(m.ts[0..k + 1]) == Words(m.ts[..k + 1]);
    AdvanceOne(m.ts, [], 0, k, done, rest);
    forall q | 0 <= q < |m.stack| ensures Nested(Inside(m.ts, m.stack[q], k + 1) + []) {
      var p := m.stack[q];
      AdvanceOne(m.ts, OpenWord(m.ts[p].opens), p + 1, k, done, rest);
    }
  }

  lemma VisitDelimNested(m: Match, k: nat)
    requires k < |m.ts| && SuffixesNested(m, k, []) && m.ts[k].Delim? && m.ts[k].opens == [] && m.ts[k].closes == []
    ensures SuffixesNested(Visit(m, k), k + 1, [])
  {
    assert CloseWord(m.ts[k].closes) == [];
    var c := if m.ts[k].close then CloseAll(m, k) else m;
    if m.ts[k].close {
      CloseAllNested(m, k);
      CloseAllLeavesRest(m, k);
    }
    var d := c.ts[k];
    RepeatNested(d.ch, d.n);
    assert Word(d) == CloseWord(d.closes) + Repeat(d.ch, d.n) + [];
    assert Word(d) == CloseWord(d.closes) + Repeat(d.ch, d.n);
    AdvanceNested(c, k, CloseWord(d.closes), Repeat(d.ch, d.n));
    assert c.ts[k + 1..k + 1] == [];
    assert Inside(c.ts, k, k + 1) + [] == [];
  }

  lemma VisitNested(m: Match, k: nat)
    requires k < |m.ts| && SuffixesNested(m, k, []) && FreshFrom(m.ts, k)
    ensures SuffixesNested(Visit(m, k), k + 1, [])
  {
    var t := m.ts[k];
    assert t == m.ts[k..][0];
    if t.Delim? {
      VisitDelimNested(m, k);
    } else {
      if t.Text? {
        CharsNested(t.v);
      }
      assert Word(t) == [] + Word(t);
      AdvanceNested(m, k, [], Word(t));
    }
  }

  lemma VisitLeavesRest(m: Match, k: nat)
    requires k < |m.ts| && Valid(m, k) && FreshFrom(m.ts, k)
    ensures FreshFrom(Visit(m, k).ts, k + 1)
  {
    if m.ts[k].Delim? && m.ts[k].close {
      CloseAllLeavesRest(m, k);
    }
    FreshTail(m.ts, k);
  }

  lemma FreshTail(ts: seq<Token>, k: nat)
    requires k < |ts| && FreshFrom(ts, k)
    ensures FreshFrom(ts, k + 1)
  {
    assert ts[k..][1..] == ts[k + 1..];
  }

  lemma {:induction false} VisitFromNested(m: Match, k: nat)
    requires SuffixesNested(m, k, []) && FreshFrom(m.ts, k)
    ensures SuffixesNested(VisitFrom(m, k), |m.ts|, [])
    decreases |m.ts| - k
  {
    if k < |m.ts| {
      VisitNested(m, k);
      VisitLeavesRest(m, k);
      VisitFromNested(Visit(m, k), k + 1);
    }
  }

  // NESTED: whatever the delimiters, the rendered word is properly nested, and so is what
  // every opener still on the stack encloses.
  lemma MatchAllNested(ts: seq<Token>)
    requires Fresh(ts)
    ensures Nested(Words(MatchAll(ts).ts))
    ensures forall q :: 0 <= q < |MatchAll(ts).stack| ==> Nested(Inside(MatchAll(ts).ts, MatchAll(ts).stack[q], |ts|))
  {
    assert ts[..0] == [] && ts[0..] == ts;
    VisitFromNested(Match(ts, [], []), 0);
    var r := MatchAll(ts);
    assert r.ts[..|ts|] == r.ts && Words(r.ts) + [] == Words(r.ts);
    forall q | 0 <= q < |r.stack| ensures Nested(Inside(r.ts, r.stack[q], |ts|)) {
      assert Inside(r.ts, r.stack[q], |ts|) + [] == Inside(r.ts, r.stack[q], |ts|);
    }
  }

  // ---- nothing is lost ------------------------------------------------------------------------

  function TagSize(t: Tag): nat {
    if t == Em then 1 else if t == Anchor then 0 else 2
  }

  function TagSizes(tags: seq<Tag>): nat {
    if tags == [] then 0 else TagSize(tags[0]) + TagSizes(tags[1..])
  }

  // Delimiter characters of a token: shown literally, or turned into tags.
  function Weight(t: Token): nat
    requires t.Delim?
  {
    t.n + TagSizes(t.opens) + TagSizes(t.closes)
  }

  predicate SameToken(a: Token, b: Token) {
    if a.Delim? then b.Delim? && b.ch == a.ch && b.open == a.open && b.close == a.close && Weight(b) == Weight(a)
    else b == a
  }

  ghost predicate SameTokens(a: seq<Token>, b: seq<Token>) {
    |a| == |b| && forall i :: 0 <= i < |a| ==> SameToken(a[i], b[i])
  }

  lemma {:induction false} TagSizesSnoc(tags: seq<Tag>, t: Tag)
    ensures TagSizes(tags + [t]) == TagSizes(tags) + TagSize(t)
    ensures TagSizes([t] + tags) == TagSize(t) + TagSizes(tags)
  {
    assert ([t] + tags)[1..] == tags;
    if tags == [] {
      assert [] + [t] == [t] && [t][1..] == [];
    } else {
      assert (tags + [t])[1..] == tags[1..] + [t];
      TagSizesSnoc(tags[1..], t);
    }
  }

  lemma MatchOneConserves(m: Match, k: nat, at: nat)
    requires Valid(m, k) && k < |m.ts| && m.ts[k].Delim? && m.ts[k].n > 0
    requires at < |m.stack| && m.ts[m.stack[at]].ch == m.ts[k].ch
    ensures SameTokens(m.ts, MatchOne(m, k, at).ts)
  {
    var s := m.stack[at];
    var t := TagOf(m.ts[s], m.ts[k]);
    TagSizesSnoc(m.ts[s].opens, t);
    TagSizesSnoc(m.ts[k].closes, t);
  }

  lemma {:induction false} CloseAllConserves(m: Match, k: nat)
    requires Valid(m, k) && k < |m.ts| && m.ts[k].Delim?
    ensures SameTokens(m.ts, CloseAll(m, k).ts)
    decreases m.ts[k].n
  {
    if m.ts[k].n > 0 {
      var at := FindOpener(m.ts, m.stack, m.ts[k].ch);
      if at != -1 {
        MatchOneValid(m, k, at);
        MatchOneConserves(m, k, at);
        CloseAllConserves(MatchOne(m, k, at), k);
      }
    }
  }

  lemma {:induction false} VisitFromConserves(m: Match, k: nat)
    requires Valid(m, k)
    ensures SameTokens(m.ts, VisitFrom(m, k).ts)
    decreases |m.ts| - k
  {
    if k < |m.ts| {
      if m.ts[k].Delim? && m.ts[k].close {
        CloseAllConserves(m, k);
      }
      VisitFromConserves(Visit(m, k), k + 1);
    }
  }

  // CONSERVED: for every run, the characters shown plus those its tags stand for (one for
  // em, two for strong and del) are the characters it had.
  lemma MatchAllConserves(ts: seq<Token>, i: nat)
    requires Fresh(ts) && i < |ts|
    ensures SameToken(ts[i], MatchAll(ts).ts[i])
    ensures ts[i].Delim? ==> Weight(MatchAll(ts).ts[i]) == ts[i].n
  {
    VisitFromConserves(Match(ts, [], []), 0);
  }

  // ---- which tags ------------------------------------------------------------------------------

  // Tildes make del elements only, stars and underscores em and strong ones only.
  predicate TagsFit(t: Token) {
    t.Delim? ==>
      && (forall g :: g in t.opens ==> if t.ch == '~' then g == Del else g in {Em, Strong})
      && (forall g :: g in t.closes ==> if t.ch == '~' then g == Del else g in {Em, Strong})
  }

  ghost predicate AllTagsFit(ts: seq<Token>) {
    forall i :: 0 <= i < |ts| ==> TagsFit(ts[i])
  }

  lemma MatchOneTags(m: Match, k: nat, at: nat)
    requires Valid(m, k) && k < |m.ts| && m.ts[k].Delim? && m.ts[k].n > 0
    requires at < |m.stack| && m.ts[m.stack[at]].ch == m.ts[k].ch
    requires AllTagsFit(m.ts)
    ensures AllTagsFit(MatchOne(m, k, at).ts)
  {
    assert TagsFit(m.ts[k]) && TagsFit(m.ts[m.stack[at]]);
  }

  lemma {:induction false} CloseAllTags(m: Match, k: nat)
    requires Valid(m, k) && k < |m.ts| && m.ts[k].Delim? && AllTagsFit(m.ts)
    ensures AllTagsFit(CloseAll(m, k).ts)
    decreases m.ts[k].n
  {
    if m.ts[k].n > 0 {
      var at := FindOpener(m.ts, m.stack, m.ts[k].ch);
      if at != -1 {
        MatchOneValid(m, k, at);
        MatchOneTags(m, k, at);
        CloseAllTags(MatchOne(m, k, at), k);
      }
    }
  }

  lemma {:induction false} VisitFromTags(m: Match, k: nat)
    requires Valid(m, k) && AllTagsFit(m.ts)
    ensures AllTagsFit(VisitFrom(m, k).ts)
    decreases |m.ts| - k
  {
    if k < |m.ts| {
      if m.ts[k].Delim? && m.ts[k].close {
        CloseAllTags(m, k);
      }
      VisitFromTags(Visit(m, k), k + 1);
    }
  }

  lemma {:induction false} VisitFromCapped(m: Match, k: nat)
    requires Valid(m, k) && |m.stack| <= MAX_DELIMS
    ensures |VisitFrom(m, k).stack| <= MAX_DELIMS
    decreases |m.ts| - k
  {
    if k < |m.ts| {
      if m.ts[k].Delim? && m.ts[k].close {
        CloseAllShrinks(m, k);
      }
      VisitFromCapped(Visit(m, k), k + 1);
    }
  }

  lemma {:induction false} CloseAllShrinks(m: Match, k: nat)
    requires Valid(m, k) && k < |m.ts| && m.ts[k].Delim?
    ensures |CloseAll(m, k).stack| <= |m.stack|
    decreases m.ts[k].n
  {
    if m.ts[k].n > 0 {
      var at := FindOpener(m.ts, m.stack, m.ts[k].ch);
      if at != -1 {
        MatchOneValid(m, k, at);
        CloseAllShrinks(MatchOne(m, k, at), k);
      }
    }
  }

  // CAPPED: no more openers than the cap are ever waiting, whatever the delimiters.
  lemma MatchAllCapped(ts: seq<Token>, k: nat)
    requires Fresh(ts) && k <= |ts|
    ensures |MatchAll(ts).stack| <= MAX_DELIMS
  {
    assert forall i :: 0 <= i < |ts| ==> FreshToken(ts[i]);
    VisitFromCapped(Match(ts, [], []), 0);
  }

  // TAGS: with the sizes above this fixes each tag: del stands for two tildes, strong for two and em for one of the
  // others.
  lemma MatchAllTags(ts: seq<Token>)
    requires Fresh(ts)
    ensures AllTagsFit(MatchAll(ts).ts)
  {
    assert forall i :: 0 <= i < |ts| ==> FreshToken(ts[i]);
    VisitFromTags(Match(ts, [], []), 0);
  }

  // The tags of n characters matched with n: an em for an odd one, outside, and strong ones.
  function TagsFor(n: nat): seq<Tag> {
    if n == 0 then [] else if n == 1 then [Em] else TagsFor(n - 2) + [Strong]
  }

  function ClosesFor(n: nat): seq<Tag> {
    if n == 0 then [] else if n == 1 then [Em] else [Strong] + ClosesFor(n - 2)
  }

  // Two runs around a token, the first stacked.
  ghost predicate Around(m: Match, o: Token, t: Token, d: Token) {
    && m.ts == [o, t, d] && o.Delim? && d.Delim? && o.ch == d.ch && o.ch in "*_"
    && o.open && o.n > 0 && m.stack == [0]
  }

  function MatchedOpener(o: Token, d: Token): Token
    requires o.Delim? && d.Delim?
  {
    o.(n := o.n - Min(o.n, d.n), opens := TagsFor(Min(o.n, d.n)) + o.opens)
  }

  function MatchedCloser(o: Token, d: Token): Token
    requires o.Delim? && d.Delim?
  {
    d.(n := d.n - Min(o.n, d.n), closes := d.closes + ClosesFor(Min(o.n, d.n)))
  }

  lemma MatchAround(m: Match, o: Token, t: Token, d: Token)
    requires Around(m, o, t, d) && d.n > 0 && Valid(m, 2)
    ensures FindOpener(m.ts, m.stack, d.ch) == 0
    ensures
      var use := if o.n >= 2 && d.n >= 2 then 2 else 1;
      var tag := if use == 2 then Strong else Em;
      var r := MatchOne(m, 2, 0);
      && r.ts == [o.(n := o.n - use, opens := [tag] + o.opens), t, d.(n := d.n - use, closes := d.closes + [tag])]
      && r.stack == if o.n > use then [0] else []
  {
    assert m.stack[..0] == [] && m.stack[..1] == [0];
  }

  lemma {:induction false} CloseAround(m: Match, o: Token, t: Token, d: Token)
    requires Around(m, o, t, d) && Valid(m, 2)
    ensures CloseAll(m, 2).ts == [MatchedOpener(o, d), t, MatchedCloser(o, d)]
    decreases d.n
  {
    if d.n == 0 {
      NoneMatched(o, d);
    } else {
      var r := CloseStep(m, o, t, d);
      var o', d' := r.ts[0], r.ts[2];
      if o'.n > 0 {
        CloseAround(r, o', t, d');
      } else {
        CloseStops(r, 2);
        NoneMatched(o', d');
      }
      TagsTogether(o, d, o', d');
    }
  }

  // One match of the two runs.
  lemma CloseStep(m: Match, o: Token, t: Token, d: Token) returns (r: Match)
    requires Around(m, o, t, d) && Valid(m, 2) && d.n > 0
    ensures Valid(r, 2) && |r.ts| == 3 && r.ts[2].Delim? && CloseAll(m, 2) == CloseAll(r, 2)
    ensures
      var use := if o.n >= 2 && d.n >= 2 then 2 else 1;
      var tag := if use == 2 then Strong else Em;
      && r.ts == [o.(n := o.n - use, opens := [tag] + o.opens), t, d.(n := d.n - use, closes := d.closes + [tag])]
      && r.stack == if o.n > use then [0] else []
  {
    MatchAround(m, o, t, d);
    MatchOneValid(m, 2, 0);
    r := MatchOne(m, 2, 0);
  }

  lemma NoneMatched(o: Token, d: Token)
    requires o.Delim? && d.Delim? && (o.n == 0 || d.n == 0)
    ensures MatchedOpener(o, d) == o && MatchedCloser(o, d) == d
  {
    assert [] + o.opens == o.opens && d.closes + [] == d.closes;
  }

  lemma CloseStops(m: Match, k: nat)
    requires Valid(m, k) && k < |m.ts| && m.ts[k].Delim? && m.stack == []
    ensures CloseAll(m, k) == m
  {
  }

  lemma TagsTogether(o: Token, d: Token, o': Token, d': Token)
    requires o.Delim? && d.Delim? && o.n > 0 && d.n > 0
    requires var use := if o.n >= 2 && d.n >= 2 then 2 else 1;
             var tag := if use == 2 then Strong else Em;
             o' == o.(n := o.n - use, opens := [tag] + o.opens) && d' == d.(n := d.n - use, closes := d.closes + [tag])
    ensures MatchedOpener(o', d') == MatchedOpener(o, d) && MatchedCloser(o', d') == MatchedCloser(o, d)
  {
    var n := Min(o.n, d.n);
    if n >= 2 {
      assert TagsFor(n - 2) + ([Strong] + o.opens) == TagsFor(n - 2) + [Strong] + o.opens;
      assert (d.closes + [Strong]) + ClosesFor(n - 2) == d.closes + ([Strong] + ClosesFor(n - 2));
    } else {
      assert [] + ([Em] + o.opens) == [Em] + o.opens;
      assert (d.closes + [Em]) + [] == d.closes + [Em];
    }
  }

  // A PAIR: a text between a run of a stars or underscores and one of b is inside as many strong elements as pairs of
  // them go into both, and an em one if another is left of each; what is left over shows.
  lemma PairRenders(o: Token, t: Token, d: Token)
    requires Fresh([o, t, d]) && o.Delim? && t.Text? && d.Delim?
    requires o.ch == d.ch && o.ch in "*_" && o.open && o.n > 0 && d.close
    ensures MatchAll([o, t, d]).ts == [MatchedOpener(o, d), t, MatchedCloser(o, d)]
  {
    PairVisits([o, t, d]);
    CloseAround(Match([o, t, d], [0], []), o, t, d);
  }

  // The three visits: the first run is stacked, the text passed over, the second run closes.
  lemma PairVisits(ts: seq<Token>)
    requires Fresh(ts) && |ts| == 3 && ts[0].Delim? && ts[1].Text? && ts[2].Delim?
    requires ts[0].open && ts[0].n > 0 && ts[2].close
    ensures Valid(Match(ts, [0], []), 2) && MatchAll(ts).ts == CloseAll(Match(ts, [0], []), 2).ts
  {
    var m0, m1 := Match(ts, [], []), Match(ts, [0], []);
    assert Valid(m0, 0);
    if ts[0].close {
      CloseStops(m0, 0);
    }
    assert Visit(m0, 0) == m1;
    assert Valid(m1, 1) && Valid(m1, 2);
    VisitFromStep(m0, 0);
    VisitFromStep(m1, 1);
    VisitFromStep(m1, 2);
  }

  lemma VisitFromStep(m: Match, k: nat)
    requires Valid(m, k) && k < |m.ts|
    ensures VisitFrom(m, k) == VisitFrom(Visit(m, k), k + 1)
    ensures k == |m.ts| - 1 ==> VisitFrom(m, k) == Visit(m, k)
  {
  }

  // ---- nothing is missed -------------------------------------------------------------------------

  // Opening delimiters before position i.
  function Openers(ts: seq<Token>, i: nat): nat
    requires i <= |ts|
  {
    if i == 0 then 0 else Openers(ts, i - 1) + if ts[i - 1].Delim? && ts[i - 1].open then 1 else 0
  }

  // A match that closed across the opener i, before the closer j.
  ghost predicate Crossed(pairs: seq<Pair>, i: nat, j: nat) {
    exists p :: p in pairs && p.opener < i < p.closer < j
  }

  // Why a delimiter i before k with characters left is not on the stack.
  ghost predicate OffStack(m: Match, i: nat, k: nat)
    requires i < |m.ts|
  {
    m.ts[i].Delim? && m.ts[i].open && m.ts[i].n > 0 && i !in m.stack ==>
      Openers(m.ts, i) >= MAX_DELIMS || Crossed(m.pairs, i, k)
  }

  // Two delimiters of one character, both with characters left, that could have been paired.
  ghost predicate Unpaired(m: Match, i: nat, j: nat)
    requires i < j < |m.ts|
  {
    && m.ts[i].Delim? && m.ts[j].Delim? && m.ts[i].ch == m.ts[j].ch
    && m.ts[i].open && m.ts[j].close && m.ts[i].n > 0 && m.ts[j].n > 0
  }

  ghost predicate Excused(m: Match, i: nat, j: nat)
    requires i < j < |m.ts|
  {
    Unpaired(m, i, j) ==> Openers(m.ts, i) >= MAX_DELIMS || Crossed(m.pairs, i, j)
  }

  ghost predicate NoneMissed(m: Match, k: nat)
    requires k <= |m.ts|
  {
    && (forall i: nat :: i < k ==> OffStack(m, i, k))
    && (forall i: nat, j: nat :: i < j < k ==> Excused(m, i, j))
    && |m.stack| <= Openers(m.ts, k)
  }

  // Every recorded match joins an opener to a later closer of its own character.
  ghost predicate PairsSound(m: Match) {
    forall p :: p in m.pairs ==>
      && p.opener < p.closer < |m.ts| && m.ts[p.opener].Delim? && m.ts[p.closer].Delim?
      && m.ts[p.opener].ch == m.ts[p.closer].ch && m.ts[p.opener].open && m.ts[p.closer].close
  }

  // A match of the closer k across the opener i.
  ghost predicate Across(pairs: seq<Pair>, i: nat, k: nat) {
    exists p :: p in pairs && p.opener < i < p.closer && p.closer == k
  }

  // A stacked opener that goes while it still has characters is of another character
  // than the closer, and is crossed.
  ghost predicate Discarded(m: Match, r: Match, k: nat, i: nat) {
    i in m.stack && i !in r.stack && i < |r.ts| && r.ts[i].Delim? && r.ts[i].n > 0 ==>
      k < |r.ts| && r.ts[k].Delim? && r.ts[i].ch != r.ts[k].ch && Across(r.pairs, i, k)
  }

  // What the loop of the closer k does to the stack and to the counts.
  ghost predicate Closed(m: Match, r: Match, k: nat) {
    && SameTokens(m.ts, r.ts) && k < |m.ts|
    && r.stack <= m.stack && m.pairs <= r.pairs
    && (forall i :: 0 <= i < |m.ts| && m.ts[i].Delim? && r.ts[i].Delim? ==> r.ts[i].n <= m.ts[i].n)
    && (forall i: nat :: Discarded(m, r, k, i))
  }

  lemma MatchOneDiscards(m: Match, k: nat, at: nat, i: nat)
    requires Valid(m, k) && k < |m.ts| && m.ts[k].Delim? && m.ts[k].n > 0
    requires at == FindOpener(m.ts, m.stack, m.ts[k].ch)
    ensures Discarded(m, MatchOne(m, k, at), k, i)
  {
    var r := MatchOne(m, k, at);
    if i in m.stack && i !in r.stack && r.ts[i].n > 0 {
      var q :| at < q < |m.stack| && m.stack[q] == i;
      assert r.pairs[|m.pairs|] == Pair(m.stack[at], k);
    }
  }

  lemma MatchOneCloses(m: Match, k: nat, at: nat)
    requires Valid(m, k) && k < |m.ts| && m.ts[k].Delim? && m.ts[k].n > 0
    requires at == FindOpener(m.ts, m.stack, m.ts[k].ch)
    ensures Closed(m, MatchOne(m, k, at), k)
  {
    MatchOneConserves(m, k, at);
    forall i: nat ensures Discarded(m, MatchOne(m, k, at), k, i) {
      MatchOneDiscards(m, k, at, i);
    }
  }

  lemma ClosedTransitive(a: Match, b: Match, c: Match, k: nat)
    requires Closed(a, b, k) && Closed(b, c, k)
    ensures Closed(a, c, k)
  {
    forall i | 0 <= i < |a.ts| ensures SameToken(a.ts[i], c.ts[i]) {
      assert SameToken(a.ts[i], b.ts[i]) && SameToken(b.ts[i], c.ts[i]);
    }
    forall i: nat ensures Discarded(a, c, k, i) {
      assert Discarded(a, b, k, i) && Discarded(b, c, k, i);
      if i in a.stack && i !in c.stack && i !in b.stack && i < |c.ts| && c.ts[i].Delim? && c.ts[i].n > 0 {
        assert SameToken(b.ts[i], c.ts[i]) && SameToken(b.ts[k], c.ts[k]);
        var p :| p in b.pairs && p.opener < i < p.closer && p.closer == k;
        assert p in c.pairs;
      }
    }
  }

  lemma {:induction false} CloseAllCloses(m: Match, k: nat)
    requires Valid(m, k) && k < |m.ts| && m.ts[k].Delim?
    ensures Closed(m, CloseAll(m, k), k)
    ensures var r := CloseAll(m, k); r.ts[k].n == 0 || FindOpener(r.ts, r.stack, r.ts[k].ch) == -1
    decreases m.ts[k].n
  {
    if m.ts[k].n > 0 {
      var at := FindOpener(m.ts, m.stack, m.ts[k].ch);
      if at != -1 {
        MatchOneValid(m, k, at);
        MatchOneCloses(m, k, at);
        var b := MatchOne(m, k, at);
        CloseAllCloses(b, k);
        ClosedTransitive(m, b, CloseAll(b, k), k);
      } else {
        ClosedReflexive(m, k);
      }
    } else {
      ClosedReflexive(m, k);
    }
  }

  lemma ClosedReflexive(m: Match, k: nat)
    requires k < |m.ts|
    ensures Closed(m, m, k)
  {
  }

  lemma {:induction false} CloseAllPairsSound(m: Match, k: nat)
    requires Valid(m, k) && k < |m.ts| && m.ts[k].Delim? && m.ts[k].close && PairsSound(m)
    ensures PairsSound(CloseAll(m, k))
    decreases m.ts[k].n
  {
    if m.ts[k].n > 0 {
      var at := FindOpener(m.ts, m.stack, m.ts[k].ch);
      if at != -1 {
        MatchOneValid(m, k, at);
        CloseAllPairsSound(MatchOne(m, k, at), k);
      }
    }
  }

  lemma {:induction false} OpenersSame(a: seq<Token>, b: seq<Token>, i: nat)
    requires SameTokens(a, b) && i <= |a|
    ensures Openers(a, i) == Openers(b, i)
  {
    if i > 0 {
      OpenersSame(a, b, i - 1);
      assert SameToken(a[i - 1], b[i - 1]);
    }
  }

  // The state of a visit after its closer loop, before k may be pushed.
  function AfterClose(m: Match, k: nat): Match
    requires Valid(m, k) && k < |m.ts|
  {
    if m.ts[k].Delim? && m.ts[k].close then CloseAll(m, k) else m
  }

  lemma CrossedLater(pairs: seq<Pair>, pairs': seq<Pair>, i: nat, j: nat, j': nat)
    requires pairs <= pairs' && j <= j'
    ensures Crossed(pairs, i, j) ==> Crossed(pairs', i, j')
  {
    if Crossed(pairs, i, j) {
      var p :| p in pairs && p.opener < i < p.closer < j;
      assert p in pairs';
    }
  }

  lemma AcrossCrosses(pairs: seq<Pair>, i: nat, k: nat)
    requires Across(pairs, i, k)
    ensures Crossed(pairs, i, k + 1)
  {
    var p :| p in pairs && p.opener < i < p.closer && p.closer == k;
    assert p.closer < k + 1;
  }

  lemma AfterCloseFacts(m: Match, k: nat)
    requires Valid(m, k) && k < |m.ts|
    ensures var c := AfterClose(m, k);
      && Valid(c, k) && Closed(m, c, k)
      && (m.ts[k].Delim? && m.ts[k].close ==> c.ts[k].Delim? && (c.ts[k].n == 0 || FindOpener(c.ts, c.stack, c.ts[k].ch) == -1))
  {
    ClosedReflexive(m, k);
    if m.ts[k].Delim? && m.ts[k].close {
      CloseAllCloses(m, k);
    }
  }

  // An earlier delimiter after the closer loop, before k may be pushed.
  lemma OffStackAfterClose(m: Match, c: Match, k: nat, i: nat)
    requires i < k < |m.ts| && OffStack(m, i, k) && Closed(m, c, k)
    ensures OffStack(c, i, k + 1)
  {
    OpenersSame(m.ts, c.ts, i);
    assert SameToken(m.ts[i], c.ts[i]);
    CrossedLater(m.pairs, c.pairs, i, k, k + 1);
    assert Discarded(m, c, k, i);
    if Across(c.pairs, i, k) {
      AcrossCrosses(c.pairs, i, k);
    }
  }

  // Pushing keeps what was on the stack.
  lemma OffStackAfterPush(c: Match, r: Match, i: nat, k: nat)
    requires i < |c.ts| && OffStack(c, i, k) && r.ts == c.ts && r.pairs == c.pairs && c.stack <= r.stack
    ensures OffStack(r, i, k)
  {
    if i in c.stack {
      var q :| 0 <= q < |c.stack| && c.stack[q] == i;
      assert r.stack[q] == i;
    }
  }

  // k itself goes on the stack, unless the stack is full.
  lemma OffStackSelf(m: Match, c: Match, r: Match, k: nat)
    requires k < |m.ts| && SameTokens(m.ts, c.ts) && |m.stack| <= Openers(m.ts, k) && c.stack <= m.stack && r.ts == c.ts
    requires c.ts[k].Delim? && c.ts[k].n > 0 && c.ts[k].open && |c.stack| < MAX_DELIMS ==> r.stack == c.stack + [k]
    ensures OffStack(r, k, k + 1)
  {
    OpenersSame(m.ts, c.ts, k);
    if c.ts[k].Delim? && c.ts[k].n > 0 && c.ts[k].open && |c.stack| < MAX_DELIMS {
      assert r.stack[|c.stack|] == k;
    }
  }

  lemma VisitOffStack(m: Match, k: nat, i: nat)
    requires Valid(m, k) && k < |m.ts| && NoneMissed(m, k) && i <= k
    ensures OffStack(Visit(m, k), i, k + 1)
  {
    AfterCloseFacts(m, k);
    var c, r := AfterClose(m, k), Visit(m, k);
    assert SameToken(m.ts[k], c.ts[k]);
    if i < k {
      assert OffStack(m, i, k);
      OffStackAfterClose(m, c, k, i);
      OffStackAfterPush(c, r, i, k + 1);
    } else {
      OffStackSelf(m, c, r, k);
    }
  }

  lemma ExcusedAfterClose(m: Match, c: Match, k: nat, i: nat, j: nat)
    requires i < j < k < |m.ts| && Excused(m, i, j) && Closed(m, c, k)
    ensures Excused(c, i, j)
  {
    OpenersSame(m.ts, c.ts, i);
    assert SameToken(m.ts[i], c.ts[i]) && SameToken(m.ts[j], c.ts[j]);
    CrossedLater(m.pairs, c.pairs, i, j, j);
  }

  // The closer itself: an earlier opener of its character is excused as it was, or gone.
  lemma CloserExcused(m: Match, c: Match, k: nat, i: nat)
    requires i < k < |m.ts| && OffStack(m, i, k) && Closed(m, c, k) && Valid(c, k)
    requires c.ts[k].Delim? && c.ts[k].close && c.ts[k].n > 0 ==> FindOpener(c.ts, c.stack, c.ts[k].ch) == -1
    ensures Excused(c, i, k)
  {
    if Unpaired(c, i, k) {
      NotStackedAfterClose(c, k, i);
      OpenersSame(m.ts, c.ts, i);
      assert SameToken(m.ts[i], c.ts[i]);
      CrossedLater(m.pairs, c.pairs, i, k, k);
      assert Discarded(m, c, k, i);
    }
  }

  lemma VisitExcused(m: Match, k: nat, i: nat, j: nat)
    requires Valid(m, k) && k < |m.ts| && NoneMissed(m, k) && i < j <= k
    ensures Excused(Visit(m, k), i, j)
  {
    AfterCloseFacts(m, k);
    var c, r := AfterClose(m, k), Visit(m, k);
    assert r.pairs == c.pairs && r.ts == c.ts;
    if j < k {
      assert Excused(m, i, j);
      ExcusedAfterClose(m, c, k, i, j);
    } else {
      assert OffStack(m, i, k) && SameToken(m.ts[k], c.ts[k]);
      CloserExcused(m, c, k, i);
    }
  }

  // When the closer's loop stops short, no opener of its character is on the stack.
  lemma NotStackedAfterClose(c: Match, k: nat, i: nat)
    requires Valid(c, k) && k < |c.ts| && c.ts[k].Delim? && FindOpener(c.ts, c.stack, c.ts[k].ch) == -1
    requires i < k && c.ts[i].Delim? && c.ts[i].ch == c.ts[k].ch && c.ts[i].n > 0
    ensures i !in c.stack
  {
  }

  lemma VisitMissesNone(m: Match, k: nat)
    requires Valid(m, k) && k < |m.ts| && NoneMissed(m, k) && PairsSound(m)
    ensures NoneMissed(Visit(m, k), k + 1) && PairsSound(Visit(m, k))
  {
    var r, next := Visit(m, k), k + 1;
    forall i: nat | i < next ensures OffStack(r, i, next) {
      VisitOffStack(m, k, i);
    }
    forall i: nat, j: nat | i < j < next ensures Excused(r, i, j) {
      VisitExcused(m, k, i, j);
    }
    VisitStackBounded(m, k);
    if m.ts[k].Delim? && m.ts[k].close {
      CloseAllPairsSound(m, k);
    }
  }

  lemma VisitStackBounded(m: Match, k: nat)
    requires Valid(m, k) && k < |m.ts| && |m.stack| <= Openers(m.ts, k)
    ensures |Visit(m, k).stack| <= Openers(Visit(m, k).ts, k + 1)
  {
    AfterCloseFacts(m, k);
    OpenersSame(m.ts, Visit(m, k).ts, k);
    assert SameToken(m.ts[k], Visit(m, k).ts[k]);
  }

  lemma {:induction false} VisitFromMissesNone(m: Match, k: nat)
    requires Valid(m, k) && NoneMissed(m, k) && PairsSound(m)
    ensures NoneMissed(VisitFrom(m, k), |m.ts|) && PairsSound(VisitFrom(m, k))
    decreases |m.ts| - k
  {
    if k < |m.ts| {
      VisitMissesNone(m, k);
      VisitFromMissesNone(Visit(m, k), k + 1);
    }
  }

  // MAXIMAL: two delimiters of one character that could have been paired and both still show
  // characters are apart for a reason: a match closed across the first one before the second,
  // or MAX_DELIMS openers were in front of it.
  lemma MatchAllMissesNone(ts: seq<Token>, i: nat, j: nat)
    requires Fresh(ts) && i < j < |ts|
    ensures PairsSound(MatchAll(ts))
    ensures var r := MatchAll(ts);
            Unpaired(r, i, j) ==> Openers(ts, i) >= MAX_DELIMS || Crossed(r.pairs, i, j)
  {
    var m := Match(ts, [], []);
    VisitFromMissesNone(m, 0);
    VisitFromConserves(m, 0);
    OpenersSame(ts, MatchAll(ts).ts, i);
    assert Excused(MatchAll(ts), i, j);
  }
}
