/** The HTML of a whole post (lib/discussion-markdown.js). */
module PostHtml {
  // renderInline: code spans are taken out of a text, the rest is rendered, and they are put back where their
  // placeholders are. With these texts in the blocks of a post, the whole is nested.

  import opened Util
  import opened TagWords
  import opened InlineSpans
  import Code = CodeSpans
  import Blocks = MarkdownBlocks

  const PH_OPEN := '\U{E000}'
  const PH_CLOSE := '\U{E001}'

  // ---- code out ----------------------------------------------------------------------

  predicate IsDigit(c: char) {
    '0' <= c <= '9'
  }

  function Decimal(n: nat): (s: string)
    ensures s != [] && forall i :: 0 <= i < |s| ==> IsDigit(s[i])
  {
    var last := [('0' as int + n % 10) as char];
    if n < 10 then last else Decimal(n / 10) + last
  }

  function Placeholder(n: nat): string {
    [PH_OPEN] + Decimal(n) + [PH_CLOSE]
  }

  function Spaced(raw: string): string {
    seq(|raw|, i requires 0 <= i < |raw| => if raw[i] == '\n' then ' ' else raw[i])
  }

  // Line breaks are spaces; one space at each end goes, unless there is nothing else.
  function ShownCode(raw: string): string {
    var code := Spaced(raw);
    if |code| > 2 && code[0] == ' ' && code[|code| - 1] == ' ' && TrimLeft(code) != [] then code[1..|code| - 1] else code
  }

  // A segment lies in the text.
  ghost predicate Inside(s: string, runs: seq<Code.Run>, g: Code.Segment) {
    if g.Plain? then g.lo <= g.hi <= |s|
    else g.open < |runs| && g.close < |runs| && Code.End(runs[g.open]) <= runs[g.close].start <= |s|
  }

  function CodeOf(s: string, runs: seq<Code.Run>, g: Code.Segment): string
    requires g.Code? && Inside(s, runs, g)
  {
    ShownCode(s[Code.End(runs[g.open])..runs[g.close].start])
  }

  ghost predicate AllInside(s: string, runs: seq<Code.Run>, segs: seq<Code.Segment>) {
    forall k :: 0 <= k < |segs| ==> Inside(s, runs, segs[k])
  }

  // What extractCode returns: the text with placeholders, numbered from n, and the codes.
  function Extracted(s: string, runs: seq<Code.Run>, segs: seq<Code.Segment>, n: nat): string
    requires AllInside(s, runs, segs)
  {
    if segs == [] then []
    else if segs[0].Plain? then s[segs[0].lo..segs[0].hi] + Extracted(s, runs, segs[1..], n)
    else Placeholder(n) + Extracted(s, runs, segs[1..], n + 1)
  }

  function Codes(s: string, runs: seq<Code.Run>, segs: seq<Code.Segment>): seq<string>
    requires AllInside(s, runs, segs)
  {
    if segs == [] then []
    else (if segs[0].Code? then [CodeOf(s, runs, segs[0])] else []) + Codes(s, runs, segs[1..])
  }

  // The cut of a text that extractCode makes.
  ghost predicate CutOf(s: string, runs: seq<Code.Run>, segs: seq<Code.Segment>) {
    Code.AllRuns(s, runs, |s|) && Code.Tiles(runs, segs, |s|) && Code.Paired(runs, segs, |runs|)
  }

  lemma {:induction false} TilesInside(s: string, runs: seq<Code.Run>, segs: seq<Code.Segment>, k: nat)
    requires CutOf(s, runs, segs) && k < |segs|
    ensures Code.Hi(runs, segs[k]) <= |s|
    decreases |segs| - k
  {
    assert segs[k] in segs;
    if k < |segs| - 1 {
      TilesInside(s, runs, segs, k + 1);
      assert segs[k + 1] in segs;
      assert Code.Hi(runs, segs[k + 1 - 1]) == Code.Lo(runs, segs[k + 1]);
    }
  }

  lemma CutIsInside(s: string, runs: seq<Code.Run>, segs: seq<Code.Segment>)
    requires CutOf(s, runs, segs)
    ensures AllInside(s, runs, segs)
  {
    forall k | 0 <= k < |segs| ensures Inside(s, runs, segs[k]) {
      TilesInside(s, runs, segs, k);
      var g := segs[k];
      assert g in segs;
      if g.Code? {
        assert Code.IsNext(runs, g.open, Some(g.close));
        assert Code.End(runs[g.open]) < runs[g.close].start;
      }
    }
  }

  // ---- code back in ------------------------------------------------------------------

  datatype Hit = Hit(index: nat, len: nat)

  function DigitCount(word: seq<Piece>): (k: nat)
    ensures k <= |word| && forall i :: 0 <= i < k ==> word[i].Char? && IsDigit(word[i].c)
  {
    if word != [] && word[0].Char? && IsDigit(word[0].c) then 1 + DigitCount(word[1..]) else 0
  }

  function DigitOf(c: char): nat
    requires IsDigit(c)
  {
    c as int - '0' as int
  }

  function Value(word: seq<Piece>): nat
    requires forall i :: 0 <= i < |word| ==> word[i].Char? && IsDigit(word[i].c)
  {
    if word == [] then 0 else 10 * Value(word[..|word| - 1]) + DigitOf(word[|word| - 1].c)
  }

  // A whole placeholder at the front of the word.
  function PlaceholderAt(word: seq<Piece>): (hit: Option<Hit>)
    ensures hit.Some? ==> 3 <= hit.value.len <= |word| && forall i :: 0 <= i < hit.value.len ==> word[i].Char?
    ensures hit.Some? ==> word[0] == Char(PH_OPEN) && word[hit.value.len - 1] == Char(PH_CLOSE)
  {
    if word == [] || word[0] != Char(PH_OPEN) then None
    else
      var k := DigitCount(word[1..]);
      if k > 0 && 1 + k < |word| && word[1 + k] == Char(PH_CLOSE) then
        assert forall i :: 0 <= i < k ==> word[1 + i] == word[1..][i];
        Some(Hit(Value(word[1..][..k]), k + 2))
      else None
  }

  function CodeElement(code: string): seq<Piece> {
    [Open(CodeSpan)] + Chars(code) + [Close(CodeSpan)]
  }

  // The two replacements at the end of renderInline.
  function Restored(word: seq<Piece>, codes: seq<string>): seq<Piece>
    decreases |word|
  {
    if word == [] then []
    else
      var hit := PlaceholderAt(word);
      if hit.Some? then
        (if hit.value.index < |codes| then CodeElement(codes[hit.value.index]) else []) + Restored(word[hit.value.len..], codes)
      else if word[0] == Char(PH_OPEN) || word[0] == Char(PH_CLOSE) then Restored(word[1..], codes)
      else [word[0]] + Restored(word[1..], codes)
  }

  ghost function InlineWord(r: Readers, s: string, runs: seq<Code.Run>, segs: seq<Code.Segment>): seq<Piece>
    requires Sound(r) && AllInside(s, runs, segs)
  {
    Restored(Rendered(r, false, Extracted(s, runs, segs, 0)), Codes(s, runs, segs))
  }

  // renderInline.
  method RenderInline(s: string, readers: Readers) returns (word: seq<Piece>, ghost runs: seq<Code.Run>, ghost segs: seq<Code.Segment>)
    requires Sound(readers)
    ensures CutOf(s, runs, segs) && AllInside(s, runs, segs) && word == InlineWord(readers, s, runs, segs)
    ensures Nested(word)
    ensures Anchors(word) == Links(Tokens(readers, false, Extracted(s, runs, segs, 0)))
  {
    var cut, found := Code.ExtractCode(s);
    CutIsInside(s, found, cut);
    var rendered := RenderSpans(Extracted(s, found, cut, 0), false, readers);
    word := Restored(rendered, Codes(s, found, cut));
    runs, segs := found, cut;
    RestoredNested(rendered, Codes(s, found, cut));
    RestoredAnchors(rendered, Codes(s, found, cut));
  }

  lemma CodeElementNested(code: string)
    ensures Nested(CodeElement(code))
  {
    CharsNested(code);
    NestedWrap(CodeSpan, Chars(code));
  }

  lemma {:induction false} SkipChars(word: seq<Piece>, k: nat, stack: seq<Tag>)
    requires k <= |word| && forall i :: 0 <= i < k ==> word[i].Char?
    ensures Read(word, stack) == Read(word[k..], stack)
    ensures Anchors(word) == Anchors(word[k..])
  {
    if k > 0 {
      assert word[1..][k - 1..] == word[k..];
      SkipChars(word[1..], k - 1, stack);
    } else {
      assert word[0..] == word;
    }
  }

  // Putting code back leaves the tags around it as they were.
  lemma {:induction false} RestoredReads(word: seq<Piece>, codes: seq<string>, stack: seq<Tag>)
    ensures Read(Restored(word, codes), stack) == Read(word, stack)
    decreases |word|
  {
    if word != [] {
      var hit := PlaceholderAt(word);
      if hit.Some? {
        var k := hit.value.len;
        var code := if hit.value.index < |codes| then CodeElement(codes[hit.value.index]) else [];
        SkipChars(word, k, stack);
        RestoredReads(word[k..], codes, stack);
        if hit.value.index < |codes| {
          CodeElementNested(codes[hit.value.index]);
        }
        NestedAnywhere(code, stack);
        ReadConcat(code, Restored(word[k..], codes), stack);
      } else if word[0] == Char(PH_OPEN) || word[0] == Char(PH_CLOSE) {
        RestoredReads(word[1..], codes, stack);
      } else {
        RestoredCopies(word, codes, stack);
      }
    }
  }

  lemma RestoredCopies(word: seq<Piece>, codes: seq<string>, stack: seq<Tag>)
    requires word != [] && PlaceholderAt(word).None? && word[0] != Char(PH_OPEN) && word[0] != Char(PH_CLOSE)
    ensures Read(Restored(word, codes), stack) == Read(word, stack)
    decreases |word|, 0
  {
    var rest := Restored(word[1..], codes);
    assert Restored(word, codes) == [word[0]] + rest && ([word[0]] + rest)[1..] == rest;
    match word[0]
    case Open(t) => RestoredReads(word[1..], codes, stack + [t]);
    case Close(t) =>
      if stack != [] && stack[|stack| - 1] == t {
        RestoredReads(word[1..], codes, stack[..|stack| - 1]);
      }
    case _ => RestoredReads(word[1..], codes, stack);
  }

  lemma RestoredNested(word: seq<Piece>, codes: seq<string>)
    requires Nested(word)
    ensures Nested(Restored(word, codes))
  {
    RestoredReads(word, codes, []);
  }

  lemma CodeElementHasNoAnchor(code: string)
    ensures Anchors(CodeElement(code)) == 0
  {
    CharsHaveNone(code);
    AnchorsConcat([Open(CodeSpan)] + Chars(code), [Close(CodeSpan)]);
    AnchorsConcat([Open(CodeSpan)], Chars(code));
    assert [Open(CodeSpan)][1..] == [] && [Close(CodeSpan)][1..] == [];
  }

  lemma {:induction false} RestoredAnchors(word: seq<Piece>, codes: seq<string>)
    ensures Anchors(Restored(word, codes)) == Anchors(word)
    decreases |word|
  {
    if word != [] {
      var hit := PlaceholderAt(word);
      if hit.Some? {
        var k := hit.value.len;
        var code := if hit.value.index < |codes| then CodeElement(codes[hit.value.index]) else [];
        SkipChars(word, k, []);
        RestoredAnchors(word[k..], codes);
        if hit.value.index < |codes| {
          CodeElementHasNoAnchor(codes[hit.value.index]);
        }
        AnchorsConcat(code, Restored(word[k..], codes));
      } else {
        var rest := Restored(word[1..], codes);
        RestoredAnchors(word[1..], codes);
        assert ([word[0]] + rest)[1..] == rest;
      }
    }
  }

  ghost predicate NoPlaceholders(word: seq<Piece>) {
    forall k :: 0 <= k < |word| ==> word[k] != Char(PH_OPEN) && word[k] != Char(PH_CLOSE)
  }

  // NONE LEFT: with clean codes, neither of the two characters is left in the result.
  lemma {:induction false} RestoredLeavesNone(word: seq<Piece>, codes: seq<string>)
    requires forall k :: 0 <= k < |codes| ==> Clean(codes[k])
    ensures NoPlaceholders(Restored(word, codes))
    decreases |word|
  {
    if word != [] {
      var hit := PlaceholderAt(word);
      if hit.Some? {
        RestoredLeavesNone(word[hit.value.len..], codes);
        if hit.value.index < |codes| {
          CharsAt(codes[hit.value.index]);
        }
      } else {
        RestoredLeavesNone(word[1..], codes);
      }
    }
  }

  lemma {:induction false} TrimLeftKeeps(s: string)
    ensures TrimLeft(s) != [] <==> exists k :: 0 <= k < |s| && !IsSpace(s[k])
  {
    if s != [] && IsSpace(s[0]) {
      TrimLeftKeeps(s[1..]);
      if k :| 0 <= k < |s| && !IsSpace(s[k]) {
        assert s[1..][k - 1] == s[k];
      }
      if k :| 0 <= k < |s[1..]| && !IsSpace(s[1..][k]) {
        assert s[k + 1] == s[1..][k];
      }
    }
  }

  predicate Blank(c: char) {
    c == ' ' || c == '\n'
  }

  // CODE: every character of the span with line breaks as spaces; less one blank at each end when both ends are blank and
  // there is something else.
  lemma ShownCodeIs(raw: string)
    ensures
      var stripped := |raw| > 2 && Blank(raw[0]) && Blank(raw[|raw| - 1]) && exists k :: 0 <= k < |raw| && !IsSpace(raw[k]);
      var from := if stripped then raw[1..|raw| - 1] else raw;
      && |ShownCode(raw)| == |from|
      && forall k :: 0 <= k < |from| ==> ShownCode(raw)[k] == if from[k] == '\n' then ' ' else from[k]
  {
    SpacedShowsSame(raw);
    var code := Spaced(raw);
    assert forall k :: 0 <= k < |raw| ==> (code[k] == ' ' <==> Blank(raw[k]));
    if |raw| > 2 && Blank(raw[0]) && Blank(raw[|raw| - 1]) && TrimLeft(code) != [] {
      assert ShownCode(raw) == code[1..|code| - 1];
    } else {
      assert ShownCode(raw) == code;
    }
  }

  lemma SpacedShowsSame(raw: string)
    ensures TrimLeft(Spaced(raw)) != [] <==> exists k :: 0 <= k < |raw| && !IsSpace(raw[k])
  {
    var code := Spaced(raw);
    TrimLeftKeeps(code);
    forall k | 0 <= k < |raw| ensures IsSpace(code[k]) <==> IsSpace(raw[k]) {
    }
    if k :| 0 <= k < |raw| && !IsSpace(raw[k]) {
      assert !IsSpace(code[k]);
    }
  }

  // ---- placeholders round trip -------------------------------------------------------

  // The input holds none of the two characters.
  ghost predicate Clean(s: string) {
    forall i :: 0 <= i < |s| ==> s[i] != PH_OPEN && s[i] != PH_CLOSE
  }

  // The text with each code span as an element in its place.
  function InPlace(s: string, runs: seq<Code.Run>, segs: seq<Code.Segment>): seq<Piece>
    requires AllInside(s, runs, segs)
  {
    if segs == [] then []
    else
      (if segs[0].Plain? then Chars(s[segs[0].lo..segs[0].hi]) else CodeElement(CodeOf(s, runs, segs[0])))
      + InPlace(s, runs, segs[1..])
  }

  lemma {:induction false} CharsConcat(a: string, b: string)
    ensures Chars(a + b) == Chars(a) + Chars(b)
  {
    if a == [] {
      assert a + b == b;
    } else {
      assert (a + b)[1..] == a[1..] + b;
      CharsConcat(a[1..], b);
    }
  }

  lemma {:induction false} CharsAt(s: string)
    ensures |Chars(s)| == |s| && forall i :: 0 <= i < |s| ==> Chars(s)[i] == Char(s[i])
  {
    if s != [] {
      CharsAt(s[1..]);
    }
  }

  lemma {:induction false} DigitsCounted(digits: seq<Piece>, rest: seq<Piece>)
    requires forall i :: 0 <= i < |digits| ==> digits[i].Char? && IsDigit(digits[i].c)
    requires rest != [] && rest[0] == Char(PH_CLOSE)
    ensures DigitCount(digits + rest) == |digits|
  {
    if digits == [] {
      assert digits + rest == rest;
    } else {
      assert (digits + rest)[1..] == digits[1..] + rest;
      DigitsCounted(digits[1..], rest);
    }
  }

  lemma {:induction false} DecimalValue(n: nat)
    ensures var w := Chars(Decimal(n));
            (forall i :: 0 <= i < |w| ==> w[i].Char? && IsDigit(w[i].c)) && |w| > 0 && Value(w) == n
  {
    CharsAt(Decimal(n));
    var w := Chars(Decimal(n));
    var last := ('0' as int + n % 10) as char;
    if n < 10 {
      assert w == [Char(last)] && w[..0] == [];
    } else {
      DecimalValue(n / 10);
      CharsConcat(Decimal(n / 10), [last]);
      CharsAt([last]);
      assert w[..|w| - 1] == Chars(Decimal(n / 10));
    }
  }

  lemma PlaceholderFound(n: nat, rest: seq<Piece>)
    ensures PlaceholderAt(Chars(Placeholder(n)) + rest) == Some(Hit(n, |Placeholder(n)|))
  {
    var ds := Chars(Decimal(n));
    DecimalValue(n);
    CharsAt(Placeholder(n));
    CharsAt(Decimal(n));
    var tail := [Char(PH_CLOSE)] + rest;
    var word := Chars(Placeholder(n)) + rest;
    assert word == [Char(PH_OPEN)] + ds + tail;
    assert word[1..] == ds + tail;
    DigitsCounted(ds, tail);
    assert word[1..][..|ds|] == ds;
  }

  lemma FirstOf<X>(x: X, a: seq<X>, b: seq<X>)
    ensures ([x] + a) + b == [x] + (a + b)
  {
  }

  lemma OneIsCopied(c: char, tail: seq<Piece>, codes: seq<string>)
    requires c != PH_OPEN && c != PH_CLOSE
    ensures Restored([Char(c)] + tail, codes) == [Char(c)] + Restored(tail, codes)
  {
    assert ([Char(c)] + tail)[1..] == tail;
  }

  lemma {:induction false} CleanIsCopied(v: string, rest: seq<Piece>, codes: seq<string>)
    requires Clean(v)
    ensures Restored(Chars(v) + rest, codes) == Chars(v) + Restored(rest, codes)
  {
    if v == [] {
      assert Chars(v) + rest == rest;
    } else {
      var tail := Chars(v[1..]) + rest;
      CleanIsCopied(v[1..], rest, codes);
      OneIsCopied(v[0], tail, codes);
      FirstOf(Char(v[0]), Chars(v[1..]), rest);
      FirstOf(Char(v[0]), Chars(v[1..]), Restored(rest, codes));
    }
  }

  // BACK: each placeholder comes back as its own code, and the text between as it was.
  lemma {:induction false} CodesComeBack(s: string, runs: seq<Code.Run>, segs: seq<Code.Segment>, codes: seq<string>, n: nat)
    requires Clean(s) && AllInside(s, runs, segs) && n <= |codes| && codes[n..] == Codes(s, runs, segs)
    ensures Restored(Chars(Extracted(s, runs, segs, n)), codes) == InPlace(s, runs, segs)
    decreases |segs|
  {
    if segs != [] {
      var g, rest := segs[0], segs[1..];
      if g.Plain? {
        var v, after := s[g.lo..g.hi], Extracted(s, runs, rest, n);
        assert Codes(s, runs, segs) == Codes(s, runs, rest);
        CharsConcat(v, after);
        CleanIsCopied(v, Chars(after), codes);
        CodesComeBack(s, runs, rest, codes, n);
      } else {
        var after := Extracted(s, runs, rest, n + 1);
        var word := Chars(Placeholder(n)) + Chars(after);
        CharsConcat(Placeholder(n), after);
        PlaceholderFound(n, Chars(after));
        CharsAt(Placeholder(n));
        assert word[|Placeholder(n)|..] == Chars(after);
        assert codes[n] == codes[n..][0] == CodeOf(s, runs, g) && codes[n + 1..] == codes[n..][1..];
        CodesComeBack(s, runs, rest, codes, n + 1);
      }
    }
  }

  // ---- the whole post ----------------------------------------------------------------

  // The word of the blocks with every text filled in.
  function Filled(word: seq<Piece>, fill: Source -> seq<Piece>): seq<Piece> {
    if word == [] then [] else (if word[0].Shown? then fill(word[0].text) else [word[0]]) + Filled(word[1..], fill)
  }

  // A code block shows its text as it is, every other text its inline rendering.
  ghost predicate Fills(r: Readers, text: Source -> string, fill: Source -> seq<Piece>, t: Source)
    requires Sound(r)
  {
    if t.CodeText? then fill(t) == Chars(text(t))
    else exists runs, segs :: CutOf(text(t), runs, segs) && AllInside(text(t), runs, segs) && fill(t) == InlineWord(r, text(t), runs, segs)
  }

  lemma FillNested(r: Readers, text: Source -> string, fill: Source -> seq<Piece>, t: Source)
    requires Sound(r) && Fills(r, text, fill, t)
    ensures Nested(fill(t))
  {
    if t.CodeText? {
      CharsNested(text(t));
    } else {
      var runs, segs :| CutOf(text(t), runs, segs) && AllInside(text(t), runs, segs) && fill(t) == InlineWord(r, text(t), runs, segs);
      RestoredNested(Rendered(r, false, Extracted(text(t), runs, segs, 0)), Codes(text(t), runs, segs));
    }
  }

  lemma {:induction false} FilledReads(word: seq<Piece>, fill: Source -> seq<Piece>, stack: seq<Tag>)
    requires forall t :: Nested(fill(t))
    ensures Read(Filled(word, fill), stack) == Read(word, stack)
    decreases |word|
  {
    if word != [] {
      var rest := Filled(word[1..], fill);
      match word[0]
      case Shown(t) =>
        NestedAnywhere(fill(t), stack);
        ReadConcat(fill(t), rest, stack);
        FilledReads(word[1..], fill, stack);
      case Open(t) =>
        assert ([word[0]] + rest)[1..] == rest;
        FilledReads(word[1..], fill, stack + [t]);
      case Close(t) =>
        assert ([word[0]] + rest)[1..] == rest;
        if stack != [] && stack[|stack| - 1] == t {
          FilledReads(word[1..], fill, stack[..|stack| - 1]);
        }
      case _ =>
        assert ([word[0]] + rest)[1..] == rest;
        FilledReads(word[1..], fill, stack);
    }
  }

  // NESTED, the whole post: whatever the blocks, the texts, the links in them and the code spans, the HTML nests.
  lemma PostNested(blocks: seq<Blocks.Block>, r: Readers, text: Source -> string, fill: Source -> seq<Piece>)
    requires Sound(r) && forall t :: Fills(r, text, fill, t)
    ensures Nested(Filled(Blocks.DocWord(blocks), fill))
  {
    Blocks.DocNested(blocks);
    forall t ensures Nested(fill(t)) {
      FillNested(r, text, fill, t);
    }
    FilledReads(Blocks.DocWord(blocks), fill, []);
  }
}
