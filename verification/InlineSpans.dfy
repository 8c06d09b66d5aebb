/** The inline scanner of lib/discussion-markdown.js (renderSpans). */
module InlineSpans {
  // It cuts a line into the tokens matchEmphasis works on. Link syntax and URL checks are taken as given: a reader says
  // whether an accepted link starts at a position.

  import opened Util
  import opened TagWords
  import opened Emphasis

  predicate IsSpace(c: char) {
    || c in {'\t', '\n', '\U{0B}', '\U{0C}', '\r', ' ', '\U{A0}', '\U{1680}', '\U{2028}', '\U{2029}', '\U{202F}', '\U{205F}', '\U{3000}', '\U{FEFF}'}
    || '\U{2000}' <= c <= '\U{200A}'
  }

  predicate IsPunct(c: char) {
    '!' <= c <= '/' || ':' <= c <= '@' || '[' <= c <= '`' || '{' <= c <= '~'
  }

  predicate IsAlnum(c: char) {
    '0' <= c <= '9' || 'A' <= c <= 'Z' || 'a' <= c <= 'z'
  }

  datatype Flanks = Flanks(open: bool, close: bool)

  function Flank(ch: char, before: char, after: char): Flanks {
    var left := !IsSpace(after) && (!IsPunct(after) || IsSpace(before) || IsPunct(before));
    var right := !IsSpace(before) && (!IsPunct(before) || IsSpace(after) || IsPunct(after));
    if ch == '_' then Flanks(left && (!right || IsPunct(before)), right && (!left || IsPunct(after))) else Flanks(left, right)
  }

  // An accepted link that ends before position end; dest is shown when text is blank.
  datatype Link = Link(end: nat, text: string, dest: string)

  // links(s, i): the link whose '[' is at i. autos(s, i): the bare URL at i.
  datatype Readers = Readers(links: (string, nat) -> Option<Link>, autos: (string, nat) -> Option<Link>)

  ghost predicate Sound(r: Readers) {
    forall s: string, i: nat ::
      && (r.links(s, i).Some? ==> i < r.links(s, i).value.end <= |s|)
      && (r.autos(s, i).Some? ==> i < r.autos(s, i).value.end <= |s|)
  }

  datatype Kind = Inline | Image | Bare

  datatype Element = Element(kind: Kind, link: Link)

  // The link accepted at i: in brackets, behind an exclamation mark, or a bare URL that no letter or digit precedes.
  function Accepted(r: Readers, s: string, i: nat): Option<Element>
    requires i < |s|
  {
    if s[i] == '[' then Found(Inline, r.links(s, i))
    else if s[i] == '!' && i + 1 < |s| && s[i + 1] == '[' then Found(Image, r.links(s, i + 1))
    else if s[i] in "hH" && (i == 0 || !IsAlnum(s[i - 1])) then Found(Bare, r.autos(s, i))
    else None
  }

  function Found(kind: Kind, link: Option<Link>): Option<Element> {
    if link.Some? then Some(Element(kind, link.value)) else None
  }

  function TrimLeft(s: string): string {
    if s != [] && IsSpace(s[0]) then TrimLeft(s[1..]) else s
  }

  function TrimRight(s: string): string {
    if s != [] && IsSpace(s[|s| - 1]) then TrimRight(s[..|s| - 1]) else s
  }

  function CharBefore(s: string, i: nat): char
    requires i <= |s|
  {
    if i > 0 then s[i - 1] else ' '
  }

  function CharAfter(s: string, j: nat): char
    requires j <= |s|
  {
    if j < |s| then s[j] else ' '
  }

  predicate EscapeAt(s: string, i: nat)
    requires i < |s|
  {
    s[i] == '\\' && i + 1 < |s| && IsPunct(s[i + 1])
  }

  ghost predicate IsRun(s: string, i: nat, j: nat) {
    i < j <= |s| && (forall p :: i <= p < j ==> s[p] == s[i]) && (j < |s| ==> s[j] != s[i])
  }

  // The end of the run of s[i] that starts at i.
  function EndOfRun(s: string, i: nat): (j: nat)
    requires i < |s|
    ensures IsRun(s, i, j)
    decreases |s| - i
  {
    if i + 1 < |s| && s[i + 1] == s[i] then EndOfRun(s, i + 1) else i + 1
  }

  // A run that becomes a delimiter: tildes only in pairs.
  predicate DelimAt(s: string, i: nat)
    requires i < |s|
  {
    s[i] in "*_" || (s[i] == '~' && EndOfRun(s, i) - i == 2)
  }

  // ---- characters, flanks and links, spelled out ---------------------------------------

  datatype Side = Spacing | Sign | Letter

  function SideOf(c: char): Side {
    var n := c as int;
    if 9 <= n < 14 || n in {32, 160, 5760, 8232, 8233, 8239, 8287, 12288, 65279} || 8192 <= n < 8203 then Spacing
    else if 32 < n < 48 || 57 < n < 65 || 90 < n < 97 || 122 < n < 127 then Sign
    else Letter
  }

  lemma SidesAre(c: char)
    ensures IsSpace(c) <==> SideOf(c) == Spacing
    ensures IsPunct(c) <==> SideOf(c) == Sign
    ensures IsAlnum(c) <==> 32 < c as int < 127 && SideOf(c) == Letter
  {
  }

  // FLANKS: a run opens towards a word, and towards punctuation only from a space or punctuation; it closes likewise on
  // the other side. An underscore inside a word does neither.
  lemma FlanksAre(ch: char, before: char, after: char)
    ensures Flank(ch, before, after) ==
      match (SideOf(before), SideOf(after))
      case (Spacing, Spacing) => Flanks(false, false)
      case (Spacing, _) => Flanks(true, false)
      case (_, Spacing) => Flanks(false, true)
      case (Letter, Sign) => Flanks(false, true)
      case (Sign, Letter) => Flanks(true, false)
      case (Sign, Sign) => Flanks(true, true)
      case (Letter, Letter) => Flanks(ch != '_', ch != '_')
  {
    SidesAre(before);
    SidesAre(after);
  }

  // ACCEPTED: in brackets at i, in brackets behind an exclamation mark at i, or a bare URL at i that no letter or digit
  // precedes.
  lemma AcceptedWhen(r: Readers, s: string, i: nat, e: Element)
    requires i < |s|
    ensures Accepted(r, s, i) == Some(e) <==>
      match e.kind
      case Inline => "[" <= s[i..] && r.links(s, i) == Some(e.link)
      case Image => "![" <= s[i..] && r.links(s, i + 1) == Some(e.link)
      case Bare => ("h" <= s[i..] || "H" <= s[i..]) && r.autos(s, i) == Some(e.link) && (i > 0 ==> !IsAlnum(s[i - 1]))
  {
  }

  // TEXT: a backslash shows the punctuation after it and nothing else; a run of tildes shows as it is; so does any other
  // character.
  lemma TextBitIs(s: string, i: nat)
    requires i < |s|
    ensures
      var b := TextBit(s, i);
      if s[i] == '\\' && i + 1 < |s| && SideOf(s[i + 1]) == Sign then b == Bit([s[i + 1]], i + 2)
      else if s[i] == '~' then IsRun(s, i, b.end) && b.shown == s[i..b.end]
      else b == Bit([s[i]], i + 1)
  {
    if i + 1 < |s| {
      SidesAre(s[i + 1]);
    }
  }

  // ---- the scan on values ---------------------------------------------------------------

  // A token and where the scan goes on after it.
  datatype Cut = Cut(token: Token, end: nat)

  // What the buffer gets instead.
  datatype Bit = Bit(shown: string, end: nat)

  function Delimiter(s: string, i: nat): Token
    requires i < |s|
  {
    var j := EndOfRun(s, i);
    var f := Flank(s[i], CharBefore(s, i), CharAfter(s, j));
    Delim(s[i], j - i, f.open, f.close, [], [])
  }

  // The token that starts at i, if one does.
  ghost function NextToken(r: Readers, inLink: bool, s: string, i: nat): (c: Option<Cut>)
    requires Sound(r) && i < |s|
    ensures c.Some? ==> i < c.value.end <= |s| && FreshToken(c.value.token)
    decreases if inLink then 0 else 1, 1, 0
  {
    if EscapeAt(s, i) then None
    else if s[i] == '\n' then BreakNested(); Some(Cut(Html([Break]), i + 1))
    else if !inLink && Accepted(r, s, i).Some? then Some(Cut(Html(LinkPieces(r, Accepted(r, s, i).value)), Accepted(r, s, i).value.link.end))
    else if DelimAt(s, i) then Some(Cut(Delimiter(s, i), EndOfRun(s, i)))
    else None
  }

  // A character, one escaped with a backslash, or a run of tildes that are not two.
  function TextBit(s: string, i: nat): (b: Bit)
    requires i < |s|
    ensures i < b.end <= |s| && b.shown != []
  {
    if EscapeAt(s, i) then Bit([s[i + 1]], i + 2)
    else if s[i] == '~' then Bit(s[i..EndOfRun(s, i)], EndOfRun(s, i))
    else Bit([s[i]], i + 1)
  }

  // One link element around what it shows.
  ghost function LinkPieces(r: Readers, e: Element): (word: seq<Piece>)
    requires Sound(r)
    ensures Nested(word)
    decreases 1, 0, 0
  {
    NestedWrap(Anchor, Inner(r, e));
    [Open(Anchor)] + Inner(r, e) + [Close(Anchor)]
  }

  // The link's own text, rendered with links off; the destination, or a word, when it is blank.
  ghost function Inner(r: Readers, e: Element): (word: seq<Piece>)
    requires Sound(r)
    ensures Nested(word)
    decreases 0, 4, 0
  {
    CharsNested("image");
    CharsNested(e.link.dest);
    var shown := TrimRight(TrimLeft(e.link.text));
    match e.kind
    case Image => if shown != [] then Rendered(r, true, shown) else Chars("image")
    case Inline => if shown != [] then Rendered(r, true, e.link.text) else Chars(e.link.dest)
    case Bare => Chars(e.link.dest)
  }

  function Flushed(tokens: seq<Token>, buf: string): seq<Token> {
    if buf == [] then tokens else tokens + [Text(buf)]
  }

  // The tokens from i on, when buf is the text that waits before i.
  ghost function TokensFrom(r: Readers, inLink: bool, s: string, i: nat, buf: string): (tokens: seq<Token>)
    requires Sound(r) && i <= |s|
    ensures Fresh(tokens)
    decreases if inLink then 0 else 1, 2, |s| - i
  {
    if i == |s| then Flushed([], buf)
    else
      match NextToken(r, inLink, s, i)
      case Some(c) => Flushed([], buf) + ([c.token] + TokensFrom(r, inLink, s, c.end, []))
      case None => TokensFrom(r, inLink, s, TextBit(s, i).end, buf + TextBit(s, i).shown)
  }

  ghost function Tokens(r: Readers, inLink: bool, s: string): (tokens: seq<Token>)
    requires Sound(r)
    ensures Fresh(tokens)
    decreases if inLink then 0 else 1, 3, 0
  {
    TokensFrom(r, inLink, s, 0, [])
  }

  ghost function Rendered(r: Readers, inLink: bool, s: string): (word: seq<Piece>)
    requires Sound(r)
    ensures Nested(word)
    decreases if inLink then 0 else 1, 3, 1
  {
    MatchAllNested(Tokens(r, inLink, s));
    Words(MatchAll(Tokens(r, inLink, s)).ts)
  }

  lemma BreakNested()
    ensures Nested([Break])
  {
    assert [Break][1..] == [] && Read([], []) == Some([]);
  }

  // ---- what a token stands for ---------------------------------------------------------

  // Nothing but text may start here: no line break, no accepted link, no delimiter.
  ghost predicate TextOnly(r: Readers, inLink: bool, s: string, i: nat)
    requires i < |s|
  {
    EscapeAt(s, i) || (s[i] != '\n' && (inLink || Accepted(r, s, i).None?) && !DelimAt(s, i))
  }

  // The text v shows s[i..j].
  ghost predicate Shows(r: Readers, inLink: bool, s: string, i: nat, j: nat, v: string)
    requires i <= j <= |s|
    decreases j - i
  {
    if i == j then v == []
    else
      var b := TextBit(s, i);
      TextOnly(r, inLink, s, i) && b.end <= j && b.shown <= v && Shows(r, inLink, s, b.end, j, v[|b.shown|..])
  }

  // The token t comes from s[i..j].
  ghost predicate Stands(r: Readers, inLink: bool, t: Token, s: string, i: nat, j: nat)
    requires Sound(r) && i <= j <= |s|
  {
    match t
    case Text(v) => v != [] && Shows(r, inLink, s, i, j, v) && (j < |s| ==> !TextOnly(r, inLink, s, j))
    case Delim(ch, n, open, close, opens, closes) =>
      && n == j - i && IsRun(s, i, j) && s[i] == ch
      && (ch == '*' || ch == '_' || (ch == '~' && n == 2))
      && Flank(ch, CharBefore(s, i), CharAfter(s, j)) == Flanks(open, close)
      && opens == [] && closes == []
    case Html(word) =>
      || (s[i..j] == "\n" && word == [Break])
      || (!inLink && i < |s| && Accepted(r, s, i).Some? && Accepted(r, s, i).value.link.end == j && word == LinkPieces(r, Accepted(r, s, i).value))
  }

  // The tokens cut s[i..] into consecutive pieces, each standing for its own.
  ghost predicate Covers(r: Readers, inLink: bool, s: string, i: nat, tokens: seq<Token>)
    requires Sound(r) && i <= |s|
    decreases |tokens|
  {
    if tokens == [] then i == |s|
    else exists j: nat :: i < j <= |s| && Stands(r, inLink, tokens[0], s, i, j) && Covers(r, inLink, s, j, tokens[1..])
  }

  lemma DropPrefix(front: string, v: string, w: string)
    requires front <= v
    ensures front <= v + w && (v + w)[|front|..] == v[|front|..] + w
  {
  }

  lemma {:induction false} ShowsMore(r: Readers, inLink: bool, s: string, i: nat, j: nat, v: string)
    requires i <= j < |s| && Shows(r, inLink, s, i, j, v) && TextOnly(r, inLink, s, j)
    ensures Shows(r, inLink, s, i, TextBit(s, j).end, v + TextBit(s, j).shown)
    decreases j - i
  {
    var end, shown := TextBit(s, j).end, TextBit(s, j).shown;
    if i == j {
      assert v + shown == shown && shown[|shown|..] == [];
    } else {
      var b := TextBit(s, i);
      ShowsMore(r, inLink, s, b.end, j, v[|b.shown|..]);
      DropPrefix(b.shown, v, shown);
    }
  }

  // Only one text from i runs up to a place where text may not go on.
  lemma {:induction false} ShowsOnce(r: Readers, inLink: bool, s: string, i: nat, j: nat, v: string, j': nat, v': string)
    requires i <= j <= |s| && i <= j' <= |s| && Shows(r, inLink, s, i, j, v) && Shows(r, inLink, s, i, j', v')
    requires (j < |s| ==> !TextOnly(r, inLink, s, j)) && (j' < |s| ==> !TextOnly(r, inLink, s, j'))
    ensures j == j' && v == v'
    decreases j - i
  {
    if i < j && i < j' {
      var b := TextBit(s, i);
      ShowsOnce(r, inLink, s, b.end, j, v[|b.shown|..], j', v'[|b.shown|..]);
      assert v == b.shown + v[|b.shown|..] && v' == b.shown + v'[|b.shown|..];
    }
  }

  lemma TextStartsAtText(r: Readers, inLink: bool, t: Token, s: string, i: nat, j: nat)
    requires Sound(r) && i < j <= |s| && Stands(r, inLink, t, s, i, j)
    ensures t.Text? <==> TextOnly(r, inLink, s, i)
  {
    if t.Html? && s[i..j] == "\n" {
      assert s[i] == s[i..j][0];
    }
  }

  lemma StandsOnce(r: Readers, inLink: bool, s: string, i: nat, t: Token, j: nat, t': Token, j': nat)
    requires Sound(r) && i < j <= |s| && i < j' <= |s| && Stands(r, inLink, t, s, i, j) && Stands(r, inLink, t', s, i, j')
    ensures t == t' && j == j'
  {
    TextStartsAtText(r, inLink, t, s, i, j);
    TextStartsAtText(r, inLink, t', s, i, j');
    if t.Text? {
      ShowsOnce(r, inLink, s, i, j, t.v, j', t'.v);
    } else {
      assert s[i..j] == "\n" ==> s[i] == s[i..j][0] == '\n' && j == i + 1;
      assert s[i..j'] == "\n" ==> s[i] == s[i..j'][0] == '\n' && j' == i + 1;
    }
  }

  lemma {:induction false} CoversOnce(r: Readers, inLink: bool, s: string, i: nat, tokens: seq<Token>, tokens': seq<Token>)
    requires Sound(r) && i <= |s| && Covers(r, inLink, s, i, tokens) && Covers(r, inLink, s, i, tokens')
    ensures tokens == tokens'
    decreases |tokens|
  {
    if tokens != [] && tokens' != [] {
      var j: nat :| i < j <= |s| && Stands(r, inLink, tokens[0], s, i, j) && Covers(r, inLink, s, j, tokens[1..]);
      var j': nat :| i < j' <= |s| && Stands(r, inLink, tokens'[0], s, i, j') && Covers(r, inLink, s, j', tokens'[1..]);
      StandsOnce(r, inLink, s, i, tokens[0], j, tokens'[0], j');
      CoversOnce(r, inLink, s, j, tokens[1..], tokens'[1..]);
      assert tokens == [tokens[0]] + tokens[1..] && tokens' == [tokens'[0]] + tokens'[1..];
    }
  }

  lemma NextTokenStands(r: Readers, inLink: bool, s: string, i: nat)
    requires Sound(r) && i < |s|
    ensures NextToken(r, inLink, s, i).None? <==> TextOnly(r, inLink, s, i)
    ensures var c := NextToken(r, inLink, s, i); c.Some? ==> Stands(r, inLink, c.value.token, s, i, c.value.end)
  {
    assert s[i..i + 1] == [s[i]];
  }

  lemma CoversCons(r: Readers, inLink: bool, s: string, i: nat, t: Token, j: nat, tokens: seq<Token>)
    requires Sound(r) && i < j <= |s| && Stands(r, inLink, t, s, i, j) && Covers(r, inLink, s, j, tokens)
    ensures Covers(r, inLink, s, i, [t] + tokens)
  {
    assert ([t] + tokens)[1..] == tokens;
  }

  lemma CoversFlushed(r: Readers, inLink: bool, s: string, i: nat, j: nat, buf: string, tokens: seq<Token>)
    requires Sound(r) && i <= j <= |s| && Shows(r, inLink, s, i, j, buf) && Covers(r, inLink, s, j, tokens)
    requires j < |s| ==> !TextOnly(r, inLink, s, j)
    ensures Covers(r, inLink, s, i, Flushed([], buf) + tokens)
  {
    if i == j {
      assert [] + tokens == tokens;
    } else {
      assert buf != [] && Flushed([], buf) == [Text(buf)];
      CoversCons(r, inLink, s, i, Text(buf), j, tokens);
    }
  }

  lemma {:induction false} TokensCover(r: Readers, inLink: bool, s: string, from: nat, i: nat, buf: string)
    requires Sound(r) && from <= i <= |s| && Shows(r, inLink, s, from, i, buf)
    ensures Covers(r, inLink, s, from, TokensFrom(r, inLink, s, i, buf))
    decreases |s| - i
  {
    if i == |s| {
      CoversFlushed(r, inLink, s, from, i, buf, []);
      assert Flushed([], buf) + [] == Flushed([], buf);
    } else {
      NextTokenStands(r, inLink, s, i);
      match NextToken(r, inLink, s, i)
      case Some(c) =>
        var rest := TokensFrom(r, inLink, s, c.end, []);
        TokensCover(r, inLink, s, c.end, c.end, []);
        CoversCons(r, inLink, s, i, c.token, c.end, rest);
        CoversFlushed(r, inLink, s, from, i, buf, [c.token] + rest);
      case None =>
        ShowsMore(r, inLink, s, from, i, buf);
        TokensCover(r, inLink, s, from, TextBit(s, i).end, buf + TextBit(s, i).shown);
    }
  }

  // TILED, main: there is one way to cut a line into pieces that each stand for their token, with every accepted link
  // its own element and no text or delimiter in its place; the scan finds it.
  lemma ScanIsTheOnlyCover(r: Readers, inLink: bool, s: string, tokens: seq<Token>)
    requires Sound(r)
    ensures Covers(r, inLink, s, 0, tokens) <==> tokens == Tokens(r, inLink, s)
  {
    TokensCover(r, inLink, s, 0, 0, []);
    if Covers(r, inLink, s, 0, tokens) {
      CoversOnce(r, inLink, s, 0, tokens, Tokens(r, inLink, s));
    }
  }

  // ---- anchors -------------------------------------------------------------------------

  function Anchors(word: seq<Piece>): nat {
    if word == [] then 0 else (if word[0] == Open(Anchor) then 1 else 0) + Anchors(word[1..])
  }

  // The tokens that are links.
  function Links(tokens: seq<Token>): nat {
    if tokens == [] then 0 else (if tokens[0].Html? && tokens[0].word != [Break] then 1 else 0) + Links(tokens[1..])
  }

  lemma {:induction false} AnchorsConcat(a: seq<Piece>, b: seq<Piece>)
    ensures Anchors(a + b) == Anchors(a) + Anchors(b)
  {
    if a == [] {
      assert a + b == b;
    } else {
      assert (a + b)[1..] == a[1..] + b;
      AnchorsConcat(a[1..], b);
    }
  }

  lemma {:induction false} CharsHaveNone(s: string)
    ensures Anchors(Chars(s)) == 0
  {
    if s != [] {
      CharsHaveNone(s[1..]);
      assert Chars(s)[1..] == Chars(s[1..]);
    }
  }

  lemma {:induction false} RepeatHasNone(c: char, n: nat)
    ensures Anchors(Repeat(c, n)) == 0
  {
    if n > 0 {
      RepeatHasNone(c, n - 1);
      assert Repeat(c, n)[1..] == Repeat(c, n - 1);
    }
  }

  lemma {:induction false} OpenWordHasNone(tags: seq<Tag>)
    requires Anchor !in tags
    ensures Anchors(OpenWord(tags)) == 0
  {
    if tags != [] {
      OpenWordHasNone(tags[1..]);
      assert OpenWord(tags)[1..] == OpenWord(tags[1..]);
    }
  }

  lemma {:induction false} CloseWordHasNone(tags: seq<Tag>)
    ensures Anchors(CloseWord(tags)) == 0
  {
    if tags != [] {
      CloseWordHasNone(tags[1..]);
      assert CloseWord(tags)[1..] == CloseWord(tags[1..]);
    }
  }

  lemma DelimHasNone(t: Token)
    requires t.Delim? && TagsFit(t)
    ensures Anchors(Word(t)) == 0
  {
    CloseWordHasNone(t.closes);
    RepeatHasNone(t.ch, t.n);
    OpenWordHasNone(t.opens);
    AnchorsConcat(CloseWord(t.closes), Repeat(t.ch, t.n));
    AnchorsConcat(CloseWord(t.closes) + Repeat(t.ch, t.n), OpenWord(t.opens));
  }

  // A link element holds one anchor, its own.
  ghost predicate OneAnchor(t: Token) {
    t.Html? && t.word != [Break] ==> Anchors(t.word) == 1
  }

  lemma {:induction false} AnchorsOfWords(ts: seq<Token>, ts': seq<Token>)
    requires SameTokens(ts, ts') && AllTagsFit(ts') && forall i :: 0 <= i < |ts| ==> OneAnchor(ts[i])
    ensures Anchors(Words(ts')) == Links(ts)
    decreases |ts|
  {
    if ts != [] {
      assert SameToken(ts[0], ts'[0]) && OneAnchor(ts[0]) && TagsFit(ts'[0]);
      assert forall i :: 0 <= i < |ts[1..]| ==> ts[1..][i] == ts[i + 1] && ts'[1..][i] == ts'[i + 1];
      AnchorsOfWords(ts[1..], ts'[1..]);
      AnchorsConcat(Word(ts'[0]), Words(ts'[1..]));
      match ts'[0]
      case Delim(_, _, _, _, _, _) => DelimHasNone(ts'[0]);
      case Text(v) => CharsHaveNone(v);
      case Html(w) => assert w == [Break] ==> w[1..] == [] && Anchors(w) == 0;
    }
  }

  lemma {:induction false} CoverHasOneAnchorEach(r: Readers, inLink: bool, s: string, i: nat, tokens: seq<Token>)
    requires Sound(r) && i <= |s| && Covers(r, inLink, s, i, tokens)
    ensures forall k :: 0 <= k < |tokens| ==> OneAnchor(tokens[k])
    ensures inLink ==> Links(tokens) == 0
    decreases if inLink then 0 else 1, 2, |tokens|
  {
    if tokens != [] {
      var j: nat :| i < j <= |s| && Stands(r, inLink, tokens[0], s, i, j) && Covers(r, inLink, s, j, tokens[1..]);
      CoverHasOneAnchorEach(r, inLink, s, j, tokens[1..]);
      assert forall k :: 0 < k < |tokens| ==> tokens[k] == tokens[1..][k - 1];
      if tokens[0].Html? && tokens[0].word != [Break] {
        LinkHasOneAnchor(r, Accepted(r, s, i).value);
      }
    }
  }

  // ANCHORS: a line holds one anchor for each of its links, and a link's own text none.
  lemma AnchorsAreLinks(r: Readers, inLink: bool, s: string)
    requires Sound(r)
    ensures Anchors(Rendered(r, inLink, s)) == Links(Tokens(r, inLink, s))
    ensures inLink ==> Anchors(Rendered(r, inLink, s)) == 0
    decreases if inLink then 0 else 1, 3, 0
  {
    var tokens := Tokens(r, inLink, s);
    TokensCover(r, inLink, s, 0, 0, []);
    CoverHasOneAnchorEach(r, inLink, s, 0, tokens);
    MatchAllTags(tokens);
    VisitFromConserves(Match(tokens, [], []), 0);
    AnchorsOfWords(tokens, MatchAll(tokens).ts);
  }

  lemma InnerHasNone(r: Readers, e: Element)
    requires Sound(r)
    ensures Anchors(Inner(r, e)) == 0
    decreases 0, 4, 0
  {
    var shown := TrimRight(TrimLeft(e.link.text));
    if !e.kind.Bare? && shown != [] {
      AnchorsAreLinks(r, true, if e.kind.Image? then shown else e.link.text);
    } else if e.kind.Image? {
      CharsHaveNone("image");
    } else {
      CharsHaveNone(e.link.dest);
    }
  }

  lemma WrapHasOne(inner: seq<Piece>)
    requires Anchors(inner) == 0
    ensures Anchors([Open(Anchor)] + inner + [Close(Anchor)]) == 1
  {
    AnchorsConcat([Open(Anchor)] + inner, [Close(Anchor)]);
    AnchorsConcat([Open(Anchor)], inner);
    assert [Open(Anchor)][1..] == [] && [Close(Anchor)][1..] == [];
  }

  lemma LinkHasOneAnchor(r: Readers, e: Element)
    requires Sound(r)
    ensures Anchors(Inner(r, e)) == 0 && Anchors(LinkPieces(r, e)) == 1
    decreases 1, 0, 0
  {
    InnerHasNone(r, e);
    WrapHasOne(Inner(r, e));
  }

  // ---- the scanner ---------------------------------------------------------------------

  // pushText.
  method PushText(tokens0: seq<Token>, buf: string) returns (tokens: seq<Token>)
    ensures tokens == Flushed(tokens0, buf)
  {
    tokens := tokens0;
    if |buf| > 0 {
      tokens := tokens + [Text(buf)];
    }
  }

  // pushText, then one token.
  method PushToken(tokens0: seq<Token>, buf: string, t: Token) returns (tokens: seq<Token>)
    ensures tokens == Flushed(tokens0, buf) + [t]
  {
    tokens := PushText(tokens0, buf);
    tokens := tokens + [t];
  }

  // The link element for an accepted link: its own text is rendered with links off.
  method LinkWord(e: Element, readers: Readers) returns (word: seq<Piece>)
    requires Sound(readers)
    ensures word == LinkPieces(readers, e)
    ensures Nested(word) && |word| >= 2 && word[0] == Open(Anchor) && word[|word| - 1] == Close(Anchor)
    ensures Nested(word[1..|word| - 1]) && Anchors(word[1..|word| - 1]) == 0
    decreases 1, 0
  {
    var shown := TrimRight(TrimLeft(e.link.text));
    var inner: seq<Piece>;
    if e.kind.Bare? {
      inner := Chars(e.link.dest);
    } else if e.kind.Image? {
      if shown != [] {
        inner := RenderSpans(shown, true, readers);
      } else {
        inner := Chars("image");
      }
    } else if shown != [] {
      inner := RenderSpans(e.link.text, true, readers);
    } else {
      inner := Chars(e.link.dest);
    }
    LinkHasOneAnchor(readers, e);
    word := [Open(Anchor)] + inner + [Close(Anchor)];
    assert word[1..|word| - 1] == inner;
  }

  method RunEnd(s: string, i: nat) returns (j: nat)
    requires i < |s|
    ensures j == EndOfRun(s, i)
  {
    j := i;
    while j < |s| && s[j] == s[i]
      invariant i <= j <= |s| && forall p :: i <= p < j ==> s[p] == s[i]
    {
      j := j + 1;
    }
    assert IsRun(s, i, j) && IsRun(s, i, EndOfRun(s, i));
  }

  // A run of an emphasis character: a delimiter, or plain tildes.
  method ScanRun(s: string, tokens0: seq<Token>, buf0: string, i: nat) returns (tokens: seq<Token>, buf: string, j: nat)
    requires i < |s| && s[i] in "*_~"
    ensures IsRun(s, i, j) && j == EndOfRun(s, i)
    ensures
      if s[i] == '~' && j - i != 2 then tokens == tokens0 && buf == buf0 + s[i..j]
      else
        var f := Flank(s[i], CharBefore(s, i), CharAfter(s, j));
        tokens == Flushed(tokens0, buf0) + [Delim(s[i], j - i, f.open, f.close, [], [])] && buf == ""
  {
    var c := s[i];
    j := RunEnd(s, i);
    var len: nat := j - i;
    if c == '~' && len != 2 {
      tokens, buf := tokens0, buf0 + s[i..j];
    } else {
      var f := Flank(c, if i > 0 then s[i - 1] else ' ', if j < |s| then s[j] else ' ');
      tokens := PushToken(tokens0, buf0, Delim(c, len, f.open, f.close, [], []));
      buf := "";
    }
  }

  method PushLink(e: Element, readers: Readers, tokens0: seq<Token>, buf: string) returns (tokens: seq<Token>)
    requires Sound(readers)
    ensures tokens == Flushed(tokens0, buf) + [Html(LinkPieces(readers, e))]
    decreases 1, 1
  {
    var word := LinkWord(e, readers);
    tokens := PushToken(tokens0, buf, Html(word));
  }

  // An accepted link, image link or bare URL at i, if there is one.
  method ScanLink(s: string, readers: Readers, tokens0: seq<Token>, buf0: string, i: nat)
    returns (found: bool, tokens: seq<Token>, buf: string, j: nat)
    requires Sound(readers) && i < |s|
    ensures found <==> Accepted(readers, s, i).Some?
    ensures
      if found then
        var e := Accepted(readers, s, i).value;
        tokens == Flushed(tokens0, buf0) + [Html(LinkPieces(readers, e))] && buf == "" && j == e.link.end && i < j <= |s|
      else tokens == tokens0 && buf == buf0 && j == i
    decreases 1, 2
  {
    var c := s[i];
    if c == '[' || (c == '!' && i + 1 < |s| && s[i + 1] == '[') {
      var image := c == '!';
      var link := readers.links(s, if image then i + 1 else i);
      if link.Some? {
        tokens := PushLink(Element(if image then Image else Inline, link.value), readers, tokens0, buf0);
        return true, tokens, "", link.value.end;
      }
    }
    if (c == 'h' || c == 'H') && (i == 0 || !IsAlnum(s[i - 1])) {
      var auto := readers.autos(s, i);
      if auto.Some? {
        tokens := PushLink(Element(Bare, auto.value), readers, tokens0, buf0);
        return true, tokens, "", auto.value.end;
      }
    }
    return false, tokens0, buf0, i;
  }

  lemma FlushedOnto(tokens: seq<Token>, buf: string, t: Token, rest: seq<Token>)
    ensures tokens + (Flushed([], buf) + ([t] + rest)) == Flushed(tokens, buf) + [t] + rest
  {
  }

  lemma ScanStep(r: Readers, inLink: bool, s: string, tokens: seq<Token>, buf: string, i: nat)
    requires Sound(r) && i < |s|
    ensures
      match NextToken(r, inLink, s, i)
      case Some(c) => tokens + TokensFrom(r, inLink, s, i, buf) == Flushed(tokens, buf) + [c.token] + TokensFrom(r, inLink, s, c.end, [])
      case None => TokensFrom(r, inLink, s, i, buf) == TokensFrom(r, inLink, s, TextBit(s, i).end, buf + TextBit(s, i).shown)
  {
    match NextToken(r, inLink, s, i)
    case Some(c) => FlushedOnto(tokens, buf, c.token, TokensFrom(r, inLink, s, c.end, []));
    case None =>
  }

  lemma RunIs(r: Readers, inLink: bool, s: string, i: nat)
    requires Sound(r) && i < |s| && s[i] in "*_~"
    ensures
      var j := EndOfRun(s, i);
      if s[i] == '~' && j - i != 2 then NextToken(r, inLink, s, i) == None && TextBit(s, i) == Bit(s[i..j], j)
      else NextToken(r, inLink, s, i) == Some(Cut(Delimiter(s, i), j))
  {
  }

  // One turn of the scan: what starts at i, or what the buffer gets.
  method ScanOne(s: string, inLink: bool, readers: Readers, tokens0: seq<Token>, buf0: string, i: nat)
    returns (tokens: seq<Token>, buf: string, j: nat)
    requires Sound(readers) && i < |s|
    ensures i < j <= |s|
    ensures
      match NextToken(readers, inLink, s, i)
      case Some(c) => tokens == Flushed(tokens0, buf0) + [c.token] && buf == "" && j == c.end
      case None => tokens == tokens0 && buf == buf0 + TextBit(s, i).shown && j == TextBit(s, i).end
    decreases if inLink then 0 else 1, 3
  {
    var c := s[i];
    if c == '\\' && i + 1 < |s| && IsPunct(s[i + 1]) {
      return tokens0, buf0 + [s[i + 1]], i + 2;
    }
    if c == '\n' {
      tokens := PushToken(tokens0, buf0, Html([Break]));
      return tokens, "", i + 1;
    }
    if !inLink {
      var found;
      found, tokens, buf, j := ScanLink(s, readers, tokens0, buf0, i);
      if found {
        return;
      }
    }
    if c == '*' || c == '_' || c == '~' {
      RunIs(readers, inLink, s, i);
      tokens, buf, j := ScanRun(s, tokens0, buf0, i);
      return;
    }
    return tokens0, buf0 + [c], i + 1;
  }

  // The scan of renderSpans, before its delimiters are matched.
  method ScanSpans(s: string, inLink: bool, readers: Readers) returns (tokens: seq<Token>)
    requires Sound(readers)
    ensures tokens == Tokens(readers, inLink, s) && Covers(readers, inLink, s, 0, tokens)
    decreases if inLink then 0 else 1, 4
  {
    tokens := [];
    var buf: string := "";
    var i: nat := 0;
    ghost var all := Tokens(readers, inLink, s);
    while i < |s|
      invariant i <= |s| && tokens + TokensFrom(readers, inLink, s, i, buf) == all
      decreases |s| - i
    {
      ScanStep(readers, inLink, s, tokens, buf, i);
      tokens, buf, i := ScanOne(s, inLink, readers, tokens, buf, i);
    }
    assert tokens + Flushed([], buf) == Flushed(tokens, buf);
    tokens := PushText(tokens, buf);
    TokensCover(readers, inLink, s, 0, 0, []);
  }

  // renderSpans: whatever the line and whatever links it holds, the tags nest, and no link is inside a link.
  method RenderSpans(s: string, inLink: bool, readers: Readers) returns (word: seq<Piece>)
    requires Sound(readers)
    ensures word == Rendered(readers, inLink, s) && Nested(word)
    ensures Anchors(word) == Links(Tokens(readers, inLink, s)) && (inLink ==> Anchors(word) == 0)
    decreases if inLink then 0 else 1, 5
  {
    var tokens := ScanSpans(s, inLink, readers);
    AnchorsAreLinks(readers, inLink, s);
    var a := new Token[|tokens|](i requires 0 <= i < |tokens| => tokens[i]);
    assert a[..] == tokens;
    MatchEmphasis(a);
    word := [];
    for k := 0 to a.Length
      invariant a[..] == MatchAll(tokens).ts
      invariant word == Words(a[..k])
    {
      WordsSnoc(a[..], 0, k);
      assert a[..][0..k] == a[..k] && a[..][0..k + 1] == a[..k + 1];
      word := word + Word(a[k]);
    }
    assert a[..a.Length] == a[..];
  }
}
