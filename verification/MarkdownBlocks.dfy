/** The block structure of a rendered post (lib/discussion-markdown.js). */
module MarkdownBlocks {
  // renderBlocks, renderList and renderTable. A line is what its regular expressions say about it. Every line ends up in
  // exactly one block that it fits, in order, and the output is nested.

  import opened Util
  import T = TagWords

  const MAX_QUOTE_DEPTH: nat := 3
  const MAX_TABLE_COLS: nat := 12

  datatype Mark = Mark(ch: char, len: nat)
  datatype ItemMark = ItemMark(nested: bool, ordered: bool)

  // opens, closes: the fence it opens or could close; heading: its level; quoted: the line without its quote mark;
  // item: its list marker; cols: the cells it splits into, when it holds a pipe; delimiter: the columns of a valid
  // table delimiter row.
  datatype Line = Line(id: nat, blank: bool, opens: Option<Mark>, closes: Option<Mark>, heading: Option<nat>, rule: bool,
                       quoted: Option<Line>, item: Option<ItemMark>, cols: Option<nat>, delimiter: Option<nat>)

  // A list item starts with its marker, so it starts no quote.
  ghost predicate Sensible(lines: seq<Line>) {
    forall l :: l in lines ==> SensibleLine(l)
  }

  ghost predicate SensibleLine(l: Line) {
    (l.item.Some? ==> l.quoted.None?) && (l.quoted.Some? ==> SensibleLine(l.quoted.value))
  }

  predicate StartsBlock(l: Line) {
    l.opens.Some? || l.heading.Some? || l.rule || l.quoted.Some?
  }

  predicate ClosesFence(l: Line, f: Mark) {
    l.closes.Some? && l.closes.value.ch == f.ch && l.closes.value.len >= f.len
  }

  predicate TableAt(lines: seq<Line>, i: nat) {
    && i + 1 < |lines| && lines[i].cols.Some? && lines[i + 1].delimiter.Some?
    && lines[i].cols.value <= MAX_TABLE_COLS && lines[i].cols == lines[i + 1].delimiter
  }

  // text: the item's line and its continuations; an inner list has items of its own.
  datatype Sub = Sub(ordered: bool, items: seq<seq<Line>>)
  datatype Entry = Entry(text: seq<Line>, sub: Option<Sub>)

  datatype Block =
    | Para(lines: seq<Line>)
    | Code(open: Line, body: seq<Line>, end: Option<Line>)
    | Heading(line: Line)
    | Rule(line: Line)
    | Quote(lines: seq<Line>, inner: seq<Block>)
    | List(ordered: bool, items: seq<Entry>)
    | Table(head: Line, delimiter: Line, rows: seq<Line>)

  // The lines of a block: from its first to the one after its last.
  datatype Span = Span(start: nat, stop: nat)

  // ---- which lines a block holds -------------------------------------

  function Concat(lists: seq<seq<Line>>): seq<Line> {
    if lists == [] then [] else Concat(lists[..|lists| - 1]) + lists[|lists| - 1]
  }

  function EntryLines(e: Entry): seq<Line> {
    e.text + if e.sub.Some? then Concat(e.sub.value.items) else []
  }

  function EntriesLines(items: seq<Entry>): seq<Line> {
    if items == [] then [] else EntriesLines(items[..|items| - 1]) + EntryLines(items[|items| - 1])
  }

  function BlockLines(b: Block): seq<Line> {
    match b
    case Para(lines) => lines
    case Code(open, body, end) => [open] + body + if end.Some? then [end.value] else []
    case Heading(line) => [line]
    case Rule(line) => [line]
    case Quote(lines, _) => lines
    case List(_, items) => EntriesLines(items)
    case Table(head, delimiter, rows) => [head, delimiter] + rows
  }

  function DocLines(blocks: seq<Block>): seq<Line> {
    if blocks == [] then [] else DocLines(blocks[..|blocks| - 1]) + BlockLines(blocks[|blocks| - 1])
  }

  // kept is lines with some blank lines left out.
  ghost predicate WithBlanks(lines: seq<Line>, kept: seq<Line>) {
    if lines == [] then kept == []
    else
      var front, last := lines[..|lines| - 1], lines[|lines| - 1];
      || (kept != [] && kept[|kept| - 1] == last && WithBlanks(front, kept[..|kept| - 1]))
      || (last.blank && WithBlanks(front, kept))
  }

  // ---- which lines fit a block ---------------------------------------

  // Not the first line of a fence, a heading, a rule or a quote.
  ghost predicate OpensNothing(l: Line) {
    l.opens == None && l.heading == None && !l.rule && l.quoted == None
  }

  // A header and a delimiter row of as many columns, not too many.
  ghost predicate TableHead(head: Line, delimiter: Line) {
    head.cols != None && delimiter.delimiter == head.cols && head.cols.value <= MAX_TABLE_COLS
  }

  // A line that on its own is only text at this depth.
  predicate Plain(l: Line, depth: nat) {
    && !l.blank && l.opens.None? && l.heading.None? && !l.rule && l.item.None?
    && (l.quoted.Some? ==> depth >= MAX_QUOTE_DEPTH)
  }

  ghost predicate TextAt(lines: seq<Line>, i: nat, depth: nat)
    requires i < |lines|
  {
    Plain(lines[i], depth) && (i + 1 < |lines| ==> !TableHead(lines[i], lines[i + 1]))
  }

  // An item's marker line, then lines that neither start an item nor a block.
  ghost predicate ItemText(text: seq<Line>) {
    && text != [] && text[0].item.Some? && OpensNothing(text[0])
    && forall i :: 0 < i < |text| ==> text[i].item.None? && !text[i].blank && OpensNothing(text[i])
  }

  ghost predicate FitsEntry(e: Entry, ordered: bool) {
    && ItemText(e.text) && e.text[0].item.value.ordered == ordered
    && (e.sub.Some? ==> FitsSub(e.sub.value))
  }

  ghost predicate FitsSub(s: Sub) {
    && s.items != []
    && (forall k :: 0 <= k < |s.items| ==> ItemText(s.items[k]) && s.items[k][0].item.value.nested)
    && s.ordered == s.items[0][0].item.value.ordered
  }

  ghost predicate FitsList(ordered: bool, items: seq<Entry>) {
    && items != []
    && (forall k :: 0 <= k < |items| ==> FitsEntry(items[k], ordered))
    && (forall k :: 0 < k < |items| ==> !items[k].text[0].item.value.nested)
  }

  function Unquoted(lines: seq<Line>): seq<Line>
    requires forall l :: l in lines ==> l.quoted.Some?
  {
    seq(|lines|, i requires 0 <= i < |lines| => lines[i].quoted.value)
  }

  // The block is what its own lines ask for, in the order in which the kinds are tried.
  ghost predicate Fits(b: Block, depth: nat)
    decreases b, 0
  {
    match b
    case Para(lines) => lines != []
    case Code(open, body, end) =>
      && open.opens.Some? && (forall l :: l in body && l.closes.Some? && l.closes.value.ch == open.opens.value.ch ==> l.closes.value.len < open.opens.value.len)
      && (end.Some? ==> exists n: nat :: end.value.closes == Some(Mark(open.opens.value.ch, n)) && n >= open.opens.value.len)
    case Heading(line) => line.heading.Some? && line.opens.None?
    case Rule(line) => line.rule && line.opens.None? && line.heading.None?
    case Quote(lines, inner) =>
      && depth < MAX_QUOTE_DEPTH && lines != [] && (forall l :: l in lines ==> l.quoted.Some?)
      && !lines[0].rule && lines[0].opens.None? && lines[0].heading.None?
      && Renders(Unquoted(lines), inner, depth + 1)
    case List(ordered, items) => FitsList(ordered, items)
    case Table(head, delimiter, rows) =>
      Plain(head, depth) && TableHead(head, delimiter) && forall l :: l in rows ==> !l.blank && l.cols.Some?
  }

  // What follows the blank lines is an item the list can take.
  predicate Resumes(lines: seq<Line>, j: nat, ordered: bool)
    requires j <= |lines|
    decreases |lines| - j
  {
    j < |lines| &&
    if lines[j].blank then Resumes(lines, j + 1, ordered)
    else lines[j].item.Some? && (lines[j].item.value.nested || lines[j].item.value.ordered == ordered)
  }

  // The block could not have gone on at line j.
  ghost predicate Ends(b: Block, lines: seq<Line>, j: nat, depth: nat)
    requires j <= |lines|
  {
    match b
    case Para(_) => j < |lines| ==> !TextAt(lines, j, depth)
    case Code(_, _, end) => end.None? ==> j == |lines|
    case Quote(_, _) => j < |lines| ==> lines[j].quoted.None?
    case List(ordered, _) =>
      j < |lines| ==>
        || (lines[j].blank && !Resumes(lines, j, ordered))
        || (!lines[j].blank && !OpensNothing(lines[j]))
        || (!lines[j].blank && lines[j].item.Some? && !lines[j].item.value.nested && lines[j].item.value.ordered != ordered)
    case Table(_, _, _) => j < |lines| ==> lines[j].blank || lines[j].cols.None?
    case _ => true
  }

  // The lines the block came from: its own, up to blank lines inside a list.
  ghost predicate Covers(b: Block, lines: seq<Line>) {
    if b.List? then WithBlanks(lines, BlockLines(b)) else lines == BlockLines(b)
  }

  ghost predicate AllBlank(lines: seq<Line>, start: nat, stop: nat) {
    start <= stop <= |lines| && forall k :: start <= k < stop ==> lines[k].blank
  }

  ghost predicate AllText(lines: seq<Line>, start: nat, stop: nat, depth: nat) {
    start <= stop <= |lines| && forall k :: start <= k < stop ==> TextAt(lines, k, depth)
  }

  // The block came from the lines of its span: they fit it, and it took as many as it could.
  ghost predicate PlacedAt(lines: seq<Line>, b: Block, span: Span, depth: nat)
    decreases b, 1
  {
    && span.start < span.stop <= |lines| && !lines[span.start].blank
    && Covers(b, lines[span.start..span.stop]) && Fits(b, depth) && Ends(b, lines, span.stop, depth)
    && (b.Para? ==> AllText(lines, span.start, span.stop, depth))
  }

  // The blocks lie one after the other, with nothing but blank lines before, between and after them, up to line n.
  ghost predicate Placed(lines: seq<Line>, n: nat, blocks: seq<Block>, spans: seq<Span>, depth: nat)
    decreases blocks, 2
  {
    if blocks == [] then spans == [] && AllBlank(lines, 0, n)
    else
      var m := |blocks| - 1;
      && |spans| == |blocks|
      && PlacedAt(lines, blocks[m], spans[m], depth) && AllBlank(lines, spans[m].stop, n)
      && Placed(lines, spans[m].start, blocks[..m], spans[..m], depth)
  }

  ghost predicate Renders(lines: seq<Line>, blocks: seq<Block>, depth: nat)
    decreases blocks, 3
  {
    exists spans :: Placed(lines, |lines|, blocks, spans, depth)
  }

  // ---- lists ---------------------------------------------------------

  lemma TakeNext(lines: seq<Line>, i: nat, j: nat, kept: seq<Line>)
    requires i <= j < |lines| && WithBlanks(lines[i..j], kept)
    ensures WithBlanks(lines[i..j + 1], kept + [lines[j]])
    ensures lines[j].blank ==> WithBlanks(lines[i..j + 1], kept)
  {
    assert lines[i..j + 1][..j - i] == lines[i..j];
    assert (kept + [lines[j]])[..|kept|] == kept;
  }

  lemma {:induction false} SkipBlanks(lines: seq<Line>, i: nat, j: nat, k: nat, kept: seq<Line>)
    requires i <= j <= k <= |lines| && WithBlanks(lines[i..j], kept)
    requires forall h :: j <= h < k ==> lines[h].blank
    ensures WithBlanks(lines[i..k], kept)
    decreases k - j
  {
    if j < k {
      SkipBlanks(lines, i, j, k - 1, kept);
      TakeNext(lines, i, k - 1, kept);
    }
  }

  lemma PushEntry(items: seq<Entry>, e: Entry)
    ensures EntriesLines(items + [e]) == EntriesLines(items) + EntryLines(e)
  {
    assert (items + [e])[..|items|] == items;
  }

  // A continuation line goes to the innermost open item.
  function Continue(e: Entry, l: Line): Entry {
    if e.sub.Some? && e.sub.value.items != [] then
      var s := e.sub.value;
      e.(sub := Some(s.(items := s.items[..|s.items| - 1] + [s.items[|s.items| - 1] + [l]])))
    else e.(text := e.text + [l])
  }

  function Nest(e: Entry, l: Line, ordered: bool): Entry {
    var s := if e.sub.Some? then e.sub.value else Sub(ordered, []);
    e.(sub := Some(s.(items := s.items + [[l]])))
  }

  lemma NestLines(e: Entry, l: Line, ordered: bool)
    requires FitsEntry(e, ordered) && l.item.Some? && l.item.value.nested && !StartsBlock(l)
    ensures FitsEntry(Nest(e, l, l.item.value.ordered), ordered)
    ensures EntryLines(Nest(e, l, l.item.value.ordered)) == EntryLines(e) + [l]
  {
    var items := if e.sub.Some? then e.sub.value.items else [];
    assert Concat(items) + [l] == Concat(items + [[l]]);
  }

  // The last entry grows by one line.
  lemma GrowLast(front: seq<Entry>, last: Entry, e: Entry, l: Line, ordered: bool)
    requires FitsList(ordered, front + [last]) && FitsEntry(last, ordered) && FitsEntry(e, ordered)
    requires EntryLines(e) == EntryLines(last) + [l] && e.text[0] == last.text[0]
    ensures FitsList(ordered, front + [e])
    ensures EntriesLines(front + [e]) == EntriesLines(front + [last]) + [l]
  {
    PushEntry(front, last);
    PushEntry(front, e);
    assert forall k :: 0 <= k < |front| ==> (front + [e])[k] == (front + [last])[k];
    assert (front + [e])[|front|] == e && (front + [last])[|front|] == last;
    assert EntriesLines(front) + (EntryLines(last) + [l]) == EntriesLines(front) + EntryLines(last) + [l];
  }

  lemma AddEntry(items: seq<Entry>, l: Line, ordered: bool)
    requires (items == [] || FitsList(ordered, items)) && l.item.Some? && !StartsBlock(l)
    requires l.item.value.ordered == ordered && (items == [] || !l.item.value.nested)
    ensures FitsList(ordered, items + [Entry([l], None)])
    ensures EntriesLines(items + [Entry([l], None)]) == EntriesLines(items) + [l]
  {
    PushEntry(items, Entry([l], None));
  }

  // A line joins the list: a new item, an inner item, or a continuation.
  function Grown(items: seq<Entry>, line: Line): (grown: seq<Entry>)
    requires items == [] ==> line.item.Some?
    ensures grown != []
  {
    if line.item.Some? && (!line.item.value.nested || items == []) then items + [Entry([line], None)]
    else
      var cur := items[|items| - 1];
      items[..|items| - 1] + [if line.item.Some? then Nest(cur, line, line.item.value.ordered) else Continue(cur, line)]
  }

  lemma GrownEntry(cur: Entry, line: Line, ordered: bool) returns (e: Entry)
    requires FitsEntry(cur, ordered) && !line.blank && !StartsBlock(line) && (line.item.Some? ==> line.item.value.nested)
    ensures e == if line.item.Some? then Nest(cur, line, line.item.value.ordered) else Continue(cur, line)
    ensures FitsEntry(e, ordered) && EntryLines(e) == EntryLines(cur) + [line] && e.text[0] == cur.text[0]
  {
    if line.item.Some? {
      NestLines(cur, line, ordered);
      e := Nest(cur, line, line.item.value.ordered);
    } else {
      e := Continue(cur, line);
    }
  }

  lemma GrownLines(items: seq<Entry>, line: Line, ordered: bool)
    requires !line.blank && !StartsBlock(line) && (items == [] ==> line.item.Some?) && (items != [] ==> FitsList(ordered, items))
    requires line.item.Some? && (!line.item.value.nested || items == []) ==> line.item.value.ordered == ordered
    ensures FitsList(ordered, Grown(items, line)) && EntriesLines(Grown(items, line)) == EntriesLines(items) + [line]
  {
    if line.item.Some? && (!line.item.value.nested || items == []) {
      AddEntry(items, line, ordered);
    } else {
      var front, cur := items[..|items| - 1], items[|items| - 1];
      assert items == front + [cur] && FitsEntry(cur, ordered);
      var e := GrownEntry(cur, line, ordered);
      GrowLast(front, cur, e, line, ordered);
    }
  }

  // Where the list is after its lines up to `next`.
  ghost predicate Listing(lines: seq<Line>, i: nat, next: nat, items: seq<Entry>, ordered: bool) {
    i <= next <= |lines| && (items != [] ==> FitsList(ordered, items)) && WithBlanks(lines[i..next], EntriesLines(items))
  }

  lemma ListingGrows(lines: seq<Line>, i: nat, next: nat, items: seq<Entry>, ordered: bool)
    requires next < |lines| && Listing(lines, i, next, items, ordered)
    requires var line := lines[next];
             && !line.blank && !StartsBlock(line) && (items == [] ==> line.item.Some?)
             && (line.item.Some? && (!line.item.value.nested || items == []) ==> line.item.value.ordered == ordered)
    ensures Listing(lines, i, next + 1, Grown(items, lines[next]), ordered)
  {
    GrownLines(items, lines[next], ordered);
    TakeNext(lines, i, next, EntriesLines(items));
  }

  lemma ListingSkips(lines: seq<Line>, i: nat, next: nat, j: nat, items: seq<Entry>, ordered: bool)
    requires Listing(lines, i, next, items, ordered) && AllBlank(lines, next, j)
    ensures Listing(lines, i, j, items, ordered)
  {
    SkipBlanks(lines, i, next, j, EntriesLines(items));
  }

  // The first line after `from` that is not blank, or the end.
  method NextText(lines: seq<Line>, from: nat) returns (j: nat)
    requires from < |lines| && lines[from].blank
    ensures from < j && AllBlank(lines, from, j) && (j < |lines| ==> !lines[j].blank)
  {
    j := from + 1;
    while j < |lines| && lines[j].blank
      invariant from < j <= |lines|
      invariant AllBlank(lines, from, j)
    {
      j := j + 1;
    }
  }

  lemma {:induction false} ResumesAfterBlanks(lines: seq<Line>, from: nat, j: nat, ordered: bool)
    requires AllBlank(lines, from, j)
    ensures Resumes(lines, from, ordered) == Resumes(lines, j, ordered)
    decreases j - from
  {
    if from < j {
      ResumesAfterBlanks(lines, from + 1, j, ordered);
    }
  }

  // The lookahead at a blank line: the next text, and whether it goes on with the list.
  method LookPast(lines: seq<Line>, next: nat, ordered: bool) returns (j: nat, resumes: bool)
    requires next < |lines| && lines[next].blank
    ensures next < j && AllBlank(lines, next, j) && resumes == Resumes(lines, next, ordered)
  {
    j := NextText(lines, next);
    ResumesAfterBlanks(lines, next, j, ordered);
    resumes := j < |lines| && lines[j].item.Some? && (lines[j].item.value.nested || lines[j].item.value.ordered == ordered);
  }

  // One line of the list, or the blank lines between two of its items; not more when the list ends before it.
  method ListStep(lines: seq<Line>, i: nat, next: nat, items: seq<Entry>, ordered: bool)
    returns (more: bool, j: nat, grown: seq<Entry>)
    requires next < |lines| && Listing(lines, i, next, items, ordered)
    requires items == [] ==> !lines[next].blank && lines[next].item.Some? && lines[next].item.value.ordered == ordered
    requires items == [] ==> !StartsBlock(lines[next])
    ensures more ==> j > next && grown != [] && Listing(lines, i, j, grown, ordered)
    ensures !more ==> items != [] && Ends(List(ordered, items), lines, next, 0)
  {
    var line := lines[next];
    more, j, grown := false, next, items;
    if line.blank {
      // Blank lines are passed over only between two items.
      var after, resumes := LookPast(lines, next, ordered);
      if resumes {
        ListingSkips(lines, i, next, after, items, ordered);
        more, j := true, after;
      }
      return;
    }
    if StartsBlock(line) {
      return;
    }
    // An item of the other type is left to a list of its own.
    if line.item.Some? && (!line.item.value.nested || items == []) && line.item.value.ordered != ordered {
      return;
    }
    ListingGrows(lines, i, next, items, ordered);
    more, j, grown := true, next + 1, Grown(items, line);
  }

  lemma ListPlaced(lines: seq<Line>, i: nat, next: nat, items: seq<Entry>, ordered: bool)
    requires i < next && Listing(lines, i, next, items, ordered) && items != [] && !lines[i].blank
    requires Ends(List(ordered, items), lines, next, 0)
    ensures PlacedAt(lines, List(ordered, items), Span(i, next), 0)
  {
  }

  // renderList: from the item line i; returns the list and the line after it.
  method RenderList(lines: seq<Line>, i: nat) returns (list: Block, next: nat)
    requires i < |lines| && lines[i].item.Some? && !lines[i].blank && !StartsBlock(lines[i])
    ensures list.List? && list.ordered == lines[i].item.value.ordered && PlacedAt(lines, list, Span(i, next), 0)
  {
    var ordered := lines[i].item.value.ordered;
    var items: seq<Entry> := [];
    next := i;
    while next < |lines|
      invariant Listing(lines, i, next, items, ordered)
      invariant next > i <==> items != []
      decreases |lines| - next
    {
      var more, j, grown := ListStep(lines, i, next, items, ordered);
      if !more {
        break;
      }
      items, next := grown, j;
    }
    list := List(ordered, items);
    assert next < |lines| ==> Ends(list, lines, next, 0);
    ListPlaced(lines, i, next, items, ordered);
  }

  // ---- the other blocks ----------------------------------------------

  // renderTable: the header, the delimiter row, and every following line with a pipe.
  method RenderTable(lines: seq<Line>, i: nat, ghost depth: nat) returns (table: Block, next: nat)
    requires TableAt(lines, i) && Plain(lines[i], depth)
    ensures PlacedAt(lines, table, Span(i, next), depth)
  {
    var rows: seq<Line> := [];
    next := i + 2;
    while next < |lines| && !lines[next].blank && lines[next].cols.Some?
      invariant i + 2 <= next <= |lines| && rows == lines[i + 2..next]
      invariant forall l :: l in rows ==> !l.blank && l.cols.Some?
    {
      rows := rows + [lines[next]];
      next := next + 1;
    }
    table := Table(lines[i], lines[i + 1], rows);
    assert lines[i..next] == [lines[i], lines[i + 1]] + rows;
    assert [lines[i], lines[i + 1]][1] == lines[i + 1];
  }

  // A fenced block: up to the first line that closes it, or to the end.
  method RenderFence(lines: seq<Line>, i: nat, ghost depth: nat) returns (code: Block, next: nat)
    requires i < |lines| && !lines[i].blank && lines[i].opens.Some?
    ensures PlacedAt(lines, code, Span(i, next), depth)
  {
    var mark := lines[i].opens.value;
    var body: seq<Line> := [];
    next := i + 1;
    while next < |lines| && !ClosesFence(lines[next], mark)
      invariant i < next <= |lines| && body == lines[i + 1..next]
      invariant forall l :: l in body ==> !ClosesFence(l, mark)
    {
      body := body + [lines[next]];
      next := next + 1;
    }
    if next < |lines| {
      code := Code(lines[i], body, Some(lines[next]));
      next := next + 1;
      assert lines[i..next] == [lines[i]] + body + [lines[next - 1]];
    } else {
      code := Code(lines[i], body, None);
      assert lines[i..next] == [lines[i]] + body + [];
    }
  }

  lemma RunSensible(lines: seq<Line>, i: nat, j: nat)
    requires Sensible(lines) && i <= j <= |lines| && forall l :: l in lines[i..j] ==> l.quoted.Some?
    ensures Sensible(Unquoted(lines[i..j]))
  {
    var run := lines[i..j];
    forall l | l in Unquoted(run) ensures SensibleLine(l) {
      var k :| 0 <= k < |run| && Unquoted(run)[k] == l;
      assert run[k] == lines[i + k] && lines[i + k] in lines;
    }
  }

  // A quote: the run of quoted lines, rendered one level deeper.
  method RenderQuote(lines: seq<Line>, i: nat, depth: nat) returns (quote: Block, next: nat)
    requires Sensible(lines) && depth < MAX_QUOTE_DEPTH && i < |lines| && !lines[i].blank
    requires lines[i].quoted.Some? && lines[i].opens.None? && lines[i].heading.None? && !lines[i].rule
    ensures PlacedAt(lines, quote, Span(i, next), depth)
    decreases MAX_QUOTE_DEPTH - depth, 0
  {
    next := i;
    while next < |lines| && lines[next].quoted.Some?
      invariant i <= next <= |lines| && (next == i ==> lines[next].quoted.Some?)
      invariant forall l :: l in lines[i..next] ==> l.quoted.Some?
    {
      assert lines[i..next + 1] == lines[i..next] + [lines[next]];
      next := next + 1;
    }
    RunSensible(lines, i, next);
    var inner := RenderBlocks(Unquoted(lines[i..next]), depth + 1);
    quote := Quote(lines[i..next], inner);
  }

  // The block that starts at line i, tried in the source's order; None when the line is only text.
  method RenderBlock(lines: seq<Line>, i: nat, depth: nat) returns (block: Option<Block>, next: nat)
    requires Sensible(lines) && depth <= MAX_QUOTE_DEPTH && i < |lines| && !lines[i].blank
    ensures block.None? <==> TextAt(lines, i, depth)
    ensures block.Some? ==> !block.value.Para? && PlacedAt(lines, block.value, Span(i, next), depth)
    decreases MAX_QUOTE_DEPTH - depth, 1
  {
    var line := lines[i];
    block, next := None, i + 1;
    assert SensibleLine(line) by {
      assert line in lines;
    }
    if line.opens.Some? {
      var code;
      code, next := RenderFence(lines, i, depth);
      return Some(code), next;
    }
    if line.heading.Some? {
      return Some(Heading(line)), next;
    }
    if line.rule {
      return Some(Rule(line)), next;
    }
    if line.quoted.Some? && depth < MAX_QUOTE_DEPTH {
      var quote;
      quote, next := RenderQuote(lines, i, depth);
      return Some(quote), next;
    }
    if line.item.Some? {
      var list;
      list, next := RenderList(lines, i);
      return Some(list), next;
    }
    if TableAt(lines, i) {
      var table;
      table, next := RenderTable(lines, i, depth);
      return Some(table), next;
    }
  }

  // ---- the document --------------------------------------------------

  // The state at line i: blocks placed up to line p, and the lines since p gathered for a paragraph.
  ghost predicate Gathering(lines: seq<Line>, p: nat, i: nat, out: seq<Block>, spans: seq<Span>, depth: nat) {
    p <= i <= |lines| && |spans| == |out| && Placed(lines, p, out, spans, depth) && AllText(lines, p, i, depth)
  }

  // flush: the gathered lines become a paragraph.
  method Flush(lines: seq<Line>, para: seq<Line>, out: seq<Block>, ghost p: nat, ghost i: nat, ghost spans: seq<Span>, ghost depth: nat)
    returns (flushed: seq<Block>, ghost after: seq<Span>)
    requires Gathering(lines, p, i, out, spans, depth) && para == lines[p..i]
    requires i < |lines| ==> !TextAt(lines, i, depth)
    ensures |after| == |flushed| && Placed(lines, i, flushed, after, depth)
  {
    if para == [] {
      return out, spans;
    }
    flushed, after := out + [Para(para)], spans + [Span(p, i)];
    assert TextAt(lines, p, depth);
  }

  lemma PlaceBlank(lines: seq<Line>, p: nat, out: seq<Block>, spans: seq<Span>, depth: nat)
    requires Placed(lines, p, out, spans, depth) && p < |lines| && lines[p].blank
    ensures Placed(lines, p + 1, out, spans, depth)
  {
  }

  // renderBlocks: WHOLE: the post falls into the blocks its lines ask for, each as long as it can be, in order, with
  // only blank lines between them.
  method RenderBlocks(lines: seq<Line>, depth: nat) returns (out: seq<Block>)
    requires Sensible(lines) && depth <= MAX_QUOTE_DEPTH
    ensures Renders(lines, out, depth)
    decreases MAX_QUOTE_DEPTH - depth, 2
  {
    out := [];
    var para: seq<Line> := [];
    var i := 0;
    ghost var p: nat := 0;
    ghost var spans: seq<Span> := [];
    while i < |lines|
      invariant Gathering(lines, p, i, out, spans, depth)
      invariant para == lines[p..i]
      decreases |lines| - i
    {
      if lines[i].blank {
        out, spans := Flush(lines, para, out, p, i, spans, depth);
        PlaceBlank(lines, i, out, spans, depth);
        para, i := [], i + 1;
        p := i;
        continue;
      }
      var block, next := RenderBlock(lines, i, depth);
      if block.Some? {
        out, spans := Flush(lines, para, out, p, i, spans, depth);
        out, spans := out + [block.value], spans + [Span(i, next)];
        para, i, p := [], next, next;
      } else {
        assert lines[p..i + 1] == lines[p..i] + [lines[i]];
        para := para + [lines[i]];
        i := i + 1;
      }
    }
    out, spans := Flush(lines, para, out, p, i, spans, depth);
    assert Placed(lines, |lines|, out, spans, depth);
  }

  // ---- the output ----------------------------------------------------

  function Ids(lines: seq<Line>): seq<nat> {
    seq(|lines|, i requires 0 <= i < |lines| => lines[i].id)
  }

  function Wrap(tag: T.Tag, word: seq<T.Piece>): seq<T.Piece> {
    [T.Open(tag)] + word + [T.Close(tag)]
  }

  // A text inside its element.
  function TextIn(tag: T.Tag, text: T.Source): seq<T.Piece> {
    Wrap(tag, [T.Shown(text)])
  }

  function SubItemsWord(items: seq<seq<Line>>): seq<T.Piece> {
    if items == [] then [] else TextIn(T.Item, T.ItemText(Ids(items[0]))) + SubItemsWord(items[1..])
  }

  function ListTag(ordered: bool): T.Tag {
    if ordered then T.Numbers else T.Bullets
  }

  function SubWord(sub: Option<Sub>): seq<T.Piece> {
    if sub.Some? then Wrap(ListTag(sub.value.ordered), SubItemsWord(sub.value.items)) else []
  }

  function EntriesWord(items: seq<Entry>): seq<T.Piece> {
    if items == [] then []
    else Wrap(T.Item, [T.Shown(T.ItemText(Ids(items[0].text)))] + SubWord(items[0].sub)) + EntriesWord(items[1..])
  }

  // The three heading sizes a post can have.
  function HeadingTag(line: Line): T.Tag {
    T.Heading(if line.heading == Some(1) then 3 else if line.heading == Some(2) then 4 else 5)
  }

  // As many cells as the header has, whatever the row holds.
  function CellsWord(id: nat, cols: nat): seq<T.Piece> {
    if cols == 0 then [] else CellsWord(id, cols - 1) + TextIn(T.Cell, T.CellText(id, cols - 1))
  }

  function RowsWord(rows: seq<Line>, cols: nat): seq<T.Piece> {
    if rows == [] then [] else Wrap(T.Row, CellsWord(rows[0].id, cols)) + RowsWord(rows[1..], cols)
  }

  function BlockWord(b: Block): seq<T.Piece>
    decreases b
  {
    match b
    case Para(lines) => TextIn(T.Para, T.ParaText(Ids(lines)))
    case Code(_, body, _) => TextIn(T.Pre, T.CodeText(Ids(body)))
    case Heading(line) => TextIn(HeadingTag(line), T.HeadingText(line.id))
    case Rule(_) => [T.Rule]
    case Quote(_, inner) => Wrap(T.Quote, DocWord(inner))
    case List(ordered, items) => Wrap(ListTag(ordered), EntriesWord(items))
    case Table(head, _, rows) => Wrap(T.Table, RowsWord([head] + rows, if head.cols.Some? then head.cols.value else 0))
  }

  function DocWord(blocks: seq<Block>): seq<T.Piece>
    decreases blocks
  {
    if blocks == [] then [] else BlockWord(blocks[0]) + DocWord(blocks[1..])
  }

  lemma OneNested(text: T.Source)
    ensures T.Nested([T.Shown(text)]) && T.Nested([T.Rule])
  {
    assert [T.Shown(text)][1..] == [] && [T.Rule][1..] == [];
    assert T.Read([T.Shown(text)][1..], []) == Some([]) && T.Read([T.Rule][1..], []) == Some([]);
  }

  lemma TextNested(tag: T.Tag, text: T.Source)
    ensures T.Nested(TextIn(tag, text))
  {
    OneNested(text);
    T.NestedWrap(tag, [T.Shown(text)]);
  }

  lemma {:induction false} SubItemsNested(items: seq<seq<Line>>)
    ensures T.Nested(SubItemsWord(items))
  {
    if items != [] {
      TextNested(T.Item, T.ItemText(Ids(items[0])));
      SubItemsNested(items[1..]);
      T.NestedConcat(TextIn(T.Item, T.ItemText(Ids(items[0]))), SubItemsWord(items[1..]));
    }
  }

  lemma SubNested(sub: Option<Sub>)
    ensures T.Nested(SubWord(sub))
  {
    if sub.Some? {
      SubItemsNested(sub.value.items);
      T.NestedWrap(ListTag(sub.value.ordered), SubItemsWord(sub.value.items));
    }
  }

  lemma {:induction false} EntriesNested(items: seq<Entry>)
    ensures T.Nested(EntriesWord(items))
  {
    if items != [] {
      var text, sub := [T.Shown(T.ItemText(Ids(items[0].text)))], SubWord(items[0].sub);
      OneNested(T.ItemText(Ids(items[0].text)));
      SubNested(items[0].sub);
      T.NestedConcat(text, sub);
      T.NestedWrap(T.Item, text + sub);
      EntriesNested(items[1..]);
      T.NestedConcat(Wrap(T.Item, text + sub), EntriesWord(items[1..]));
    }
  }

  lemma {:induction false} CellsNested(id: nat, cols: nat)
    ensures T.Nested(CellsWord(id, cols))
  {
    if cols > 0 {
      CellsNested(id, cols - 1);
      TextNested(T.Cell, T.CellText(id, cols - 1));
      T.NestedConcat(CellsWord(id, cols - 1), TextIn(T.Cell, T.CellText(id, cols - 1)));
    }
  }

  lemma {:induction false} RowsNested(rows: seq<Line>, cols: nat)
    ensures T.Nested(RowsWord(rows, cols))
  {
    if rows != [] {
      CellsNested(rows[0].id, cols);
      T.NestedWrap(T.Row, CellsWord(rows[0].id, cols));
      RowsNested(rows[1..], cols);
      T.NestedConcat(Wrap(T.Row, CellsWord(rows[0].id, cols)), RowsWord(rows[1..], cols));
    }
  }

  lemma {:induction false} BlockNested(b: Block)
    ensures T.Nested(BlockWord(b))
    decreases b
  {
    match b
    case Para(lines) => TextNested(T.Para, T.ParaText(Ids(lines)));
    case Code(_, body, _) => TextNested(T.Pre, T.CodeText(Ids(body)));
    case Heading(line) => TextNested(HeadingTag(line), T.HeadingText(line.id));
    case Rule(line) => OneNested(T.HeadingText(line.id));
    case Quote(_, inner) => DocNested(inner); T.NestedWrap(T.Quote, DocWord(inner));
    case List(ordered, items) => EntriesNested(items); T.NestedWrap(ListTag(ordered), EntriesWord(items));
    case Table(head, _, rows) =>
      var cols := if head.cols.Some? then head.cols.value else 0;
      RowsNested([head] + rows, cols);
      T.NestedWrap(T.Table, RowsWord([head] + rows, cols));
  }

  // NESTED: the output is properly nested, whatever the post says, with each of its texts still to be filled in.
  lemma {:induction false} DocNested(blocks: seq<Block>)
    ensures T.Nested(DocWord(blocks))
    decreases blocks
  {
    if blocks != [] {
      BlockNested(blocks[0]);
      DocNested(blocks[1..]);
      T.NestedConcat(BlockWord(blocks[0]), DocWord(blocks[1..]));
    }
  }

  // TAGS: the element of each block.
  lemma BlockElement(b: Block)
    ensures
      var w := BlockWord(b);
      match b
      case Para(_) => w[0] == T.Open(T.Para)
      case Code(_, _, _) => w[0] == T.Open(T.Pre)
      case Heading(line) =>
        w[0] == T.Open(T.Heading(match line.heading case Some(1) => 3 case Some(2) => 4 case _ => 5))
      case Rule(_) => w == [T.Rule]
      case Quote(_, _) => w[0] == T.Open(T.Quote)
      case List(true, _) => w[0] == T.Open(T.Numbers)
      case List(false, _) => w[0] == T.Open(T.Bullets)
      case Table(_, _, _) => w[0] == T.Open(T.Table)
  {
  }

  // ---- every line of text is shown -----------------------------------

  // The lines whose text a block shows: no fences, delimiter rows or rules; of a quote those of its blocks.
  function TextLines(b: Block): seq<Line>
    decreases b
  {
    match b
    case Para(lines) => lines
    case Code(_, body, _) => body
    case Heading(line) => [line]
    case Rule(_) => []
    case Quote(_, inner) => DocTextLines(inner)
    case List(_, items) => EntriesLines(items)
    case Table(head, _, rows) => if head.cols.Some? && head.cols.value > 0 then [head] + rows else []
  }

  function DocTextLines(blocks: seq<Block>): seq<Line>
    decreases blocks
  {
    if blocks == [] then [] else TextLines(blocks[0]) + DocTextLines(blocks[1..])
  }

  predicate IsFrom(text: T.Source, id: nat) {
    match text
    case ParaText(lines) => id in lines
    case ItemText(lines) => id in lines
    case CodeText(lines) => id in lines
    case HeadingText(line) => id == line
    case CellText(line, _) => id == line
  }

  ghost predicate ShowsLine(word: seq<T.Piece>, id: nat) {
    exists k :: 0 <= k < |word| && word[k].Shown? && IsFrom(word[k].text, id)
  }

  ghost predicate HasId(lines: seq<Line>, id: nat) {
    exists l :: l in lines && l.id == id
  }

  lemma ShowsConcat(a: seq<T.Piece>, b: seq<T.Piece>, id: nat)
    ensures ShowsLine(a + b, id) <==> ShowsLine(a, id) || ShowsLine(b, id)
  {
    if ShowsLine(a, id) {
      var k :| 0 <= k < |a| && a[k].Shown? && IsFrom(a[k].text, id);
      assert (a + b)[k] == a[k];
    }
    if ShowsLine(b, id) {
      var k :| 0 <= k < |b| && b[k].Shown? && IsFrom(b[k].text, id);
      assert (a + b)[|a| + k] == b[k];
    }
  }

  lemma ShowsWrapped(tag: T.Tag, word: seq<T.Piece>, id: nat)
    ensures ShowsLine(Wrap(tag, word), id) <==> ShowsLine(word, id)
  {
    ShowsConcat([T.Open(tag)] + word, [T.Close(tag)], id);
    ShowsConcat([T.Open(tag)], word, id);
  }

  lemma ShowsOne(tag: T.Tag, text: T.Source, id: nat)
    ensures ShowsLine([T.Shown(text)], id) <==> IsFrom(text, id)
    ensures ShowsLine(TextIn(tag, text), id) <==> IsFrom(text, id)
  {
    assert [T.Shown(text)][0] == T.Shown(text);
    ShowsWrapped(tag, [T.Shown(text)], id);
  }

  lemma IdsAre(lines: seq<Line>, id: nat)
    ensures id in Ids(lines) <==> HasId(lines, id)
  {
    if id in Ids(lines) {
      var k :| 0 <= k < |lines| && Ids(lines)[k] == id;
      assert lines[k] in lines;
    }
    if HasId(lines, id) {
      var l :| l in lines && l.id == id;
      var k :| 0 <= k < |lines| && lines[k] == l;
      assert Ids(lines)[k] == id;
    }
  }

  lemma HasIdConcat(a: seq<Line>, b: seq<Line>, id: nat)
    ensures HasId(a + b, id) <==> HasId(a, id) || HasId(b, id)
  {
  }

  lemma {:induction false} SubItemsShow(items: seq<seq<Line>>, id: nat)
    ensures ShowsLine(SubItemsWord(items), id) <==> exists k :: 0 <= k < |items| && HasId(items[k], id)
  {
    if items != [] {
      SubItemsShow(items[1..], id);
      ShowsOne(T.Item, T.ItemText(Ids(items[0])), id);
      IdsAre(items[0], id);
      ShowsConcat(TextIn(T.Item, T.ItemText(Ids(items[0]))), SubItemsWord(items[1..]), id);
      assert forall k :: 0 <= k < |items[1..]| ==> items[1..][k] == items[k + 1];
    }
  }

  lemma {:induction false} ConcatHasId(lists: seq<seq<Line>>, id: nat)
    ensures HasId(Concat(lists), id) <==> exists k :: 0 <= k < |lists| && HasId(lists[k], id)
  {
    if lists != [] {
      var front, last := lists[..|lists| - 1], lists[|lists| - 1];
      ConcatHasId(front, id);
      HasIdConcat(Concat(front), last, id);
      assert forall k :: 0 <= k < |front| ==> front[k] == lists[k];
    }
  }

  lemma EntryShows(e: Entry, id: nat)
    ensures ShowsLine([T.Shown(T.ItemText(Ids(e.text)))] + SubWord(e.sub), id) <==> HasId(EntryLines(e), id)
  {
    ShowsOne(T.Item, T.ItemText(Ids(e.text)), id);
    IdsAre(e.text, id);
    ShowsConcat([T.Shown(T.ItemText(Ids(e.text)))], SubWord(e.sub), id);
    HasIdConcat(e.text, if e.sub.Some? then Concat(e.sub.value.items) else [], id);
    if e.sub.Some? {
      SubItemsShow(e.sub.value.items, id);
      ConcatHasId(e.sub.value.items, id);
      ShowsWrapped(ListTag(e.sub.value.ordered), SubItemsWord(e.sub.value.items), id);
    }
  }

  lemma {:induction false} EntriesFront(items: seq<Entry>, id: nat)
    requires items != []
    ensures HasId(EntriesLines(items), id) <==> HasId(EntryLines(items[0]), id) || HasId(EntriesLines(items[1..]), id)
  {
    var front, last := items[..|items| - 1], items[|items| - 1];
    HasIdConcat(EntriesLines(front), EntryLines(last), id);
    if |items| > 1 {
      EntriesFront(front, id);
      assert items[1..][..|items[1..]| - 1] == front[1..];
      HasIdConcat(EntriesLines(front[1..]), EntryLines(last), id);
    }
  }

  lemma {:induction false} EntriesShow(items: seq<Entry>, id: nat)
    ensures ShowsLine(EntriesWord(items), id) <==> HasId(EntriesLines(items), id)
  {
    if items != [] {
      var inner := [T.Shown(T.ItemText(Ids(items[0].text)))] + SubWord(items[0].sub);
      EntriesShow(items[1..], id);
      EntriesFront(items, id);
      EntryShows(items[0], id);
      ShowsWrapped(T.Item, inner, id);
      ShowsConcat(Wrap(T.Item, inner), EntriesWord(items[1..]), id);
    }
  }

  lemma {:induction false} CellsShow(line: nat, cols: nat, id: nat)
    ensures ShowsLine(CellsWord(line, cols), id) <==> cols > 0 && id == line
  {
    if cols > 0 {
      CellsShow(line, cols - 1, id);
      ShowsOne(T.Cell, T.CellText(line, cols - 1), id);
      ShowsConcat(CellsWord(line, cols - 1), TextIn(T.Cell, T.CellText(line, cols - 1)), id);
    }
  }

  lemma {:induction false} RowsShow(rows: seq<Line>, cols: nat, id: nat)
    ensures ShowsLine(RowsWord(rows, cols), id) <==> cols > 0 && HasId(rows, id)
  {
    if rows != [] {
      RowsShow(rows[1..], cols, id);
      CellsShow(rows[0].id, cols, id);
      ShowsWrapped(T.Row, CellsWord(rows[0].id, cols), id);
      ShowsConcat(Wrap(T.Row, CellsWord(rows[0].id, cols)), RowsWord(rows[1..], cols), id);
      assert rows == [rows[0]] + rows[1..];
      HasIdConcat([rows[0]], rows[1..], id);
      assert rows[0] in [rows[0]];
    }
  }

  lemma {:induction false} BlockShows(b: Block, id: nat)
    ensures ShowsLine(BlockWord(b), id) <==> HasId(TextLines(b), id)
    decreases b
  {
    match b
    case Para(lines) => ShowsOne(T.Para, T.ParaText(Ids(lines)), id); IdsAre(lines, id);
    case Code(_, body, _) => ShowsOne(T.Pre, T.CodeText(Ids(body)), id); IdsAre(body, id);
    case Heading(line) => ShowsOne(HeadingTag(line), T.HeadingText(line.id), id); assert line in [line];
    case Rule(_) =>
    case Quote(_, inner) => DocShows(inner, id); ShowsWrapped(T.Quote, DocWord(inner), id);
    case List(ordered, items) => EntriesShow(items, id); ShowsWrapped(ListTag(ordered), EntriesWord(items), id);
    case Table(head, _, rows) =>
      var cols := if head.cols.Some? then head.cols.value else 0;
      RowsShow([head] + rows, cols, id);
      ShowsWrapped(T.Table, RowsWord([head] + rows, cols), id);
  }

  // SHOWN: the HTML has a text for exactly the lines that are text: a post's words are neither lost nor made up.
  lemma {:induction false} DocShows(blocks: seq<Block>, id: nat)
    ensures ShowsLine(DocWord(blocks), id) <==> HasId(DocTextLines(blocks), id)
    decreases blocks
  {
    if blocks != [] {
      BlockShows(blocks[0], id);
      DocShows(blocks[1..], id);
      ShowsConcat(BlockWord(blocks[0]), DocWord(blocks[1..]), id);
      HasIdConcat(TextLines(blocks[0]), DocTextLines(blocks[1..]), id);
    }
  }

  // How deep quotes nest.
  function QuoteDepth(b: Block): nat
    decreases b
  {
    match b
    case Quote(_, inner) => 1 + DocDepth(inner)
    case _ => 0
  }

  function DocDepth(blocks: seq<Block>): nat
    decreases blocks
  {
    if blocks == [] then 0 else Max(DocDepth(blocks[..|blocks| - 1]), QuoteDepth(blocks[|blocks| - 1]))
  }

  // BOUNDED: a rendered post never nests quotes more than MAX_QUOTE_DEPTH deep, whatever its lines ask for.
  lemma {:induction false} QuotesAreBounded(lines: seq<Line>, blocks: seq<Block>, depth: nat)
    requires Renders(lines, blocks, depth) && depth <= MAX_QUOTE_DEPTH
    ensures depth + DocDepth(blocks) <= MAX_QUOTE_DEPTH
    decreases blocks, 1
  {
    var spans :| Placed(lines, |lines|, blocks, spans, depth);
    PlacedDepth(lines, |lines|, blocks, spans, depth);
  }

  lemma {:induction false} PlacedDepth(lines: seq<Line>, n: nat, blocks: seq<Block>, spans: seq<Span>, depth: nat)
    requires Placed(lines, n, blocks, spans, depth) && depth <= MAX_QUOTE_DEPTH
    ensures depth + DocDepth(blocks) <= MAX_QUOTE_DEPTH
    decreases blocks, 0
  {
    if blocks != [] {
      var m := |blocks| - 1;
      var b := blocks[m];
      PlacedDepth(lines, spans[m].start, blocks[..m], spans[..m], depth);
      assert PlacedAt(lines, b, spans[m], depth) && Fits(b, depth);
      if b.Quote? {
        QuotesAreBounded(Unquoted(b.lines), b.inner, depth + 1);
      }
    }
  }

  // ---- nothing is lost -----------------------------------------------

  lemma {:induction false} WithBlanksConcat(a: seq<Line>, b: seq<Line>, keptA: seq<Line>, keptB: seq<Line>)
    requires WithBlanks(a, keptA) && WithBlanks(b, keptB)
    ensures WithBlanks(a + b, keptA + keptB)
    decreases |b|
  {
    if b == [] {
      assert a + b == a && keptA + keptB == keptA;
    } else {
      var front, last := b[..|b| - 1], b[|b| - 1];
      assert (a + b)[..|a + b| - 1] == a + front;
      if keptB != [] && keptB[|keptB| - 1] == last && WithBlanks(front, keptB[..|keptB| - 1]) {
        WithBlanksConcat(a, front, keptA, keptB[..|keptB| - 1]);
        assert (keptA + keptB)[..|keptA + keptB| - 1] == keptA + keptB[..|keptB| - 1];
      } else {
        WithBlanksConcat(a, front, keptA, keptB);
      }
    }
  }

  lemma {:induction false} WithBlanksSelf(a: seq<Line>)
    ensures WithBlanks(a, a)
  {
    if a != [] {
      WithBlanksSelf(a[..|a| - 1]);
    }
  }

  lemma {:induction false} BlanksGone(lines: seq<Line>, start: nat, stop: nat)
    requires AllBlank(lines, start, stop)
    ensures WithBlanks(lines[start..stop], [])
    decreases stop
  {
    if start < stop {
      BlanksGone(lines, start, stop - 1);
      assert lines[start..stop][..stop - 1 - start] == lines[start..stop - 1];
    }
  }

  // A block and the blank lines after it.
  lemma JoinSpan(lines: seq<Line>, start: nat, stop: nat, n: nat, kept: seq<Line>, own: seq<Line>)
    requires start <= stop && AllBlank(lines, stop, n)
    requires WithBlanks(lines[..start], kept) && WithBlanks(lines[start..stop], own)
    ensures WithBlanks(lines[..n], kept + own)
  {
    BlanksGone(lines, stop, n);
    WithBlanksConcat(lines[..start], lines[start..stop], kept, own);
    assert lines[..stop] == lines[..start] + lines[start..stop];
    WithBlanksConcat(lines[..stop], lines[stop..n], kept + own, []);
    assert lines[..n] == lines[..stop] + lines[stop..n] && kept + own + [] == kept + own;
  }

  lemma PlacedCovers(lines: seq<Line>, b: Block, span: Span, depth: nat)
    requires PlacedAt(lines, b, span, depth)
    ensures span.start < span.stop <= |lines| && WithBlanks(lines[span.start..span.stop], BlockLines(b))
  {
    WithBlanksSelf(BlockLines(b));
  }

  lemma {:induction false} PlacedLines(lines: seq<Line>, n: nat, blocks: seq<Block>, spans: seq<Span>, depth: nat)
    requires Placed(lines, n, blocks, spans, depth)
    ensures n <= |lines| && WithBlanks(lines[..n], DocLines(blocks))
    decreases |blocks|
  {
    if blocks == [] {
      BlanksGone(lines, 0, n);
    } else {
      var m := |blocks| - 1;
      PlacedLines(lines, spans[m].start, blocks[..m], spans[..m], depth);
      PlacedCovers(lines, blocks[m], spans[m], depth);
      JoinSpan(lines, spans[m].start, spans[m].stop, n, DocLines(blocks[..m]), BlockLines(blocks[m]));
    }
  }

  lemma {:induction false} KeptCounts(lines: seq<Line>, kept: seq<Line>)
    requires WithBlanks(lines, kept)
    ensures forall l: Line :: multiset(kept)[l] <= multiset(lines)[l]
    ensures forall l: Line :: !l.blank ==> multiset(kept)[l] == multiset(lines)[l]
    decreases lines
  {
    if lines != [] {
      var front, last := lines[..|lines| - 1], lines[|lines| - 1];
      assert lines == front + [last];
      if kept != [] && kept[|kept| - 1] == last && WithBlanks(front, kept[..|kept| - 1]) {
        KeptCounts(front, kept[..|kept| - 1]);
        assert kept == kept[..|kept| - 1] + [last];
      } else {
        KeptCounts(front, kept);
      }
    }
  }

  // ALL LINES: every line that is not blank is in the blocks exactly as often as in the post, and in its order.
  lemma NoLineIsLost(lines: seq<Line>, blocks: seq<Block>, depth: nat)
    requires Renders(lines, blocks, depth)
    ensures WithBlanks(lines, DocLines(blocks))
    ensures forall l: Line :: !l.blank ==> multiset(DocLines(blocks))[l] == multiset(lines)[l]
  {
    var spans :| Placed(lines, |lines|, blocks, spans, depth);
    PlacedLines(lines, |lines|, blocks, spans, depth);
    assert lines[..|lines|] == lines;
    KeptCounts(lines, DocLines(blocks));
  }
}
