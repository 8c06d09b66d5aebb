/** Rendered HTML as a word of tags and text, and what "properly nested" means for it. */
module TagWords {
  import opened Util

  datatype Tag = Em | Strong | Del | Anchor
    | Para | Pre | Heading(level: nat) | Quote | Numbers | Bullets | Item | Table | Row | Cell | CodeSpan

  // Where a text of a post comes from, by line numbers: a paragraph, a list item, a code block, a heading, a table cell.
  datatype Source =
    | ParaText(lines: seq<nat>) | ItemText(lines: seq<nat>) | CodeText(lines: seq<nat>)
    | HeadingText(line: nat) | CellText(line: nat, column: nat)

  // Shown: the place of a text; Rule: a void element.
  datatype Piece = Open(tag: Tag) | Close(tag: Tag) | Char(c: char) | Break | Shown(text: Source) | Rule

  // Reads a word against a stack of open tags; None when a tag closes that is not the innermost open one.
  function Read(word: seq<Piece>, stack: seq<Tag>): Option<seq<Tag>>
    decreases |word|
  {
    if word == [] then Some(stack)
    else match word[0]
      case Open(t) => Read(word[1..], stack + [t])
      case Close(t) => if stack != [] && stack[|stack| - 1] == t then Read(word[1..], stack[..|stack| - 1]) else None
      case _ => Read(word[1..], stack)
  }

  // Properly nested: every tag that opens closes, innermost first.
  predicate Nested(word: seq<Piece>) {
    Read(word, []) == Some([])
  }

  lemma {:induction false} ReadConcat(a: seq<Piece>, b: seq<Piece>, stack: seq<Tag>)
    ensures Read(a + b, stack) == match Read(a, stack) { case None => None case Some(s) => Read(b, s) }
    decreases |a|
  {
    if a == [] {
      assert a + b == b;
    } else {
      assert (a + b)[0] == a[0] && (a + b)[1..] == a[1..] + b;
      match a[0]
      case Open(t) => ReadConcat(a[1..], b, stack + [t]);
      case Close(t) =>
        if stack != [] && stack[|stack| - 1] == t {
          ReadConcat(a[1..], b, stack[..|stack| - 1]);
        }
      case _ => ReadConcat(a[1..], b, stack);
    }
  }

  // What is already open stays open underneath.
  lemma {:induction false} ReadOnTop(word: seq<Piece>, base: seq<Tag>, stack: seq<Tag>)
    requires Read(word, stack).Some?
    ensures Read(word, base + stack) == Some(base + Read(word, stack).value)
    decreases |word|
  {
    if word != [] {
      match word[0]
      case Open(t) =>
        assert (base + stack) + [t] == base + (stack + [t]);
        ReadOnTop(word[1..], base, stack + [t]);
      case Close(t) =>
        assert (base + stack)[..|base + stack| - 1] == base + stack[..|stack| - 1];
        ReadOnTop(word[1..], base, stack[..|stack| - 1]);
      case _ => ReadOnTop(word[1..], base, stack);
    }
  }

  lemma NestedAnywhere(word: seq<Piece>, stack: seq<Tag>)
    requires Nested(word)
    ensures Read(word, stack) == Some(stack)
  {
    ReadOnTop(word, stack, []);
    assert stack + [] == stack;
  }

  lemma NestedConcat(a: seq<Piece>, b: seq<Piece>)
    requires Nested(a) && Nested(b)
    ensures Nested(a + b)
  {
    ReadConcat(a, b, []);
  }

  // Cutting a nested end off a nested word leaves a nested word.
  lemma NestedFront(a: seq<Piece>, b: seq<Piece>)
    requires Nested(a + b) && Nested(b)
    ensures Nested(a)
  {
    ReadConcat(a, b, []);
    NestedAnywhere(b, Read(a, []).value);
  }

  lemma NestedWrap(t: Tag, word: seq<Piece>)
    requires Nested(word)
    ensures Nested([Open(t)] + word + [Close(t)])
  {
    var w := [Open(t)] + word;
    assert w[1..] == word;
    NestedAnywhere(word, [t]);
    assert Read(w, []) == Some([t]) by { assert [] + [t] == [t]; }
    ReadConcat(w, [Close(t)], []);
    assert [t][..0] == [];
    assert [Close(t)][1..] == [];
    assert Read([Close(t)][1..], []) == Some([]);
  }

  // The same character n times.
  function Repeat(c: char, n: nat): seq<Piece> {
    if n == 0 then [] else [Char(c)] + Repeat(c, n - 1)
  }

  function Chars(s: string): seq<Piece> {
    if s == [] then [] else [Char(s[0])] + Chars(s[1..])
  }

  lemma {:induction false} RepeatNested(c: char, n: nat)
    ensures Nested(Repeat(c, n))
  {
    if n > 0 {
      RepeatNested(c, n - 1);
      assert Repeat(c, n)[1..] == Repeat(c, n - 1);
    }
  }

  lemma {:induction false} CharsNested(s: string)
    ensures Nested(Chars(s))
  {
    if s != [] {
      CharsNested(s[1..]);
      assert Chars(s)[1..] == Chars(s[1..]);
    }
  }
}
