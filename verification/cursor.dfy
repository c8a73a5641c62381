/**
 * The lexer's scan state: the source text and the number of characters
 * consumed (`offset`). The current character is `src[offset]` when there is
 * one. The lexer also keeps the current line and the offset at which that
 * line starts, updating both in `consume`; those two counters are always
 * the number of line feeds consumed and the offset just after the last of
 * them, so here they are computed from the consumed text (`LinesBefore`,
 * `LineStartBefore`) and `ConsumePosition` states how `consume` moves them.
 */
module Cursor {
  import opened Wrappers
  import opened Location

  /** The number of line feeds among the first `i` characters of `s`. */
  function LinesBefore(s: string, i: nat): nat
    requires i <= |s|
  {
    if i == 0 then 0
    else LinesBefore(s, i - 1) + (if s[i - 1] == '\n' then 1 else 0)
  }

  /** The offset just after the last line feed among the first `i` characters of `s` (0 if none). */
  function LineStartBefore(s: string, i: nat): (r: nat)
    requires i <= |s|
    ensures r <= i
    ensures r > 0 ==> s[r - 1] == '\n'
  {
    if i == 0 then 0
    else if s[i - 1] == '\n' then i
    else LineStartBefore(s, i - 1)
  }

  /** No line feed lies between the start of the current line and `i`. */
  lemma {:induction false} LineStartClear(s: string, i: nat)
    requires i <= |s|
    ensures forall k :: LineStartBefore(s, i) <= k < i ==> s[k] != '\n'
    decreases i
  {
    if i > 0 && s[i - 1] != '\n' {
      LineStartClear(s, i - 1);
    }
  }

  datatype Scan = Scan(src: string, offset: nat)

  type Cursor = s: Scan | s.offset <= |s.src| witness Scan("", 0)

  /** The state of a fresh lexer over `src`. */
  function Start(src: string): (r: Cursor)
    ensures r.src == src && r.offset == 0
    ensures Position(r) == ZeroPosition
  {
    Scan(src, 0)
  }

  predicate AtEnd(c: Cursor) {
    c.offset == |c.src|
  }

  /** The lookahead character (`current_char`). */
  function Current(c: Cursor): (r: Option<char>)
    ensures r.None? <==> AtEnd(c)
    ensures r.Some? ==> r.value == c.src[c.offset]
  {
    if c.offset < |c.src| then Some(c.src[c.offset]) else None
  }

  /** Is the lookahead the character `ch`? */
  predicate CurrentIs(c: Cursor, ch: char) {
    c.offset < |c.src| && c.src[c.offset] == ch
  }

  /** `position`: the current line, and the column as the distance from the start of that line. */
  function Position(c: Cursor): (r: LexPosition) {
    LexPosition(LinesBefore(c.src, c.offset), c.offset - LineStartBefore(c.src, c.offset))
  }

  /** `consume`: nothing at end of input, otherwise one character further. */
  function Consume(c: Cursor): (r: Cursor)
    ensures r.src == c.src
    ensures AtEnd(c) ==> r == c
    ensures !AtEnd(c) ==> r.offset == c.offset + 1
  {
    if c.offset == |c.src| then c else Scan(c.src, c.offset + 1)
  }

  /**
   * How `consume` moves the line counters: past a line feed onto the next
   * line at column 0, past any other character one column to the right.
   */
  lemma ConsumePosition(c: Cursor)
    requires !AtEnd(c)
    ensures c.src[c.offset] == '\n' ==>
              Position(Consume(c)) == LexPosition(Position(c).line + 1, 0)
    ensures c.src[c.offset] != '\n' ==>
              Position(Consume(c)) == LexPosition(Position(c).line, Position(c).column + 1)
  {
  }

  /** `d` is `c` or a later state of the same scan. */
  predicate Follows(c: Cursor, d: Cursor) {
    d.src == c.src && c.offset <= d.offset
  }

  // ---------------------------------------------------------------------------
  // Positions along a scan
  // ---------------------------------------------------------------------------

  lemma {:induction false} LinesMonotone(s: string, i: nat, j: nat)
    requires i <= j <= |s|
    ensures LinesBefore(s, i) <= LinesBefore(s, j)
    ensures LinesBefore(s, i) == LinesBefore(s, j) ==> LineStartBefore(s, i) == LineStartBefore(s, j)
    decreases j - i
  {
    if i < j {
      LinesMonotone(s, i, j - 1);
      if s[j - 1] != '\n' {
        assert LineStartBefore(s, j) == LineStartBefore(s, j - 1);
      }
    }
  }

  /** Positions never move backwards along a scan, and strictly advance with every consumed character. */
  lemma PositionMonotone(c: Cursor, d: Cursor)
    requires Follows(c, d)
    ensures Le(Position(c), Position(d))
    ensures c.offset < d.offset ==> Lt(Position(c), Position(d))
  {
    LinesMonotone(c.src, c.offset, d.offset);
  }

  /** Across a stretch without line feeds the line stays and the column grows by the characters consumed. */
  lemma {:induction false} SameLine(c: Cursor, d: Cursor)
    requires Follows(c, d)
    requires forall k :: c.offset <= k < d.offset ==> c.src[k] != '\n'
    ensures Position(d).line == Position(c).line
    ensures Position(d).column == Position(c).column + (d.offset - c.offset)
  {
    LinesMonotone(c.src, c.offset, d.offset);
    if LinesBefore(c.src, c.offset) != LinesBefore(c.src, d.offset) {
      var k := LineStartBefore(c.src, d.offset);
      assert k > c.offset by {
        if k <= c.offset {
          LinesMonotone(c.src, k, c.offset);
          LinesMonotone(c.src, k, d.offset);
          LinesAfterStart(c.src, d.offset);
          LinesAfterStart(c.src, c.offset);
          LineStartMonotone(c.src, c.offset, d.offset);
        }
      }
      assert false;
    }
  }

  /** No line feed lies between the last line start and `i`, so the count there equals the count at `i`. */
  lemma {:induction false} LinesAfterStart(s: string, i: nat)
    requires i <= |s|
    ensures LinesBefore(s, LineStartBefore(s, i)) == LinesBefore(s, i)
    decreases i
  {
    if i > 0 && s[i - 1] != '\n' {
      LinesAfterStart(s, i - 1);
    }
  }

  lemma {:induction false} LineStartMonotone(s: string, i: nat, j: nat)
    requires i <= j <= |s|
    ensures LineStartBefore(s, i) <= LineStartBefore(s, j)
    decreases j - i
  {
    if i < j {
      LineStartMonotone(s, i, j - 1);
    }
  }

  // ---------------------------------------------------------------------------
  // Stepping over known text
  // ---------------------------------------------------------------------------

  /** The text from the lookahead on starts with `w`. */
  predicate LooksAt(c: Cursor, w: string) {
    c.offset + |w| <= |c.src| && forall k :: 0 <= k < |w| ==> c.src[c.offset + k] == w[k]
  }

  /** `consume` applied `n` times. */
  function Advance(c: Cursor, n: nat): (r: Cursor)
    ensures Follows(c, r)
    ensures r.offset == if c.offset + n <= |c.src| then c.offset + n else |c.src|
    decreases n
  {
    if n == 0 then c else Advance(Consume(c), n - 1)
  }

  lemma AdvanceStep(c: Cursor, n: nat)
    requires n > 0
    ensures Advance(c, n) == Advance(Consume(c), n - 1)
  {
  }

  lemma AdvanceNext(c: Cursor, n: nat)
    ensures Advance(c, n + 1) == Advance(Consume(c), n)
  {
  }

  lemma AdvanceAdd(c: Cursor, a: nat, b: nat)
    ensures Advance(Advance(c, a), b) == Advance(c, a + b)
  {
  }

  /** Consuming the first character of expected text leaves the rest of it ahead. */
  lemma LooksAtConsume(c: Cursor, w: string)
    requires LooksAt(c, w) && |w| > 0
    ensures CurrentIs(c, w[0])
    ensures LooksAt(Consume(c), w[1..])
  {
    assert c.src[c.offset + 0] == w[0];
  }

  /** Expected text splits at any point: the second part lies ahead once the first is stepped over. */
  lemma LooksAtAppend(c: Cursor, a: string, b: string)
    requires LooksAt(c, a + b)
    ensures LooksAt(c, a)
    ensures LooksAt(Advance(c, |a|), b)
  {
    forall k | 0 <= k < |a|
      ensures c.src[c.offset + k] == a[k]
    {
      assert (a + b)[k] == a[k];
    }
    forall k | 0 <= k < |b|
      ensures c.src[c.offset + |a| + k] == b[k]
    {
      assert (a + b)[|a| + k] == b[k];
    }
  }

  lemma LooksAtSlice(c: Cursor, w: string)
    requires LooksAt(c, w)
    ensures c.src[c.offset..c.offset + |w|] == w
  {
  }
}
