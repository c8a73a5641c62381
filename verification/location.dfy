/**
 * Source positions and spans.
 *
 * A position is a zero-based (line, column) pair ordered line-major, then
 * column-minor; a location is a (begin, end) pair of positions that is read as
 * half-open by `Contains` and as closed by `ContainsClosed`.
 */
module Location {
  import opened Wrappers

  datatype LexPosition = LexPosition(line: nat, column: nat)

  datatype LexLocation = LexLocation(begin: LexPosition, end: LexPosition)

  const ZeroPosition: LexPosition := LexPosition(0, 0)
  const ZeroLocation: LexLocation := LexLocation(ZeroPosition, ZeroPosition)

  /** Componentwise equality of positions. */
  predicate Eq(a: LexPosition, b: LexPosition) {
    a.line == b.line && a.column == b.column
  }

  predicate Lt(a: LexPosition, b: LexPosition) {
    if a.line == b.line then a.column < b.column else a.line < b.line
  }

  predicate Gt(a: LexPosition, b: LexPosition) {
    if a.line == b.line then a.column > b.column else a.line > b.line
  }

  predicate Le(a: LexPosition, b: LexPosition) {
    Eq(a, b) || Lt(a, b)
  }

  predicate Ge(a: LexPosition, b: LexPosition) {
    Eq(a, b) || Gt(a, b)
  }

  /** The comparison behind `partial_cmp`: it never answers `None`. */
  function PartialCmp(a: LexPosition, b: LexPosition): (r: Option<Ordering>)
    ensures r.Some?
    ensures r == Some(Equal) <==> a == b
    ensures r == Some(Less) <==> (a.line < b.line || (a.line == b.line && a.column < b.column))
    ensures r == Some(Greater) <==> (a.line > b.line || (a.line == b.line && a.column > b.column))
  {
    if Eq(a, b) then Some(Equal)
    else if Lt(a, b) then Some(Less)
    else if Gt(a, b) then Some(Greater)
    else None
  }

  /** A same-line span that starts at `begin` and is `length` columns wide. */
  function LineOffset(begin: LexPosition, length: nat): (r: LexLocation)
    ensures r.begin == begin
    ensures r.end.line == begin.line && r.end.column - r.begin.column == length
    ensures Le(r.begin, r.end)
  {
    LexLocation(begin, LexPosition(begin.line, begin.column + length))
  }

  /** The zero-width span at `begin`. */
  function LineZero(begin: LexPosition): (r: LexLocation)
    ensures r.begin == begin && r.end == begin
    ensures forall p :: !Contains(r, p)
  {
    LineOffset(begin, 0)
  }

  /** `outer` spans at least everything `inner` spans. */
  predicate Enclose(outer: LexLocation, inner: LexLocation) {
    Le(outer.begin, inner.begin) && Ge(outer.end, inner.end)
  }

  /** Half-open membership: `begin <= p < end`. */
  predicate Contains(loc: LexLocation, p: LexPosition) {
    Le(loc.begin, p) && Gt(loc.end, p)
  }

  /** Closed membership: `begin <= p <= end`. */
  predicate ContainsClosed(loc: LexLocation, p: LexPosition) {
    Le(loc.begin, p) && Ge(loc.end, p)
  }

  /** Componentwise equality of locations. */
  predicate LocationEq(a: LexLocation, b: LexLocation) {
    Eq(a.begin, b.begin) && Eq(a.end, b.end)
  }

  // ---------------------------------------------------------------------------
  // Properties of the position order
  // ---------------------------------------------------------------------------

  /** Equality of positions and locations is exactly structural equality. */
  lemma EqIsStructural(a: LexPosition, b: LexPosition, x: LexLocation, y: LexLocation)
    ensures Eq(a, b) <==> a == b
    ensures LocationEq(x, y) <==> x == y
  {
  }

  /** `gt` is the converse of `lt`, and exactly one of `lt`, `eq`, `gt` holds. */
  lemma Trichotomy(a: LexPosition, b: LexPosition)
    ensures Gt(a, b) <==> Lt(b, a)
    ensures Lt(a, b) || Eq(a, b) || Gt(a, b)
    ensures !(Lt(a, b) && Eq(a, b)) && !(Lt(a, b) && Gt(a, b)) && !(Eq(a, b) && Gt(a, b))
  {
  }

  lemma LtTransitive(a: LexPosition, b: LexPosition, c: LexPosition)
    requires Lt(a, b) && Lt(b, c)
    ensures Lt(a, c)
  {
  }

  /** `le` is a total order: reflexive, antisymmetric, transitive and total. */
  lemma LeTotalOrder(a: LexPosition, b: LexPosition, c: LexPosition)
    ensures Le(a, a)
    ensures Le(a, b) && Le(b, a) ==> a == b
    ensures Le(a, b) && Le(b, c) ==> Le(a, c)
    ensures Le(a, b) || Le(b, a)
    ensures Ge(a, b) <==> Le(b, a)
  {
  }

  // ---------------------------------------------------------------------------
  // Properties of spans
  // ---------------------------------------------------------------------------

  lemma EncloseReflexive(a: LexLocation)
    ensures Enclose(a, a)
  {
  }

  lemma EncloseTransitive(a: LexLocation, b: LexLocation, c: LexLocation)
    requires Enclose(a, b) && Enclose(b, c)
    ensures Enclose(a, c)
  {
    LeTotalOrder(a.begin, b.begin, c.begin);
    LeTotalOrder(c.end, b.end, a.end);
  }

  /** `contains` is half-open: never the end, and the begin exactly when the span is non-empty. */
  lemma ContainsHalfOpen(a: LexLocation)
    ensures !Contains(a, a.end)
    ensures Contains(a, a.begin) <==> Lt(a.begin, a.end)
  {
  }

  lemma ContainsImpliesClosed(a: LexLocation, p: LexPosition)
    requires Contains(a, p)
    ensures ContainsClosed(a, p)
  {
  }

  /** A position inside an enclosed span is inside the enclosing span. */
  lemma EncloseContains(a: LexLocation, b: LexLocation, p: LexPosition)
    requires Enclose(a, b) && Contains(b, p)
    ensures Contains(a, p)
  {
    LeTotalOrder(a.begin, b.begin, p);
  }
}
