/**
  The document-layout engine that the combinators build on (the `pretty`
  crate's `RcDoc`). Its real, width-aware fitting algorithm is not part of
  this model; only its primitives are, together with three interpretations
  that are modelling assumptions in the style of Wadler's prettier-printer
  algebra:

  - `Flat`: every group fits, so `Line` is a space and `SoftLine` nothing;
  - `Broken`: every group breaks, so `Line` and `SoftLine` are newlines;
  - `Layouts`: the set of every text a fitting engine may choose, where each
    group met in a breaking context either fits (is rendered flat) or breaks.
 */
module Engine {

  /** A document tree: text atoms, flexible breaks, groups and concatenation. */
  datatype RcDoc =
    | Nil
    | Text(s: string)
    | Line
    | SoftLine
    | Group(body: RcDoc)
    | Cat(left: RcDoc, right: RcDoc)

  /** Whether the enclosing group fits on the line (flat) or is broken. */
  datatype Mode = FlatMode | BreakMode

  /** The text of `d` when every group around and inside it resolves as `m`. */
  function Render(d: RcDoc, m: Mode): string
  {
    match d
    case Nil => ""
    case Text(s) => s
    case Line => if m == FlatMode then " " else "\n"
    case SoftLine => if m == FlatMode then "" else "\n"
    case Group(x) => Render(x, m)
    case Cat(a, b) => Render(a, m) + Render(b, m)
  }

  /** The text of `d` when everything fits. */
  function Flat(d: RcDoc): string
  {
    Render(d, FlatMode)
  }

  /** The text of `d` when everything breaks, as at width 0. */
  function Broken(d: RcDoc): string
  {
    Render(d, BreakMode)
  }

  /** Every concatenation of a text of `xs` with a text of `ys`. */
  function Product(xs: set<string>, ys: set<string>): set<string>
  {
    set x, y | x in xs && y in ys :: x + y
  }

  /**
    Every text the engine may produce for `d` in context `m`: inside a
    flat context everything is flat; in a breaking context each group
    independently fits or breaks, while breaks outside any group break.
   */
  function Layouts(d: RcDoc, m: Mode): set<string>
  {
    match d
    case Nil => {""}
    case Text(s) => {s}
    case Line => {Render(Line, m)}
    case SoftLine => {Render(SoftLine, m)}
    case Group(x) =>
      if m == FlatMode then Layouts(x, FlatMode)
      else Layouts(x, FlatMode) + Layouts(x, BreakMode)
    case Cat(a, b) => Product(Layouts(a, m), Layouts(b, m))
  }

  /** Product of two singletons. */
  lemma ProductSingletons(x: string, y: string)
    ensures Product({x}, {y}) == {x + y}
  {
  }

  /** In a flat context a document has exactly one layout, its flat text. */
  lemma {:induction false} FlatLayouts(d: RcDoc)
    ensures Layouts(d, FlatMode) == {Flat(d)}
  {
    match d
    case Nil =>
    case Text(_) =>
    case Line =>
    case SoftLine =>
    case Group(x) =>
      FlatLayouts(x);
    case Cat(a, b) =>
      FlatLayouts(a);
      FlatLayouts(b);
      ProductSingletons(Flat(a), Flat(b));
  }

  /** Breaking every group is one of the layouts of a breaking context. */
  lemma {:induction false} BrokenIsLayout(d: RcDoc)
    ensures Broken(d) in Layouts(d, BreakMode)
  {
    match d
    case Nil =>
    case Text(_) =>
    case Line =>
    case SoftLine =>
    case Group(x) =>
      BrokenIsLayout(x);
    case Cat(a, b) =>
      BrokenIsLayout(a);
      BrokenIsLayout(b);
      assert Broken(d) == Broken(a) + Broken(b);
  }

  /**
    A group met in a breaking context has exactly its flat text and its
    breaking-context layouts; in particular, fitting is one of its choices.
   */
  lemma GroupLayouts(d: RcDoc)
    ensures Layouts(Group(d), BreakMode) == {Flat(d)} + Layouts(d, BreakMode)
    ensures Flat(d) in Layouts(Group(d), BreakMode)
    ensures Broken(d) in Layouts(Group(d), BreakMode)
  {
    FlatLayouts(d);
    BrokenIsLayout(d);
  }

  /** Grouping twice offers the same choices as grouping once. */
  lemma GroupTwice(d: RcDoc, m: Mode)
    ensures Layouts(Group(Group(d)), m) == Layouts(Group(d), m)
    ensures Render(Group(Group(d)), m) == Render(Group(d), m)
  {
  }

  /** The empty text is a unit of `Product`. */
  lemma ProductUnit(ls: set<string>)
    ensures Product({""}, ls) == ls
    ensures Product(ls, {""}) == ls
  {
    forall s | s in Product({""}, ls) ensures s in ls {
      var x, y :| x in {""} && y in ls && s == x + y;
      assert x == "";
      assert s == y;
    }
    forall s | s in ls ensures s in Product({""}, ls) {
      assert "" + s == s;
    }
    forall s | s in Product(ls, {""}) ensures s in ls {
      var x, y :| x in ls && y in {""} && s == x + y;
      assert y == "";
      assert s == x;
    }
    forall s | s in ls ensures s in Product(ls, {""}) {
      assert s + "" == s;
    }
  }

  /** `Product` is associative. */
  lemma ProductAssociative(la: set<string>, lb: set<string>, lc: set<string>)
    ensures Product(Product(la, lb), lc) == Product(la, Product(lb, lc))
  {
    forall s | s in Product(Product(la, lb), lc)
      ensures s in Product(la, Product(lb, lc))
    {
      var xy, z :| xy in Product(la, lb) && z in lc && s == xy + z;
      var x, y :| x in la && y in lb && xy == x + y;
      assert y + z in Product(lb, lc);
      assert s == x + (y + z);
    }
    forall s | s in Product(la, Product(lb, lc))
      ensures s in Product(Product(la, lb), lc)
    {
      var x, yz :| x in la && yz in Product(lb, lc) && s == x + yz;
      var y, z :| y in lb && z in lc && yz == y + z;
      assert x + y in Product(la, lb);
      assert s == (x + y) + z;
    }
  }

  /** `Nil` is a left unit of concatenation in every layout. */
  lemma CatNilLeft(d: RcDoc, m: Mode)
    ensures Layouts(Cat(Nil, d), m) == Layouts(d, m)
  {
    ProductUnit(Layouts(d, m));
  }

  /** `Nil` is a right unit of concatenation in every layout. */
  lemma CatNilRight(d: RcDoc, m: Mode)
    ensures Layouts(Cat(d, Nil), m) == Layouts(d, m)
  {
    ProductUnit(Layouts(d, m));
  }

  /** The bracketing of concatenations does not change any layout. */
  lemma CatAssociative(a: RcDoc, b: RcDoc, c: RcDoc, m: Mode)
    ensures Layouts(Cat(Cat(a, b), c), m) == Layouts(Cat(a, Cat(b, c)), m)
    ensures Render(Cat(Cat(a, b), c), m) == Render(Cat(a, Cat(b, c)), m)
  {
    ProductAssociative(Layouts(a, m), Layouts(b, m), Layouts(c, m));
  }

  /** The texts of a sequence of documents, in order. */
  function RenderAll(ds: seq<RcDoc>, m: Mode): seq<string>
  {
    seq(|ds|, i requires 0 <= i < |ds| => Render(ds[i], m))
  }

  /** Rendering one more document appends its text, leaving the others as they were. */
  lemma RenderAllSnoc(ds: seq<RcDoc>, d: RcDoc, m: Mode)
    ensures RenderAll(ds + [d], m) == RenderAll(ds, m) + [Render(d, m)]
  {
  }

  /** The texts of `ss` one after the other. */
  function Concatenation(ss: seq<string>): string
  {
    if |ss| == 0 then "" else ss[0] + Concatenation(ss[1..])
  }

  /** The texts of `ss` with `sep` between each adjacent pair. */
  function Join(ss: seq<string>, sep: string): string
  {
    if |ss| == 0 then ""
    else if |ss| == 1 then ss[0]
    else ss[0] + sep + Join(ss[1..], sep)
  }

  lemma {:induction false} ConcatenationSnoc(ss: seq<string>, s: string)
    ensures Concatenation(ss + [s]) == Concatenation(ss) + s
  {
    if |ss| == 0 {
      assert Concatenation([s]) == s + Concatenation([]);
    } else {
      assert (ss + [s])[1..] == ss[1..] + [s];
      ConcatenationSnoc(ss[1..], s);
    }
  }

  lemma {:induction false} JoinSnoc(ss: seq<string>, sep: string, s: string)
    requires |ss| > 0
    ensures Join(ss + [s], sep) == Join(ss, sep) + sep + s
  {
    if |ss| > 1 {
      assert (ss + [s])[1..] == ss[1..] + [s];
      JoinSnoc(ss[1..], sep, s);
    }
  }

  /**
    The engine's concatenation of a sequence of documents: a left-nested
    chain of `Cat` nodes with the first document as its leftmost leaf.
   */
  function ConcatDocs(ds: seq<RcDoc>): RcDoc
    decreases |ds|
  {
    if |ds| == 0 then Nil
    else if |ds| == 1 then ds[0]
    else Cat(ConcatDocs(ds[..|ds| - 1]), ds[|ds| - 1])
  }

  /** A concatenation renders as its parts' texts, in order, in every mode. */
  lemma {:induction false} ConcatDocsRender(ds: seq<RcDoc>, m: Mode)
    ensures Render(ConcatDocs(ds), m) == Concatenation(RenderAll(ds, m))
    decreases |ds|
  {
    if |ds| == 0 {
    } else if |ds| == 1 {
      assert Concatenation(RenderAll(ds, m)) == Render(ds[0], m) + Concatenation([]);
    } else {
      var init := ds[..|ds| - 1];
      ConcatDocsRender(init, m);
      assert ds == init + [ds[|ds| - 1]];
      RenderAllSnoc(init, ds[|ds| - 1], m);
      ConcatenationSnoc(RenderAll(init, m), Render(ds[|ds| - 1], m));
    }
  }

  /**
    Concatenation folded from `Nil`: appending the documents one at a time
    to an empty document, so that `Nil` is the innermost left operand.
   */
  function FoldFromNil(ds: seq<RcDoc>): RcDoc
    decreases |ds|
  {
    if |ds| == 0 then Nil
    else Cat(FoldFromNil(ds[..|ds| - 1]), ds[|ds| - 1])
  }

  /**
    Keeping the leading `Nil` of a fold, however deep in the chain it sits,
    changes neither the layouts nor the text of a concatenation.
   */
  lemma {:induction false} FoldFromNilLayouts(ds: seq<RcDoc>, m: Mode)
    ensures Layouts(FoldFromNil(ds), m) == Layouts(ConcatDocs(ds), m)
    ensures Render(FoldFromNil(ds), m) == Render(ConcatDocs(ds), m)
    decreases |ds|
  {
    if |ds| == 1 {
      assert ds[..0] == [];
      CatNilLeft(ds[0], m);
    } else if |ds| > 1 {
      FoldFromNilLayouts(ds[..|ds| - 1], m);
    }
  }

  /**
    The engine's interspersion: the documents of `ds` with a copy of `sep`
    between each adjacent pair, built left to right.
   */
  function IntersperseDocs(ds: seq<RcDoc>, sep: RcDoc): RcDoc
    decreases |ds|
  {
    if |ds| == 0 then Nil
    else if |ds| == 1 then ds[0]
    else Cat(Cat(IntersperseDocs(ds[..|ds| - 1], sep), sep), ds[|ds| - 1])
  }

  /**
    The parts of an interspersion: the items at the even positions, in
    order, and `sep` at each of the |ds| - 1 odd positions between them.
   */
  function Interleave(ds: seq<RcDoc>, sep: RcDoc): (ps: seq<RcDoc>)
    ensures |ds| == 0 ==> ps == []
    ensures |ds| > 0 ==> |ps| == 2 * |ds| - 1
    ensures forall k :: 0 <= k < |ps| ==> ps[k] == if k % 2 == 0 then ds[k / 2] else sep
    decreases |ds|
  {
    if |ds| == 0 then []
    else if |ds| == 1 then [ds[0]]
    else [ds[0], sep] + Interleave(ds[1..], sep)
  }

  lemma {:induction false} InterleaveSnoc(ds: seq<RcDoc>, sep: RcDoc, d: RcDoc)
    requires |ds| > 0
    ensures Interleave(ds + [d], sep) == Interleave(ds, sep) + [sep, d]
  {
  }

  lemma ConcatDocsSnoc2(ps: seq<RcDoc>, a: RcDoc, b: RcDoc)
    requires |ps| > 0
    ensures ConcatDocs(ps + [a, b]) == Cat(Cat(ConcatDocs(ps), a), b)
  {
    var pa, pab := ps + [a], ps + [a, b];
    assert pab[..|pab| - 1] == pa && pab[|pab| - 1] == b;
    assert pa[..|pa| - 1] == ps && pa[|pa| - 1] == a;
    assert ConcatDocs(pa) == Cat(ConcatDocs(ps), a);
  }

  /**
    An interspersion is exactly the concatenation of its interleaved parts:
    the items in order with one `sep` between each adjacent pair.
   */
  lemma {:induction false} IntersperseIsInterleavedConcat(ds: seq<RcDoc>, sep: RcDoc)
    ensures IntersperseDocs(ds, sep) == ConcatDocs(Interleave(ds, sep))
    decreases |ds|
  {
    if |ds| >= 2 {
      var init, last := ds[..|ds| - 1], ds[|ds| - 1];
      IntersperseIsInterleavedConcat(init, sep);
      assert ds == init + [last];
      InterleaveSnoc(init, sep, last);
      ConcatDocsSnoc2(Interleave(init, sep), sep, last);
    }
  }

  /** An interspersion renders as its items' texts joined by `sep`'s text. */
  lemma {:induction false} IntersperseDocsRender(ds: seq<RcDoc>, sep: RcDoc, m: Mode)
    ensures Render(IntersperseDocs(ds, sep), m) == Join(RenderAll(ds, m), Render(sep, m))
    decreases |ds|
  {
    if |ds| >= 2 {
      var init := ds[..|ds| - 1];
      IntersperseDocsRender(init, sep, m);
      assert ds == init + [ds[|ds| - 1]];
      RenderAllSnoc(init, ds[|ds| - 1], m);
      JoinSnoc(RenderAll(init, m), Render(sep, m), Render(ds[|ds| - 1], m));
    }
  }
}
