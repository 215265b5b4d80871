/**
  The convenience layer over the document engine: the `PrettySimple`
  capability (its three implementations and its default `append`), the
  delimiter, operator, interspersion and tuple combinators, and the `doc!`
  macro as a left fold over a sequence of printable values.
 */
module PrettyUtil {
  import opened Engine

  /** The values that are `PrettySimple`: text, a built document, and `Ln`. */
  datatype Printable =
    | Str(s: string)
    | Doc(d: RcDoc)
    | Ln

  /**
    Conversion to a document: text becomes one text atom that reads the same
    in every layout, a document is passed through unchanged, and `Ln` is the
    engine's flexible line (a space when it fits, a newline when broken).
   */
  function Pprint(p: Printable): (r: RcDoc)
    ensures p.Str? ==> r.Text? && forall m :: Layouts(r, m) == {p.s}
    ensures p.Doc? ==> r == p.d
    ensures p.Ln? ==> r == Line && Flat(r) == " " && Broken(r) == "\n"
  {
    match p
    case Str(s) => Text(s)
    case Doc(d) => d
    case Ln => Line
  }

  /** The documents of a sequence of printable values, in order. */
  function Pprints(items: seq<Printable>): seq<RcDoc>
  {
    seq(|items|, i requires 0 <= i < |items| => Pprint(items[i]))
  }

  /** Converting one more value appends its document, leaving the others as they were. */
  lemma PprintsSnoc(items: seq<Printable>, p: Printable)
    ensures Pprints(items + [p]) == Pprints(items) + [Pprint(p)]
  {
  }

  /**
    The capability's default `append`: the two documents one after the
    other, with no separator, in every mode.
   */
  function Append(a: Printable, b: Printable): (r: RcDoc)
    ensures Flat(r) == Flat(Pprint(a)) + Flat(Pprint(b))
    ensures Broken(r) == Broken(Pprint(a)) + Broken(Pprint(b))
  {
    Cat(Pprint(a), Pprint(b))
  }

  /** Chained appends may be bracketed either way: every layout is the same. */
  lemma AppendAssociative(a: Printable, b: Printable, c: Printable, m: Mode)
    ensures Layouts(Append(Doc(Append(a, b)), c), m) == Layouts(Append(a, Doc(Append(b, c))), m)
  {
    CatAssociative(Pprint(a), Pprint(b), Pprint(c), m);
  }

  /** `t(s)`: a plain text atom, the same as converting `s` itself. */
  function T(s: string): (r: RcDoc)
    ensures r == Pprint(Str(s))
    ensures Flat(r) == s == Broken(r)
  {
    Text(s)
  }

  /**
    `l`, a soft line, `x` in its own group, a soft line, `r`: flat it reads
    `l x r` with nothing inserted; broken, `l`, `x` and `r` are on lines of
    their own.
   */
  function SurroundedBy(l: string, x: Printable, r: string): (res: RcDoc)
    ensures Flat(res) == l + Flat(Pprint(x)) + r
    ensures Broken(res) == l + "\n" + Broken(Pprint(x)) + "\n" + r
  {
    var open := Cat(Text(l), SoftLine);
    var body := Cat(open, Group(Pprint(x)));
    var close := Cat(body, SoftLine);
    var fx, bx := Flat(Pprint(x)), Broken(Pprint(x));
    assert Flat(Text(l)) == l && Flat(SoftLine) == "" && Flat(Text(r)) == r;
    assert Broken(Text(l)) == l && Broken(SoftLine) == "\n" && Broken(Text(r)) == r;
    assert Flat(Group(Pprint(x))) == fx && Broken(Group(Pprint(x))) == bx;
    assert Flat(open) == l + "" == l;
    assert Flat(body) == l + fx;
    assert Flat(close) == l + fx + "" == l + fx;
    assert Broken(open) == l + "\n";
    assert Broken(body) == l + "\n" + bx;
    assert Broken(close) == l + "\n" + bx + "\n";
    Cat(close, Text(r))
  }

  /** Each text of `g` on a line of its own, between a line `l` and a line `r`. */
  function Framed(l: string, g: set<string>, r: string): set<string>
  {
    set b | b in g :: l + "\n" + b + "\n" + r
  }

  lemma FramedProduct(l: string, g: set<string>, r: string)
    ensures Product(Product(Product(Product({l}, {"\n"}), g), {"\n"}), {r}) == Framed(l, g, r)
  {
  }

  /**
    In a flat context a surrounded document has one layout; in a breaking
    context its two soft lines break and its body's own group decides, on
    its own, between the body's flat text and its other layouts.
   */
  lemma SurroundedByLayouts(l: string, x: Printable, r: string)
    ensures Layouts(SurroundedBy(l, x, r), FlatMode) == {l + Flat(Pprint(x)) + r}
    ensures Layouts(SurroundedBy(l, x, r), BreakMode) == Framed(l, Layouts(Group(Pprint(x)), BreakMode), r)
  {
    FlatLayouts(SurroundedBy(l, x, r));
    var g := Layouts(Group(Pprint(x)), BreakMode);
    var open := Cat(Text(l), SoftLine);
    var body := Cat(open, Group(Pprint(x)));
    var close := Cat(body, SoftLine);
    assert SurroundedBy(l, x, r) == Cat(close, Text(r));
    assert Layouts(open, BreakMode) == Product({l}, {"\n"});
    assert Layouts(body, BreakMode) == Product(Product({l}, {"\n"}), g);
    assert Layouts(close, BreakMode) == Product(Product(Product({l}, {"\n"}), g), {"\n"});
    FramedProduct(l, g, r);
  }

  /** `[` `x` `]`, and nothing other than `SurroundedBy` with those delimiters. */
  function Brackets(x: Printable): (res: RcDoc)
    ensures res == SurroundedBy("[", x, "]")
    ensures Flat(res) == "[" + Flat(Pprint(x)) + "]"
    ensures Broken(res) == "[\n" + Broken(Pprint(x)) + "\n]"
  {
    SurroundedBy("[", x, "]")
  }

  /** `(` `x` `)`, and nothing other than `SurroundedBy` with those delimiters. */
  function Parens(x: Printable): (res: RcDoc)
    ensures res == SurroundedBy("(", x, ")")
    ensures Flat(res) == "(" + Flat(Pprint(x)) + ")"
    ensures Broken(res) == "(\n" + Broken(Pprint(x)) + "\n)"
  {
    SurroundedBy("(", x, ")")
  }

  /** `{` `x` `}`, and nothing other than `SurroundedBy` with those delimiters. */
  function Braces(x: Printable): (res: RcDoc)
    ensures res == SurroundedBy("{", x, "}")
    ensures Flat(res) == "{" + Flat(Pprint(x)) + "}"
    ensures Broken(res) == "{\n" + Broken(Pprint(x)) + "\n}"
  {
    SurroundedBy("{", x, "}")
  }

  /**
    An infix operator as one group: `l op r` on one line when it fits,
    otherwise the operator alone on the line between the two operands.
   */
  function Binop(l: Printable, op: string, r: Printable): (res: RcDoc)
    ensures res.Group?
    ensures Flat(res) == Flat(Pprint(l)) + " " + op + " " + Flat(Pprint(r))
    ensures Broken(res) == Broken(Pprint(l)) + "\n" + op + "\n" + Broken(Pprint(r))
  {
    var a := Cat(Pprint(l), Line);
    var b := Cat(a, Text(op));
    var c := Cat(b, Line);
    assert Flat(Line) == " " && Flat(Text(op)) == op;
    assert Broken(Line) == "\n" && Broken(Text(op)) == op;
    assert Flat(a) == Flat(Pprint(l)) + " ";
    assert Flat(b) == Flat(Pprint(l)) + " " + op;
    assert Broken(a) == Broken(Pprint(l)) + "\n";
    assert Broken(b) == Broken(Pprint(l)) + "\n" + op;
    assert Flat(c) == Flat(Pprint(l)) + " " + op + " ";
    assert Broken(c) == Broken(Pprint(l)) + "\n" + op + "\n";
    assert Flat(Cat(c, Pprint(r))) == Flat(c) + Flat(Pprint(r));
    assert Broken(Cat(c, Pprint(r))) == Broken(c) + Broken(Pprint(r));
    Group(Cat(c, Pprint(r)))
  }

  /** Each text of `ll`, then `op` on a line of its own, then each text of `lr`. */
  function Infix(ll: set<string>, op: string, lr: set<string>): set<string>
  {
    set x, y | x in ll && y in lr :: x + "\n" + op + "\n" + y
  }

  lemma InfixProduct(ll: set<string>, op: string, lr: set<string>)
    ensures Product(Product(Product(Product(ll, {"\n"}), {op}), {"\n"}), lr) == Infix(ll, op, lr)
  {
  }

  /**
    The layouts of an operator group in a breaking context: the one-line
    form, or a layout of each operand with the operator on its own line.
   */
  lemma BinopLayouts(l: Printable, op: string, r: Printable)
    ensures Layouts(Binop(l, op, r), FlatMode) == {Flat(Binop(l, op, r))}
    ensures Layouts(Binop(l, op, r), BreakMode) ==
      {Flat(Binop(l, op, r))} + Infix(Layouts(Pprint(l), BreakMode), op, Layouts(Pprint(r), BreakMode))
  {
    var body := Binop(l, op, r).body;
    assert Binop(l, op, r) == Group(body);
    FlatLayouts(body);
    var ll, lr := Layouts(Pprint(l), BreakMode), Layouts(Pprint(r), BreakMode);
    var a := Cat(Pprint(l), Line);
    var b := Cat(a, Text(op));
    var c := Cat(b, Line);
    assert body == Cat(c, Pprint(r));
    assert Layouts(a, BreakMode) == Product(ll, {"\n"});
    assert Layouts(b, BreakMode) == Product(Product(ll, {"\n"}), {op});
    assert Layouts(c, BreakMode) == Product(Product(Product(ll, {"\n"}), {op}), {"\n"});
    InfixProduct(ll, op, lr);
  }

  /**
    The items' documents with a copy of the separator between each adjacent
    pair: nothing for no items, the item alone for one, and otherwise the
    items in order at the even positions with one separator at each of the
    n - 1 positions between them.
   */
  function Intersperse(items: seq<Printable>, sep: Printable): (r: RcDoc)
    ensures |items| == 0 ==> r == Nil
    ensures |items| == 1 ==> r == Pprint(items[0])
    ensures r == ConcatDocs(Interleave(Pprints(items), Pprint(sep)))
    ensures Flat(r) == Join(RenderAll(Pprints(items), FlatMode), Flat(Pprint(sep)))
    ensures Broken(r) == Join(RenderAll(Pprints(items), BreakMode), Broken(Pprint(sep)))
  {
    var ds, d := Pprints(items), Pprint(sep);
    IntersperseIsInterleavedConcat(ds, d);
    IntersperseDocsRender(ds, d, FlatMode);
    IntersperseDocsRender(ds, d, BreakMode);
    IntersperseDocs(ds, d)
  }

  /** The items' documents one after the other; nothing for no items. */
  function Concat(items: seq<Printable>): (r: RcDoc)
    ensures |items| == 0 ==> Flat(r) == "" && Broken(r) == ""
    ensures Flat(r) == Concatenation(RenderAll(Pprints(items), FlatMode))
    ensures Broken(r) == Concatenation(RenderAll(Pprints(items), BreakMode))
  {
    var ds := Pprints(items);
    ConcatDocsRender(ds, FlatMode);
    ConcatDocsRender(ds, BreakMode);
    ConcatDocs(ds)
  }

  /** The separator of a tuple: a comma, then a flexible line. */
  function TupleSeparator(): (sep: Printable)
    ensures Flat(Pprint(sep)) == ", "
    ensures Broken(Pprint(sep)) == ",\n"
  {
    Doc(Append(Str(","), Doc(Line)))
  }

  /**
    A brace-delimited, grouped, comma-separated list: `{a, b, c}` when it
    fits; broken, each item on its own line with its comma at the end of
    that line, never at the start of the next.
   */
  function Tuple(items: seq<Printable>): (r: RcDoc)
    ensures Flat(r) == "{" + Join(RenderAll(Pprints(items), FlatMode), ", ") + "}"
    ensures Broken(r) == "{\n" + Join(RenderAll(Pprints(items), BreakMode), ",\n") + "\n}"
  {
    Braces(Doc(Group(Intersperse(items, TupleSeparator()))))
  }

  /**
    A tuple in a breaking context: the braces are on lines of their own and
    the comma-separated body is one group, flat or broken; grouping the body
    a second time, inside `Braces`, offers no further choice.
   */
  lemma TupleLayouts(items: seq<Printable>)
    ensures Layouts(Tuple(items), BreakMode) ==
      Framed("{", Layouts(Group(Intersperse(items, TupleSeparator())), BreakMode), "}")
  {
    var inner := Intersperse(items, TupleSeparator());
    var body := Group(inner);
    assert Tuple(items) == SurroundedBy("{", Doc(body), "}");
    assert Pprint(Doc(body)) == body;
    GroupTwice(inner, BreakMode);
    SurroundedByLayouts("{", Doc(body), "}");
  }

  /**
    `doc!(a1, ..., an)`: each argument converted, then appended left to
    right; the macro needs at least one argument. Whatever the bracketing,
    it renders as all the arguments' texts in order.
   */
  function DocMacro(args: seq<Printable>): (r: RcDoc)
    requires |args| > 0
    ensures Flat(r) == Concatenation(RenderAll(Pprints(args), FlatMode))
    ensures Broken(r) == Concatenation(RenderAll(Pprints(args), BreakMode))
    decreases |args|
  {
    if |args| == 1 then
      assert Concatenation(RenderAll(Pprints(args), FlatMode)) == Flat(Pprint(args[0])) + "";
      assert Concatenation(RenderAll(Pprints(args), BreakMode)) == Broken(Pprint(args[0])) + "";
      Pprint(args[0])
    else
      var init, last := args[..|args| - 1], args[|args| - 1];
      var acc := DocMacro(init);
      assert args == init + [last];
      PprintsSnoc(init, last);
      RenderAllSnoc(Pprints(init), Pprint(last), FlatMode);
      RenderAllSnoc(Pprints(init), Pprint(last), BreakMode);
      ConcatenationSnoc(RenderAll(Pprints(init), FlatMode), Flat(Pprint(last)));
      ConcatenationSnoc(RenderAll(Pprints(init), BreakMode), Broken(Pprint(last)));
      Cat(acc, Pprint(last))
  }

  /** `doc!(a1, ..., an)` builds the very tree that `concat` builds. */
  lemma {:induction false} DocMacroIsConcat(args: seq<Printable>)
    requires |args| > 0
    ensures DocMacro(args) == Concat(args)
    decreases |args|
  {
    if |args| > 1 {
      var init := args[..|args| - 1];
      DocMacroIsConcat(init);
      assert Pprints(args)[..|args| - 1] == Pprints(init);
    }
  }

  /**
    `Ln` is the flexible line, not a hard break: alone in a breaking context
    it breaks, but inside a group it may render as a space.
   */
  lemma LnIsFlexible()
    ensures Pprint(Ln) == Line
    ensures Layouts(Pprint(Ln), FlatMode) == {" "}
    ensures Layouts(Pprint(Ln), BreakMode) == {"\n"}
    ensures Layouts(Group(Pprint(Ln)), BreakMode) == {" ", "\n"}
  {
  }

  /**
    Inside a group that fits, `Ln` is a space like any flexible line; only
    when the group breaks is it a newline. Outside every group it breaks.
   */
  lemma LnInDocMacro(a: string, b: string)
    ensures Flat(DocMacro([Str(a), Ln, Str(b)])) == a + " " + b
    ensures Broken(DocMacro([Str(a), Ln, Str(b)])) == a + "\n" + b
    ensures Layouts(DocMacro([Str(a), Ln, Str(b)]), BreakMode) == {a + "\n" + b}
    ensures Layouts(Group(DocMacro([Str(a), Ln, Str(b)])), BreakMode) == {a + " " + b, a + "\n" + b}
  {
    var args := [Str(a), Ln, Str(b)];
    var two := [Str(a), Ln];
    assert args[..2] == two && two[..1] == [Str(a)];
    assert DocMacro([Str(a)]) == Text(a);
    assert DocMacro(two) == Cat(Text(a), Line);
    assert DocMacro(args) == Cat(Cat(Text(a), Line), Text(b));
    assert Layouts(Line, BreakMode) == {"\n"};
    ProductSingletons(a, "\n");
    assert Layouts(Cat(Text(a), Line), BreakMode) == {a + "\n"};
    ProductSingletons(a + "\n", b);
    GroupLayouts(DocMacro(args));
    assert Pprints(args) == [Text(a), Line, Text(b)];
    assert RenderAll(Pprints(args), FlatMode) == [a, " ", b];
    assert RenderAll(Pprints(args), BreakMode) == [a, "\n", b];
    assert Concatenation([b]) == b + Concatenation([]) == b;
    assert [a, " ", b][1..] == [" ", b] && [" ", b][1..] == [b];
    assert Concatenation([a, " ", b]) == a + (" " + b);
    assert [a, "\n", b][1..] == ["\n", b] && ["\n", b][1..] == [b];
    assert Concatenation([a, "\n", b]) == a + ("\n" + b);
  }
}
