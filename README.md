# pretty-util, modelled in Dafny

`pretty-util` is a thin layer of document-building combinators over the
`pretty` crate's `RcDoc`. The layer consists of:

- the `PrettySimple` capability, meaning "can be turned into a document",
  with its default `append`;
- its three implementations: `&str`, `RcDoc` and the `Ln` marker;
- the combinators `surrounded_by`, `brackets`, `parens`, `braces`, `binop`,
  `intersperse`, `concat`, `tuple` and `t`;
- the `doc!` macro, which converts its arguments and appends them from left
  to right.

The model describes the document trees that these combinators build, and
proves what those trees mean when the layout engine renders them.

## Structure

- `engine.dfy`, module `Engine`. The engine primitives the layer uses, as a
  datatype: `RcDoc = Nil | Text | Line | SoftLine | Group | Cat`. It also
  holds the engine's `concat` and `intersperse` over a sequence of documents
  (`ConcatDocs`, `IntersperseDocs`), and three interpretations of a document.
  They are assumptions about the `pretty` crate, whose code is not part of
  this model:
  - `Flat`: every group fits. `Line` renders as a space and `SoftLine` as
    nothing.
  - `Broken`: every group breaks, as at width 0. `Line` and `SoftLine` both
    render as a newline.
  - `Layouts(d, m)`: every text that a Wadler-style fitting engine may
    produce. A group met in a breaking context may fit (flat) or break,
    independently of the other groups. Breaks outside every group break.
    Mode `m` says whether the context is flat or breaking.
  `Flat(d)` is the only layout of a flat context (`FlatLayouts`).
  `Broken(d)` is one layout of a breaking context (`BrokenIsLayout`). A group
  in a breaking context offers both (`GroupLayouts`).
- `pretty_util.dfy`, module `PrettyUtil`. The contents of `src/lib.rs`.
  - `Printable = Str | Doc | Ln` stands for the three `PrettySimple`
    implementations, and `Pprint` is their conversion.
  - `Append` is the default `append`. Each combinator is a function of the
    same name.
  - `DocMacro` is `doc!`, written as a left fold over a non-empty
    `seq<Printable>`.

`Ln` converts to the engine's flexible `line()`, not to a hard break. So in
a group that fits, `Ln` renders as a space (`LnIsFlexible`, `LnInDocMacro`).
`Ln` is therefore not a hard break: a group that lays out its lines flat
lays out `Ln` flat too.

The engine's `concat` and `intersperse` are modelled as left-nested chains of
`Cat` nodes, with the first item as the leftmost leaf. This is the shape that
appending items one at a time produces. A chain folded from `Nil`, which keeps
that `Nil` as its innermost left operand, has the same layouts and text
(`FoldFromNilLayouts`). A trailing `Nil` operand and a doubled group
`Group(Group(d))` change no layout either (`CatNilRight`, `GroupTwice`).

## Model

| member | source | states |
|---|---|---|
| `Engine.FlatLayouts` | src/lib.rs:50 | engine interpretation (assumed), used by the `group()` at the cited line: in a flat context a document has exactly one layout, its flat text |
| `Engine.BrokenIsLayout` | src/lib.rs:27 | engine interpretation (assumed), used by the `group()` at the cited line: the all-broken text is one of the layouts of a breaking context |
| `Engine.GroupLayouts` | src/lib.rs:27 | engine interpretation (assumed), used by the `group()` at the cited line: a group in a breaking context offers exactly its flat text plus its breaking layouts, so it can both fit and break |
| `Engine.GroupTwice` | src/lib.rs:65 | grouping a document twice offers the same layouts and text as grouping it once |
| `Engine.CatNilLeft` | src/lib.rs:61 | a leading `Nil` in a concatenation changes none of its layouts |
| `Engine.CatNilRight` | src/lib.rs:7-9 | engine interpretation (assumed), used by the `append` at the cited lines: a trailing `Nil` in a concatenation changes none of its layouts |
| `Engine.FoldFromNilLayouts` | src/lib.rs:60-62 | a concatenation folded from `Nil`, with `Nil` as the innermost left operand of the chain, has the same layouts and the same text as the chain without it |
| `Engine.CatAssociative` | src/lib.rs:8 | the bracketing of concatenations changes no layout and no text |
| `Engine.ConcatDocsRender` | src/lib.rs:61 | the engine's concatenation renders, in either mode, as its documents' texts in order |
| `Engine.Interleave` | src/lib.rs:57 | the parts of an interspersion: 2n−1 of them for n ≥ 1 items (none for none), the items in order at even positions and the separator at each odd position |
| `Engine.IntersperseIsInterleavedConcat` | src/lib.rs:57 | the engine's interspersion is exactly the concatenation of those interleaved parts |
| `Engine.IntersperseDocsRender` | src/lib.rs:57 | the engine's interspersion renders as the items' texts joined by the separator's text |
| `PrettyUtil.Pprint` | src/lib.rs:12-22 | text becomes one text atom with that text as its only layout in every context; a document passes through unchanged; `Ln` becomes `Line`, a space when flat and a newline when broken |
| `PrettyUtil.Append` | src/lib.rs:7-9 | the default `append` renders, in either mode, as the first text followed by the second, with no separator |
| `PrettyUtil.AppendAssociative` | src/lib.rs:7-9 | chained appends have the same layouts whichever way they are bracketed |
| `PrettyUtil.T` | src/lib.rs:68-70 | `t(s)` is the same atom as converting `s`, and reads `s` in both modes |
| `PrettyUtil.SurroundedBy` | src/lib.rs:24-30 | flat it reads `l + flat(x) + r`; broken it reads `l + "\n" + broken(x) + "\n" + r` |
| `PrettyUtil.SurroundedByLayouts` | src/lib.rs:24-30 | in a flat context its only layout is `l + flat(x) + r`; in a breaking context its layouts are exactly the texts `l + "\n" + b + "\n" + r` (`Framed`), one for each layout `b` of `x` in its own group |
| `PrettyUtil.Brackets` | src/lib.rs:32-34 | equals `SurroundedBy("[", x, "]")`, flat `[x]`, broken `[\nx\n]` |
| `PrettyUtil.Parens` | src/lib.rs:36-38 | equals `SurroundedBy("(", x, ")")`, flat `(x)`, broken `(\nx\n)` |
| `PrettyUtil.Braces` | src/lib.rs:40-42 | equals `SurroundedBy("{", x, "}")`, flat `{x}`, broken `{\nx\n}` |
| `PrettyUtil.Binop` | src/lib.rs:44-51 | a single group; flat `l + " " + op + " " + r`; broken `l + "\n" + op + "\n" + r`, with the operator on the line between |
| `PrettyUtil.BinopLayouts` | src/lib.rs:44-51 | in a flat context its only layout is the one-line text; in a breaking context its layouts are exactly that text plus the texts `x + "\n" + op + "\n" + y` (`Infix`), for each breaking layout `x` of `l` and `y` of `r` |
| `PrettyUtil.Intersperse` | src/lib.rs:53-58 | no items give `Nil`; one item gives that item alone; in general it is the chain of interleaved parts, so exactly n−1 separators, in item order; renders as the items' texts joined by the separator's text |
| `PrettyUtil.Concat` | src/lib.rs:60-62 | renders as the items' texts concatenated in order; no items render as the empty text in both modes |
| `PrettyUtil.TupleSeparator` | src/lib.rs:65 | the separator `",".append(line())` is `", "` flat and `",\n"` broken |
| `PrettyUtil.Tuple` | src/lib.rs:64-66 | flat `"{" + join(flats, ", ") + "}"`; broken `"{\n" + join(brokens, ",\n") + "\n}"`, with each comma before its newline |
| `PrettyUtil.TupleLayouts` | src/lib.rs:64-66 | in a breaking context its layouts are exactly the texts `"{\n" + b + "\n}"`, for each layout `b` of the once-grouped body; the second group adds no choice |
| `PrettyUtil.DocMacro` | src/lib.rs:72-83 | the left fold of appends renders, in either mode, as all the arguments' texts in order, whatever the bracketing |
| `PrettyUtil.DocMacroIsConcat` | src/lib.rs:77-81 | `doc!(a1, …, an)` builds the very tree that `concat([a1, …, an])` builds |
| `PrettyUtil.LnIsFlexible` | src/lib.rs:95-101 | `Ln` converts to `Line`: outside a group it breaks, in a flat context it is a space, and in its own group it may be either |
| `PrettyUtil.LnInDocMacro` | src/lib.rs:97-101 | `doc!(a, Ln, b)` reads `a + " " + b` when flat and `a + "\n" + b` when broken; outside every group its only layout is `a + "\n" + b`; inside a group in a breaking context its layouts are exactly `a + " " + b` and `a + "\n" + b` |

## Left out

- The `pretty` crate's width-aware fitting and rendering algorithm is not
  part of this model. It is replaced by the `Flat`, `Broken` and `Layouts`
  interpretations above. The model does not say which layout the engine
  picks at a given width.
- `SoftLine` is assumed to render as nothing when flat, and to be decided by
  its enclosing group. The engine's own definition of `softline()` is not
  part of this model.
- Because of that assumption, the two soft lines of `surrounded_by` belong to
  the enclosing group. Outside every group they always break
  (`SurroundedByLayouts`).
- The engine's node simplifications (dropping `Nil` operands, not grouping a
  group twice) are not modelled. The `Nil`, `FoldFromNil` and `Group` lemmas
  show that they change no layout.
- `docf!` (src/lib.rs:85-93) is a call into Rust's `format!`. Its result is
  a single `Text` leaf holding the formatted string, so no layout structure
  of its arguments survives. String formatting is not modelled.
- `Rc` sharing, lifetimes and `Sized` bounds are left out: they have no
  behavioural content. The Rust generics are not modelled directly. Instead,
  every value is a `Printable`.
- `doc!` is modelled as a function over a homogeneous `seq<Printable>`. It
  requires at least one argument, as the macro's `+` repetition does.
  Compile-time heterogeneity and macro recursion are not modelled.
- The iterator laziness of `intersperse` and `concat` is not modelled. Their
  input is a finite sequence.
- The `pub use pretty` re-export (src/lib.rs:1) is left out: it has no
  behaviour.
- Text width and Unicode are not modelled. Strings are `seq<char>`.
