/**
 * The cell payload and what the table code reads from it: a markup node tree,
 * the span attributes of a cell, and the tag skeleton (`get_tag_structure`)
 * used to compare the shape of two cells.
 */
module Markup {
  import opened Wrappers

  /** A markup node: a text node, or an element with a tag name and children. */
  datatype Node = Text(text: string) | Elem(name: string, children: seq<Node>)

  /**
   * What `get_tag_structure` returns: `None` (NoShape), the empty string ''
   * (Blank) or the list `[name, child_1, ..., child_n]` (Tree).
   */
  datatype Shape = NoShape | Blank | Tree(tag: string, kids: seq<Shape>)

  /**
   * The two versions of `get_tag_structure`: v2.3 and v3.0 treat a `span`
   * element as transparent (it yields '' and its parent drops it); v1.5 and
   * v1.7 have no such case.
   */
  datatype Dialect = SpanTransparent | Plain

  /** Python truthiness of a structure: None and '' are falsy, a list (never empty) is truthy. */
  predicate Truthy(s: Shape) {
    s.Tree?
  }

  /** True when `n` is a `span` element that the dialect makes transparent. */
  predicate IsTransparent(n: Node, d: Dialect) {
    d == SpanTransparent && n.Elem? && n.name == "span"
  }

  /**
   * `get_tag_structure(element)`. Whitespace-only text children are skipped by
   * the source before the recursive call; every other text child yields None,
   * which is falsy and dropped as well, so both cases drop the child here.
   */
  function TagStructure(n: Node, d: Dialect): (r: Shape)
    decreases n, 1
  {
    match n
    case Text(_) => NoShape
    case Elem(name, cs) =>
      if IsTransparent(n, d) then Blank else Tree(name, ChildStructures(cs, d))
  }

  /** The loop over `element.children`: append each child's structure when it is truthy. */
  function ChildStructures(cs: seq<Node>, d: Dialect): (r: seq<Shape>)
    decreases cs, 0
  {
    if cs == [] then []
    else
      var c := TagStructure(cs[0], d);
      if Truthy(c) then [c] + ChildStructures(cs[1..], d) else ChildStructures(cs[1..], d)
  }

  /** The children that contribute to the skeleton: elements that are not transparent. */
  function KeptChildren(cs: seq<Node>, d: Dialect): (r: seq<Node>)
    ensures |r| <= |cs|
    ensures forall i :: 0 <= i < |r| ==> r[i] in cs && r[i].Elem? && !IsTransparent(r[i], d)
  {
    if cs == [] then []
    else if cs[0].Elem? && !IsTransparent(cs[0], d) then [cs[0]] + KeptChildren(cs[1..], d)
    else KeptChildren(cs[1..], d)
  }

  /** A text node gives no structure, a transparent span gives '', any other element a Tree. */
  lemma TagStructureCases(n: Node, d: Dialect)
    ensures n.Text? ==> TagStructure(n, d) == NoShape
    ensures IsTransparent(n, d) ==> TagStructure(n, d) == Blank
    ensures n.Elem? && !IsTransparent(n, d) ==>
      TagStructure(n, d) == Tree(n.name, ChildStructures(n.children, d))
  {
  }

  /**
   * The children's part of a skeleton is exactly the skeletons of the kept
   * (non-transparent element) children, in order.
   */
  lemma {:induction false} ChildStructuresAreKeptSkeletons(cs: seq<Node>, d: Dialect)
    ensures |ChildStructures(cs, d)| == |KeptChildren(cs, d)|
    ensures forall i :: 0 <= i < |KeptChildren(cs, d)| ==>
      ChildStructures(cs, d)[i] == TagStructure(KeptChildren(cs, d)[i], d)
  {
    if cs != [] {
      var rest, kept := ChildStructures(cs[1..], d), KeptChildren(cs[1..], d);
      ChildStructuresAreKeptSkeletons(cs[1..], d);
      TagStructureCases(cs[0], d);
      if cs[0].Elem? && !IsTransparent(cs[0], d) {
        var c := TagStructure(cs[0], d);
        assert ChildStructures(cs, d) == [c] + rest;
        assert KeptChildren(cs, d) == [cs[0]] + kept;
        ConsPointwise(c, rest, cs[0], kept, d);
      } else {
        assert ChildStructures(cs, d) == rest;
        assert KeptChildren(cs, d) == kept;
      }
    }
  }

  lemma ConsPointwise(c: Shape, rest: seq<Shape>, n: Node, kept: seq<Node>, d: Dialect)
    requires c == TagStructure(n, d) && |rest| == |kept|
    requires forall i :: 0 <= i < |kept| ==> rest[i] == TagStructure(kept[i], d)
    ensures forall i :: 0 <= i < |[n] + kept| ==> ([c] + rest)[i] == TagStructure(([n] + kept)[i], d)
  {
    forall i | 0 <= i < |[n] + kept|
      ensures ([c] + rest)[i] == TagStructure(([n] + kept)[i], d)
    {
      if i > 0 {
        assert ([c] + rest)[i] == rest[i - 1] && ([n] + kept)[i] == kept[i - 1];
      }
    }
  }

  /** The tree with every text node removed, at every depth. */
  function Untexted(n: Node): (r: Node)
    decreases n, 1
  {
    match n
    case Text(_) => Text("")
    case Elem(name, cs) => Elem(name, UntextedChildren(cs))
  }

  function UntextedChildren(cs: seq<Node>): (r: seq<Node>)
    decreases cs, 0
  {
    if cs == [] then []
    else if cs[0].Text? then UntextedChildren(cs[1..])
    else [Untexted(cs[0])] + UntextedChildren(cs[1..])
  }

  /**
   * Cell text never affects the skeleton: removing every text node (and so
   * also changing any text) leaves `get_tag_structure` unchanged.
   */
  lemma {:induction false} TextIrrelevant(n: Node, d: Dialect)
    ensures TagStructure(Untexted(n), d) == TagStructure(n, d)
    decreases n, 1
  {
    match n
    case Text(_) =>
    case Elem(name, cs) =>
      ChildrenTextIrrelevant(cs, d);
  }

  lemma {:induction false} ChildrenTextIrrelevant(cs: seq<Node>, d: Dialect)
    ensures ChildStructures(UntextedChildren(cs), d) == ChildStructures(cs, d)
    decreases cs, 0
  {
    if cs != [] {
      ChildrenTextIrrelevant(cs[1..], d);
      if !cs[0].Text? {
        TextIrrelevant(cs[0], d);
        assert UntextedChildren(cs) == [Untexted(cs[0])] + UntextedChildren(cs[1..]);
        assert Untexted(cs[0]).Elem? && Untexted(cs[0]).name == cs[0].name;
      }
    }
  }

  /** Two payloads have the same skeleton whenever they agree once text is removed. */
  lemma SameTagsSameSkeleton(a: Node, b: Node, d: Dialect)
    requires Untexted(a) == Untexted(b)
    ensures TagStructure(a, d) == TagStructure(b, d)
  {
    TextIrrelevant(a, d);
    TextIrrelevant(b, d);
  }

  /** True when no element named `span` occurs anywhere in the tree. */
  predicate NoSpan(n: Node)
    decreases n, 1
  {
    match n
    case Text(_) => true
    case Elem(name, cs) => name != "span" && NoSpanIn(cs)
  }

  predicate NoSpanIn(cs: seq<Node>)
    decreases cs, 0
  {
    cs == [] || (NoSpan(cs[0]) && NoSpanIn(cs[1..]))
  }

  /** The two dialects agree on span-free markup, and differ on a bare span element. */
  lemma {:induction false} DialectsAgreeWithoutSpan(n: Node)
    requires NoSpan(n)
    ensures TagStructure(n, SpanTransparent) == TagStructure(n, Plain)
    decreases n, 1
  {
    match n
    case Text(_) =>
    case Elem(name, cs) =>
      ChildDialectsAgree(cs);
  }

  lemma {:induction false} ChildDialectsAgree(cs: seq<Node>)
    requires NoSpanIn(cs)
    ensures ChildStructures(cs, SpanTransparent) == ChildStructures(cs, Plain)
    decreases cs, 0
  {
    if cs != [] {
      DialectsAgreeWithoutSpan(cs[0]);
      ChildDialectsAgree(cs[1..]);
    }
  }

  lemma DialectsDifferOnSpan(cs: seq<Node>)
    ensures TagStructure(Elem("span", cs), SpanTransparent) == Blank
    ensures TagStructure(Elem("span", cs), Plain).Tree?
  {
  }

  /** A span attribute as extracted: absent, an integer, or text that `int()` rejects. */
  datatype Attr = Absent | Num(n: int) | Malformed

  /** `int(cell.get(name, 1))`: None when `int()` raises. */
  function SpanValue(a: Attr): (r: Option<int>)
    ensures a.Absent? ==> r == Some(1)
    ensures a.Num? ==> r == Some(a.n)
    ensures a.Malformed? <==> r.None?
  {
    match a
    case Absent => Some(1)
    case Num(n) => Some(n)
    case Malformed => None
  }

  /** A `td`/`th` cell as the document adapter hands it over. */
  datatype RawCell = RawCell(value: Node, rowspan: Attr, colspan: Attr)

  /** A `tr` row: its decoded inner markup and its cells in reading order. */
  datatype RawRow = RawRow(inner: string, cells: seq<RawCell>)
}
