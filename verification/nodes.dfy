/** The editor's document nodes as the decision layer sees them: the editor
    root, elements (a structural `type`, an optional `align`, an image's
    `url`, and children) and text leaves carrying their marks. */
module Nodes {
  import opened Wrappers

  /** A mark's value. The buttons only ever store `true`, but a leaf loaded
      from storage may carry any JSON value under a mark's key. */
  datatype MarkValue = Flag(on: bool) | NonBoolean(json: string)

  /** Mark name to value, like `{ bold: true, italic: false }`. */
  type MarkMap = map<string, MarkValue>

  datatype Leaf = Leaf(text: string, marks: MarkMap)

  datatype Element = Element(kind: string, align: Option<string>, url: Option<string>, children: seq<Node>)

  /** What the library's node traversal yields: the editor itself, an element
      or a text leaf. */
  datatype Node = Root(blocks: seq<Node>) | Elem(element: Element) | Text(leaf: Leaf)

  /** The two element attributes the block buttons read and write: `type`
      and `align`. */
  datatype BlockAttr = KindAttr | AlignAttr

  /** `element[attr]`, absent as `None`. */
  function AttrValue(e: Element, attr: BlockAttr): Option<string>
  {
    match attr
    case KindAttr => Some(e.kind)
    case AlignAttr => e.align
  }

  /** A `Partial<Element>` of the two block attributes. `kind` is `None` when
      the patch has no `type` key; `align` is `None` when it has no `align`
      key, `Some(None)` for `align: undefined` and `Some(Some(a))` for
      `align: a`. */
  datatype Patch = Patch(kind: Option<string>, align: Option<Option<string>>)

  /** The patch written to one matched element: a key the patch holds
      replaces the element's value (`undefined` removes it), a key it lacks
      leaves the element's value alone. Url and children are never touched. */
  function ApplyPatch(e: Element, p: Patch): Element
  {
    Element(
      if p.kind.Some? then p.kind.value else e.kind,
      if p.align.Some? then p.align.value else e.align,
      e.url,
      e.children)
  }
}
