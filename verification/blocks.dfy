/** Block toggling (`toggleBlock` and `isBlockActive` in
    app/editor/WithImages.tsx): a decision table from the requested format
    and its current activity to the attribute queried, whether list
    containers are unwrapped, and the property patch written. */
module Blocks {
  import opened Wrappers
  import opened Nodes

  const LIST_TYPES: seq<string> := ["numbered-list", "bulleted-list"]
  const TEXT_ALIGN_TYPES: seq<string> := ["left", "center", "right", "justify"]

  /** The block formats the toolbar offers, in button order. */
  const BLOCK_BUTTONS: seq<string> :=
    ["heading-one", "heading-two", "block-quote", "numbered-list", "bulleted-list",
     "left", "center", "right", "justify"]

  predicate IsAlignment(format: string)
  {
    format in TEXT_ALIGN_TYPES
  }

  predicate IsList(format: string)
  {
    format in LIST_TYPES
  }

  /** The attribute `toggleBlock` asks `isBlockActive` about: `align` for the
      four alignment values, `type` for every other format. */
  function QueriedAttr(format: string): (attr: BlockAttr)
    ensures attr == AlignAttr <==>
      format == "left" || format == "center" || format == "right" || format == "justify"
  {
    if IsAlignment(format) then AlignAttr else KindAttr
  }

  /** The matcher `isBlockActive` hands to the traversal: an element, not the
      editor, whose queried attribute equals the format. */
  predicate BlockMatches(n: Node, format: string, attr: BlockAttr)
  {
    n.Elem? && AttrValue(n.element, attr) == Some(format)
  }

  /** The traversal filtered by the matcher, in traversal order. */
  function Matching(nodes: seq<Node>, format: string, attr: BlockAttr): (found: seq<Node>)
    ensures |found| <= |nodes|
    ensures forall i :: 0 <= i < |found| ==> BlockMatches(found[i], format, attr)
    ensures forall i :: 0 <= i < |nodes| && BlockMatches(nodes[i], format, attr) ==> nodes[i] in found
  {
    if |nodes| == 0 then []
    else
      var rest := Matching(nodes[1..], format, attr);
      if BlockMatches(nodes[0], format, attr) then [nodes[0]] + rest else rest
  }

  /** `isBlockActive(editor, format, attr)`. `inRange` is what the library's
      traversal yields over the unhung selection, `None` when there is no
      selection. `const [match] = Array.from(...)` takes the first match and
      `!!match` asks whether there was one. */
  function IsBlockActive(inRange: Option<seq<Node>>, format: string, attr: BlockAttr): bool
  {
    if inRange.None? then false
    else
      var found := Matching(inRange.value, format, attr);
      var first := if |found| > 0 then Some(found[0]) else None;
      first.Some?
  }

  /** Activity is an existence test: one matching element anywhere in the
      selection suffices, and none means inactive. */
  lemma IsBlockActiveIffSomeMatch(inRange: Option<seq<Node>>, format: string, attr: BlockAttr)
    ensures IsBlockActive(inRange, format, attr) <==>
      inRange.Some? && exists i :: 0 <= i < |inRange.value| && BlockMatches(inRange.value[i], format, attr)
  {
    if inRange.Some? {
      var nodes := inRange.value;
      var found := Matching(nodes, format, attr);
      if |found| > 0 {
        assert found[0] in found;
        MatchingIsSubsequence(nodes, format, attr, found[0]);
      }
    }
  }

  lemma {:induction false} MatchingIsSubsequence(nodes: seq<Node>, format: string, attr: BlockAttr, n: Node)
    requires n in Matching(nodes, format, attr)
    ensures n in nodes
  {
    if |nodes| > 0 && n != nodes[0] {
      MatchingIsSubsequence(nodes[1..], format, attr, n);
    }
  }

  /** Existence, not coverage: a selection over a heading and a paragraph
      reports the heading as active. */
  lemma PartialCoverageIsActive()
    ensures var heading := Elem(Element("heading-one", None, None, [Text(Leaf("a", map[]))]));
      var paragraph := Elem(Element("paragraph", None, None, [Text(Leaf("b", map[]))]));
      && !BlockMatches(paragraph, "heading-one", KindAttr)
      && IsBlockActive(Some([heading, paragraph]), "heading-one", KindAttr)
  {
  }

  /** The matcher given to `unwrapNodes`: an element, not the editor, whose
      `type` is a list container, and only when the format is not an
      alignment value. */
  predicate UnwrapMatches(format: string, n: Node)
  {
    !n.Root? && n.Elem? && n.element.kind in LIST_TYPES && !IsAlignment(format)
  }

  /** The unwrap matcher fires exactly on `numbered-list` and `bulleted-list`
      elements, and never for an alignment format, so alignment toggles never
      break a list apart. */
  lemma UnwrapOnlyListContainers(format: string, n: Node)
    ensures UnwrapMatches(format, n) <==>
      && !IsAlignment(format)
      && n.Elem?
      && (n.element.kind == "numbered-list" || n.element.kind == "bulleted-list")
  {
  }

  /** The patch `toggleBlock` writes. An alignment format touches only
      `align`: cleared when active, the format otherwise. Any other format
      touches only `type`: `paragraph` when active, else `list-item` for a
      list format, else the format. No list container is ever written. */
  function NewProperties(format: string, isActive: bool): (p: Patch)
    ensures p.align.Some? <==> IsAlignment(format)
    ensures p.kind.Some? <==> !IsAlignment(format)
    ensures p.align.Some? ==> (p.align.value.None? <==> isActive)
    ensures p.align.Some? && p.align.value.Some? ==> p.align.value.value == format
    ensures p.kind.Some? && isActive ==> p.kind.value == "paragraph"
    ensures p.kind.Some? && !isActive && IsList(format) ==> p.kind.value == "list-item"
    ensures p.kind.Some? && !isActive && !IsList(format) ==> p.kind.value == format
    ensures p.kind.Some? ==> p.kind.value != "numbered-list" && p.kind.value != "bulleted-list"
  {
    var isList := IsList(format);
    if IsAlignment(format) then
      Patch(None, Some(if isActive then None else Some(format)))
    else
      Patch(Some(if isActive then "paragraph" else if isList then "list-item" else format), None)
  }

  /** Everything `toggleBlock(editor, format)` decides before it hands over to
      the library: the attribute it queried, the answer, whether the unwrap
      matcher can fire at all, and the patch for `setNodes`. */
  datatype BlockToggle = BlockToggle(attr: BlockAttr, isActive: bool, unwrapsLists: bool, patch: Patch)

  function ToggleBlock(format: string, inRange: Option<seq<Node>>): (t: BlockToggle)
    ensures t.attr == QueriedAttr(format) && t.patch == NewProperties(format, t.isActive)
    ensures t.attr == AlignAttr <==> t.patch.align.Some?
    ensures t.attr == KindAttr <==> t.patch.kind.Some?
    ensures t.unwrapsLists <==> t.patch.kind.Some?
    ensures t.unwrapsLists <==> exists n :: UnwrapMatches(format, n)
    ensures inRange.None? ==> !t.isActive
    ensures t.isActive <==>
      inRange.Some? && exists i :: 0 <= i < |inRange.value| && BlockMatches(inRange.value[i], format, t.attr)
  {
    var attr := QueriedAttr(format);
    var isActive := IsBlockActive(inRange, format, attr);
    IsBlockActiveIffSomeMatch(inRange, format, attr);
    assert !IsAlignment(format) ==> UnwrapMatches(format, Elem(Element("numbered-list", None, None, [])));
    BlockToggle(attr, isActive, !IsAlignment(format), NewProperties(format, isActive))
  }

  /** Of the nine block buttons exactly the last four query and write
      `align`; the rest query and write `type`. */
  lemma ButtonAxes()
    ensures forall i :: 0 <= i < |BLOCK_BUTTONS| ==> (QueriedAttr(BLOCK_BUTTONS[i]) == AlignAttr <==> i >= 5)
  {
  }
}
