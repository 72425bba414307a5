/** The earlier editor in app/editor/RichTextEditor.tsx, without image
    support. Its `toggleMark`, `toggleBlock` and `isBlockActive`, with their
    matchers and constants, are written out again here from that file, and
    shown to decide exactly what the image editor's do. Shared with the image
    editor are the node types and `Nodes.AttrValue`, the mark command and
    patch datatypes, the decision record `Blocks.BlockToggle`, and the
    library's mark effect. */
module RichTextEditor {
  import opened Wrappers
  import opened Nodes
  import Marks
  import Blocks

  const LIST_TYPES: seq<string> := ["numbered-list", "bulleted-list"]
  const TEXT_ALIGN_TYPES: seq<string> := ["left", "center", "right", "justify"]

  /** `toggleMark`: remove the mark when the reported marks hold `true`
      under it, otherwise add it as `true`. */
  function ToggleMark(marks: Option<MarkMap>, format: string): (cmd: Marks.MarkCommand)
    ensures cmd.key == format
    ensures cmd.RemoveMark? <==> marks.Some? && format in marks.value && marks.value[format] == Flag(true)
    ensures cmd.AddMark? ==> cmd.value == Flag(true)
  {
    var isActive := if marks.Some? then format in marks.value && marks.value[format] == Flag(true) else false;
    if isActive then Marks.RemoveMark(format) else Marks.AddMark(format, Flag(true))
  }

  /** Two presses of a mark button with no edit between them leave every
      mark's status as it was. */
  lemma ToggleMarkTwiceRestoresStatus(marks: Option<MarkMap>, format: string)
    ensures var once := Marks.ApplyMarkCommand(marks, ToggleMark(marks, format));
      var twice := Marks.ApplyMarkCommand(once, ToggleMark(once, format));
      forall k :: Marks.IsMarkActive(twice, k) == Marks.IsMarkActive(marks, k)
  {
  }

  /** The matcher this file's `isBlockActive` hands to the traversal. */
  predicate ElementMatches(n: Node, format: string, blocktype: BlockAttr)
  {
    !n.Root? && n.Elem? && AttrValue(n.element, blocktype) == Some(format)
  }

  /** `const [match] = Array.from(nodes)`: the first node the matcher
      accepts, if any. */
  function FirstMatch(nodes: seq<Node>, format: string, blocktype: BlockAttr): (found: Option<Node>)
    ensures found.Some? <==> exists i :: 0 <= i < |nodes| && ElementMatches(nodes[i], format, blocktype)
    ensures found.Some? ==> exists i :: 0 <= i < |nodes| && nodes[i] == found.value && ElementMatches(found.value, format, blocktype)
  {
    if |nodes| == 0 then None
    else if ElementMatches(nodes[0], format, blocktype) then Some(nodes[0])
    else
      var rest := FirstMatch(nodes[1..], format, blocktype);
      assert forall i :: 0 < i < |nodes| ==> nodes[i] == nodes[1..][i - 1];
      rest
  }

  /** `isBlockActive`: false with no selection, otherwise whether the
      traversal of the unhung selection has a first match (`!!match`). */
  function IsBlockActive(inRange: Option<seq<Node>>, format: string, attr: BlockAttr): (active: bool)
    ensures active <==>
      inRange.Some? && exists i :: 0 <= i < |inRange.value| && ElementMatches(inRange.value[i], format, attr)
  {
    if inRange.None? then false
    else FirstMatch(inRange.value, format, attr).Some?
  }

  /** The `unwrapNodes` matcher of this file. */
  predicate UnwrapMatches(format: string, n: Node)
  {
    !n.Root? && n.Elem? && n.element.kind in LIST_TYPES && format !in TEXT_ALIGN_TYPES
  }

  /** `toggleBlock`: query `align` for alignment values and `type` otherwise,
      then patch the one queried attribute. */
  function ToggleBlock(format: string, inRange: Option<seq<Node>>): Blocks.BlockToggle
  {
    var attr := if format in TEXT_ALIGN_TYPES then AlignAttr else KindAttr;
    var isActive := IsBlockActive(inRange, format, attr);
    var isList := format in LIST_TYPES;
    var newProperties :=
      if format in TEXT_ALIGN_TYPES then Patch(None, Some(if isActive then None else Some(format)))
      else Patch(Some(if isActive then "paragraph" else if isList then "list-item" else format), None);
    Blocks.BlockToggle(attr, isActive, format !in TEXT_ALIGN_TYPES, newProperties)
  }

  lemma SameMarkDecision(marks: Option<MarkMap>, format: string)
    ensures ToggleMark(marks, format) == Marks.ToggleMark(marks, format)
  {
  }

  /** The two editors' block decisions agree on every input: same queried
      attribute, same activity, same unwrap matcher, same patch. */
  lemma SameBlockDecisions(format: string, inRange: Option<seq<Node>>, attr: BlockAttr, n: Node)
    ensures IsBlockActive(inRange, format, attr) == Blocks.IsBlockActive(inRange, format, attr)
    ensures UnwrapMatches(format, n) == Blocks.UnwrapMatches(format, n)
    ensures ToggleBlock(format, inRange) == Blocks.ToggleBlock(format, inRange)
  {
    Blocks.IsBlockActiveIffSomeMatch(inRange, format, attr);
    var queried := Blocks.QueriedAttr(format);
    Blocks.IsBlockActiveIffSomeMatch(inRange, format, queried);
    assert forall m :: ElementMatches(m, format, attr) == Blocks.BlockMatches(m, format, attr);
    assert forall m :: ElementMatches(m, format, queried) == Blocks.BlockMatches(m, format, queried);
  }

  /** The decision table of this file's `toggleBlock`: `align` is queried
      exactly for the four alignment values and is then the only key patched
      (cleared when active, the format otherwise); every other format queries
      and patches only `type` (`paragraph` when active, else `list-item` for
      a list format, else the format); the unwrap matcher fires only on list
      containers and never for an alignment value. */
  lemma ToggleBlockDecisionTable(format: string, inRange: Option<seq<Node>>, n: Node)
    ensures var t := ToggleBlock(format, inRange);
      var aligning := format == "left" || format == "center" || format == "right" || format == "justify";
      && (t.attr == AlignAttr <==> aligning)
      && (aligning ==> t.patch == Patch(None, Some(if t.isActive then None else Some(format))))
      && (!aligning && t.isActive ==> t.patch == Patch(Some("paragraph"), None))
      && (!aligning && !t.isActive && (format == "numbered-list" || format == "bulleted-list") ==>
            t.patch == Patch(Some("list-item"), None))
      && (!aligning && !t.isActive && format != "numbered-list" && format != "bulleted-list" ==>
            t.patch == Patch(Some(format), None))
      && (UnwrapMatches(format, n) <==>
            !aligning && n.Elem? && (n.element.kind == "numbered-list" || n.element.kind == "bulleted-list"))
      && (t.isActive <==> IsBlockActive(inRange, format, t.attr))
  {
  }
}
