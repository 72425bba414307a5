/** What `toggleBlock` does to a selection whose lowest blocks are flat (their
    children are text leaves) and are not list containers. This module
    assumes a reading of the library rather than modelling its source: the
    traversal yields the editor, then each block followed by its leaves;
    `unwrapNodes` visits the same blocks (so it finds nothing to unwrap); and
    `setNodes` writes the patch into every block and nothing else. */
module BlockEffects {
  import opened Wrappers
  import opened Nodes
  import opened Blocks

  predicate IsFlat(e: Element)
  {
    forall i :: 0 <= i < |e.children| ==> e.children[i].Text?
  }

  /** Blocks the model covers: flat, and none of them a list container. */
  predicate FlatSelection(blocks: seq<Element>)
  {
    forall i :: 0 <= i < |blocks| ==> IsFlat(blocks[i]) && !IsList(blocks[i].kind)
  }

  /** Each block followed by its leaves, in document order. */
  function Entries(blocks: seq<Element>): seq<Node>
  {
    if |blocks| == 0 then []
    else [Elem(blocks[0])] + blocks[0].children + Entries(blocks[1..])
  }

  /** The traversal over the selection: the editor first, then the entries. */
  function InRange(blocks: seq<Element>): seq<Node>
  {
    [Root(seq(|blocks|, i requires 0 <= i < |blocks| => Elem(blocks[i])))] + Entries(blocks)
  }

  predicate AnyMatch(nodes: seq<Node>, format: string, attr: BlockAttr)
  {
    exists i :: 0 <= i < |nodes| && BlockMatches(nodes[i], format, attr)
  }

  predicate SomeBlockHas(blocks: seq<Element>, format: string, attr: BlockAttr)
  {
    exists j :: 0 <= j < |blocks| && AttrValue(blocks[j], attr) == Some(format)
  }

  lemma AnyMatchConcat(a: seq<Node>, b: seq<Node>, format: string, attr: BlockAttr)
    ensures AnyMatch(a + b, format, attr) <==> AnyMatch(a, format, attr) || AnyMatch(b, format, attr)
  {
    if AnyMatch(a + b, format, attr) {
      var i :| 0 <= i < |a + b| && BlockMatches((a + b)[i], format, attr);
      if i >= |a| {
        assert (a + b)[i] == b[i - |a|];
      }
    }
    if AnyMatch(a, format, attr) {
      var i :| 0 <= i < |a| && BlockMatches(a[i], format, attr);
      assert (a + b)[i] == a[i];
    }
    if AnyMatch(b, format, attr) {
      var i :| 0 <= i < |b| && BlockMatches(b[i], format, attr);
      assert (a + b)[|a| + i] == b[i];
    }
  }

  /** Over flat blocks only the blocks themselves can match: the editor and
      the leaves are not elements. */
  lemma {:induction false} EntriesMatchIffBlockHas(blocks: seq<Element>, format: string, attr: BlockAttr)
    requires forall i :: 0 <= i < |blocks| ==> IsFlat(blocks[i])
    ensures AnyMatch(Entries(blocks), format, attr) <==> SomeBlockHas(blocks, format, attr)
  {
    if |blocks| > 0 {
      var b := blocks[0];
      EntriesMatchIffBlockHas(blocks[1..], format, attr);
      AnyMatchConcat([Elem(b)] + b.children, Entries(blocks[1..]), format, attr);
      AnyMatchConcat([Elem(b)], b.children, format, attr);
      assert !AnyMatch(b.children, format, attr);
      assert AnyMatch([Elem(b)], format, attr) <==> AttrValue(b, attr) == Some(format) by {
        assert [Elem(b)][0] == Elem(b);
      }
      if SomeBlockHas(blocks[1..], format, attr) {
        var j :| 0 <= j < |blocks[1..]| && AttrValue(blocks[1..][j], attr) == Some(format);
        assert blocks[j + 1] == blocks[1..][j];
      }
      if SomeBlockHas(blocks, format, attr) && AttrValue(b, attr) != Some(format) {
        var j :| 0 <= j < |blocks| && AttrValue(blocks[j], attr) == Some(format);
        assert blocks[1..][j - 1] == blocks[j];
      }
    }
  }

  /** On a flat selection the format is active exactly when some selected
      block carries it on the queried attribute. */
  lemma ActiveIffSomeBlockHas(blocks: seq<Element>, format: string)
    requires FlatSelection(blocks)
    ensures ToggleBlock(format, Some(InRange(blocks))).isActive <==> SomeBlockHas(blocks, format, QueriedAttr(format))
  {
    var attr := QueriedAttr(format);
    EntriesMatchIffBlockHas(blocks, format, attr);
    AnyMatchConcat([Root(seq(|blocks|, i requires 0 <= i < |blocks| => Elem(blocks[i])))], Entries(blocks), format, attr);
  }

  /** The unwrap step finds nothing to unwrap on a flat selection. */
  lemma NothingToUnwrap(blocks: seq<Element>, format: string)
    requires FlatSelection(blocks)
    ensures forall n :: n in InRange(blocks) ==> !UnwrapMatches(format, n)
  {
    forall n | n in Entries(blocks)
      ensures !UnwrapMatches(format, n)
    {
      EntryIsBlockOrLeaf(blocks, n);
    }
  }

  lemma {:induction false} EntryIsBlockOrLeaf(blocks: seq<Element>, n: Node)
    requires forall i :: 0 <= i < |blocks| ==> IsFlat(blocks[i])
    requires n in Entries(blocks)
    ensures n.Text? || exists j :: 0 <= j < |blocks| && n == Elem(blocks[j])
  {
    var b := blocks[0];
    assert Entries(blocks) == [Elem(b)] + b.children + Entries(blocks[1..]);
    if n in Entries(blocks[1..]) {
      EntryIsBlockOrLeaf(blocks[1..], n);
      if !n.Text? {
        var j :| 0 <= j < |blocks[1..]| && n == Elem(blocks[1..][j]);
        assert n == Elem(blocks[j + 1]);
      }
    } else if n != Elem(b) {
      assert n in b.children;
    }
  }

  /** `toggleBlock(editor, format)` on a flat selection: every block gets the
      same patch; nothing else about a block changes, and the selection stays
      flat. */
  function ToggleOnBlocks(format: string, blocks: seq<Element>): (after: seq<Element>)
    requires FlatSelection(blocks)
    ensures |after| == |blocks|
    ensures FlatSelection(after)
    ensures forall i :: 0 <= i < |after| ==> after[i].children == blocks[i].children && after[i].url == blocks[i].url
  {
    var t := ToggleBlock(format, Some(InRange(blocks)));
    seq(|blocks|, i requires 0 <= i < |blocks| => ApplyPatch(blocks[i], t.patch))
  }

  /** Axis independence, alignment side: an alignment toggle never changes a
      block's `type`. It clears `align` on every block when some block
      already has it, and sets it on every block otherwise. */
  lemma AlignmentToggleKeepsKinds(format: string, blocks: seq<Element>)
    requires FlatSelection(blocks)
    requires IsAlignment(format)
    ensures var after := ToggleOnBlocks(format, blocks);
      forall i :: 0 <= i < |after| ==>
        && after[i].kind == blocks[i].kind
        && after[i].align == (if SomeBlockHas(blocks, format, AlignAttr) then None else Some(format))
  {
    ActiveIffSomeBlockHas(blocks, format);
  }

  /** Axis independence, structural side, and "toggle off reverts to
      paragraph": a structural toggle never changes a block's `align`. When
      some block already has the format every block becomes a `paragraph`,
      even the ones that did not have it; otherwise every block becomes a
      bare `list-item` for a list format, or the format itself. */
  lemma StructuralToggleKeepsAlignment(format: string, blocks: seq<Element>)
    requires FlatSelection(blocks)
    requires !IsAlignment(format)
    ensures var after := ToggleOnBlocks(format, blocks);
      forall i :: 0 <= i < |after| ==>
        && after[i].align == blocks[i].align
        && after[i].kind == (if SomeBlockHas(blocks, format, KindAttr) then "paragraph"
                             else if IsList(format) then "list-item"
                             else format)
  {
    ActiveIffSomeBlockHas(blocks, format);
  }

  /** The list buttons never switch off. They write a bare `list-item` and
      never a list container, so the list format itself is never found in the
      selection: a second press writes `list-item` again instead of reverting
      to `paragraph`. */
  lemma ListToggleNeverReverts(format: string, blocks: seq<Element>)
    requires FlatSelection(blocks)
    requires IsList(format)
    ensures var after := ToggleOnBlocks(format, blocks);
      && (forall i :: 0 <= i < |after| ==> after[i].kind == "list-item")
      && ToggleOnBlocks(format, after) == after
  {
    var after := ToggleOnBlocks(format, blocks);
    assert !SomeBlockHas(blocks, format, KindAttr);
    assert !SomeBlockHas(after, format, KindAttr);
    StructuralToggleKeepsAlignment(format, blocks);
    StructuralToggleKeepsAlignment(format, after);
  }

  /** For every format but the two lists, once a toggle has made the selection
      uniform a second toggle undoes it: toggling three times is toggling
      once. */
  lemma ThirdToggleEqualsFirst(format: string, blocks: seq<Element>)
    requires FlatSelection(blocks)
    requires !IsList(format)
    ensures var once := ToggleOnBlocks(format, blocks);
      ToggleOnBlocks(format, ToggleOnBlocks(format, once)) == once
  {
    var once := ToggleOnBlocks(format, blocks);
    var twice := ToggleOnBlocks(format, once);
    var thrice := ToggleOnBlocks(format, twice);
    if IsAlignment(format) {
      AlignmentToggleKeepsKinds(format, blocks);
      AlignmentToggleKeepsKinds(format, once);
      AlignmentToggleKeepsKinds(format, twice);
      if |blocks| > 0 {
        if SomeBlockHas(blocks, format, AlignAttr) {
          assert once[0].align == None;
          assert twice[0].align == Some(format);
        } else {
          assert once[0].align == Some(format);
          assert SomeBlockHas(once, format, AlignAttr);
        }
      }
    } else {
      StructuralToggleKeepsAlignment(format, blocks);
      StructuralToggleKeepsAlignment(format, once);
      StructuralToggleKeepsAlignment(format, twice);
      if |blocks| > 0 {
        if SomeBlockHas(blocks, format, KindAttr) {
          assert once[0].kind == "paragraph";
          if format != "paragraph" {
            assert !SomeBlockHas(once, format, KindAttr);
            assert twice[0].kind == format;
          }
        } else {
          assert once[0].kind == format;
          assert SomeBlockHas(once, format, KindAttr);
          if format != "paragraph" {
            assert !SomeBlockHas(twice, format, KindAttr);
          }
        }
      }
    }
    assert forall i :: 0 <= i < |thrice| ==> thrice[i] == once[i];
  }
}
