# Slate editor decision layer, modelled in Dafny

The repository is a rich-text editor built on the Slate library. Slate does all
tree mutation; what the repository itself decides is a small, finite layer in
front of it, and that layer is what this project models:

- **Mark toggling** (`toggleMark`): read the marks reported at the cursor and
  either remove the mark or set it to `true`.
- **Block toggling** (`toggleBlock`): a decision table from the requested
  format and its current activity to the attribute queried (`align` or
  `type`), whether list containers are unwrapped, and the property patch
  written by `setNodes`.
- **Block activity** (`isBlockActive`): an existence test over the elements
  the library's traversal yields for the unhung selection.
- **Images** (`insertImage`, `isImageUrl`, and the `isVoid` and `insertData`
  overrides of `withImages`): image elements are void; pasted or dropped data
  goes to image-file reads, one image-URL insertion, or the default handler.

Both `app/editor/WithImages.tsx` and the earlier `app/editor/RichTextEditor.tsx`
are modelled. The earlier file repeats `toggleMark`, `toggleBlock` and
`isBlockActive` word for word. Module `RichTextEditor` writes those three out
again, with their matchers and constants, and proves that they decide exactly
what the image editor's versions decide. Shared with the image editor are the
node types and their attribute lookup (`Nodes.AttrValue`), the mark command
and patch datatypes, the decision record `Blocks.BlockToggle`, and the
library's mark effect.

Library behaviour and browser collaborators are parameters of the model:
- the node sequence that `Editor.nodes` yields for the unhung selection (`None` when there is no selection);
- the marks object `Editor.marks` reports;
- the `is-url` predicate;
- `new URL(url).pathname`, as a partial function, where `None` means the constructor throws;
- the `image-extensions` list;
- the wrapped editor's `isVoid`;
- the data URL a `FileReader` produces for a file.

Formats are strings, as in the source, where `format` is untyped. `includes`
on the two constant arrays becomes sequence membership.

Modules, one per concern:
- `Wrappers`: `Option` and `Result`.
- `Strings`: `split` with a one-character separator, and its first and last piece.
- `Nodes`: editor, element and text nodes, attributes, and patches.
- `Marks`: mark toggling.
- `Blocks`: block activity and the `toggleBlock` decision table.
- `BlockEffects`: what a block toggle does to a flat selection.
- `Images`: image elements, URL classification and paste routing.
- `RichTextEditor`: the earlier editor file.

Three behaviours of the code are worth knowing, and the model keeps them:
- A list toggle writes a bare `list-item` and never wraps it in a list
  container: there is no `wrapNodes` call (app/editor/WithImages.tsx:280-285).
  `BlockEffects.ListToggleNeverReverts` shows the consequence: the list format
  is never found in the selection, so a second press writes `list-item` again
  instead of reverting to `paragraph`.
- Any non-empty file list takes the file route, even when no file is an image
  (app/editor/WithImages.tsx:333). A paste of only non-image files inserts
  nothing and never reaches the default handler.
- `new URL` runs only after `is-url` accepts the text
  (app/editor/WithImages.tsx:317-318), so when `is-url` accepts something the
  URL constructor rejects, the exception escapes `insertData`. A
  protocol-relative `//host/a.png` is such an input. The model returns
  `Failure(InvalidUrl)` there.

## Model

| member | source | states |
|---|---|---|
| Strings.Split | app/editor/WithImages.tsx:318 | `split` always yields at least one piece, no piece holds the separator, and joining the pieces with the separator gives back the input |
| Strings.BeforeFirstIsLongestPrefix | app/editor/WithImages.tsx:336 | the first piece of a split is the longest separator-free prefix: followed by the separator unless it is the whole string, and the whole string exactly when there is no separator |
| Strings.AfterLastIsLongestSuffix | app/editor/WithImages.tsx:318 | `split(".").pop()` is the longest dot-free suffix: preceded by a dot unless it is the whole string, and the whole string exactly when there is no dot |
| Marks.ToggleMark | app/editor/WithImages.tsx:247-257 | the command concerns the requested mark; it is a removal exactly when a marks object exists and holds `true` under the mark (a missing object, a missing key, `false` or a non-boolean all read as inactive); otherwise it adds `true` |
| Marks.ApplyMarkCommand | app/editor/WithImages.tsx:252-256 | with no selection (no marks object) nothing changes; otherwise a removal deletes the key, an addition stores the value, and every other mark keeps its presence and value |
| Marks.ToggleMarkFlipsStatus | app/editor/WithImages.tsx:248-256 | with a selection, one toggle flips the toggled mark's active status; with none, the mark stays inactive; every other mark's status is unchanged |
| Marks.ToggleMarkTwiceRestoresStatus | app/editor/WithImages.tsx:252-256 | two toggles with no edit between them restore every mark's active status, and every other key keeps its value |
| Marks.DoubleToggleDropsFalseEntry | app/editor/WithImages.tsx:250-256 | the double toggle restores the status, not the map: a mark stored as `false` loses its key |
| Blocks.QueriedAttr | app/editor/WithImages.tsx:260-264 | `align` is queried exactly for `left`, `center`, `right` and `justify`; `type` for every other format |
| Blocks.ButtonAxes | app/editor/WithImages.tsx:102-116 | of the nine block buttons exactly the four alignment buttons query `align` |
| Blocks.Matching | app/editor/WithImages.tsx:296-304 | the filtered traversal holds only matching elements and holds every matching node of the traversal |
| Blocks.IsBlockActiveIffSomeMatch | app/editor/WithImages.tsx:293-306 | no selection means inactive; otherwise active exactly when at least one yielded node is an element whose queried attribute equals the format |
| Blocks.PartialCoverageIsActive | app/editor/WithImages.tsx:296-306 | a selection over a heading and a paragraph reports the heading active though the paragraph does not match (existence, not coverage) |
| Blocks.UnwrapOnlyListContainers | app/editor/WithImages.tsx:267-274 | the unwrap matcher fires exactly on `numbered-list`/`bulleted-list` elements and never for an alignment format |
| Blocks.NewProperties | app/editor/WithImages.tsx:275-284 | an alignment patch holds only `align` (cleared when active, the format otherwise); any other patch holds only `type` (`paragraph` when active, `list-item` for an inactive list format, the format otherwise); no patch writes a list container type |
| Blocks.ToggleBlock | app/editor/WithImages.tsx:259-286 | the queried attribute is `QueriedAttr(format)` and is the one patched, with the patch `NewProperties(format, isActive)`; list unwrapping is enabled exactly for structural toggles; no selection means inactive; active exactly when some yielded element matches |
| BlockEffects.ActiveIffSomeBlockHas | app/editor/WithImages.tsx:293-306 | on a flat selection the format is active exactly when some selected block carries it on the queried attribute |
| BlockEffects.NothingToUnwrap | app/editor/WithImages.tsx:267-274 | on a flat selection without list containers nothing the traversal yields is matched for unwrapping |
| BlockEffects.ToggleOnBlocks | app/editor/WithImages.tsx:285 | `setNodes` keeps the number of blocks and every block's children and url, and the selection stays flat and free of list containers |
| BlockEffects.AlignmentToggleKeepsKinds | app/editor/WithImages.tsx:276-279 | an alignment toggle never changes any block's `type`; it clears `align` everywhere when some block has it and sets it everywhere otherwise |
| BlockEffects.StructuralToggleKeepsAlignment | app/editor/WithImages.tsx:280-284 | a structural toggle never changes any block's `align`; when some block has the format every block reverts to `paragraph`, otherwise every block becomes `list-item` (list formats) or the format |
| BlockEffects.ListToggleNeverReverts | app/editor/WithImages.tsx:265-285 | a list toggle makes every block a bare `list-item`, and a second list toggle changes nothing, because no list container is ever written |
| BlockEffects.ThirdToggleEqualsFirst | app/editor/WithImages.tsx:259-286 | for every non-list format, toggling three times equals toggling once |
| Images.ImageElement | app/editor/WithImages.tsx:309-313 | the inserted element has type `image`, the given url, no alignment and exactly one empty text child |
| Images.IsVoid | app/editor/WithImages.tsx:325-327 | image elements are void; every other element is void exactly when the wrapped editor says so |
| Images.InsertedImageIsVoid | app/editor/WithImages.tsx:309-327 | every image `insertImage` builds is well formed and void, whatever the wrapped editor considers void |
| Images.IsImageUrl | app/editor/WithImages.tsx:315-320 | true exactly for non-empty text that `is-url` accepts, whose pathname parses and whose extension is listed; the URL constructor's exception escapes exactly when `is-url` accepts non-empty text it cannot parse |
| Images.ExtensionIsTextAfterLastDot | app/editor/WithImages.tsx:318-319 | the extension is the dot-free suffix after the last dot, and a pathname without a dot is its own extension |
| Images.ImageFileIffImageMediaType | app/editor/WithImages.tsx:336-338 | a file is read as an image exactly when its media type is `image` or starts with `image/` |
| Images.ImageFiles | app/editor/WithImages.tsx:333-346 | the files read are the image files of the list, each as often as it occurs, and no other file |
| Images.InsertData | app/editor/WithImages.tsx:329-352 | a non-empty file list routes to reading its image files; otherwise the text is inserted as an image exactly when it is an image URL, the default handler runs exactly when it is not, and a URL-parser exception escapes |
| Images.PasteRoutingIsExclusive | app/editor/WithImages.tsx:329-352 | with files the text is ignored, the default handler never runs, and there is one insertion per image file; without files at most one image is inserted; every insertion is a well-formed image |
| Images.PhotoUrlIsImagePageUrlIsText | app/editor/WithImages.tsx:347-351 | a URL whose pathname ends in `.jpg` is inserted as an image when `jpg` is listed; a URL with pathname `/page` goes to the default handler |
| RichTextEditor.ToggleMark | app/editor/RichTextEditor.tsx:184-194 | a removal exactly when a marks object exists and holds `true` under the mark; otherwise the mark is added as `true` |
| RichTextEditor.SameMarkDecision | app/editor/RichTextEditor.tsx:184-194 | the earlier editor issues the same mark command as the image editor on every input |
| RichTextEditor.ToggleMarkTwiceRestoresStatus | app/editor/RichTextEditor.tsx:189-193 | two presses with no edit between them restore every mark's active status |
| RichTextEditor.FirstMatch | app/editor/RichTextEditor.tsx:233-243 | the first match exists exactly when some node of the traversal is an element whose queried attribute equals the format, and it is such a node of the traversal |
| RichTextEditor.IsBlockActive | app/editor/RichTextEditor.tsx:225-244 | no selection means inactive; otherwise active exactly when some yielded node is an element (not the editor) whose queried attribute equals the format |
| RichTextEditor.ToggleBlockDecisionTable | app/editor/RichTextEditor.tsx:196-223 | `align` is queried and patched exactly for the four alignment values; other formats patch only `type` (`paragraph` when active, `list-item` for an inactive list, the format otherwise); the unwrap matcher fires only on list containers and never for alignment |
| RichTextEditor.SameBlockDecisions | app/editor/RichTextEditor.tsx:196-244 | the earlier editor's activity test, unwrap matcher and block decision agree with the image editor's on every input |

## Left out

- Rendering: `Element`, `Leaf`, the buttons and the editor component are React UI.
- The `InsertImageButton` prompt and alert are user I/O.
- Persistence through `localStorage` with `JSON.parse`/`JSON.stringify` in `onChange` and the initial value is browser I/O.
- `FileReader` decoding is asynchronous. The model states which files are read and that each successful read yields one image insertion. A read that fails fires no `load` event, so that file inserts nothing; read failures, the order in which reads complete and where the cursor is when each completes are not modelled.
- Slate internals are not modelled in general: `unwrapNodes` splitting, `unhangRange`, `insertNodes` splitting and selection re-anchoring, and normalization. In `Blocks` and `RichTextEditor` the `Editor.nodes` traversal is an input.
- `BlockEffects.ToggleOnBlocks`: rests on assumed readings of the library, not on its source, and covers only selections of flat lowest blocks that are not list containers. The assumptions are: (1) the traversal yields the editor, then each selected block followed by all of its leaves (`BlockEffects.InRange`); (2) `setNodes` patches every selected block and nothing else; (3) a patch key holding `undefined` deletes that attribute (`Nodes.ApplyPatch`); (4) `unwrapNodes`, which walks the selection as it is rather than the unhung range, visits the same blocks, so on such a selection it finds nothing to unwrap (`BlockEffects.NothingToUnwrap` proves the last step only under this assumption). Selections inside nested list containers need the library's split semantics, which are not part of this model. Every `BlockEffects` lemma inherits these assumptions.
- `Marks.ApplyMarkCommand`: models the marks the library reports (the pending marks at a collapsed cursor, and no marks without a selection). On an expanded selection the library writes the mark into the selected text leaves, which is library behaviour outside this model.
- `is-url`, the WHATWG URL parser and the `image-extensions` list are foreign libraries and appear as parameters.
- The `declare module "slate"` type augmentation is compile-time only.
