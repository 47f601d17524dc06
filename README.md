# Line-height and font-size editor extensions, modelled in Dafny

The repository adds two styling attributes to a rich-text editor built on
tiptap/ProseMirror:

- **line height** (`src/extensions/line-height.ts`): a `lineHeight` attribute
  on block nodes (`paragraph` and `heading` by default, default value
  `"normal"`). It is rendered to and parsed from an inline
  `line-height: …` style. The commands `setLineHeight(v)` and
  `unsetLineHeight()` walk every node the selection touches. Each node of a
  governed type gets a position-addressed `setNodeMarkup` rewrite: a copy of
  its attributes with `lineHeight` overwritten. All rewrites go into one
  transaction, which is dispatched only when the host passes `dispatch`.
  Both commands always return `true`.
- **font size** (`src/extensions/font-size.ts`): a `fontSize` attribute on
  the `textStyle` mark (default `null`), rendered to and parsed from an
  inline `font-size: …` style. `setFontSize(s)` and `unsetFontSize()`
  delegate to the editor's mark commands.

The Dafny modules:

- `Attrs` (attrs.dfy): attribute values as `Option<string>` (`None` is
  `null`), attribute bags, and JavaScript truthiness (`null` and `""` are
  falsy) together with the `a || b` fallback.
- `InlineStyle` (inline_style.dfy): the declaration `"<property>: <value>"`,
  the shared render rule, and the reading of a property back from a
  rendered style.
- `Editor` (editor.dfy): the host editor as the commands see it. The document
  is a sequence of nodes, each with a start position, a size, a type name
  and an attribute bag, in document order. A transaction is a selection plus
  a list of `(pos, attrs)` edits applied in order. `EditorState` is a class
  whose `Dispatch` commits a whole transaction at once.
- `LineHeight` (line_height.dfy): options, render/parse, and the
  walk-and-rewrite. The `Rewrite` and `Edits` functions give reference
  definitions. `CollectEdits` is the loop that builds the transaction.
  `ApplyLineHeight` is the shared command body, with `SetLineHeight` and
  `UnsetLineHeight` as thin callers. The lemmas cover scoping, preserved
  attributes, idempotence, set-then-unset and the round trips.
- `FontSize` (font_size.dfy): render/parse and the value each command
  writes into the `textStyle` mark.
- `ResetValues` (reset_values.dfy): sets the two unset commands side by
  side. Line height resets to its configured default, font size to null.

The enumeration `state.doc.nodesBetween(from, to)` is modelled by
`Editor.Touches`. A node is visited when it starts before `to` and ends after
`from`. That is the library's per-node rule: in the flattened tree, a node that
overlaps the range has ancestors that overlap it too. A collapsed cursor
strictly inside a paragraph therefore visits that paragraph.

In the model, the round-trip law `render(parse(render(v))) == render(v)`
holds for font size (`FontSize.FontSizeRoundTrip`) but not for line height.
A falsy line height renders nothing. The element then parses back to the
configured default, which renders `line-height: normal`.
`LineHeight.LineHeightRoundTrip` states both cases. What does hold for line
height is that a parsed value survives a render and a second parse
(`LineHeight.ParseRenderParse`). These round trips read the style back as
text. They say nothing about a browser, which splits a stored value such as
`12px; color: red` into two declarations (see "Left out").

## Model

| member | source | states |
|---|---|---|
| `Attrs.OrElse` | src/extensions/line-height.ts:37 | JavaScript's or-fallback on a string-or-null: the first operand when truthy, the fallback otherwise |
| `InlineStyle.ReadProperty` | src/extensions/line-height.ts:37 | reading a property back from a style: when it succeeds, the style is exactly the declaration of that property with the value read |
| `InlineStyle.Render` | src/extensions/line-height.ts:29-34 | the shared render rule: no style exactly when the value is falsy; otherwise a declaration from which the property reads back as the same value |
| `InlineStyle.ElementProperty` | src/extensions/font-size.ts:36 | what `element.style.<property>` sees: nothing when no style was rendered, and a value read from a rendered style is the one that style declared |
| `InlineStyle.ElementShowsDeclaredValue` | src/extensions/font-size.ts:36 | an element rendered with one declaration of a property shows exactly the declared value for it |
| `InlineStyle.ReadDeclaration` | src/extensions/font-size.ts:36-46 | reading back a rendered declaration yields exactly its value |
| `LineHeight.RenderLineHeight` | src/extensions/line-height.ts:29-34 | no style iff the line height is null or empty; otherwise exactly `"line-height: " + value`, copied verbatim |
| `LineHeight.ParseLineHeight` | src/extensions/line-height.ts:36-38 | parsing is total: the element's line height when non-empty, else the configured default; with a non-empty default the result is never empty |
| `LineHeight.DefaultOptionsBehaviour` | src/extensions/line-height.ts:15-20 | the default governed types are exactly paragraph and heading; with the default `"normal"` a parsed line height is never empty, and an element without one renders `line-height: normal` |
| `LineHeight.LineHeightRoundTrip` | src/extensions/line-height.ts:29-38 | render, read back, parse, render: unchanged for a truthy line height; the default's rendering for a falsy one |
| `LineHeight.ParseRenderParse` | src/extensions/line-height.ts:29-38 | a parsed line height survives rendering and parsing again |
| `Editor.Touches` | src/extensions/line-height.ts:55 | the `nodesBetween(from, to)` visiting rule: a selection starting strictly inside a node visits it (a collapsed cursor included); a non-empty node starting inside the range is visited; nodes ending at or before `from`, or starting at or after `to`, are skipped |
| `Attrs.Truthy` | src/extensions/line-height.ts:30 | JavaScript truthiness of a string-or-null attribute, as tested by `!attributes.lineHeight`, by the left operand of `||` (line 37) and by `!attributes.fontSize` (font-size.ts line 40): null and `""` are falsy, every non-empty string is truthy |
| `LineHeight.Targeted` | src/extensions/line-height.ts:55-57 | a node the commands rewrite (also lines 79-80): only visited nodes of a governed type; a node of another type never; a non-empty governed node starting inside the range always |
| `LineHeight.Rewrite` | src/extensions/line-height.ts:55-63 | the reference result of the walk: every node in document order with targeted ones rewritten; position, size and type of every node kept |
| `LineHeight.WithLineHeight` | src/extensions/line-height.ts:59-62 | `{ ...node.attrs, lineHeight }`: the copy holds the new line height and agrees with the original bag on every other attribute |
| `LineHeight.CollectEdits` | src/extensions/line-height.ts:50-64 | the walk: the transaction carries the selection; its edits are exactly one per targeted node, in document order, each rewriting a targeted node; applying them yields the rewritten document |
| `LineHeight.ApplyEditsIsRewrite` | src/extensions/line-height.ts:55-64 | edits addressed by original positions, applied in turn, produce the rewritten document: no rewrite shifts a position and each position names one node |
| `LineHeight.EditsRewriteTargetsInOrder` | src/extensions/line-height.ts:55-63 | every queued edit addresses a visited node of a governed type, holds that node's attributes with `lineHeight` overwritten, and edits ascend in position |
| `LineHeight.ApplyLineHeight` | src/extensions/line-height.ts:49-67 | shared command body: returns true; with dispatch, one dispatch and the document becomes the rewrite; without, document and dispatch count unchanged (dry run); selection kept |
| `LineHeight.SetLineHeight` | src/extensions/line-height.ts:47-68 | `setLineHeight(v)`: the same contract with the caller's value |
| `LineHeight.UnsetLineHeight` | src/extensions/line-height.ts:71-91 | `unsetLineHeight()`: the same contract with the configured default written, not null |
| `LineHeight.RewriteAt` | src/extensions/line-height.ts:55-63 | node `i` of the rewritten document is node `i` rewritten on its own |
| `LineHeight.TargetsTakeValue` | src/extensions/line-height.ts:55-63 | every visited node of a governed type holds the written line height afterwards |
| `LineHeight.OtherAttributesKept` | src/extensions/line-height.ts:59-62 | every node keeps its type and every attribute other than `lineHeight` |
| `LineHeight.UntargetedUnchanged` | src/extensions/line-height.ts:55-57 | nodes not visited, and visited nodes of other types, are unchanged |
| `LineHeight.NoTargetNoChange` | src/extensions/line-height.ts:55-67 | when no node qualifies (an empty document included) the rewrite leaves the document unchanged |
| `LineHeight.CollapsedSelectionApplies` | src/extensions/line-height.ts:54-55 | a collapsed selection strictly inside a governed node still sets that node's line height |
| `LineHeight.LastRewriteWins` | src/extensions/line-height.ts:59-62 | rewriting the same selection twice equals rewriting once with the second value |
| `LineHeight.RewriteIdempotent` | src/extensions/line-height.ts:55-63 | repeating a command with the same value changes nothing further |
| `LineHeight.UnsetAfterSet` | src/extensions/line-height.ts:82-85 | set(v) then unset on the same selection: targeted nodes hold the configured default, all other nodes are as before both |
| `LineHeight.ScopedExample` | src/extensions/line-height.ts:55-63 | paragraph and heading under the selection take `"2"` (the heading keeps its `level`); an image under it and a paragraph past it are unchanged |
| `Editor.ApplyEdit` | src/extensions/line-height.ts:59 | `setNodeMarkup(pos, …, attrs)`: the node at `pos` gets the new bag; every node keeps position, size and type; nodes elsewhere are unchanged |
| `Editor.Apply` | src/extensions/line-height.ts:59 | applying a list of attribute edits keeps every node's position, size and type |
| `Editor.EditorState.Dispatch` | src/extensions/line-height.ts:66 | `dispatch(tr)`: the whole transaction is applied at once, its selection adopted, and the dispatch count grows by one |
| `FontSize.RenderFontSize` | src/extensions/font-size.ts:38-47 | no style iff the font size is null or empty; otherwise exactly one declaration `"font-size: " + value`, copied verbatim |
| `FontSize.ParseFontSize` | src/extensions/font-size.ts:36 | the element's font size as it is, no fallback; a missing one reads as `""`; truthy iff the element's value is truthy |
| `FontSize.SetFontSize` | src/extensions/font-size.ts:57-61 | puts exactly `fontSize: s` into the `textStyle` mark (`Some(s)`, also for `""`, never null), unvalidated; the value survives render and parse verbatim |
| `FontSize.UnsetFontSize` | src/extensions/font-size.ts:63-70 | writes null (the attribute's default) into the `textStyle` mark, which renders no font size, and asks for empty text-style marks to be removed |
| `FontSize.AbsenceRendersNothing` | src/extensions/font-size.ts:35-42 | the null default renders no style, and an element without a font size parses to a value that renders none |
| `FontSize.FontSizeRoundTrip` | src/extensions/font-size.ts:36-46 | render, read back, parse, render gives the same style for every value |
| `ResetValues.UnsetDiffers` | src/extensions/line-height.ts:82-85 | after unsetting line height, every targeted node holds the configured default and renders `line-height: <default>` when that default is non-empty; unsetting font size leaves null, which renders nothing |

## Left out

- The `declare module "@tiptap/core"` command-type augmentations: they are compile-time declarations with no behaviour.
- `Extension.create` and the `this.options` plumbing. Options are passed as plain parameters (`LineHeight.Options`, `LineHeight.DefaultOptions`).
- ProseMirror's tree descent in `nodesBetween`. The document is a flattened, position-ordered sequence of nodes, and `Editor.Touches` stands for the visiting rule. The root node is not part of the sequence.
- `tr.setSelection(selection)`: the transaction carries the selection unchanged. Selection mapping is not modelled.
- `setNodeMarkup`'s schema checks and its filling in of attribute defaults.
- Transactions that already hold steps: each command starts from an empty transaction, so chaining commands into one transaction is not modelled.
- The host mark primitives `setMark`, `removeEmptyTextStyle` and `run`. The font-size commands are modelled only as the mark update they request (`FontSize.MarkUpdate`). Merging into existing marks, mark removal and the commands' boolean result come from the host and are not modelled.
- DOM style parsing. An element's style property is an `Option<string>`, where `None` means not set (the DOM yields `""`). A browser that drops CSS values it rejects and normalises values it accepts (`12PX` to `12px`, `1.50` to `1.5`) is not modelled, so the textual round trips do not describe a browser for such values either.
- InlineStyle.ReadProperty: reads the value back as the text after `"<property>: "`, not through a CSS declaration list. The commands store values unvalidated, so a value containing `;` (for example `12px; color: red`) renders text that a browser parses as several declarations. `element.style.fontSize` or `element.style.lineHeight` then sees only the first part. The round-trip lemmas (`FontSize.FontSizeRoundTrip`, `LineHeight.LineHeightRoundTrip`, `LineHeight.ParseRenderParse`, `FontSize.SetFontSize`'s read-back clause) hold for this textual reading, not for such values in a browser.
- Undo history, toolbar UI and the page shell (`src/app/(home)/page.tsx`).
