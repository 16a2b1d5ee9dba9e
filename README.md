# sambox core, modelled in Dafny

This project models five pieces of sambox, a Java PDF library, and proves
properties of the model:

- **Variable-text appearance generation** (`AppearanceGeneratorHelper`). It
  splices a newly generated appearance into the `/Tx BMC … EMC` region of a
  widget's appearance stream (marked content, section 14.6 of ISO 32000-1).
  It pads the bounding box into a clip rectangle and a content rectangle, and
  resolves the automatic font size (section 12.7.3.3 of ISO 32000-1). It lays out comb
  fields one character per cell (section 12.7.4.3 of ISO 32000-1), and draws list boxes with
  a highlight band and one row per option.
- **The page tree** (`PDPageTree`, section 7.7.3 of ISO 32000-1). It covers attribute
  inheritance along `/Parent`, the page and node iterators, `get` by
  descending on `/Count`, and `indexOf`. It also covers `add`, `remove`,
  `insertBefore` and `insertAfter`, which edit a `/Kids` array in place and
  adjust `/Count` up the `/Parent` chain, and the constructor that repairs a
  root typed `/Page`.
- **Page attributes** (`PDPage`). It covers the MediaBox cache with its
  U.S. Letter default, and the fallback chain of the page boundaries
  (section 14.11.2 of ISO 32000-1). It also covers rotation normalisation, `hasContents`,
  the `/Resources` repair and the box setters.
- **Type 3 font metrics** (`PDType3Font`, section 9.6.5 of ISO 32000-1). It covers the
  width lookup and its fallbacks, the height fallback chain, the font
  matrix, and the bounding box generated from the glyph boxes.
- **XObject dispatch** (`PDXObject`, section 8.8 of ISO 32000-1). It covers
  `createXObject`'s classification by `/Subtype` and the constructors that
  stamp `/Type` and `/Subtype`.

The document's dictionaries are a map from object identity (`NodeId`) to a
`Node`, held by the `Store` class. Each `Node` holds its `/Type`, its `/Kids`
and its other entries. `/Parent` and `/Count` sit in maps of their own.
Methods that change the document update these maps in place. A ghost rank
shows that the `/Kids` and `/Parent` references have no cycle.

Each file holds one part of the model:

| file | holds |
|---|---|
| `cos.dfy` | COS values, rectangles, Java `int` arithmetic, `IndexOf` |
| `content_stream.dfy` | tokens and the splice |
| `appearance_ops.dfy` | drawing operations, their tokens, and the text-object rules |
| `appearance_layout.dfy` | padding, font size, comb, list box, and the whole generated appearance |
| `appearance_generator.dfy` | widgets and the writing methods |
| `page_tree_spec.dfy` | the page tree as functions: kids, inheritance, page order, well-formedness |
| `page_tree_edits.dfy` | the lemmas about the edits |
| `page_tree_search.dfy` | `get` and the scan of `insertBefore`/`insertAfter` |
| `page_tree.dfy` | the `Store` and `PDPageTree` classes |
| `page_iterators.dfy` | the two iterators |
| `page.dfy` | `PDPage` |
| `type3_font.dfy` | `PDType3Font` |
| `xobject.dfy` | `PDXObject` |

## Model

| member | source | states |
|---|---|---|
| ContentStream.SpliceReplacesRegion | src/main/java/org/apache/pdfbox/pdmodel/interactive/form/AppearanceGeneratorHelper.java:146-173 | with the first BMC at b and the first EMC at e > b, the output is tokens[..b+1] + generated + tokens[e..]; tokens outside the region stay in place |
| ContentStream.SpliceWithoutBegin | src/main/java/org/apache/pdfbox/pdmodel/interactive/form/AppearanceGeneratorHelper.java:147-153 | without a BMC, the output is every token, then `/Tx BMC`, the generated tokens, then a new EMC, or everything from the original's first EMC on written again |
| ContentStream.TrailerWrittenTwice | src/main/java/org/apache/pdfbox/pdmodel/interactive/form/AppearanceGeneratorHelper.java:163-173 | for the stream `EMC` alone, the EMC is written twice, before and after the generated tokens |
| ContentStream.HeadMarkers | src/main/java/org/apache/pdfbox/pdmodel/interactive/form/AppearanceGeneratorHelper.java:147-158 | the head ends at its only BMC, and holds an EMC exactly when the original has one before its first BMC, or has an EMC and no BMC |
| ContentStream.SplicedMarkers | src/main/java/org/apache/pdfbox/pdmodel/interactive/form/AppearanceGeneratorHelper.java:146-173 | where the spliced stream's first BMC and first EMC are, found by value as indexOf finds them |
| ContentStream.SplicedWellPlaced | src/main/java/org/apache/pdfbox/pdmodel/interactive/form/AppearanceGeneratorHelper.java:146-173 | the splice leaves a BMC before the first EMC exactly when the original has no EMC, or has its first BMC before its first EMC |
| ContentStream.RespliceIsSplice | src/main/java/org/apache/pdfbox/pdmodel/interactive/form/AppearanceGeneratorHelper.java:146-173 | splicing twice equals splicing the second generated content once, given a well-placed region |
| ContentStream.ContentWriter.WriteTokens | src/main/java/org/apache/pdfbox/pdmodel/interactive/form/AppearanceGeneratorHelper.java:150-151 | the writer's output grows by exactly the tokens written |
| AppearanceOps.SerializeAppend | src/main/java/org/apache/pdfbox/pdmodel/interactive/form/AppearanceGeneratorHelper.java:183-184 | writing two runs of operations writes their tokens one after the other |
| AppearanceOps.SerializeMarkerFree | src/main/java/org/apache/pdfbox/pdmodel/interactive/form/AppearanceGeneratorHelper.java:180-276 | no generated operation writes BMC or EMC |
| AppearanceOps.TextStep | src/main/java/org/apache/pdfbox/pdmodel/interactive/form/AppearanceGeneratorHelper.java:222-274 | BT needs to be outside a text object and opens one; ET needs to be inside one and closes it; other operators keep the state |
| AppearanceOps.TextStateAppend | src/main/java/org/apache/pdfbox/pdmodel/interactive/form/AppearanceGeneratorHelper.java:180-276 | running two runs of operations is running the first, then the second from the state it leaves |
| AppearanceOps.EmitAll | src/main/java/org/apache/pdfbox/pdmodel/interactive/form/AppearanceGeneratorHelper.java:183-184 | emitting operations one at a time writes their serialization |
| AppearanceOps.Emit | src/main/java/org/apache/pdfbox/pdmodel/interactive/form/AppearanceGeneratorHelper.java:222-274 | writing one operation appends exactly its tokens |
| AppearanceLayout.ApplyPadding | src/main/java/org/apache/pdfbox/pdmodel/interactive/form/AppearanceGeneratorHelper.java:514-518 | each edge moves inward by the padding, with no clamping |
| AppearanceLayout.PaddedWithin | src/main/java/org/apache/pdfbox/pdmodel/interactive/form/AppearanceGeneratorHelper.java:514-518 | a padding between 0 and half of each side keeps the box inside the original, with non-negative sides |
| AppearanceLayout.PaddingAdds | src/main/java/org/apache/pdfbox/pdmodel/interactive/form/AppearanceGeneratorHelper.java:197-199 | padding by p and then by p2 is padding once by p + p2 |
| AppearanceLayout.ResolveBoundingBox | src/main/java/org/apache/pdfbox/pdmodel/interactive/form/AppearanceGeneratorHelper.java:497-506 | the stream's BBox, or else the widget rectangle moved to the origin |
| AppearanceLayout.ComputeLayout | src/main/java/org/apache/pdfbox/pdmodel/interactive/form/AppearanceGeneratorHelper.java:192-212 | the clip rectangle lies max(1, border width) inside the bbox and the content rectangle twice that far inside; the font size is CalculateFontSize's |
| AppearanceLayout.CalculateFontSize | src/main/java/org/apache/pdfbox/pdmodel/interactive/form/AppearanceGeneratorHelper.java:456-488 | a non-zero declared size is kept; size 0 on a multiline field gives 12 (AutosizeFits, AutosizeIsMin, AutosizeBoxFallback and AutosizeZeroWidth state the single-line case) |
| AppearanceLayout.AutosizeFits | src/main/java/org/apache/pdfbox/pdmodel/interactive/form/AppearanceGeneratorHelper.java:468-485 | with positive metrics, the text at the computed size fits the content rectangle in width and in height, and fits one of them exactly |
| AppearanceLayout.AutosizeIsMin | src/main/java/org/apache/pdfbox/pdmodel/interactive/form/AppearanceGeneratorHelper.java:468-485 | with positive metrics, the automatic size is the minimum of the height-based and width-based sizes |
| AppearanceLayout.AutosizeZeroWidth | src/main/java/org/apache/pdfbox/pdmodel/interactive/form/AppearanceGeneratorHelper.java:468-485 | a value of zero width, such as an empty one, is sized by height alone: the width-based size is +Infinity and Math.min keeps the height-based one, so cap height plus descender fills the content height |
| AppearanceLayout.AutosizeBoxFallback | src/main/java/org/apache/pdfbox/pdmodel/interactive/form/AppearanceGeneratorHelper.java:476-485 | when cap height plus descender is not positive, the height-based size uses the font bounding box's height; the size is still the minimum of the two |
| AppearanceLayout.ShallCombIgnoresMaxLen | src/main/java/org/apache/pdfbox/pdmodel/interactive/form/AppearanceGeneratorHelper.java:294-299 | whether a field is combed does not depend on MaxLen; a multiline, password or file-select field is never combed |
| AppearanceLayout.CombCount | src/main/java/org/apache/pdfbox/pdmodel/interactive/form/AppearanceGeneratorHelper.java:317-318 | the number of characters shown is min(length, MaxLen), and 0 for a MaxLen that is not positive |
| AppearanceLayout.CombCharsShowText | src/main/java/org/apache/pdfbox/pdmodel/interactive/form/AppearanceGeneratorHelper.java:334-347 | the comb output alternates a move with a one-character showText, for characters 0..n-1 in order |
| AppearanceLayout.CombAppearance | src/main/java/org/apache/pdfbox/pdmodel/interactive/form/AppearanceGeneratorHelper.java:310-348 | a stream without a BBox fails with a NullPointerException; otherwise there are two operations per character shown |
| AppearanceLayout.PenOfCombChar | src/main/java/org/apache/pdfbox/pdmodel/interactive/form/AppearanceGeneratorHelper.java:339-344 | the move before character i is CombOffset, and only the first move carries the baseline offset |
| AppearanceLayout.CombPenPosition | src/main/java/org/apache/pdfbox/pdmodel/interactive/form/AppearanceGeneratorHelper.java:330-346 | the text moves add up to the centre of cell i, less a quarter of character i's width, on the baseline |
| AppearanceLayout.CombPenHalfWidth | src/main/java/org/apache/pdfbox/pdmodel/interactive/form/AppearanceGeneratorHelper.java:330-346 | the same position, written with the loop's halved widths |
| AppearanceLayout.SelectedIndex | src/main/java/org/apache/pdfbox/pdmodel/interactive/form/AppearanceGeneratorHelper.java:359-371 | 0 unless both values and options are non-empty; then the first selected index, or else options.indexOf(values[0]), which may be -1 |
| AppearanceLayout.HighlightBands | src/main/java/org/apache/pdfbox/pdmodel/interactive/form/AppearanceGeneratorHelper.java:378-387 | the band for row selected - topIndex runs from 1 inside the left edge to 1 inside the right edge; its top is 1 below the box's top, lowered by one band height per row; it is one band high, and the next row's band starts where it ends |
| AppearanceLayout.HighlightAppearance | src/main/java/org/apache/pdfbox/pdmodel/interactive/form/AppearanceGeneratorHelper.java:350-390 | a stream without a BBox fails with a NullPointerException; otherwise four operations: the colour, the band's rectangle from HighlightBands, a fill, and a colour again |
| AppearanceLayout.QuaddingOffset | src/main/java/org/apache/pdfbox/pdmodel/interactive/form/AppearanceGeneratorHelper.java:398-419 | left adds no move; right moves by the free width less 4, and centred by half of that; any other quadding fails |
| AppearanceLayout.ListboxRowsFrom | src/main/java/org/apache/pdfbox/pdmodel/interactive/form/AppearanceGeneratorHelper.java:421-447 | one row per option from topIndex to the end; none past the end; a negative topIndex fails once that row's position is written |
| AppearanceLayout.ListboxAppearance | src/main/java/org/apache/pdfbox/pdmodel/interactive/form/AppearanceGeneratorHelper.java:392-448 | black text, then the quadding move or its error, then the rows |
| AppearanceLayout.ListboxAsWrittenUnbalanced | src/main/java/org/apache/pdfbox/pdmodel/interactive/form/AppearanceGeneratorHelper.java:443-446 | as written, a list box scrolled to 0 < topIndex < options ends its last row's text object, so the closing ET falls outside any text object |
| AppearanceLayout.ListboxAsWrittenExample | src/main/java/org/apache/pdfbox/pdmodel/interactive/form/AppearanceGeneratorHelper.java:443-446 | for options ["a", "b"] with topIndex 1, the closing ET is invalid as written and valid with the corrected test |
| AppearanceLayout.ListboxRowsTextState | src/main/java/org/apache/pdfbox/pdmodel/interactive/form/AppearanceGeneratorHelper.java:427-447 | with the corrected test, the rows open and close text objects in turn, and leave one open after the last option |
| AppearanceLayout.ListboxAppearanceTextState | src/main/java/org/apache/pdfbox/pdmodel/interactive/form/AppearanceGeneratorHelper.java:392-448 | with the corrected test, the list box part leaves the caller's text object open |
| AppearanceLayout.Assemble | src/main/java/org/apache/pdfbox/pdmodel/interactive/form/AppearanceGeneratorHelper.java:201-275 | the parts in order, cut short at the first failure; a complete run ends with ET and Q |
| AppearanceLayout.GeneratedAppearance | src/main/java/org/apache/pdfbox/pdmodel/interactive/form/AppearanceGeneratorHelper.java:180-276 | generation, with the corrected list-box row-ending test, fails only for a list box or for a comb field without a BBox |
| AppearanceLayout.GeneratedAppearanceWellFormed | src/main/java/org/apache/pdfbox/pdmodel/interactive/form/AppearanceGeneratorHelper.java:180-276 | with the corrected list-box row-ending test, a completed appearance starts and ends outside a text object, with every operator on its own side of BT/ET; the test as written breaks this for a scrolled list box (see Findings) |
| AppearanceGenerator.Written | src/main/java/org/apache/pdfbox/pdmodel/interactive/form/AppearanceGeneratorHelper.java:141-173 | a complete generation gives the splice; a failed one leaves the head and the operations written before the failure |
| AppearanceGenerator.RegenerationStable | src/main/java/org/apache/pdfbox/pdmodel/interactive/form/AppearanceGeneratorHelper.java:81-173 | writing a second appearance over the first gives what writing the second alone gives |
| AppearanceGenerator.NewStreamContent | src/main/java/org/apache/pdfbox/pdmodel/interactive/form/AppearanceGeneratorHelper.java:107-117 | a stream created for the widget ends up as `/Tx BMC`, the generated tokens and EMC, a well-placed region |
| AppearanceGenerator.InsertGeneratedCombAppearance | src/main/java/org/apache/pdfbox/pdmodel/interactive/form/AppearanceGeneratorHelper.java:310-348 | the loop writes exactly CombAppearance's operations, or fails without a BBox |
| AppearanceGenerator.WriteCombChars | src/main/java/org/apache/pdfbox/pdmodel/interactive/form/AppearanceGeneratorHelper.java:327-347 | the loop over xOffset, prevCharWidth and baselineOffset writes the first numChars comb characters |
| AppearanceGenerator.CombNextOffset | src/main/java/org/apache/pdfbox/pdmodel/interactive/form/AppearanceGeneratorHelper.java:339-346 | the running xOffset plus half the previous width, less half the current one, is the move CombOffset gives for character i |
| AppearanceGenerator.InsertGeneratedSelectionHighlight | src/main/java/org/apache/pdfbox/pdmodel/interactive/form/AppearanceGeneratorHelper.java:350-390 | writes exactly HighlightAppearance's operations |
| AppearanceGenerator.InsertGeneratedListboxAppearance | src/main/java/org/apache/pdfbox/pdmodel/interactive/form/AppearanceGeneratorHelper.java:392-448 | writes exactly ListboxAppearance's operations (corrected test), stopping at the first failure |
| AppearanceGenerator.WriteQuaddingOffset | src/main/java/org/apache/pdfbox/pdmodel/interactive/form/AppearanceGeneratorHelper.java:398-419 | writes the quadding move, or nothing and the error for an unknown quadding |
| AppearanceGenerator.WriteListboxRows | src/main/java/org/apache/pdfbox/pdmodel/interactive/form/AppearanceGeneratorHelper.java:421-447 | the loop that updates yTextPos writes ListboxRowsFrom's rows, with the corrected row-ending test |
| AppearanceGenerator.WriteListboxRow | src/main/java/org/apache/pdfbox/pdmodel/interactive/form/AppearanceGeneratorHelper.java:427-446 | one row: a negative index fails with IndexOutOfBounds after the move is written; otherwise the row ListboxRow gives, with the corrected test |
| AppearanceGenerator.InsertGeneratedAppearance | src/main/java/org/apache/pdfbox/pdmodel/interactive/form/AppearanceGeneratorHelper.java:180-276 | sets the Matrix to identity and FormType to 1, and writes GeneratedAppearance's operations |
| AppearanceGenerator.SetAppearanceContent | src/main/java/org/apache/pdfbox/pdmodel/interactive/form/AppearanceGeneratorHelper.java:133-174 | the stream's new content is Written(old content, generated appearance) |
| AppearanceGenerator.UpdateWidget | src/main/java/org/apache/pdfbox/pdmodel/interactive/form/AppearanceGeneratorHelper.java:85-119 | per widget: skipped under a format action without /AP; a missing /AP gets a new dictionary; a non-stream /N gets a new stream whose BBox is the rectangle moved to the origin |
| AppearanceGenerator.UpdateAt | src/main/java/org/apache/pdfbox/pdmodel/interactive/form/AppearanceGeneratorHelper.java:85-119 | one pass of the loop updates widget i and leaves the others' results alone |
| AppearanceGenerator.SetAppearanceValue | src/main/java/org/apache/pdfbox/pdmodel/interactive/form/AppearanceGeneratorHelper.java:81-119 | for widgets with separate normal appearance streams: the widgets are updated in order up to the first failure; the widgets after it keep their /AP entry and their normal streams' BBox and content |
| PageTreeSpec.GetKids | src/main/java/org/sejda/sambox/pdmodel/PDPageTree.java:162-173 | every kid is a dictionary of the document; a page has no kids (KidIds states which entries are kept) |
| PageTreeSpec.KidsArrayOf | src/main/java/org/sejda/sambox/pdmodel/PDPageTree.java:162-165 | the /Kids entry read as an array exactly when it is one |
| PageTreeSpec.KidIds | src/main/java/org/sejda/sambox/pdmodel/PDPageTree.java:165-170 | a kid is listed exactly when it is a dictionary (a stream's dictionary included) of the document that the array refers to |
| PageTreeSpec.GetInheritableAttribute | src/main/java/org/sejda/sambox/pdmodel/PDPageTree.java:112-127 | the value of the first dictionary on the node's /Parent chain that holds the key, or none when no dictionary does |
| PageTreeSpec.Chain | src/main/java/org/sejda/sambox/pdmodel/PDPageTree.java:460-468 | the /Parent chain starts at the node and stays inside the document, going up in rank |
| PageTreeSpec.LeavesArePagesOfNodes | src/main/java/org/sejda/sambox/pdmodel/PDPageTree.java:178-261 | the pages in page order are exactly the pages among the nodes in pre-order, in the same order |
| PageTreeSpec.LeavesArePages | src/main/java/org/sejda/sambox/pdmodel/PDPageTree.java:187-197 | a node is in the page order exactly when it is a page among the nodes in pre-order |
| PageTreeSpec.SubtreeLeavesRun | src/main/java/org/sejda/sambox/pdmodel/PDPageTree.java:187-197 | the pages below a node of the tree form a contiguous run of the tree's page order |
| PageTreeSpec.VisitFinds | src/main/java/org/sejda/sambox/pdmodel/PDPageTree.java:396-411 | a fresh search finds the page exactly when it is in the sequence, and stops at its first position |
| PageTreeSearch.LocatedCorrect | src/main/java/org/sejda/sambox/pdmodel/PDPageTree.java:301-348 | with correct counts that fit in an int, the private get finds page number pageNum exactly when it exists, and it is that page in page order |
| PageTreeSearch.LocatedFound | src/main/java/org/sejda/sambox/pdmodel/PDPageTree.java:301-348 | whatever the counts say, the private get finds only pages below the node, and fails only with PageNotFound |
| PageTreeSearch.Locate | src/main/java/org/sejda/sambox/pdmodel/PDPageTree.java:301-348 | the recursive search computes Located |
| PageTreeSearch.LocateInKids | src/main/java/org/sejda/sambox/pdmodel/PDPageTree.java:313-337 | the loop over the kids with its encountered counter computes LocatedInKids |
| PageTreeSearch.ScanKids | src/main/java/org/sejda/sambox/pdmodel/PDPageTree.java:512-528 | a found index is a reference to the page; a direct dictionary or stream is passed over; failures are NullPointer or ClassCast |
| PageTreeSearch.ScanKidsCorrect | src/main/java/org/sejda/sambox/pdmodel/PDPageTree.java:512-528 | the scan finds the first reference to the page exactly when every entry before it reads as a dictionary (a reference to one, or a direct dictionary or stream); it reports no page exactly when none refers to it |
| PageTreeSearch.FindKid | src/main/java/org/sejda/sambox/pdmodel/PDPageTree.java:512-528 | the loop computes ScanKids, so it passes over direct dictionaries and streams and finds the first reference to the page |
| PageTreeEdits.RepairAsWrittenLosesPage | src/main/java/org/sejda/sambox/pdmodel/PDPageTree.java:89-101 | as written, the wrapped page is itself retyped /Pages: the tree has no page while its /Count says 1 |
| PageTreeEdits.RepairKeepsPage | src/main/java/org/sejda/sambox/pdmodel/PDPageTree.java:89-96 | as intended, the new root holds exactly the page, its /Count of 1 is right, and the references stay acyclic |
| PageTreeEdits.EmptyTreeWellFormed | src/main/java/org/sejda/sambox/pdmodel/PDPageTree.java:60-66 | a new root typed /Pages with empty /Kids and /Count 0 is a well-formed tree without pages |
| PageTreeEdits.RemoveKid | src/main/java/org/sejda/sambox/pdmodel/PDPageTree.java:452-469 | dropping a page from its parent's /Kids and decrementing the chain's counts keeps the tree well formed and removes exactly that page from the page order |
| PageTreeEdits.RemovePage | src/main/java/org/sejda/sambox/pdmodel/PDPageTree.java:457-458 | dropping page q from p's /Kids drops exactly q from the page order, at the place of q in p's run, and p's subtree loses one page |
| PageTreeEdits.InsertKid | src/main/java/org/sejda/sambox/pdmodel/PDPageTree.java:506-571 | inserting a new page into a /Kids array and incrementing the chain's counts keeps the tree well formed, with the page at the matching place in the page order |
| PageTreeEdits.InsertPage | src/main/java/org/sejda/sambox/pdmodel/PDPageTree.java:517-518 | adding page q to p's /Kids puts q in the page order at the matching place in p's run, and p's subtree gains one page |
| PageTreeEdits.AppendKid | src/main/java/org/sejda/sambox/pdmodel/PDPageTree.java:476-497 | appending a new page to the root's /Kids keeps the tree well formed and adds the page at the end of the page order |
| PageTreeEdits.CountsAfterEdit | src/main/java/org/sejda/sambox/pdmodel/PDPageTree.java:563-571 | after a one-page edit below p, bumping the counts along p's /Parent chain keeps every count right |
| PageTreeEdits.BumpStep | src/main/java/org/sejda/sambox/pdmodel/PDPageTree.java:563-571 | one pass of the count loop: it moves to the parent while there is one, and otherwise has covered every ancestor; the count of the node changes by delta |
| PageTreeSpec.ChainDown | src/main/java/org/sejda/sambox/pdmodel/PDPageTree.java:563-571 | every node on the /Parent chain of a node of the tree is in the tree, and holds that node below it |
| PageTree.Store.SanitizeType | src/main/java/org/sejda/sambox/pdmodel/PDPageTree.java:278-290 | the page's /Type becomes /Page, and nothing else changes |
| PageTree.Store.BumpChain | src/main/java/org/sejda/sambox/pdmodel/PDPageTree.java:460-468 | the do-while loop changes exactly the counts of the chain from the given node upward, by delta |
| PageTree.Store.InsertKid | src/main/java/org/sejda/sambox/pdmodel/PDPageTree.java:517-520 | kids.add(i, q), then q's /Parent is set and the chain's counts go up by one |
| PageTree.Store.DropKid | src/main/java/org/sejda/sambox/pdmodel/PDPageTree.java:457-468 | kids.removeObject drops the first reference, and the chain's counts go down by one |
| PageTree.PDPageTree.Empty | src/main/java/org/sejda/sambox/pdmodel/PDPageTree.java:60-66 | the new tree is well formed and has no pages |
| PageTree.PDPageTree.Open | src/main/java/org/sejda/sambox/pdmodel/PDPageTree.java:85-102 | a root typed /Page is wrapped in a new root (the corrected repair), giving a one-page tree; otherwise the root is retyped /Pages and a well-formed tree keeps its pages |
| PageTree.PDPageTree.GetCount | src/main/java/org/sejda/sambox/pdmodel/PDPageTree.java:417-420 | in a well-formed tree, the number of pages |
| PageTree.PDPageTree.Get | src/main/java/org/sejda/sambox/pdmodel/PDPageTree.java:268-276 | in a well-formed tree of at most 2^31-1 pages, succeeds exactly for 0 <= index < pages, returns the index-th page and sanitizes its /Type; otherwise PageNotFound with nothing changed |
| PageTree.RemoveAtFinds | src/main/java/org/sejda/sambox/pdmodel/PDPageTree.java:433-437 | remove(int) looks up index + 1 wrapped as a Java int: it finds a page exactly for an index in range, the index-th one |
| Cos.WrapToInt | src/main/java/org/sejda/sambox/pdmodel/PDPageTree.java:268-271 | Java int arithmetic: the result is in int range, congruent modulo 2^32, and unchanged for a value in range |
| PageTree.GetCorrect | src/main/java/org/sejda/sambox/pdmodel/PDPageTree.java:268-271 | index + 1, wrapped as a Java int, finds the index-th page exactly when the index is in range |
| PageTree.PDPageTree.IndexOfPage | src/main/java/org/sejda/sambox/pdmodel/PDPageTree.java:366-374 | the index of the page's first occurrence in page order, or -1 |
| PageTree.PDPageTree.FindPage | src/main/java/org/sejda/sambox/pdmodel/PDPageTree.java:376-394 | the search state after findPage is Visit over the pages below the node's kids |
| PageTree.SearchContext.VisitPage | src/main/java/org/sejda/sambox/pdmodel/PDPageTree.java:407-411 | the index moves up by one, and found records whether this is the page searched for |
| PageTree.PDPageTree.Add | src/main/java/org/sejda/sambox/pdmodel/PDPageTree.java:476-497 | /Parent becomes the root, the page is appended to the root's /Kids and the chain's counts go up; a non-array /Kids fails after the /Parent is set; a well-formed tree gets the page at the end |
| PageTree.PDPageTree.RemoveAt | src/main/java/org/sejda/sambox/pdmodel/PDPageTree.java:433-437 | succeeds exactly for an index in range, and then the tree stays well formed without that page |
| PageTree.RemoveAtCorrect | src/main/java/org/sejda/sambox/pdmodel/PDPageTree.java:433-469 | remove(int) over the states before and after: succeeds exactly for an index in range; the tree stays well formed without the page |
| PageTree.PDPageTree.Remove | src/main/java/org/sejda/sambox/pdmodel/PDPageTree.java:444-447 | the state RemoveNode describes; a page of a well-formed tree is removed, the tree stays well formed, and the page leaves the page order at its index |
| PageTree.PDPageTree.RemoveNode | src/main/java/org/sejda/sambox/pdmodel/PDPageTree.java:452-469 | a parent without a /Kids array gives a NullPointerException and no change; otherwise success, and a page the array refers to loses its first reference while the chain's counts go down by one; a page it does not refer to changes nothing |
| PageTree.RemovedCorrect | src/main/java/org/sejda/sambox/pdmodel/PDPageTree.java:452-469 | removing a page of a well-formed tree succeeds, keeps the tree well formed, and drops the page at its index |
| PageTree.RemoveOutcome | src/main/java/org/sejda/sambox/pdmodel/PDPageTree.java:444-469 | remove(PDPage) stated over the maps before and after the call |
| PageTree.PDPageTree.InsertBefore | src/main/java/org/sejda/sambox/pdmodel/PDPageTree.java:506-536 | the state InsertedBeside describes: each failure changes nothing; otherwise newPage goes into the /Kids array just before nextPage and the counts go up; in a well-formed tree IllegalArgument never occurs, and newPage lands just before nextPage in the page order |
| PageTree.PDPageTree.InsertAfter | src/main/java/org/sejda/sambox/pdmodel/PDPageTree.java:538-561 | the same, with newPage just after prevPage |
| PageTree.PDPageTree.InsertBeside | src/main/java/org/sejda/sambox/pdmodel/PDPageTree.java:506-561 | the shared body of insertBefore and insertAfter: a missing /Parent or /Kids array gives a NullPointerException, a page not referred to gives IllegalArgument, each changing nothing; otherwise the insertion, the new /Parent and the counts (InsertedBeside) |
| PageTree.InsertedCorrect | src/main/java/org/sejda/sambox/pdmodel/PDPageTree.java:506-571 | in a well-formed tree, the scan finds the page, and a successful insert keeps the tree well formed with newPage beside the page |
| PageTree.InsertFinds | src/main/java/org/sejda/sambox/pdmodel/PDPageTree.java:512-528 | in a well-formed tree, the scan of the parent's /Kids never misses the page |
| PageIterators.PageIterator.constructor | src/main/java/org/sejda/sambox/pdmodel/PDPageTree.java:182-185 | the queue is the tree's page order |
| PageIterators.PageIterator.EnqueueKids | src/main/java/org/sejda/sambox/pdmodel/PDPageTree.java:187-197 | the pages below the node join the queue in depth-first, left-to-right order |
| PageIterators.PageIterator.Next | src/main/java/org/sejda/sambox/pdmodel/PDPageTree.java:206-214 | the head of the queue leaves it and is sanitized to /Page; an empty queue gives a NullPointerException |
| PageIterators.PageIterator.HasNext | src/main/java/org/sejda/sambox/pdmodel/PDPageTree.java:200-203 | true exactly when pages remain |
| PageIterators.NodesIterator.constructor | src/main/java/org/sejda/sambox/pdmodel/PDPageTree.java:230-233 | the queue is every node of the tree in pre-order |
| PageIterators.NodesIterator.EnqueueKids | src/main/java/org/sejda/sambox/pdmodel/PDPageTree.java:235-242 | the node, then every node below it, join the queue |
| PageIterators.NodesIterator.Next | src/main/java/org/sejda/sambox/pdmodel/PDPageTree.java:251-254 | poll: the head, or none on an empty queue |
| Page.MediaBoxOf | src/main/java/org/sejda/sambox/pdmodel/PDPage.java:265-281 | the cached box, else the inherited /MediaBox normalised, else Letter; a non-array fails with ClassCast |
| Page.Cached | src/main/java/org/sejda/sambox/pdmodel/PDPage.java:267-279 | filling the cache changes nothing the getter returns, and the cache is filled exactly when the read succeeds |
| Page.InBounds | src/main/java/org/sejda/sambox/pdmodel/PDPage.java:434-440 | holds exactly when the lower-left corner is at or above, and the upper-right at or below, the media box's |
| Page.CropBoxOf | src/main/java/org/sejda/sambox/pdmodel/PDPage.java:305-313 | the result lies within the media box; without an inherited /CropBox it is the media box |
| Page.OwnBoxOf | src/main/java/org/sejda/sambox/pdmodel/PDPage.java:338-412 | Bleed, Trim and Art lie within the media box; without the page's own entry they are the CropBox; failures are ClassCast |
| Page.Rotation | src/main/java/org/sejda/sambox/pdmodel/PDPage.java:449-461 | the result is one of 0, 90, 180, 270 |
| Page.RotationNormalises | src/main/java/org/sejda/sambox/pdmodel/PDPage.java:449-461 | the inherited number modulo 360 when it is a multiple of 90 under Java's `%`, else 0 |
| Cos.JavaRem | src/main/java/org/sejda/sambox/pdmodel/PDPage.java:455-458 | Java's %: smaller than the divisor in magnitude, with the sign of the dividend |
| Page.QuarterTurns | src/main/java/org/sejda/sambox/pdmodel/PDPage.java:455-458 | a multiple of 90, modulo 360, is one of the four quarter turns |
| Page.JavaRotation | src/main/java/org/sejda/sambox/pdmodel/PDPage.java:455-458 | Java's truncating `%` and the Euclidean `%` agree on multiples of 90, and `(r % 360 + 360) % 360` |
| Page.HasContents | src/main/java/org/sejda/sambox/pdmodel/PDPage.java:173-185 | true exactly when /Contents is a stream of positive size or a non-empty array |
| Page.ResourcesOf | src/main/java/org/sejda/sambox/pdmodel/PDPage.java:191-208 | an inherited dictionary or stream is used as it is; without one, the page gets an empty /Resources dictionary that it then inherits; any other value fails with ClassCast |
| Page.OwnEntryInherited | src/main/java/org/sejda/sambox/pdmodel/PDPage.java:200-204 | after the page stores a value for a key, the page inherits exactly that value |
| Page.ResourcesRepairStable | src/main/java/org/sejda/sambox/pdmodel/PDPage.java:191-208 | after the repair, looking again changes nothing |
| Page.ResourcesRepairFrame | src/main/java/org/sejda/sambox/pdmodel/PDPage.java:195-204 | the repair leaves every other inherited entry as it was |
| Page.SetEntry | src/main/java/org/sejda/sambox/pdmodel/PDPage.java:288-299 | null removes the key, a value stores it, and every other key is untouched |
| Page.SetEntryFrame | src/main/java/org/sejda/sambox/pdmodel/PDPage.java:320-330 | a setter leaves what the page inherits for every other key |
| Page.SetRotationReadsBack | src/main/java/org/sejda/sambox/pdmodel/PDPage.java:449-471 | after setRotation(a), getRotation is a mod 360 for a multiple of 90, else 0 |
| Page.SetMediaBoxReadsBack | src/main/java/org/sejda/sambox/pdmodel/PDPage.java:265-299 | after setMediaBox(b), a fresh getMediaBox gives b; after null, the parent's box or Letter |
| Page.SetCropBoxReadsBack | src/main/java/org/sejda/sambox/pdmodel/PDPage.java:305-330 | after setCropBox(b) with b within the media box, getCropBox gives b and the media box is unchanged |
| Page.SetOwnBoxReadsBack | src/main/java/org/sejda/sambox/pdmodel/PDPage.java:338-429 | after setting Bleed, Trim or Art, the getter gives the box (or the CropBox after null), with the media box and CropBox unchanged |
| Page.PDPage.GetMediaBox | src/main/java/org/sejda/sambox/pdmodel/PDPage.java:265-281 | returns MediaBoxOf and fills the cache as Cached says |
| Page.PDPage.InMediaBoxBounds | src/main/java/org/sejda/sambox/pdmodel/PDPage.java:434-440 | Within(box, media box), reading the media box through the cache |
| Page.PDPage.GetCropBox | src/main/java/org/sejda/sambox/pdmodel/PDPage.java:305-313 | returns CropBoxOf |
| Page.PDPage.GetBleedBox | src/main/java/org/sejda/sambox/pdmodel/PDPage.java:338-346 | returns OwnBoxOf for /BleedBox |
| Page.PDPage.GetTrimBox | src/main/java/org/sejda/sambox/pdmodel/PDPage.java:371-379 | returns OwnBoxOf for /TrimBox |
| Page.PDPage.GetArtBox | src/main/java/org/sejda/sambox/pdmodel/PDPage.java:404-412 | returns OwnBoxOf for /ArtBox |
| Page.PDPage.OwnBoxOrCropBox | src/main/java/org/sejda/sambox/pdmodel/PDPage.java:338-412 | the own box, or the CropBox with the media box cache filled as Cached says |
| Page.PDPage.GetResources | src/main/java/org/sejda/sambox/pdmodel/PDPage.java:191-208 | the cached resources, or ResourcesOf's outcome: the dictionary or stream the page then inherits, which the cache keeps |
| Page.PDPage.SetMediaBox | src/main/java/org/sejda/sambox/pdmodel/PDPage.java:288-299 | the cache takes the box, and the page stores it or removes it for null; the resources cache and the tree maps stay |
| Page.PDPage.SetBox | src/main/java/org/sejda/sambox/pdmodel/PDPage.java:320-429 | the page stores the box or removes it for null; nothing else changes |
| Page.PDPage.PutEntry | src/main/java/org/sejda/sambox/pdmodel/PDPage.java:288-429 | the page's dictionary takes the entry, or loses it for null; the other nodes and the tree maps are unchanged |
| Page.PDPage.SetRotation | src/main/java/org/sejda/sambox/pdmodel/PDPage.java:468-471 | /Rotate takes the angle |
| Type3Font.CharProc | src/main/java/org/sejda/sambox/pdmodel/font/PDType3Font.java:321-334 | none for .notdef; a NullPointerException exactly for another name when /CharProcs is missing; otherwise the glyph stream under the code's name exactly when /CharProcs holds one there, and none when it does not |
| Type3Font.WidthFromFont | src/main/java/org/sejda/sambox/pdmodel/font/PDType3Font.java:131-139 | the glyph procedure's width (or the error reading it), 0 without one, and CharProc's NullPointerException passed on |
| Type3Font.Width | src/main/java/org/sejda/sambox/pdmodel/font/PDType3Font.java:114-128 | outside the /FirstChar../LastChar range: MissingWidth with a descriptor, else the glyph procedure's width; inside it, the only failure is IndexOutOfBounds (WidthInRange states the value) |
| Type3Font.WidthInRange | src/main/java/org/sejda/sambox/pdmodel/font/PDType3Font.java:116-121 | inside the range: widths[code - FirstChar], or 0 for null, when the offset is in the list; IndexOutOfBounds otherwise |
| Type3Font.WidthsTakePrecedence | src/main/java/org/sejda/sambox/pdmodel/font/PDType3Font.java:118-121 | a width read from /Widths does not depend on the descriptor or the glyph procedures |
| Type3Font.Height | src/main/java/org/sejda/sambox/pdmodel/font/PDType3Font.java:148-181 | half the FontBBox height when non-zero, else CapHeight when non-zero, else Ascent when non-zero, else XHeight - Descent for a positive XHeight, else XHeight; 0 without a descriptor |
| Type3Font.HeightZero | src/main/java/org/sejda/sambox/pdmodel/font/PDType3Font.java:148-181 | the height is 0 exactly when every metric it may come from gives 0 |
| Type3Font.FontBBox | src/main/java/org/sejda/sambox/pdmodel/font/PDType3Font.java:244-252 | the rectangle of the /FontBBox array, normalised; null exactly when /FontBBox is missing; any other value fails with ClassCast |
| Type3Font.Widen | src/main/java/org/sejda/sambox/pdmodel/font/PDType3Font.java:281-288 | the widened rectangle contains both rectangles |
| Type3Font.WidenHull | src/main/java/org/sejda/sambox/pdmodel/font/PDType3Font.java:275-289 | widening the hull of some boxes by one more box gives the hull of them all |
| Type3Font.HullStep | src/main/java/org/sejda/sambox/pdmodel/font/PDType3Font.java:274-294 | one pass of the loop turns the hull of the boxes read so far into the hull with one more glyph's box |
| Type3Font.HullUnique | src/main/java/org/sejda/sambox/pdmodel/font/PDType3Font.java:267-296 | the hull of a set of boxes is unique |
| Type3Font.WidenByEntry | src/main/java/org/sejda/sambox/pdmodel/font/PDType3Font.java:274-294 | one entry widens the rectangle when it is a stream whose glyph box can be read |
| Type3Font.WidenByGlyphs | src/main/java/org/sejda/sambox/pdmodel/font/PDType3Font.java:270-296 | the loop ends with the smallest rectangle holding the origin and every readable glyph box |
| Type3Font.PDType3Font.GetCharProcs | src/main/java/org/sejda/sambox/pdmodel/font/PDType3Font.java:306-313 | /CharProcs when it is a dictionary, cached; none otherwise |
| Type3Font.PDType3Font.GetFontMatrix | src/main/java/org/sejda/sambox/pdmodel/font/PDType3Font.java:196-211 | /FontMatrix when it is an array, then cached; else the default matrix, not cached |
| Type3Font.PDType3Font.GenerateBoundingBox | src/main/java/org/sejda/sambox/pdmodel/font/PDType3Font.java:264-299 | /FontBBox when it is not all zeros; a missing /FontBBox, or a zero one without /CharProcs, gives a NullPointerException; a non-array gives ClassCast; otherwise the smallest rectangle holding the origin and every readable glyph box |
| Type3Font.PDType3Font.GetBoundingBox | src/main/java/org/sejda/sambox/pdmodel/font/PDType3Font.java:255-262 | the generated box, kept once generated |
| XObject.NameAsString | src/main/java/org/sejda/sambox/pdmodel/graphics/PDXObject.java:63 | a name's text or a string's text, whichever the entry is; none for a missing entry or another type |
| XObject.KindOf | src/main/java/org/sejda/sambox/pdmodel/graphics/PDXObject.java:62-81 | Image, Form and PS map to their kinds; any other subtype fails with "Invalid XObject Subtype: " and the subtype, or null |
| XObject.Stamped | src/main/java/org/sejda/sambox/pdmodel/graphics/PDXObject.java:89-95 | /Type is XObject and /Subtype the kind's name; every other entry is kept |
| XObject.StampedKind | src/main/java/org/sejda/sambox/pdmodel/graphics/PDXObject.java:62-108 | a stamped stream is classified as the kind it was stamped with |
| XObject.StampIdempotent | src/main/java/org/sejda/sambox/pdmodel/graphics/PDXObject.java:89-95 | stamping twice with the same kind is stamping once |
| XObject.PDXObject.constructor | src/main/java/org/sejda/sambox/pdmodel/graphics/PDXObject.java:89-95 | wraps the stream and stamps it |
| XObject.PDXObject.ForWriting | src/main/java/org/sejda/sambox/pdmodel/graphics/PDXObject.java:103-108 | a fresh empty stream, stamped |
| XObject.CreateXObject | src/main/java/org/sejda/sambox/pdmodel/graphics/PDXObject.java:49-82 | null gives null; a non-stream fails naming its class; a stream becomes the XObject of its kind, or fails and is left as it was |

## Left out

- Numbers are `real` and Java `int`. Floating-point rounding, Infinity and NaN are not modelled.
- AppearanceLayout.CalculateFontSize: requires a non-zero x scale in the font matrix and a non-zero fitted height for the automatic size (`AutosizeDefined`); Java gives NaN or an infinite size there. A value of zero width is sized by height, which is what Java gives for a content rectangle of positive width; for a content rectangle of width 0 or less Java gives NaN or -Infinity instead.
- Font metrics are inputs: string widths, ascent, descent, cap height, bounding-box height and font-matrix scale.
- `PlainTextFormatter` is one opaque operation that carries the value and the layout it is given. Its own line breaking is not part of this model.
- `copyNeededResourcesTo` and the `/DA` string's `writeTo` are not modelled beyond the font-selection operation.
- Tokenizing and byte output are not modelled. Tokens are values; the writer is an appended sequence; closing the writer is implicit.
- The appearance's `/Matrix` and `/FormType` are recorded, not their COS encoding.
- AppearanceGenerator.InsertGeneratedListboxAppearance uses the corrected row-ending test; the test as written is modelled in the functions (see Findings).
- AppearanceGenerator.WriteListboxRows uses the corrected row-ending test, for the same reason.
- AppearanceGenerator.WriteListboxRow uses the corrected row-ending test, for the same reason.
- AppearanceLayout.GeneratedAppearance uses the corrected row-ending test; AppearanceLayout.ListboxAppearance takes the test as a parameter and ListboxAsWrittenUnbalanced models the test as written.
- AppearanceLayout.GeneratedAppearanceWellFormed holds for the corrected row-ending test only; the test as written breaks it for a scrolled list box (see Findings).
- AppearanceLayout.CombAppearance: a value is a sequence of Unicode characters. The source counts and slices UTF-16 code units, so a character outside the Basic Multilingual Plane takes two cells there, each holding one surrogate, and one cell here.
- AppearanceLayout.CombCount counts Unicode characters where the source counts UTF-16 code units, for the same reason.
- AppearanceGenerator.SetAppearanceValue: requires the widgets to be distinct objects with distinct normal appearance streams (`Separate`). The source also accepts widgets that share a stream; it writes that stream once per widget, so the last write decides its content (RegenerationStable states that a second write over a first equals the second alone). The model does not state the outcome for shared streams.
- AppearanceGenerator.UpdateAt: requires widget i to share no stream with the others, for the same reason.
- Only the normal appearance (/N) is regenerated, as in the source. The other appearance states are not modelled.
- PageTreeSpec.GetKids: direct (non-reference) dictionaries and streams inside /Kids are skipped, where the source keeps them (a COSStream is a COSDictionary). Only references to objects of the document are followed; a node stands for any dictionary of the document, a stream's dictionary included.
- PageTreeSpec.KidIds: the same; direct dictionaries and streams in the array are not listed.
- PageTree.PDPageTree.Add: requires the new page to be a leaf (no /Kids and not typed /Pages); the source does not check this.
- PageTree.PDPageTree.InsertBefore: requires the new page to be a leaf, as Add does.
- PageTree.PDPageTree.InsertAfter: requires the new page to be a leaf, as Add does.
- PageTree.PDPageTree.InsertBeside: requires the new page to be a leaf, as Add does.
- `/P` is merged with `/Parent`: one parent link stands for both. The source reads `/Parent` or else `/P` in getInheritableAttribute and remove, but `/Parent` alone in insertBefore, insertAfter and increaseParents (the count loop of add and of the inserts). So for a page linked to its parent only by `/P`, the source's insertBefore and insertAfter throw a NullPointerException, and add and the inserts stop the count update at a node linked only by `/P`. The model follows the link in every one of these operations.
- The `/Kids` and `/Parent` references are taken to be acyclic; a ghost rank witnesses this. The iterators, `get` and the edits require it, since a cycle would make the source loop.
- PageTree.Store.BumpChain: 32-bit wrap-around of `/Count` is not modelled.
- PageTree.PDPageTree.Remove: requires the page to have a /Parent. Without one, the source throws a NullPointerException.
- PageTree.PDPageTree.RemoveAt: requires the found page to have a /Parent, for the same reason.
- The `index` of the search context is not wrapped at 2^31.
- The PDPageTree `document` and its ResourceCache are not modelled.
- `iterator()`, `stream()` and `streamNodes()` are the iterator classes. Their `remove()` always throws and is not modelled.
- The log output of sanitizeType is not modelled.
- PageTree.PDPageTree.Open: uses the corrected repair; the repair as written is `RepairAsWritten` (see Findings).
- After a repair the page's /Parent is not set by the source, so TreeShaped is not claimed for a repaired tree.
- `getContents`, `getContentStreams`, the PDPage constructors that create a dictionary, `setResources`, thread beads, metadata, actions, transitions and annotations are not modelled. They are plain accessors or I/O.
- The `mediaBox` cache can go stale when the dictionary is edited directly, as in the source. Page.PDPage.GetMediaBox, Page.PDPage.GetCropBox and Page.PDPage.OwnBoxOrCropBox state how they leave the cache.
- Page.PDPage.GetBleedBox: states the box returned but not how the media box cache is left; OwnBoxOrCropBox, which it calls, states that.
- Page.PDPage.GetTrimBox: states the box returned but not how the media box cache is left, for the same reason.
- Page.PDPage.GetArtBox: states the box returned but not how the media box cache is left, for the same reason.
- PDRectangle, Matrix, PDFontDescriptor, PDFont.getWidths and PDType3CharProc are not part of this model:
  - U.S. Letter is taken as 612 by 792 points.
  - `new PDRectangle(array)` is modelled as a normalised rectangle from the first four numbers.
  - `new Matrix(array)` is modelled as six numbers, with 0 for a missing one.
  - A glyph's width and box are inputs that may fail to parse.
- The Type 3 font dictionary is not edited, so its lazy caches always agree with it.
- PDType3Font's `getResources`, `getDisplacement`, `hasGlyph`, `getPath`, `readCode`, `encode` and the name and encoding readers are not modelled. They are accessors or are not implemented.
- The image, form and PostScript subclass constructors are taken to call the PDXObject constructor with their own subtype; their other work is not modelled.
- The `resources` argument of `createXObject` is not modelled.
- The class name in "Unexpected object type" is an input string.
- Type3Font.WidenByGlyphs: iterates over the /CharProcs names in an unspecified order. The result does not depend on the order.

## Findings

| source | as written | input that shows it | evidently intended | confidence | as-written member | corrected member |
|---|---|---|---|---|---|---|
| src/main/java/org/sejda/sambox/pdmodel/PDPageTree.java:101 | after wrapping a root typed /Page, `root.setItem(TYPE, PAGES)` retypes the parameter, the page itself, not the new root | a root dictionary typed /Page without /Kids: the new tree's /Count is 1 but it has no page | set /Type /Pages on the new root (`this.root`) | high, not executed | PageTreeEdits.RepairAsWrittenLosesPage | PageTreeEdits.RepairKeepsPage |
| src/main/java/org/apache/pdfbox/pdmodel/interactive/form/AppearanceGeneratorHelper.java:443 | a row ends its text object unless `i - topIndex` equals the last option index | a list box with options ["a", "b"] and topIndex 1: every row is closed, so the ET of insertGeneratedAppearance falls outside a text object | end every row except the last option's (`i != options.size() - 1`) | high, not executed | AppearanceLayout.ListboxAsWrittenUnbalanced | AppearanceLayout.ListboxAppearanceTextState |
