# FTK: model and proofs

FTK is a widget toolkit in C.  This project models the parts of it that carry state, arithmetic or
a protocol, in the form the C code has (objects with fields, loops over memory), and proves what
they are for.  `dafny verify dfyconfig.toml` checks everything.

Each part has a specification in terms of values (images, lists of values, parse trees, states of
a machine), methods proved against it, and theorems about it over all inputs or all runs.

* **Displays.**  `Raster`, `Pixels`, `Bitmaps`, `DisplayMem`: clipping copies between a bitmap and a
  framebuffer in RGB565, BGR24 and BGRA32.  `DisplayRotate`, `RotatedScreen`, `RotatedDisplay`: a
  display that draws turned by 90 or 180 degrees through a shadow bitmap; it cannot be told from a
  plain framebuffer of the logical size.  `CursorModel`, `Sprite`: a cursor that saves and restores
  what it covers; erasing it always gives the screen that never had one, and as long as it is shown
  it is on top of that screen.  `TurnedCursor`: the same on a turned display, for exactly the
  positions where it holds.  `Tiling`: backgrounds.
* **Text codecs.**  `TextCodec`, `ArabicJoin`: UTF-8, UTF-16 and the two Arabic shapers, which are
  shown to compute the same thing.
* **Expressions.**  `Expr`, `ExprGrammar`, `ExprParens`: the evaluator with its one-token push-back
  terminates on every string and computes the value of the parse tree.
* **fbus.**  `ParcelFormat`, `Parcel`: marshalling.  `Streams`, `Frames`, `Wire`, `Proxy`, `Service`:
  answers and notifications on one byte stream that is cut up arbitrarily.  `ServiceTable`,
  `ServiceCalls`, `ServiceLife`, `Daemon`, `Remote`: the service manager; calling it from another
  process is calling its handlers directly, over whole conversations, and what these do to the life
  of a service.
* **Event sources.**  `Scheduler`, `SweepModel`, `MainLoop`: sources are added and removed through
  events and also swept out by the loop; the reference count is right in every reachable state.
* **Text editing.**  `Utf8Chars`, `TextBuffer`, `LineLayout`, `TextLayout`: storage and line fitting.
  `WordWrap`, `LineEdits`, `LineOffsets`, `TextEdits`, `TextView`: the cached line index, the keys
  that edit the text, and when the index is right afterwards.  `KeyBoard`: weighted layout and hit
  testing.

Conventions.  Masks and shifts are written as arithmetic.  Sizes are unbounded except where the
code depends on their width (16-bit units, 32-bit ints in parcels, unsigned short line offsets).
Allocation succeeds.  Callbacks, ended child processes, the pieces in which data arrive, and the
widths of characters are parameters or arbitrary choices.  `Session.WhileBlocked` in `Remote` is the
daemon's process running while the client waits.

Where code and documentation differ, the model follows the code:

* the header of `utf8_to_utf16` promises to refuse surrogates; the code accepts them
  (`SurrogateIsNotRejected`), and overlong forms too (`AcceptsIffStructured`);
* Arabic marks, and a HAMZA between joining units, come out of the shapers as a NUL
  (`ZeroComesOutIff`, `FormsOfSomeTexts`);
* check_children restarts a service by its start type instead of its life cycle: the two agree exactly
  if they go together (`RestartFollowsLifeCycleIff`, `RestartGoesByStartType`);
* a number that is a lone 0 swallows the character behind it (`ZeroSwallowsOperator`,
  `NumberTakesRunIff`), a zero behind the decimal point is lost (`ZeroBehindPointLost`), and a closing
  parenthesis is as good as an opening one (`ParensAlike`);
* the quarter turn needs rectangles that do not reach below the logical screen
  (`QuarterNeedsRoom`, `QuarterLeavesScreen`), and a snapshot that hangs over a far edge is shifted
  (`SnapSlides`), so that a sprite there damages the picture (`AtHomeIff`, `DamagedSpot`);
* a sprite that is shown while all listener slots are taken does not step aside for drawing
  (`Sprite.Show`), which loses what is drawn under it (`UnheardDrawingIff`, `UnheardDrawingLost`), and
  a new icon for a visible sprite leaves black behind (`NewIconErasesIff`, `NewIconLeavesBlack`);
* an addition to a full table of sources loses a reference (`DispatchConserves`,
  `FullTableLosesReference`), and a source that is managed twice is removed twice by one request
  (`RemovalRaceIff`, `OneRequestRemovesTwice`);
* after an edit the view lays out again from the caret's line, from the first visible one, or, in
  insert_text, from the line behind the edited one; that is too late exactly as `RelayoutIff`,
  `LastLinesDecide` and `InsertTextRightIff` say (`DeletionReachesLineAbove`,
  `InsertionReachesLineAbove`, `InsertTextStartsTooLate`).  The backspace key starts a line further
  up, which is always right without word wrap (`OneLineAbove`) but not with it
  (`WrapReachesTwoLinesUp`); two lines above the edited one always is (`TwoLinesAbove`);
* a line that fills the width exactly is followed by an empty one if a line feed comes next
  (`ExactFillLeavesBreakIff`, `EmptyLineBehindFullOne`), and relayout never ends if some character is
  wider than the line (`LayoutEndsIff`, `WideCharacterStops`).

## Model

| member | source | states |
|---|---|---|
| Bitmaps.CopyFromData | src/ftk_bitmap.c:115-144 | the bitmap afterwards is `CopiedFrom` of the framebuffer, for one array element per pixel; the framebuffer is only read |
| Bitmaps.CopiedFromAt | src/ftk_bitmap.c:115-144 | a bitmap pixel takes the framebuffer colour at its own place exactly if it lies inside the rectangle and on the framebuffer; every other bitmap pixel keeps its value |
| Bitmaps.CopyToData | src/ftk_bitmap.c:146-175 | the framebuffer afterwards is `CopiedTo` of bitmap and old contents; the return code tells whether anything could be drawn |
| Bitmaps.CopiedToAt | src/ftk_bitmap.c:146-175 | a framebuffer pixel is drawn, from its own source pixel, exactly if it lies under the rectangle, under the bitmap and on the screen; every other one is untouched |
| Bitmaps.CopyFromBgr24 | src/ftk_bitmap.c:177-199 | the same copy from three bytes per pixel, with the source's own loop |
| Bitmaps.CopyToBgr24 | src/ftk_bitmap.c:201-236 | the same drawing onto three bytes per pixel, byte by byte in the source's order |
| Bitmaps.SaveThenRestore | src/ftk_bitmap.c:115-365 | for every lawful format, copying a framebuffer rectangle into a bitmap and drawing it back at the same place changes no pixel |
| Bitmaps.DrawingIsSolid | src/ftk_bitmap.c:146-365 | drawing keeps a framebuffer without transparent pixels free of them |
| Pixels.RoundTrip565 | src/ftk_bitmap.c:297-367 | widening an RGB565 pixel to 8 bits a channel and packing it again gives back all 16 bits |
| Pixels.Rgb565Lawful | src/ftk_bitmap.c:297-367 | what is read from an RGB565 pixel restores it when drawn, whatever was there before |
| Pixels.Bgr24Lawful | src/ftk_bitmap.c:177-236 | the same for BGR24 |
| Pixels.Bgra32Lawful | src/ftk_bitmap.c:238-295 | the same for opaque BGRA32, and blending over an opaque pixel leaves an opaque one |
| Pixels.Bgra32RestoresIff | src/ftk_bitmap.c:259-295 | a BGRA32 pixel is restored exactly if it is opaque |
| Pixels.BlendInRange | src/ftk_typedef.h:249 | the blended channel stays within a byte |
| Pixels.BlendBetween | src/ftk_typedef.h:249 | it lies between the two, is the old one under alpha 0 and the new one under alpha 255, and blending a colour with itself gives it back |
| Pixels.BlendMoves | src/ftk_typedef.h:249 | it moves from the old one towards the new one as alpha grows |
| Pixels.Bits565 | src/ftk_bitmap.c:297-367 | red is in the upper five bits of an RGB565 pixel, green in the six below, blue in the lower five; the rest of each channel is zero |
| Pixels.Written565 | src/ftk_bitmap.c:320-367 | and there the colour, or its mixture with what was there, is written, channel by channel |
| Pixels.WrittenChannels | src/ftk_bitmap.c:201-295 | BGR24 and BGRA32 pixels get that mixture in each channel; what is written to BGRA32 is opaque |
| Bitmaps.TripleAt | src/ftk_bitmap.c:188-199 | the three bytes of a BGR24 pixel are blue, green and red, in this order |
| DisplayMem.MemDisplay.Update | src/ftk_display_mem.c:50-74 | the screen afterwards is `Updated` of the bitmap, rectangle and offset, with the source's return code |
| DisplayMem.UpdatedAt | src/ftk_display_mem.c:50-74 | which screen pixels an update changes, and to what |
| DisplayMem.MemDisplay.Snap | src/ftk_display_mem.c:92-108 | the bitmap afterwards is `Snapped` of the screen, the screen is unchanged, and the return code says whether there was anything to read |
| DisplayMem.SnappedAt | src/ftk_display_mem.c:92-108 | which bitmap pixels a snapshot fills, and with what |
| DisplayMem.UpdateRetIff | src/ftk_bitmap.c:146-175 | an update is turned away exactly if the place on the screen, or the rectangle in the bitmap, begins outside |
| DisplayMem.SnapRetIff | src/ftk_bitmap.c:115-144 | a snapshot is turned away exactly if the rectangle begins outside the screen |
| DisplayRotate.StampHalf | src/ftk_display_rotate.c:113-127 | the reverse row-by-row loop of update_180 puts source pixel (i, j) at the point reflected in the far corner, and touches nothing else |
| DisplayRotate.StampQuarter | src/ftk_display_rotate.c:193-206 | the column loop of update_90 puts source pixel (i, j) into column and row exchanged, and touches nothing else |
| DisplayRotate.UprightHalf | src/ftk_display_rotate.c:163-174 | the reverse loop of snap_180 reads the turned picture upright |
| DisplayRotate.UprightQuarter | src/ftk_display_rotate.c:225-235 | the column loop of snap_90 reads the turned picture upright |
| RotatedScreen.LogicalAt | src/ftk_display_rotate.c:254-270 | the pixel the user of a turned display sees at (x, y) is the real pixel at (W-1-y, x) or (W-1-x, H-1-y) |
| RotatedScreen.TurnedViews | src/ftk_display_rotate.c:254-270 | the real pixel (x, y) is seen at (y, W-1-x) after a quarter turn and at (W-1-x, H-1-y) after half a turn |
| RotatedScreen.UpdateRefines | src/ftk_display_rotate.c:67-212 | for 90 and 180 degrees, a turned update seen logically is a plain update of a framebuffer of the logical size, whatever the shadow bitmap held |
| RotatedScreen.UpdateReports | src/ftk_display_rotate.c:67-212 | it also returns what the plain update returns, for rectangles that are not empty |
| RotatedScreen.QuarterNeedsRoom | src/ftk_display_rotate.c:179-212 | the quarter turn computes a real column on the screen exactly if the rectangle does not reach below the logical screen |
| RotatedScreen.QuarterLeavesScreen | src/ftk_display_rotate.c:179-212 | an accepted rectangle for which that column is -1 |
| RotatedScreen.SnapRefines | src/ftk_display_rotate.c:136-238 | a turned snapshot is a snapshot of the logical screen, whatever the shadow bitmap held |
| RotatedScreen.SnapSlides | src/ftk_display_rotate.c:136-238 | a rectangle that hangs over a far edge is read as if it had been pushed back onto the screen, instead of being clipped |
| RotatedScreen.RunRefines | src/ftk_display_rotate.c:67-238 | over every sequence of updates and snapshots the turned display delivers exactly the snapshots of a plain framebuffer of the logical size, although snapshots overwrite the shadow bitmap |
| RotatedDisplays.RotatedDisplay.Update180 | src/ftk_display_rotate.c:98-134 | the method, loops and all, computes `TurnedUpdate` on screen and shadow bitmap |
| RotatedDisplays.RotatedDisplay.Update90 | src/ftk_display_rotate.c:179-212 | the same for the quarter turn |
| RotatedDisplays.RotatedDisplay.Update | src/ftk_display_rotate.c:67-212 | drawing changes the logical view as a plain display would |
| RotatedDisplays.RotatedDisplay.Snap180 | src/ftk_display_rotate.c:152-177 | the method computes `TurnedSnap`; only the two bitmaps change |
| RotatedDisplays.RotatedDisplay.Snap90 | src/ftk_display_rotate.c:214-238 | the same for the quarter turn |
| RotatedDisplays.RotatedDisplay.Snap | src/ftk_display_rotate.c:136-238 | a snapshot delivers the logical view; turned ones return Ok, the upright one what the real display returns |
| RotatedDisplays.RotatedDisplay.SetRotate | src/ftk_display_rotate.c:300-337 | a shadow bitmap of the real size exists exactly if the display is turned |
| RotatedDisplays.RotatedDisplay.Width | src/ftk_display_rotate.c:254-261 | the logical width |
| RotatedDisplays.RotatedDisplay.Height | src/ftk_display_rotate.c:263-270 | the logical height |
| CursorModel.CoverThenErase | src/ftk_sprite.c:54-103 | saving, painting and putting back restores every pixel, also where the sprite hangs over the right or bottom edge |
| CursorModel.StepErases | src/ftk_sprite.c:54-209 | showing, hiding, moving, drawing with notification and changing a hidden icon each do to the erased screen what they do on a display without a sprite |
| CursorModel.RunErases | src/ftk_sprite.c:54-209 | over every run of these actions, putting the saved pixels back gives exactly the screen of the same run without a sprite |
| CursorModel.HiddenLeavesNoTrace | src/ftk_sprite.c:152-173 | when the sprite is hidden at both ends of a run, the screens are equal without putting anything back |
| CursorModel.StepShows | src/ftk_sprite.c:54-209 | every action leaves a visible sprite on top of the picture without it, where it was moved last, with its icon; a move sets its position and Show its visibility |
| CursorModel.OnTopAt | src/ftk_sprite.c:83-103 | which pixels that are: those under the sprite show the icon over the erased screen, and every other one the erased screen |
| CursorModel.RunShows | src/ftk_sprite.c:54-209 | over every run, the screen is that of the same run without a sprite, with the icon on top at the position of the last move if it was shown last, and without if not |
| CursorModel.UnheardDrawingIff | src/ftk_display.h:94-107 | drawing under a visible sprite that does not listen is the same as on a display without it exactly if it leaves the picture under the sprite as it is |
| CursorModel.UnheardDrawingLost | src/ftk_display.h:94-107 | wherever drawing and sprite overlap there is a bitmap for which it is not |
| CursorModel.ShownIsSaved | src/ftk_sprite.c:54-68 | after saving and painting, putting the saved pixels back gives the old picture, whatever is drawn in between |
| CursorModel.UnheardKeepsSaved | src/ftk_sprite.c:70-81 | and so it stays through such drawings |
| CursorModel.NewIconErasesIff | src/ftk_sprite.c:105-126 | erasing a visible sprite with a new icon gives what it gave before exactly if the fresh bitmap looks like the picture under the new icon, and the old icon like what it alone covered |
| CursorModel.NewIconLeavesBlack | src/ftk_sprite.c:113-123 | a pixel under the new icon that was not black is lost |
| TurnedCursor.CoverErasesIff | src/ftk_sprite.c:54-103 | on a turned display, saving, painting and putting back restores the picture exactly if what lies under the sprite equals what lies one shift further up and to the left |
| TurnedCursor.AtHomeIff | src/ftk_sprite.c:54-103 | after half a turn that holds for every picture exactly if the sprite is on the screen as a whole or not at all |
| TurnedCursor.DamagedSpot | src/ftk_sprite.c:54-103 | a picture that the sprite damages, for any other position |
| TurnedCursor.StepErases | src/ftk_sprite.c:54-209 | each action does to the erased turned screen what it does on a plain display of the logical size without a sprite |
| TurnedCursor.RunErases | src/ftk_sprite.c:54-209 | over every run in which the sprite is shown only where it is at home, erasing it gives the picture of the same run on a plain display without a sprite |
| TurnedCursor.StepShows | src/ftk_sprite.c:54-209 | each action leaves a visible sprite on top of what is seen, at the place asked for |
| TurnedCursor.RunShows | src/ftk_sprite.c:54-209 | over every such run, what is seen is the picture without a sprite, with the icon on top at the position of the last move if it was shown last |
| Sprites.Display.RegUpdateListener | src/ftk_display.c:34-51 | the listener takes the first free of 16 slots, whoever has the others; Fail exactly if there is none |
| Sprites.Display.UnregUpdateListener | src/ftk_display.c:53-70 | the first slot that holds the listener becomes free; Fail exactly if there is none |
| Sprites.Display.Notify | src/ftk_display.c:72-87 | a sprite that listens reacts once, among listeners that draw nothing; without one nothing happens |
| Sprites.Display.UpdateAndNotify | src/ftk_display.h:94-107 | before, draw, after: with a sprite listening this is restore, draw, save, paint; for the sprite's own icon it is drawing alone |
| Sprites.Sprite.OnDisplayUpdate | src/ftk_sprite.c:128-150 | restores before and saves and paints after a foreign update, and ignores its own bitmaps |
| Sprites.Sprite.Show | src/ftk_sprite.c:152-173 | the new state is `Shown` of the old one; Fail if nothing changes, else what the drawing returns; a sprite that is shown listens from then on exactly if there was a free slot |
| Sprites.Sprite.MoveTo | src/ftk_sprite.c:182-209 | the new state is `Moved` of the old one, which `CursorModel.StepShows` and `StepErases` describe; Ok if it is there already, Fail if it is hidden, else what the drawing returns |
| Sprites.Sprite.SetIcon | src/ftk_sprite.c:105-126 | the new state is `IconSet` of the old one: a fresh black bitmap for the saved pixels, which a visible sprite puts back at once before it paints the icon; hidden, it is the action of `RunErases` |
| Sprites.Sprite.AppDraws | src/ftk_display.h:94-107 | an application's drawing has the effect `AppDrawn`, with the sprite stepping aside, or `DrawOn` if the sprite is visible without listening, and returns what drawing alone does |
| TextCodec.Utf8ToUtf16 | src/ftk_text_layout_bidi.c:69-160 | stores exactly `Decode(utf8)` and returns its length, or -1 where `Decode` is None; the count never exceeds the number of bytes |
| TextCodec.Uc16ToUtf8 | src/ftk_text_layout_bidi.c:165-187 | stores exactly `Encode(us)` and a NUL, and returns its length |
| TextCodec.UnitIsUtf8 | src/ftk_text_layout_bidi.c:165-187 | a unit outside D800..DFFF is written as section 3 of RFC 3629 says, in one, two or three bytes |
| TextCodec.EncodeIsUtf8 | src/ftk_text_layout_bidi.c:165-187 | so a text of scalar values below 10000 (hexadecimal) is written in UTF-8 |
| TextCodec.DecodeEncode | src/ftk_text_layout_bidi.c:69-187 | decoding undoes encoding for every sequence of 16-bit units, surrogates included |
| TextCodec.DecodeText | src/ftk_text_layout_bidi.c:69-160 | for every sequence of Unicode scalar values, decoding its form by section 3 of RFC 3629 gives its form by section 2.1 of RFC 2781 |
| TextCodec.AcceptsIffStructured | src/ftk_text_layout_bidi.c:92-150 | a text is accepted exactly if each lead byte is followed by the continuation bytes it announces: the overlong and surrogate tests never fire |
| TextCodec.SurrogateIsNotRejected | src/ftk_text_layout_bidi.c:126-129 | an encoded surrogate is accepted, although the test is there to refuse it |
| TextCodec.JavaNulIsAccepted | src/ftk_text_layout_bidi.c:57-60 | the two-byte form of U+0000 is accepted, as the header comment says |
| ArabicJoin.JoinUC16 | src/ftk_text_layout_bidi.c:476-534 | returns `Join(text)`: the form of each letter chosen from its two neighbours as `TwoSidedForm`, `RightJoiningForm` and `OtherForms` say |
| ArabicJoin.JoinUtf8 | src/ftk_text_layout_bidi.c:539-611 | writes exactly `JoinBytes(text)`, within the 2 * len + 1 bytes allocated, and a NUL |
| ArabicJoin.Join | src/ftk_text_layout_bidi.c:476-534 | one unit for each unit |
| ArabicJoin.TwoSidedForm | src/ftk_text_layout_bidi.c:497-507 | a letter with four forms is medial if the unit in front reaches forward and the next one is in the tables, initial if only the latter, final if only the former, isolated if neither |
| ArabicJoin.RightJoiningForm | src/ftk_text_layout_bidi.c:497-507 | a letter without initial and medial forms is final behind a unit that reaches forward and isolated otherwise, whatever follows |
| ArabicJoin.OtherForms | src/ftk_text_layout_bidi.c:476-534 | units outside the tables stay; fillers inside them, marks and digits among them, become zeros |
| ArabicJoin.FormsMeet | src/ftk_text_layout_bidi.c:476-534 | in the output for a text of such letters, a unit is a medial or final form exactly if the one in front is an initial or medial form |
| ArabicJoin.FormsOfSomeTexts | src/ftk_text_layout_bidi.c:235-434 | the shaped form of four texts |
| ArabicJoin.EntryKinds | src/ftk_text_layout_bidi.c:235-434 | the tables hold fillers, letters of these two kinds, and HAMZA |
| ArabicJoin.ZeroComesOutIff | src/ftk_text_layout_bidi.c:476-534 | a zero, which ends a string, comes out exactly for a zero, a filler, and a HAMZA between a letter that reaches it and a unit of the tables |
| ArabicJoin.JoinBytesLength | src/ftk_text_layout_bidi.c:550-552 | the shaped text has at most three bytes for every two |
| ArabicJoin.ShapersAgree | src/ftk_text_layout_bidi.c:476-611 | for every text of 16-bit units, shaping its UTF-8 form gives the UTF-8 form of the shaped text |
| ArabicJoin.FormsLeaveTheTable | src/ftk_text_layout_bidi.c:235-434 | no contextual form of a letter is itself a letter of the tables, TATWEEL and the ligatures of the second table aside |
| ArabicJoin.JoinIdempotentIff | src/ftk_text_layout_bidi.c:476-534 | shaping twice is shaping once exactly if no unit FEF5, FEF7 or FEF9 follows a letter that joins forwards |
| ArabicJoin.JoinIdempotent | src/ftk_text_layout_bidi.c:476-534 | in particular for texts without units in FEF5..FEFB |
| ExprEval.Lexer.GetNumToken | src/ftk_expr.c:68-132 | the state machine leaves the value and position that `NumberAt` and `SkipRun` give |
| ExprEval.Lexer.GetToken | src/ftk_expr.c:134-225 | the lexer goes from state to state as `NextToken` does, the push-back flag at the end of the text included |
| ExprEval.Lexer.EvalFactor | src/ftk_expr.c:237-264 | value and lexer state are those of `FactorOf` |
| ExprEval.Lexer.EvalTerm | src/ftk_expr.c:266-289 | value and lexer state are those of `TermOf` |
| ExprEval.Lexer.EvalExpr | src/ftk_expr.c:291-331 | value and lexer state are those of `ExprOf`; what the operators do is stated by `ExprGrammar.OperatorsMean` |
| ExprEval.FactorOf | src/ftk_expr.c:237-264 | total on every text; a factor is entered only with nothing pushed back, and depth is bounded by the unread length |
| ExprEval.TermOf | src/ftk_expr.c:266-289 | total on every text, makes progress unless the text is exhausted |
| ExprEval.ExprOf | src/ftk_expr.c:291-331 | total on every text; calls nest at most as deep as there are characters left, plus one |
| ExprEval.EvalText | src/ftk_expr.c:333-341 | evaluates every string, well formed or not, to `EvalString` |
| ExprGrammar.ScanLiteral | src/ftk_expr.c:68-132 | a literal, after any ignorable characters, is read as one number with its value |
| ExprGrammar.FactorReads | src/ftk_expr.c:237-264 | EvalFactor reads exactly one factor, with its value, although a closing parenthesis is reported as an opening one |
| ExprGrammar.TermReads | src/ftk_expr.c:266-289 | EvalTerm on a printed term reaches its loop with the term's value, left associative |
| ExprGrammar.TermStops | src/ftk_expr.c:266-289 | the token EvalTerm pushes back is the one its caller reads next, or the text has ended |
| ExprGrammar.SumReads | src/ftk_expr.c:291-331 | EvalExpr on a printed sum reaches its loop with the sum's value, the four additive operators sharing one level |
| ExprGrammar.Evaluates | src/ftk_expr.c:236-341 | every sum over the grammar, followed by anything that does not continue it, evaluates to the value of its parse tree |
| ExprGrammar.PrintKeepsValue | src/ftk_expr.c:236-331 | the parse tree chosen for an expression, with parentheses only where needed, has the expression's value |
| ExprGrammar.PrintedTreeEvaluates | src/ftk_expr.c:134-341 | every expression over the six operators, printed with parentheses only where needed, evaluates to its own value |
| ExprGrammar.OperatorsMean | src/ftk_expr.c:266-331 | for all printed expressions: the value of a sum, difference, bitwise or, bitwise and, product or quotient is the algebra's sum and so on of the values the evaluator gives the two operands, left one first |
| ExprGrammar.ParseTreeShows | src/ftk_expr.c:134-225 | the printed text and the parse tree chosen for an expression belong together |
| ExprGrammar.DigitsMean | src/ftk_util.c:637-697 | which characters are digits, and what each is worth |
| ExprGrammar.WholeNumberMeans | src/ftk_util.c:637-753 | a decimal number has its positional value, of its first ten digits |
| ExprGrammar.FractionMeans | src/ftk_util.c:722-753 | with a point, what stands behind it is read as a whole number, too |
| ExprGrammar.OctalMeans | src/ftk_expr.c:107-114 | a number behind a 0 has its octal value |
| ExprGrammar.HexMeans | src/ftk_expr.c:97-122 | a text that is a hexadecimal number evaluates to its value, although the lexer leaves its letters behind |
| ExprGrammar.ZeroBehindPointLost | src/ftk_util.c:722-753 | a zero directly behind the decimal point is lost |
| ExprParens.ParensAlike | src/ftk_expr.c:134-225 | texts that differ only in which parentheses open and which close have the same value |
| ExprGrammar.ZeroSwallowsOperator | src/ftk_expr.c:97-114 | a lone zero takes the operator behind it with it, and the whole text is a single number |
| ExprGrammar.NumberTakesRunIff | src/ftk_expr.c:68-132 | reading a number takes exactly its digits and points, unless it is a single 0 with something behind it |
| ParcelFormat.IntRoundTrip | fbus/fbus_parcel.c:144-162 | an int copied into memory is read back |
| ParcelFormat.HoldsAligned | fbus/fbus_parcel.c:247-264 | a list of values that starts on a multiple of four ends on one |
| ParcelFormat.HoldsUnique | fbus/fbus_parcel.c:181-264 | a block of bytes holds at most one list of values: the format is unambiguous |
| ParcelFormat.HoldsString | fbus/fbus_parcel.c:204-219 | strlen finds exactly the string that was written |
| ParcelFormat.HoldsNumber | fbus/fbus_parcel.c:181-245 | the number or size behind the tag is the one that was written, negative ones included |
| Parcels.Parcel.Extend | fbus/fbus_parcel.c:100-118 | keeps the contents and gives at least the capacity asked for |
| Parcels.Parcel.SetSize | fbus/fbus_parcel.c:120-130 | new size, or the old one if it exceeds the capacity; the parcel stays valid exactly if the cursor is not left behind |
| Parcels.Parcel.SetCursor | fbus/fbus_parcel.c:132-142 | new cursor, or the old one if it exceeds the size |
| Parcels.Parcel.Reset | fbus/fbus_parcel.c:301-309 | an empty parcel |
| Parcels.Parcel.WriteRawData | fbus/fbus_parcel.c:247-264 | tag, size for binary data, and bytes stand one behind the other at the old cursor; what was in front is kept, what was behind is given up |
| Parcels.Parcel.WriteValue | fbus/fbus_parcel.c:266-299 | each of the five writers stores its value at the cursor |
| Parcels.Parcel.Write | fbus/fbus_parcel.c:247-299 | writing at a value boundary keeps the values in front, appends the new one and truncates the rest |
| Parcels.Parcel.Check | fbus/fbus_parcel.c:164-179 | steps over the tag exactly if it is the wanted one and enough data follow |
| Parcels.Parcel.GetInt | fbus/fbus_parcel.c:195-200 | the int that is next, or 0 with the cursor unmoved |
| Parcels.Parcel.GetChar | fbus/fbus_parcel.c:181-186 | the char that is next |
| Parcels.Parcel.GetShort | fbus/fbus_parcel.c:188-193 | the short that is next |
| Parcels.Parcel.GetString | fbus/fbus_parcel.c:204-219 | the string that is next, or None with the cursor unmoved if something else is |
| Parcels.Parcel.GetData | fbus/fbus_parcel.c:221-234 | the data that are next, if the size asked for is theirs; None with the cursor unmoved exactly if something else is next |
| Parcels.Parcel.GetDataSize | fbus/fbus_parcel.c:236-245 | the size of the data that are next, or -1 |
| Parcels.Parcel.WriteAll | fbus/fbus_parcel.c:336-344 | writing a list leaves exactly that list |
| Parcels.Parcel.ReadAll | fbus/fbus_parcel.c:348-359 | reading with matching getters yields the list and ends with cursor equal to size |
| Parcels.Parcel.RoundTrip | fbus/fbus_parcel.c:325-368 | writing a list, going back to 0 and reading it yields the same list, on a multiple of four |
| Streams.Stream.ReadN | fbus/fbus_stream.c:34-49 | collects as many bytes as asked for, or all there are, in order, however they are cut up |
| Streams.Stream.WriteN | fbus/fbus_stream.c:51-66 | sends the whole buffer in order, however little each call takes, or nothing on a closed connection |
| Frames.FrontNormal | fbus/fbus_proxy.c:143-180 | the frame in front of a stream that begins with an answer is that answer |
| Frames.FrontPush | fbus/fbus_proxy.c:143-180 | the same for a notification with its trigger |
| Frames.ReceiveSynchronises | fbus/fbus_proxy.c:143-180 | any number of notifications, an answer and then anything: all notifications are delivered once in order, the answer is the payload, and the rest stays unread |
| Frames.ReceiveCutOff | fbus/fbus_proxy.c:143-180 | if the stream ends behind some notifications, they are delivered and the receiver fails |
| Frames.UnknownIsSkipped | fbus/fbus_proxy.c:143-180 | a frame of any other type is read over |
| Wire.Fill | fbus/fbus_proxy.c:162-167 | n bytes go from the stream into the parcel, or the call fails |
| Wire.SendSized | fbus/fbus_proxy.c:127-141 | size and contents go out, or nothing |
| Proxies.Proxy.GetParcel | fbus/fbus_proxy.c:111-125 | an empty parcel, the same one each time |
| Proxies.Proxy.SendRequest | fbus/fbus_proxy.c:127-141 | exactly the sized contents of the parcel go out |
| Proxies.Proxy.RecvFrame | fbus/fbus_proxy.c:152-167 | one frame is taken from the stream: type, trigger and payload are those of `FrontFrame` |
| Proxies.Proxy.RecvResponse | fbus/fbus_proxy.c:143-180 | for any chunking: delivers the notifications of `Receive` to a listener, leaves the answer in the parcel and the rest unread, and fails exactly if the stream ends early |
| Services.Service.OnClientConnect | fbus/fbus_service.c:189-223 | the client takes the first free of 16 slots, unless it is refused or there is none |
| Services.Service.OnClientDisconnect | fbus/fbus_service.c:225-252 | exactly the slot of that client becomes free; what the service's callback says is returned |
| Services.Service.Notify | fbus/fbus_service.c:140-182 | every targeted client gets exactly one notification frame with the trigger that is right for it; no other connection changes; the result of the last write is returned, or Fail if nobody was targeted |
| Services.Service.ClientHears | fbus/fbus_service.c:140-182 | a targeted client whose connection is open receives exactly one notification with that content, caused by itself, by another client or by the service as trigger and client ids say; every other client receives nothing |
| Services.Service.LastOneTells | fbus/fbus_service.c:140-182 | the result is that of the write to the last targeted client |
| Services.Service.NobodyTells | fbus/fbus_service.c:140-182 | and Fail if there is none |
| ServiceTable.CopiedString | fbus/fbus_service_manager_daemon.c:149-149 | what strncpy keeps of a host name: all of it, or its first 31 characters |
| ServiceTable.UnpackPack | fbus/fbus_service_manager.c:77-77 | a record arrives as it was sent, field by field |
| ServiceTable.Find | fbus/fbus_service_infos.c:69-83 | the first service with that name; None exactly if there is none |
| ServiceTable.ServiceInfos.FindIndex | fbus/fbus_service_infos.c:69-83 | the loop finds what `Find` says |
| ServiceTable.ServiceInfos.Get | fbus/fbus_service_infos.c:134-139 | the record at an index inside the table, and nothing else |
| ServiceTable.ServiceInfos.Extend | fbus/fbus_service_infos.c:92-114 | keeps the table and makes room |
| ServiceTable.ServiceInfos.Add | fbus/fbus_service_infos.c:116-132 | appends the record with the default host and the next port, gives both back to the caller, and keeps ports consecutive |
| ServiceTable.AddedMeans | fbus/fbus_service_infos.c:121-126 | a record without a host gets 127.0.0.1, every record the port 1979 plus its index, and nothing else of it changes |
| Daemons.Daemon.HandleGet | fbus/fbus_service_manager_daemon.c:87-97 | does to table, processes and answer what `Direct` says |
| Daemons.Daemon.HandleStop | fbus/fbus_service_manager_daemon.c:99-112 | the same for `Stop` |
| Daemons.Daemon.HandleStart | fbus/fbus_service_manager_daemon.c:114-127 | the same for `Start`, which `ServiceLife.StatusChanges` and `EffectsAre` describe |
| Daemons.Daemon.HandleQuery | fbus/fbus_service_manager_daemon.c:129-138 | the same for `Direct` of a query |
| Daemons.Daemon.HandleRegister | fbus/fbus_service_manager_daemon.c:140-155 | the same for `Register` |
| Daemons.Daemon.HandleUnregister | fbus/fbus_service_manager_daemon.c:157-169 | the same for `Unregister` |
| Daemons.Daemon.CheckChildren | fbus/fbus_service_manager_daemon.c:171-207 | every child that has ended is reaped, in order, with the effects of `ReapAll` |
| Daemons.Daemon.HandleRequest | fbus/fbus_service_manager_daemon.c:209-317 | for every request: the parcel afterwards holds exactly the answer, and table and processes are those of the direct call followed by check_children |
| Daemons.Daemon.Dispatch | fbus/fbus_source_service.c:54-86 | takes exactly one request off the stream and sends exactly one answer frame; RET_REMOVE exactly at the end of the stream or a size that is not positive |
| ServiceCalls.RunKeepsServices | fbus/fbus_service_manager_daemon.c:79-207 | over every run of requests and ended children no service comes, goes or changes name, port or program, so a name is always found at the same port |
| ServiceCalls.RestartFollowsLifeCycleIff | fbus/fbus_service_manager_daemon.c:184-203 | a service whose process ends is treated as its life cycle says exactly if being started on load and running forever go together |
| ServiceCalls.RestartGoesByStartType | fbus/fbus_service_manager_daemon.c:194-199 | a service that runs forever but is started on request is not restarted, and one that runs once but is started on load is |
| ServiceCalls.UnregisterAfterRegister | fbus/fbus_service_manager_daemon.c:140-169 | a process can take back its registration exactly if its host name has fewer than 32 characters |
| ServiceCalls.MarshalInjective | fbus/fbus_service_manager.c:39-189 | different requests never look alike on the wire |
| ServiceLife.StatusChanges | fbus/fbus_service_manager_daemon.c:99-207 | what happens to status and process of a service: a stopped one that is asked for is starting, as is one restarted; a started one asked to stop is stopping; a registration makes it started; taking it back from the same process and host, or an end without restart, makes it stopped; nothing else changes them |
| ServiceLife.EffectsAre | fbus/fbus_service_manager_daemon.c:99-207 | a program is launched exactly for a start of a stopped service or a restart, a process told to end exactly for a stop of a started service, and nothing else is done to processes |
| ServiceLife.AnswersAre | fbus/fbus_service_manager_daemon.c:79-97 | get_nr answers the number of services, get the record at the index asked for, and neither changes anything |
| ServiceLife.NamedAnswersAre | fbus/fbus_service_manager_daemon.c:99-169 | what the other requests answer about the first service of that name, and that there is none; query changes nothing |
| ServiceLife.RegisteredMeans | fbus/fbus_service_manager_daemon.c:140-155 | a registration stores process, status and the first 31 characters of the host in that record, and changes nothing else |
| ServiceLife.NotLaunchedTwice | fbus/fbus_service_manager_daemon.c:114-207 | over every run: while no process of it unregisters or ends, a service that is not stopped is not launched by any request |
| ServiceLife.LaunchedOnce | fbus/fbus_service_manager_daemon.c:114-207 | in particular not a second time after the request that launched it |
| ServiceLife.ServedInOrder | fbus/fbus_service_manager_daemon.c:209-317 | what the daemon does for a request is the request followed by the ended processes, one after the other |
| RemoteCalls.Session.Exchange | fbus/fbus_proxy.c:228-242 | send, let the daemon run, receive: with any notifications in front, the parcel ends up with the answer of the direct call and the connection is empty |
| RemoteCalls.Session.Request | fbus/fbus_proxy.c:228-242 | RET_FAIL without any effect if the proxy is busy; otherwise an exchange, after which the proxy is free again |
| RemoteCalls.Session.Perform | fbus/fbus_service_manager.c:39-189 | whichever of the seven calls a client makes: answer, table, processes and notifications are those of the direct call |
| RemoteCalls.Session.Converse | fbus/fbus_service_manager.c:39-189 | over any number of calls on one connection, with processes ending in between: all answers, the table and everything done to processes are those of the same calls made directly, and each round's notifications are heard once, in order |
| RemoteCalls.Session.GetNr | fbus/fbus_service_manager.c:39-59 | the remote get_nr returns the code and data of the direct call and leaves table, processes and ended children as the direct call and check_children do, delivering every notification on the way once and in order |
| RemoteCalls.Session.Get | fbus/fbus_service_manager.c:61-82 | the remote get returns the code and data of the direct call and leaves table, processes and ended children as the direct call and check_children do, delivering every notification on the way once and in order |
| RemoteCalls.Session.Stop | fbus/fbus_service_manager.c:84-101 | the remote stop returns the code and data of the direct call and leaves table, processes and ended children as the direct call and check_children do, delivering every notification on the way once and in order |
| RemoteCalls.Session.Start | fbus/fbus_service_manager.c:103-120 | the remote start returns the code and data of the direct call and leaves table, processes and ended children as the direct call and check_children do, delivering every notification on the way once and in order |
| RemoteCalls.Session.Query | fbus/fbus_service_manager.c:122-143 | the remote query returns the code and data of the direct call and leaves table, processes and ended children as the direct call and check_children do, delivering every notification on the way once and in order |
| RemoteCalls.Session.Register | fbus/fbus_service_manager.c:145-168 | the remote register returns the code and data of the direct call and leaves table, processes and ended children as the direct call and check_children do, delivering every notification on the way once and in order |
| RemoteCalls.Session.Unregister | fbus/fbus_service_manager.c:170-189 | the remote unregister returns the code and data of the direct call and leaves table, processes and ended children as the direct call and check_children do, delivering every notification on the way once and in order |
| MainLoops.Source.Disable | src/ftk_source.h:60-67 | counts up |
| MainLoops.Source.Enable | src/ftk_source.h:69-83 | counts down, but not below zero |
| MainLoops.Source.Unref | src/ftk_source.h:124-135 | counts down, and destroys at zero |
| MainLoops.SourcesManager.Add | src/ftk_sources_manager.c:58-69 | appends the source and asks for a refresh; a full table turns it away unchanged |
| MainLoops.SourcesManager.Remove | src/ftk_sources_manager.c:71-98 | takes the first occurrence out of the array by shifting, drops one reference, and asks for a refresh; a source that is not managed is left alone |
| MainLoops.SourcesManager.NeedRefresh | src/ftk_sources_manager.c:114-126 | returns the counter and counts it down |
| MainLoops.MainLoop.constructor | src/ftk_main_loop_select.c:46-59 | an empty queue; the one source there is, the primary one, is held from outside and may be handed over |
| MainLoops.MainLoop.NewSource | src/ftk_source_timer.c:111-133 | a new source with one reference, held by whoever created it |
| MainLoops.MainLoop.AddSource | src/ftk_main_loop.c:38-49 | does to the whole state what `Act` says of handing a source over |
| MainLoops.MainLoop.RemoveSource | src/ftk_main_loop.c:51-61 | does what `Act` says of withdrawing a source |
| MainLoops.MainLoop.HandleEvent | src/ftk_source_primary.c:67-100 | takes one event off the queue with the effect of `PrimaryDispatch` |
| MainLoops.MainLoop.TakeTurn | src/ftk_main_loop_select.c:113-162 | dispatches, removes or skips one source as `TurnOf` says, which `SweepModel.TurnIsDone` spells out |
| MainLoops.MainLoop.Scan | src/ftk_main_loop_select.c:106-163 | ends, in the state of `SweepFrom`, with the reference count right |
| Scheduler.WithoutFirstCount | src/ftk_sources_manager.c:71-95 | a removal takes exactly one occurrence |
| Scheduler.ActConserves | src/ftk_main_loop.c:38-61 | adding, removing, referencing, releasing and creating sources, also at the address of a destroyed one, keep the reference count equal to the claims |
| Scheduler.RemoveConserves | src/ftk_sources_manager.c:71-98 | a removal drops exactly the one reference the table held |
| Scheduler.DispatchConserves | src/ftk_source_primary.c:67-100 | handling an event keeps the count; a reference is lost exactly if an addition meets a full table |
| Scheduler.FullTableLosesReference | src/ftk_sources_manager.c:58-69 | for every capacity, a run from nothing that fills the table, after which a further source is neither managed, nor pending, nor held by anyone, and still lives |
| Scheduler.LiveIffClaimed | src/ftk_source.h:124-135 | a source has not been destroyed exactly if it is managed, about to be, held from outside, or lost |
| Scheduler.RunConserves | src/ftk_sources_manager.c:58-98 | over every run, ref equals outside references plus occurrences in the table plus pending additions plus lost ones; nothing managed or pending is destroyed; and nothing is lost exactly if no addition met a full table |
| Scheduler.RemovalRaceIff | src/ftk_main_loop_select.c:115-121 | sweep first or event first: both orders agree on everything but the refresh counter, and drop one reference, exactly if the source is managed once |
| Scheduler.ManagedTwice | src/ftk_main_loop.c:38-61 | for every capacity of two or more, a run that hands one source over twice and asks once for its removal |
| Scheduler.OneRequestRemovesTwice | src/ftk_main_loop_select.c:115-121 | from there, sweep and event take it out twice, and it is destroyed |
| Scheduler.StaleRemovalMisses | src/ftk_source_primary.c:67-100 | a request to remove a source that is still queued when it has been destroyed never removes a new source at the same address, over every run |
| Scheduler.RemovalOutlivesSource | src/ftk_main_loop_select.c:115-121 | a run after which a source is destroyed while the request to remove it is still queued |
| SweepModel.TurnKeeps | src/ftk_main_loop_select.c:106-163 | each turn either leaves the table alone and moves on, or changes it and asks for a refresh |
| SweepModel.SweepConserves | src/ftk_main_loop_select.c:106-163 | the reference count is right after every scan |
| SweepModel.SweepVisitsInOrder | src/ftk_main_loop_select.c:106-163 | the scan visits the sources in the order of the table at its start, none passed over or met twice, and stops early only after its one change |
| SweepModel.DisabledIsDropped | src/ftk_main_loop_select.c:115-121 | a disabled source that the scan comes to is out of the table, one reference lighter |
| SweepModel.TurnIsDone | src/ftk_main_loop_select.c:113-162 | what a turn does, from descriptor, select and clock: a disabled source, or a broken one that is not readable, is taken out; otherwise a readable or due one is dispatched, which for the primary source handles the event at the head of the queue, and taken out if that fails; otherwise nothing changes |
| SweepModel.ScanTakesTurns | src/ftk_main_loop_select.c:106-163 | every source visited by a scan has had such a turn, in the order of the table, from one state to the next; the scan ends after the last of them |
| SweepModel.ReadablePrimaryHandlesEvent | src/ftk_main_loop_select.c:123-138 | a scan that reaches an enabled, readable primary source handles the first event queued at its start |
| SweepModel.ActAllInOrder | src/ftk_main_loop_select.c:132-138 | what callbacks do takes effect in order |
| SweepModel.WithdrawnIsTakenOut | src/ftk_main_loop.c:51-61 | a source whose removal has been asked for is taken out by its next turn, whatever else that finds |
| SweepModel.HandedOverAgain | src/ftk_main_loop.c:38-49 | handing it over again makes up for one such request, and both events are queued in order |
| Utf8Chars.GetChar | src/ftk_util.c:111-128 | the unit and the next address of utf8_get_char, on any bytes that end in a NUL |
| Utf8Chars.GetPrevChar | src/ftk_util.c:130-156 | the unit and the address of the character in front; 0 and the same address behind seven continuation bytes |
| Utf8Chars.CountChars | src/ftk_util.c:158-170 | the number of characters in front of the first one whose unit is zero |
| Utf8Chars.UnitOfScalar | src/ftk_util.c:79-90 | reading a character written by section 3 of RFC 3629 gives its low 16 bits and its length |
| Utf8Chars.CharAtBound | src/ftk_util.c:111-128 | stepping through a text goes from one character to the next, and reads 0 at the end |
| Utf8Chars.PrevAtBound | src/ftk_util.c:130-156 | stepping back goes to the beginning of the character in front |
| TextBuffers.TextBuffer.Extend | src/ftk_text_buffer.c:49-71 | keeps the text and its NUL and makes room |
| TextBuffers.TextBuffer.Insert | src/ftk_text_buffer.c:73-106 | the text afterwards is the old one with the new bytes spliced in, in spite of the overlapping copy; fails exactly if the offset lies behind the end |
| TextBuffers.TextBuffer.Delete | src/ftk_text_buffer.c:108-131 | the text afterwards is the old one without the range, cut off at the end of the text |
| TextBuffers.InsertThenDelete | src/ftk_text_buffer.c:73-131 | inserting and then deleting the same range restores the text |
| TextBuffers.DeleteThenInsert | src/ftk_text_buffer.c:73-131 | deleting a range and inserting it again restores the text |
| TextBuffers.TextBuffer.CharsBytes | src/ftk_text_buffer.c:165-203 | the distance to a character boundary so many characters away, or one byte more at the end; 0 if fewer bytes than characters are there |
| TextBuffers.TextBuffer.DeleteChars | src/ftk_text_buffer.c:133-158 | deletes whole characters to the right or left of a boundary, and fails exactly if the count is zero or leaves the text |
| TextBuffers.StepsOfPlain | src/ftk_text_buffer.c:179-188 | as many characters as asked for or left, if none has a unit of zero |
| LineLayout.VisibleIsLongest | src/ftk_canvas.c:294-323 | the fitting loop finds the longest line: every character on it fits, and the next one does not or follows a line feed |
| LineLayout.LongestIsUnique | src/ftk_canvas.c:294-323 | there is only one such line |
| LineLayout.RoomLeft | src/ftk_canvas.c:313-320 | the extent returned is the sum of the widths on the line |
| LineLayout.ExactFillLeavesBreakIff | src/ftk_canvas.c:298-311 | a line feed that directly follows the characters of a line is left to a line of its own exactly if those fill the width |
| LineLayout.EmptyLineBehindFullOne | src/ftk_canvas.c:298-311 | a text in which that happens |
| LineLayout.ProgressIff | src/ftk_canvas.c:298-318 | the loop gets past a character exactly if it is a line break or fits a line of its own, and its unit is neither 0 nor 0xFFFF |
| LineLayout.WideCharacterStops | src/ftk_canvas.c:313-318 | a text at which it stays |
| LineLayout.LayoutEndsIff | src/ftk_text_layout_normal.c:115-161 | calling get_visual_line again and again reaches the end of the text exactly if every character from there on can be placed; otherwise it returns empty lines for ever |
| LineLayout.LineProgressIff | src/ftk_text_layout_normal.c:128-155 | a line is not empty exactly if its first character can be placed |
| LineLayout.LinesPartition | src/ftk_text_layout_normal.c:115-161 | the lines cover the text without gap or overlap, none is empty, and there are at most as many as characters |
| LineLayout.LinesJoin | src/ftk_text_layout_normal.c:115-161 | put together, the lines are the text |
| WordWrap.NextLineReaches | src/ftk_util.c:562-584 | the line behind one that was cut off at a word break gets at least as far as the fitting loop of that one |
| WordWrap.BreakMeans | src/ftk_util.c:562-584 | a range that would split a word, two digits or two letters of ASCII, ends in front of the last character that is not followed inside its word, or at its start |
| WordWrap.WordsStayTogether | src/ftk_text_layout_normal.c:115-161 | with word wrap, a line that is cut off ends there if that is more than two bytes in; and a word is split only if there is no such place |
| LineEdits.LastLinesDecide | src/ftk_text_view.c:264-293 | after any edit, with or without word wrap, for a layout from any character on: only the last line kept has to be looked at, and with word wrap the one above |
| LineEdits.MayKeepIff | src/ftk_text_view.c:264-293 | the view's layout from a line in front of the edit is right exactly if `MayKeep` holds: the end of the line above, or of the two lines above with word wrap |
| LineEdits.RelayoutIff | src/ftk_text_view.c:264-293 | with lines broken anywhere: exactly if the edit lies behind the beginning of the start line, or the text now ends there, or the character now there does not go on the line above |
| LineEdits.EndStaysIff | src/ftk_canvas.c:298-318 | when the line in front of an edit ends where it did |
| LineEdits.OneLineAbove | src/ftk_text_view.c:452-463 | starting one line above the edited one is always early enough if lines are broken anywhere, and with word wrap exactly if the line above ends where it did |
| LineEdits.TwoLinesAbove | src/ftk_text_view.c:264-293 | starting two lines above is always early enough, with or without word wrap |
| LineEdits.LineEndLocal | src/ftk_text_layout_normal.c:115-161 | where a line ends does not depend on anything behind the character at which the fitting loop stops, with or without word wrap |
| LineEdits.DeletionReachesLineAbove | src/ftk_text_view.c:446-450 | a text and a deletion after which laying out from the caret's line does not give the layout of the whole text |
| LineEdits.InsertionReachesLineAbove | src/ftk_text_view.c:300-314 | the same for an insertion, in a view scrolled to the caret's line |
| LineEdits.InsertTextStartsTooLate | src/ftk_text_view.c:797-804 | the same for insert_text, which starts behind the line it edits |
| LineEdits.WrapReachesTwoLinesUp | src/ftk_text_view.c:452-463 | with word wrap, a deletion that reaches further up than the backspace key starts |
| LineOffsets.OffsetsRightIff | src/ftk_text_view.c:264-293 | the offsets kept and found are those of the whole text exactly if each line kept still ends where it did, for texts shorter than 65536 bytes |
| LineOffsets.InsertTextRightIff | src/ftk_text_view.c:781-804 | insert_text, with or without word wrap: exactly if the line it edits ends where the start line's old offset points and, with word wrap, the line above ends where it did |
| TextLayouts.CalcVisibleRange | src/ftk_canvas.c:285-323 | the scan of memory ends at the end of `Visible`, with its extent |
| TextLayouts.FindLineBreak | src/ftk_util.c:562-584 | the backward scan ends at `LineBreak` |
| TextLayouts.TextLayout.GetVisualLine | src/ftk_text_layout_normal.c:115-161 | returns the line `LineEnd` gives, moves on to its end, numbers its bytes, and takes one off the length for every CR or LF on it |
| TextViews.TextView.ExtendLinesOffset | src/ftk_text_view.c:235-262 | keeps the offsets and makes room for one more |
| TextViews.TextView.FindLines | src/ftk_text_view.c:275-286 | the offsets are the old ones up to the start line and then those of the layout from there |
| TextViews.TextView.Relayout | src/ftk_text_view.c:264-293 | for any start line, the offsets afterwards are those of the whole text exactly if each line in front of it still ends where it did; the caret's line then holds the caret and is in view |
| TextViews.TextView.RelayoutEdited | src/ftk_text_view.c:264-293 | from a line that does not begin behind the edit, it is right afterwards exactly if `MayKeep` holds |
| TextViews.TextView.RecalcCaretAtLine | src/ftk_text_view.c:77-100 | clamps the caret and finds the line that holds it, whatever stands behind the last offset |
| LineOffsets.CaretLineIsUnique | src/ftk_text_view.c:85-97 | exactly one line holds a position |
| TextViews.TextView.UpdateCaret | src/ftk_text_view.c:102-124 | the caret's line comes into view, without showing more lines than fit |
| TextViews.TextView.MoveCaret | src/ftk_text_view.c:126-143 | the caret moves by whole characters, and not at all if so many bytes would leave the text |
| TextEdits.CaretAfterPlain | src/ftk_text_view.c:126-143 | in a text without units of zero it moves by as many characters as asked for, as far as there are any |
| TextViews.TextView.DeleteKey | src/ftk_text_view.c:446-450 | the character at the caret goes; the line index is right afterwards exactly if `MayKeep` holds of the caret's line |
| TextViews.TextView.Backspace | src/ftk_text_view.c:452-463 | the character in front of the caret goes; the line index is always right afterwards if lines are broken anywhere, and with word wrap exactly if `MayKeep` holds of the line above |
| TextViews.TextView.InputStr | src/ftk_text_view.c:300-314 | the text goes in at the caret, which moves behind it; the line index is right afterwards exactly if `MayKeep` holds of the first visible line or the caret's line, whichever is higher up |
| TextViews.TextView.PosToLine | src/ftk_text_view.c:781-795 | the first line that does not begin in front of the position |
| TextViews.TextView.InsertText | src/ftk_text_view.c:797-808 | the text goes in; if the line index was right, it is afterwards exactly if the last two lines kept end where they should; in general, if each line in front of the start line ends where it did |
| TextViews.TextView.SetText | src/ftk_text_view.c:771-779 | whatever was cached, the line index afterwards is that of the new text, as far as unsigned shorts hold it |
| TextViews.TextView.SetCaret | src/ftk_text_view.c:145-160 | the caret is clamped to the text and its line found; 0 if there is no text |
| LineOffsets.LayoutAscends | src/ftk_text_view.c:283-283 | the offsets of a whole layout ascend from 0 as long as the text is shorter than 65536 bytes |
| KeyBoards.LayoutView | src/ftk_key_board.c:653-684 | every row and every cell gets the position and size of its share; weights and everything else stay |
| KeyBoards.Layout | src/ftk_key_board.c:639-687 | the same for all views of the keyboard |
| KeyBoards.SharesFill | src/ftk_key_board.c:661-682 | the shares sum to at most the total, with fewer pixels left over than items |
| KeyBoards.CoverOnce | src/ftk_key_board.c:661-682 | up to the end of the last item every position lies in some item |
| KeyBoards.StartGrows | src/ftk_key_board.c:661-682 | each item ends where or before any later one begins |
| KeyBoards.ItemIsUnique | src/ftk_key_board.c:661-682 | no position lies in two items |
| KeyBoards.FindCell | src/ftk_key_board.c:736-762 | a cell that contains the point, or NULL exactly if none does |
| KeyBoards.HitIsUnique | src/ftk_key_board.c:736-762 | in a view that has been laid out, at most one cell contains a point |
| KeyBoards.EveryPointIsHit | src/ftk_key_board.c:653-684 | up to the end of the last row every height lies in a row, and in a row up to the end of its last cell every point lies in a cell |
| KeyBoards.EdgesReached | src/ftk_key_board.c:653-684 | fewer pixels than there are rows, or cells in the row, are left over at the far edges |
| Tiling.FillBackgroundTile | src/ftk_canvas.c:199-224 | every pixel of the area, and no other, gets the bitmap's pixel at its position modulo the bitmap's size |

## Left out

- Widgets, painting, themes, animation, dialogs, input methods, logging, configuration, fonts, fribidi.
- Sockets, select, fork, exec, kill and waitpid themselves: streams accept and deliver arbitrary pieces, started and stopped processes are a log, ended ones a list.
- ARGB32 and RGBA32 copies, direct updates of the memory display, rotation by 270 degrees (not supported by the code), negative offsets.
- Sprites.Sprite.Show: on a display on which no other sprite listens; so for MoveTo, SetIcon and AppDraws.  Several overlapping sprites are not modelled.
- Sprites.Sprite.MoveTo: as Show.
- Sprites.Sprite.SetIcon: as Show.
- Sprites.Sprite.AppDraws: as Show.
- Sprites.Display.Notify: for at most one listening sprite; the other listeners draw nothing.
- Sprites.Display.UpdateAndNotify: as Notify.
- RotatedScreen.UpdateRefines: updates start inside the bitmap and, for a quarter turn, do not reach below the logical screen; outside that the C code computes addresses left of the screen.
- RotatedScreen.SnapRefines: rectangles inside the logical screen; for others `RotatedScreen.SnapSlides` says what is read, as long as they are not larger than the screen.
- TurnedCursor.RunErases: icons not larger than the screen and, for a quarter turn, sprites that do not reach below it; beyond that the C code leaves its bitmaps.
- TextCodec.Utf8ToUtf16: the C code reads the byte behind a four-byte lead before it checks the length; the model reads it only if it is there.
- ArabicJoin.JoinUtf8: characters of at most three bytes, because the C code decodes into a single unit; the attributes the two shapers compute differ and are not modelled.
- ExprEval.Lexer.GetNumToken: numbers that overflow a C long, and rounding.
- ExprGrammar.PrintedTreeEvaluates: literals other than a lone 0 and hexadecimal ones, which the lexer does not read as one number.
- Parcels.Parcel.GetData: the size asked for is the size stored, which the C code asserts.
- Parcels.Parcel.GetString: for parcels that hold a list of values; raw bytes that only look like one are not modelled.
- Streams.Stream.WriteN: a connection is open or closed for the whole call; one that breaks in the middle of a write is not modelled.
- Frames.PushFrame: the size field of a notification has four bytes; the C code writes a size_t, which is wider on 64-bit targets than what the reader takes.
- Proxies.Proxy.RecvResponse: streams without negative sizes, which no sender writes; a listener that calls the proxy again meets the busy flag (`Session.Request`) but is not run inside the receiving loop.
- Daemons.Daemon.HandleRequest: requests the client functions can send; unsupported codes, which echo the request, and missing arguments are left out.
- RemoteCalls.Session.Converse: connections that stay open.
- ServiceTable.UnpackPack: without the padding a compiler puts between the fields of the record.
- ServiceTable.ServiceInfos.Add: loading the table from description files is left out.
- ArabicJoin.JoinUC16: the attribute it returns beside the text.
- Proxies.Proxy.RecvFrame: frames without negative sizes, which no sender writes.
- Daemons.Daemon.CheckChildren: while the daemon runs; when it quits, children are reaped without being restarted.
- Daemons.Daemon.Dispatch: requests the client functions can send.
- MainLoops.MainLoop.TakeTurn: callbacks that create no sources.
- TextBuffers.TextBuffer.DeleteChars: offsets on character boundaries of valid UTF-8.
- MainLoops.MainLoop.Scan: callbacks that create sources are modelled in `Scheduler.RunConserves` but not in the scan; computing the waiting time, and destroying the manager, are left out. In the objects of `MainLoop` a new source is a new object; an address that is used again is modelled in `Scheduler.StaleRemovalMisses`.
- TextBuffers.TextBuffer.CharsBytes: offsets on character boundaries of valid UTF-8.
- TextLayouts.CalcVisibleRange: valid UTF-8.
- TextLayouts.FindLineBreak: valid UTF-8 and a range that is not empty; on an empty one the C code looks at the byte in front and changes nothing.
- TextLayouts.TextLayout.GetVisualLine: valid UTF-8; the measured extent after a word break is a parameter, and the alternative built with liblinebreak is left out.
- TextViews.TextView.FindLines: text in which every character can be placed; with any other the C code does not return (`LineLayout.LayoutEndsIff`).
- TextViews.TextView.Relayout: as FindLines; the widget's size and font enter as the number of visible lines; drawing the caret is left out.
- TextViews.TextView.DeleteKey: a view whose line index was right before; so for Backspace and InputStr.
- TextViews.TextView.Backspace: as DeleteKey.
- TextViews.TextView.InputStr: as DeleteKey.
- TextViews.TextView.SetText: as FindLines.
- TextViews.TextView.InsertText: an offset of the start line that falls on a character of the new text; otherwise the C code lays out from inside a character.
- The text view's other keys and its pointer: they only move the caret, or lay out again without an edit.
- KeyBoards.Layout: each row that has cells, and each view that has rows, has a positive total weight (the code divides by it); products do not overflow.
- Tiling.FillBackgroundTile: an area inside the canvas and a bitmap that is not empty; the other background styles are a single copy.
- The input pattern and path modules.
