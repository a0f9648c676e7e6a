# The LED canvas and the stream buffer, verified

This project models two parts of the repository in Dafny and proves what they promise.

**The LED canvas** (`src/inc/render.hpp`, driven by `src/main.cpp`). A device is a flat buffer of
LEDs in wire order under an index map of two wirings, four rotations and two flips. Pictures are
drawn into it in place, numbers and texts are printed from bit fonts, and windows compose pictures
through a mutable tree of parent pointers and child maps.

**The stream buffer** (`3rd/inc/asio/basic_streambuf.hpp`). A growable byte buffer with a get area
and a put area that advance, are shifted down and grow up to a hard maximum.

| file | contents |
|---|---|
| `Arithmetic.dfy`, `Options.dfy` | arithmetic and optional values shared by the rest |
| `StripIndex.dfy` | wiring, rotation and flips; the index bijection, and which settings are the same map: eight maps from two LEDs each way on, four on a single row or column, one on a single LED |
| `PaintSources.dfy` | digits, letters, number and text groups, plain pictures; `DigitGroup3x5` as a class |
| `Screens.dfy` | the state of a device as a value; what clear, draw, flip and set_rotate make of it, and their laws |
| `Drawing.dfy` | what the drawing loops write, in the buffer and inside the device |
| `PaintDevices.dfy` | the device as a class over an array; the source's loops proved against `Screens` and `Drawing` |
| `Turning.dfy` | set_rotate as re-indexing, which way it turns, and how turns of device and source cancel |
| `Printing.dfy` | the shapes of the digits; reading printed numbers and texts back from the pixels |
| `Rpc.dfy` | the server's commands on one device, and whole runs of them |
| `Clients.dfy` | what the replies to commands say about sizes, pixels, colours and turns |
| `Forests.dfy` | the links between windows as values; the tree invariant over whole runs |
| `Compositing.dfy` | what a window shows through its children |
| `VisitingOrders.dfy` | reading under an explicit order of the children, and when all orders agree |
| `Overlaps.dfy` | overlapping children: an example where the order decides, and the geometries where no content depends on it |
| `Windows.dfy` | windows as a class with parent pointers and child maps; drawing a window |
| `Streambufs.dfy` | the stream buffer as a class, refining a bounded first-in first-out queue |

The classes hold the source's fields and loops. Each of their methods ties the new state to a
function or relation on values (`View`, `ForestOf`, `SceneOf`, `Contents`), and the promises are
proved about those.

Where the code does not do what its interface suggests, the code is modelled as it is and the exact
condition is proved:

- In-place `flip` visits only the left half of the columns. `flip(false, true)` exchanges every pair
  twice and leaves the picture alone; `flip(true, true)` leaves the middle column of an odd width
  alone. `Screens.FlipMirrorsIff` says for which sizes and flags every picture is mirrored.
- `draw` clips on the right and at the bottom only. `Drawing.WritesInsideIff` says when it writes inside
  the device. Otherwise it can write where there is no LED, or to the LED of another pixel
  (`StripIndex.ReachesItselfIff`, `Drawing.DigitOverLeftEdge`); `Drawing.Written` says what is left
  as long as there is an LED.
- `Window::add` writes the entry before it removes the window from its old parent, so adding a window
  again to the same parent takes it out of the picture (`Forests.AddPlacesIff`).
- `add` can close a cycle, `remove` clears the parent of a window listed elsewhere, and destruction
  leaves the children's parent pointers. `Forests.StepKeepsInvIff` gives the exact safe steps.
- A `reserve` that throws has already moved the bytes without updating the pointers
  (`Streambufs.FailedPrepareKeepsHeldIff`, `Streambufs.FailedPrepareGarbles`).
- What a window with overlapping children shows can depend on the iteration order of an unordered map:
  `Overlaps.OrderDecides` is an example. `VisitingOrders.OrdersAgreeIff` says exactly when it does not,
  and `Overlaps.OrdersAgreeForAllContentsIff` for which geometries no content does.
- A glyph outside its font is accepted and throws when it is read. `Compositing.MayThrowIff` says exactly
  when reading a window can throw.
- The server's `draw_number` does not pass its background on; the number's background is black
  (`Rpc.BackgroundIsDropped`). `Rpc.BackgroundAsAskedIff` says exactly when what is drawn is what was
  asked for.
- The wiring is invisible as long as commands stay on the device (`Rpc.WiringIsInvisible`), and shows
  when they do not (`Rpc.WiringShowsOutside`).
- Row 0 of every glyph is its foot (`Printing.DigitShowsBars`), so glyphs stand upright where y counts
  upwards; quarter turns are counterclockwise then (`StripIndex.SettingTurnsPicture`).
- A number of zero has no digits and an empty picture.

## Model

| member | source | states |
|---|---|---|
| StripIndex.UprightWiring | src/inc/render.hpp:42-56 | upright, the wire runs from (0, 0) along x, back again in every other row of a snake, and to the next row at a row's end |
| StripIndex.SettingTurnsPicture | src/inc/render.hpp:68-96 | in every setting the pixel seen upright at (u, v) is seen where mirroring by the flips and then as many quarter turns as the degree asks take it; one quarter turn takes (x, y) to (height-1-y, x) |
| StripIndex.ServerStripTurned | src/inc/render.hpp:74-84 | pixel (0, 0) of the 16 by 32 snake is LED 511 after a quarter turn and LED 15 after three |
| StripIndex.IndexIsInjective | src/inc/render.hpp:42-97 | in every wiring, rotation and flip each logical pixel has an LED number below width*height, and an explicit division gives the pixel back |
| StripIndex.IndexIsSurjective | src/inc/render.hpp:42-97 | every LED number is the index of a logical pixel, so the map is a bijection |
| StripIndex.ConsecutiveLedsAreNeighbours | src/inc/render.hpp:45-55 | LEDs k and k+1 are seen next to each other under any rotation exactly if the strip is a snake, one LED wide, or k+1 does not start a row |
| StripIndex.NormalLooksTheSame | src/inc/render.hpp:89-95 | a horizontal flip is the same map as a half turn with the vertical flip inverted |
| StripIndex.SameMapIff | src/inc/render.hpp:173-258 | two settings of set_rotate are the same map exactly if they lie the same way, unless the device is a single LED or empty square, and agree on the direction of each axis that is longer than one LED and not empty: eight maps from two LEDs each way on, four on a single row or column, one on a single LED |
| PaintSources.GroupsShowGlyphs | src/inc/render.hpp:548-551 | each cell of a number display shows the glyph of its digit, and each cell of a text the glyph of its letter |
| PaintSources.DigitCountBounds | src/inc/render.hpp:561-565 | the width is the decimal length: 10^(width-1) <= n < 10^width, and zero only for zero |
| PaintSources.DigitGroup3x5.constructor | src/inc/render.hpp:540-543 | a new number display holds the absolute value and its width |
| PaintSources.DigitGroup3x5.SetDigits | src/inc/render.hpp:557-567 | the loop ends with the digit count; every power that reading divides by is at most the number and fits an int, and the leading digit is 1 to 9 |
| Screens.PutChangesOnePixel | src/inc/render.hpp:276-276 | assigning through led_ref changes that logical pixel and no other |
| Screens.PixelsDetermineCells | src/inc/render.hpp:68-96 | two devices of the same layout that show the same logical pixels have the same LEDs |
| Screens.ClearedPixels | src/inc/render.hpp:113-119 | after clear every logical pixel is the background |
| Screens.DrawIsIdempotent | src/inc/render.hpp:125-143 | drawing the same source twice is drawing it once |
| Screens.DrawTextInParts | src/inc/render.hpp:580-585 | drawing text a+b leaves the same LEDs as drawing a and then b at x+4*len(a), under any clipping, rotation and transparency |
| Screens.FlipMirrorsIff | src/inc/render.hpp:145-155 | in-place flip is the mirror image of every picture exactly without vertical flip, or for both flips and an even width, or when there is nothing to exchange |
| Screens.FlipCounterexample | src/inc/render.hpp:146-150 | otherwise the device whose one lit LED is in the middle of the top row still shows it there after flip, where the mirror image is dark |
| Screens.EachPixelMirrorsOrStays | src/inc/render.hpp:145-155 | a flip without flip_x leaves every pixel; a combined flip mirrors every pixel but the middle column of an odd width, which stays |
| Screens.FlipIsAnInvolution | src/inc/render.hpp:145-155 | flipping twice with the same flags restores every LED |
| Screens.FlipLooksLikeTurningIff | src/inc/render.hpp:173-194 | flipping an upright device in place looks like set_rotate(0, flip_x, flip_y) for every picture exactly where flip mirrors |
| Screens.DrawMirroredIsDrawFlippedCopyIff | src/inc/render.hpp:125-155 | drawing with flip flags equals drawing, unflipped, a Pixmap copy flipped in place, for every source of a given size and on every device, exactly where flip mirrors that size |
| Drawing.WritesInsideIff | src/inc/render.hpp:126-140 | the loops write inside the device exactly for an unprintable glyph, a source that is clipped altogether, offsets that are not negative, or a transparent device on which what hangs over the left or upper edge is see-through |
| Drawing.WrittenInsideIsDrawn | src/inc/render.hpp:125-143 | where the loops write inside the device, the last write to each LED gives the picture that drawing should give |
| StripIndex.ReachesItselfIff | src/inc/render.hpp:260-277 | a position whose index is in the buffer reaches itself exactly if it is on the device; any other has no LED or the LED of another pixel |
| Drawing.DigitOverLeftEdge | src/inc/render.hpp:131-140 | on an opaque upright row-by-row device the digit 0 one column over the left edge is written at index -1, and one row down to the last LED of the row above |
| Drawing.DigitOneOverLeftEdge | src/inc/render.hpp:137-139 | on a transparent device the digit 1, whose left column is empty, is drawn inside one column over the left edge |
| PaintDevices.PaintDevice.constructor | src/inc/render.hpp:165-169 | a new device is upright, opaque and dark |
| PaintDevices.PaintDevice.SetTransparent | src/inc/render.hpp:105-107 | changes the transparency setting only |
| PaintDevices.PaintDevice.SetBackground | src/inc/render.hpp:109-111 | changes the background colour only |
| PaintDevices.PaintDevice.SetRotate | src/inc/render.hpp:173-258 | accepts exactly the four right angles and re-indexes the same LEDs, so that the upright picture is seen mirrored and then turned the asked way; another degree changes nothing |
| PaintDevices.PaintDevice.Led | src/inc/render.hpp:277-277 | at any position with an LED in the buffer, reads the logical pixel of that LED, which on the device is the pixel at the position |
| PaintDevices.PaintDevice.SetLed | src/inc/render.hpp:276-276 | at any position with an LED in the buffer, writes the logical pixel of that LED and no other; on the device it is the pixel at the position |
| PaintDevices.PaintDevice.Clear | src/inc/render.hpp:113-119 | the loops over logical positions set every one of the width*height LEDs to the background |
| PaintDevices.PaintDevice.Draw | src/inc/render.hpp:125-143 | wherever the loops write in the buffer, each LED takes the colour of the last source pixel written to it, or keeps its own; where they write inside the device, each pixel takes the source pixel that lands on it unless that is the transparent colour; throws exactly for a glyph outside its font that is not wholly clipped, before drawing anything |
| PaintDevices.PaintDevice.Flip | src/inc/render.hpp:145-155 | the loops leave exactly the picture that the half-width exchange gives, and every colour keeps its number of LEDs |
| Printing.DigitShowsBars | src/inc/render.hpp:304-324 | every pixel of every digit by the bars it lights, on three by five pixels with the foot in row 0; out_of_range outside and for no digit |
| Printing.CellWordIsWord | src/inc/render.hpp:306-306 | the pixels of a glyph cell determine the glyph's font word |
| Printing.DigitSpellsWord | src/inc/render.hpp:304-324 | the lit pixels of a digit spell its word in the font |
| Printing.LetterSpellsWord | src/inc/render.hpp:333-338 | the lit pixels of a letter spell its word in the font, on four by eight pixels; a code outside the font shows nothing |
| Printing.DigitWordsFold | src/inc/render.hpp:550-551 | matching the first n digit words against the ten glyphs and folding base ten gives the number without its other digits |
| Printing.NumberReads | src/inc/render.hpp:544-567 | the picture of a number display reads as its number |
| Printing.PrintedNumberReadsBack | src/inc/render.hpp:544-567 | a number drawn legibly under any wiring, rotation and position is read back from the pixels |
| Printing.EqualPicturesEqualNumbers | src/inc/render.hpp:544-567 | number displays that look the same show the same number |
| Printing.PrintedTextReadsBack | src/inc/render.hpp:578-585 | a drawn text is read back as its font words, letter by letter |
| Rpc.Serve | src/main.cpp:25-56 | each command whose positions have LEDs in the buffer takes the device to the state, and gives the reply, that the value-level machine gives |
| Turning.TurnedShowsTurned | src/inc/render.hpp:173-262 | set_rotate shows on the same LEDs the upright picture mirrored and then turned |
| Turning.DrawingCancelsTurns | src/inc/render.hpp:125-262 | a Pixmap turned by k more than the device, drawn on it, leaves on the LEDs the Pixmap's picture turned by k: equal turns of both cancel |
| Rpc.CommandKeepsLook | src/main.cpp:25-56 | one command that stays on the device, on two devices that look alike, gives the same reply and devices that look alike |
| Rpc.WiringIsInvisible | src/main.cpp:22-56 | over every run of commands that stay on the device a snake strip and a plain row-by-row grid with the same picture give the same replies and end with the same picture |
| Rpc.WiringShowsOutside | src/inc/render.hpp:42-56 | off the device they differ: the position left of the second row is the end of the first row on straight rows and the start of the third on a snake |
| Rpc.ViewFollowsLastRotation | src/main.cpp:48-50 | over every run the size and wiring stay, the view is in the last accepted rotation, and without drawing no LED changes |
| Rpc.SentNumberReadsBack | src/main.cpp:32-35 | the number sent by draw_number is read back from the pixels as its absolute value |
| Rpc.BackgroundAsAskedIff | src/main.cpp:32-35 | what draw_number draws is what was asked for, on every device of a layout, exactly if black was asked for or no unlit pixel of the number lies on the device |
| Rpc.BackgroundIsDropped | src/main.cpp:32-35 | otherwise it fails: draw_number(0, 0, 1) on another background leaves the corner of an opaque device black |
| Clients.SizesBoundPixels | src/main.cpp:39-44 | the replies to width and height bound exactly the positions on the device |
| Clients.TurnSetsSizes | src/main.cpp:39-50 | after set_rotate width and height reply the strip's own size, exchanged for 90 and 270 |
| Clients.OtherTurnIsRejected | src/main.cpp:48-50 | any other degree is rejected and every later reply and the end state are as without it |
| Clients.DrawnPixelIsReplied | src/main.cpp:25-47 | after draw_pixel that pixel replies the colour and every other one as before |
| Clients.ClearedPixelIsReplied | src/main.cpp:36-56 | after set_background and clear every pixel replies that background |
| Clients.TurnedPixelIsReplied | src/main.cpp:45-50 | after set_rotate the reply of an upright pixel is given where mirroring and turning take it |
| Clients.DrawnTextIsReplied | src/main.cpp:28-56 | after draw_text with a transparency and a background set, every pixel replies the letter's bit in the two colours inside the text's rectangle, with what was there in place of the transparent colour, and as before outside |
| Clients.DrawnNumberIsReplied | src/main.cpp:32-56 | the same for draw_number, digit by digit from the bars of each decimal digit, on black |
| Clients.AvoidedPixelStaysOverRuns | src/main.cpp:25-56 | over every run that stays on the device, does not turn and draws only elsewhere, a pixel keeps its colour |
| Forests.NoWindowAboveItself | src/inc/render.hpp:604-642 | under the tree invariant no window is its own proper ancestor |
| Forests.AddBreaksInv | src/inc/render.hpp:604-614 | adding a window under itself or a descendant closes a cycle |
| Forests.RemoveBreaksInv | src/inc/render.hpp:635-642 | removing a window that another window lists breaks the invariant |
| Forests.DestroyBreaksInv | src/inc/render.hpp:667-671 | destroying a window that another still has as its parent breaks the invariant |
| Forests.StepKeepsInvIff | src/inc/render.hpp:591-671 | construction, add, remove, move and destruction keep the tree invariant exactly when the step is safe |
| Forests.ReachedForestIsATree | src/inc/render.hpp:591-671 | over every safe run a window is listed by at most one window, which is its parent, and chains have no cycle |
| Forests.EntriesAfterStep | src/inc/render.hpp:591-671 | after any step each window lists each child exactly where a table says: the named child at its new place or nowhere, and every other child where it was |
| Forests.ParentsAfterStep | src/inc/render.hpp:591-671 | after any step the named window has the parent it was given or none, and every other window the one it had |
| Forests.AddPlacesIff | src/inc/render.hpp:604-614 | after add the window is listed at the given place exactly if it had another parent before |
| Forests.MovePlaces | src/inc/render.hpp:629-633 | move lists a window that has a parent at the given place; without a parent nothing changes |
| Windows.Window.constructor | src/inc/render.hpp:593-602 | a new window is dark, has no children, and is added to the given parent |
| Windows.Window.Add | src/inc/render.hpp:604-614 | the links of all windows after add, with the entry written before the old parent is left |
| Windows.Window.Remove | src/inc/render.hpp:635-642 | the links of all windows after remove |
| Windows.Window.Move | src/inc/render.hpp:629-633 | the links of all windows after move |
| Windows.Window.Destroy | src/inc/render.hpp:667-671 | the links of the remaining windows after destruction |
| Windows.Window.Place | src/inc/render.hpp:644-661 | x() and y() give the entry in the parent, or 0 when there is none |
| Forests.WhereIsEntry | src/inc/render.hpp:644-661 | a window is at its entry in its parent, and at the origin without one |
| Windows.Window.Led | src/inc/render.hpp:617-627 | ends, and reads a colour that some visiting order of the children reads |
| Windows.Window.DrawOnto | src/inc/render.hpp:125-143 | a window whose children do not overlap, drawn on a device outside its tree, leaves what the composed picture leaves |
| Compositing.ChildHasLongerChain | src/inc/render.hpp:618-620 | each step down the tree leaves strictly fewer windows off the parent chain |
| Compositing.EveryOrderShowsPainted | src/inc/render.hpp:617-627 | with children apart at a window and below, what can be shown is the painter's picture and nothing else |
| VisitingOrders.OrdersReadExactly | src/inc/render.hpp:618-626 | the colours that can be shown are exactly those that the loop reads under the visiting orders of the child maps |
| VisitingOrders.EveryOrderReadsPainted | src/inc/render.hpp:618-626 | with children apart at a window and below, every visiting order reads the painter's picture |
| VisitingOrders.OrdersAgreeIff | src/inc/render.hpp:618-626 | all visiting orders read the same at a point exactly if the covering children have at most one accepted colour among them and, where all can also be seen through, it is the window's own |
| VisitingOrders.OrdersAgreeIffAccepted | src/inc/render.hpp:618-626 | where no covering child depends on the order itself, all orders read the same exactly if the covering children with an accepted colour show the same one |
| VisitingOrders.ReadFront | src/inc/render.hpp:618-626 | also where children overlap, what an order reads is the first covering child in it whose colour is accepted, and the own pixel exactly when there is none |
| VisitingOrders.OrdersThrowIff | src/inc/render.hpp:617-627 | some visiting order throws exactly if a covering glyph, at whatever level below the point, is outside its font |
| Overlaps.OrderDecides | src/inc/render.hpp:617-627 | two one-pixel pictures added to one window at the same place: the one visited first is the one read |
| Overlaps.OrdersAgreeForAllContentsIff | src/inc/render.hpp:617-627 | for fixed windows, places and sizes, all visiting orders read the same at a point for every content exactly if no two children overlap there at any level that reading reaches |
| Compositing.MayThrowIff | src/inc/render.hpp:617-627 | children are asked only for points they have, so reading a window can throw exactly if a covering glyph, at whatever level below the point, is outside its font |
| Compositing.DrawnWindowShowsPainted | src/inc/render.hpp:125-143 | drawing a window leaves each pixel on the device blended with the painter's picture of the window, children included |
| Compositing.ShowsFromBelow | src/inc/render.hpp:617-627 | what a window shows does not depend on the children of windows above or beside it |
| Compositing.MoveCarriesPicture | src/inc/render.hpp:629-633 | moving a window shifts its whole picture, children included, by the change of position |
| Compositing.AddCovers | src/inc/render.hpp:604-619 | an added window or source covers exactly its own rectangle at the given place, wherever it was before, and a window nothing if its parent was the same window before |
| Compositing.CoversAfterStep | src/inc/render.hpp:604-671 | after any step every child covers exactly its own rectangle at the place the step leaves it |
| Compositing.OthersCoverTheSame | src/inc/render.hpp:604-671 | every child that a step does not name covers what it covered |
| Compositing.RemoveUncovers | src/inc/render.hpp:635-642 | a removed child covers nothing of that window |
| Compositing.StepShowsElsewhere | src/inc/render.hpp:604-642 | remove, move, and add of a source or of a window that had no parent, change what their window can show only where the child was or is, under every order and with overlaps |
| Compositing.LoneChildShows | src/inc/render.hpp:618-627 | where one child covers, an opaque window shows what it shows, and a transparent one its own LED in place of its background colour |
| Streambufs.BasicStreambuf.constructor | 3rd/inc/asio/basic_streambuf.hpp:131-141 | an empty buffer with min(maximum, 128) bytes of room |
| Streambufs.BasicStreambuf.Size | 3rd/inc/asio/basic_streambuf.hpp:158-161 | the number of held bytes, never above the maximum |
| Streambufs.BasicStreambuf.Reserve | 3rd/inc/asio/basic_streambuf.hpp:308-346 | keeps the held bytes across compaction and growth, gives the new gap and put end, throws exactly beyond the maximum, and then holds the overlaid bytes |
| Streambufs.BasicStreambuf.Prepare | 3rd/inc/asio/basic_streambuf.hpp:214-219 | throws exactly if size() + n > max_size(), leaving the overlaid bytes; otherwise at least n bytes can be filled and the held bytes are unchanged |
| Streambufs.BasicStreambuf.Commit | 3rd/inc/asio/basic_streambuf.hpp:233-238 | appends the first n bytes of the output sequence, or all of it |
| Streambufs.BasicStreambuf.Consume | 3rd/inc/asio/basic_streambuf.hpp:247-254 | removes the first n held bytes, or all of them |
| Streambufs.BasicStreambuf.Underflow | 3rd/inc/asio/basic_streambuf.hpp:263-274 | gives the first held byte or end of file, and makes every held byte readable |
| Streambufs.BasicStreambuf.Overflow | 3rd/inc/asio/basic_streambuf.hpp:283-306 | appends one byte, throws exactly if max_size() bytes are held and then changes nothing; end of file appends nothing |
| Streambufs.BasicStreambuf.Take | 3rd/inc/asio/basic_streambuf.hpp:263-274 | reading a byte through the inherited stream operation removes the first held byte |
| Streambufs.BasicStreambuf.ReadSizeHelper | 3rd/inc/asio/basic_streambuf.hpp:353-359 | at most the size asked for and never too much to prepare; up to 512 bytes as far as the maximum allows, more only into the capacity already there, and otherwise all that is asked for or allowed |
| Streambufs.BasicStreambuf.PrepareForRead | 3rd/inc/asio/basic_streambuf.hpp:353-359 | preparing the preferred size never throws |
| Streambufs.EventMovesPointers | 3rd/inc/asio/basic_streambuf.hpp:233-346 | where each operation leaves the three pointers: commit and consume stop at the next pointer, room is made by compaction and then by growth to exactly what is needed, and an append asks for 128 bytes or what the maximum allows |
| Streambufs.RunConserves | 3rd/inc/asio/basic_streambuf.hpp:62-68 | over every run, throws included, whose failed prepares are harmless, the removed bytes followed by the held ones are the appended ones in order |
| Streambufs.RunKeepsCount | 3rd/inc/asio/basic_streambuf.hpp:62-68 | over every run, throws included, the number of bytes is conserved and size() <= max_size() |
| Streambufs.FilledBytesArrive | 3rd/inc/asio/basic_streambuf.hpp:88-98 | prepare, fill, commit appends exactly the bytes filled in |
| Streambufs.FailedPrepareKeepsHeldIff | 3rd/inc/asio/basic_streambuf.hpp:321-340 | a prepare that throws keeps the held bytes, whatever they are, exactly if nothing was consumed before them or at least as much as is held |
| Streambufs.FailedPrepareGarbles | 3rd/inc/asio/basic_streambuf.hpp:321-340 | such a loss happens: three bytes in a buffer of three, one read, and a prepare of two turn the held bytes 2, 3 into 3, 3 |

## Left out

- PaintDevices.PaintDevice.Draw: sources are pictures taken before drawing, so a source that reads the device it is drawn to is not modelled; writes beyond the buffer, which have no defined effect, are excluded; integers do not overflow.
- Rpc.Serve: positions with no LED in the buffer, whose access has no defined effect, are excluded, and so is the smallest int as a number.
- Windows.Window.DrawOnto: the window is read as a whole before drawing, with a device that none of the windows owns; with overlapping children the picture is not determined (`Overlaps.OrdersAgreeForAllContentsIff`), and a glyph outside its font (`Compositing.MayThrowIff`) ends the drawing part way.
- PaintSources.DigitGroup3x5.SetDigits: the smallest int is excluded, because its negation overflows; `std::pow` is an exact integer power.
- Windows.Window.Led: the children are visited in any order, because the order of an unordered map is not specified; sources other than windows are held as pictures, and a destroyed one must have been removed before.
- Streambufs.BasicStreambuf.Consume: counts are taken to be small enough that advancing a pointer by them does not overflow.
- Text with characters outside ASCII, which indexes outside the font; the 128 font words themselves are a parameter.
- `ws2811_*` calls, DMA and GPIO settings, and the life cycle of the strip: hardware. The strip is a snake device.
- The debug renderer and all logging.
- The RPC server, its thread pool and the render thread: commands are taken one after the other.
- Lifetime of the size references in the index helpers, and copying of devices: sizes are held by value.
- Drawing into windows: a window's own LEDs are a device and are drawn on as such; flip of a window with children is not modelled.
- Put-back, allocators and capacity growth of the vector beyond its never shrinking.
- `basic_streambuf_ref` and the rest of Asio, msgpack and rest_rpc: thin wrappers or type-level code.
- Literal operators: only their argument conversion would be new.
