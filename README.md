# ZX Spectrum 48K peripherals, modelled in Dafny

This project models the peripheral layer of a small ZX Spectrum 48K emulator written
in C. The emulator wraps an external Z80 core. Around that core it keeps:

- a 64 KB memory image, with 16 KB of ROM that the CPU cannot overwrite and 48 KB of RAM;
- an 8 x 5 keyboard matrix fed by host (SDL) key events;
- the ULA's I/O port: keyboard reads, and beeper or border writes;
- the attribute flash counter;
- the rasterizer, which turns the interleaved display memory at 0x4000-0x5AFF into a
  256 x 192 frame of ARGB colours.

Two program variants are modelled:

- `main.c` has keyboard, beeper and flash. It is modelled as `Spectrum48.Machine`.
- `old_main.c` has no keyboard input, no sound and no flash, but latches a border
  colour. It is modelled as `SpectrumBorder.Machine`.

Each class holds the C file's globals as fields (`memory` and `keyMatrix` as arrays).
The state-changing hooks and main-loop steps are methods with `modifies` clauses. The
memory hooks are defined once in `MemoryImage`, over the machine's array. Every method
is proved against pure specification functions:

- `MemoryImage`: memory writes and the ROM loader.
- `Keyboard`: the scancode table and key updates.
- `Ports`: the port read and the latched port bits.
- `Flash`: the flash counter.
- `Video`: the screen address maps, attribute decoding, the palette, the per-pixel
  colour and the whole frame.

Both C files have the same `read_byte`, `write_byte` and `load_rom`
(old_main.c:41-47 and old_main.c:59-69). They are modelled once, in `MemoryImage`,
over the memory array each machine owns.

What is proved, beyond each operation meeting its specification:

- ROM bytes can never be written.
- An accepted ROM image determines the whole memory.
- Key presses change exactly one bit, and every row stays within 0x00-0x1F.
- The key table reaches all 40 keys of the matrix.
- A port read is the wired-AND of the selected half-rows: a key reads as pressed
  exactly when it is down in some selected half-row.
- The flash phase changes exactly every 16th frame.
- The bitmap address map is a bijection between (scanline, 8-pixel column) pairs and
  0x4000-0x57FF.
- A frame depends on the 6912 bytes of video memory alone.
- Zeroed video memory shows a black screen.
- In `old_main.c`, the border colour never reaches the finished frame. The border fill
  covers exactly the 49152 pixels that the rasterizer then overwrites.

Facts about the code that the model makes explicit:

- Attribute 0x47 has bit 6 set, so it is bright white ink (0xFFFFFFFF) on black paper
  (`Video.WhiteOnBlack`).
- `load_rom` accepts any file of at least 16 KB, because `fread` reads at most 16 KB
  and only a shorter read fails (`MemoryImage.RomAccepted`).
- The scancode table maps 42 host keys. Right Shift and both Ctrl keys reach row 7,
  bit 1 (Symbol Shift); Caps Shift (row 0, bit 0) is reached by left Shift alone
  (`Keyboard.KeyPositionInjective`).

## Model

| member | source | states |
|---|---|---|
| Bits.MaskIsShift | main.c:55-57 | the single-bit byte used for a key's bit is C's `1 << bit` |
| MemoryImage.ReadByte | main.c:109 | `read_byte`: the byte at any 16-bit address, ROM or RAM; the specification that `ReadAfterWrite` and `WriteByte` state their reads in (old_main.c:41-43 is the same code) |
| MemoryImage.Written | main.c:110-112 | after a write every RAM address other than the target, and all of ROM, keeps its byte; the target holds the value only when it is at or above 0x4000 |
| MemoryImage.ReadAfterWrite | main.c:109-112 | reading back a written address gives the value in RAM and the old byte in ROM; other addresses read as before |
| MemoryImage.WriteByte | main.c:110-112 | the new memory is `Written(old memory, addr, val)`; a read of the address returns val in RAM and the old byte in ROM (old_main.c:44-47 is the same code) |
| MemoryImage.ClearRam | main.c:134 | every byte from 0x4000 to 0xFFFF becomes 0 and every ROM byte is unchanged (also old_main.c:68) |
| MemoryImage.BytesRead | main.c:132 | `fread` stores min(file length, 16384) bytes: never more than either |
| MemoryImage.AfterLoad | main.c:130-135 | the memory after `load_rom`: unchanged if the file does not open; a short file's bytes stored and nothing else; otherwise the first 16 KB of the file then zeroed RAM |
| MemoryImage.LoadedImage | main.c:130-135 | after an accepted load the ROM equals the file's first 16384 bytes, all RAM is 0, and the result does not depend on the earlier memory |
| MemoryImage.RejectedLoad | main.c:131-132 | a failed open changes nothing; a short file has length < 16384 and leaves every byte past its own length untouched |
| MemoryImage.LoadRom | main.c:130-135 | succeeds exactly when the file opens and holds at least 16 KB, and leaves memory equal to `AfterLoad` (old_main.c:59-69 is the same loader) |
| Keyboard.KeyPosition | main.c:60-107 | the scancode table: every mapped key lands in rows 0-7 and bits 0-4, and exactly the unlisted scancodes are ignored |
| Keyboard.KeyAt | main.c:62-104 | every one of the 40 matrix positions is reached by some host key |
| Keyboard.KeyPositionDetermines | main.c:62-104 | a mapped key is the one `KeyAt` names for its position, or a Ctrl key at row 7, bit 1 |
| Keyboard.KeyPositionInjective | main.c:62-65 | two host keys reach the same position only if they are equal or both among Right Shift, Left Ctrl and Right Ctrl |
| Keyboard.UpdateRow | main.c:53-58 | pressing clears the key's bit and releasing sets it; the other seven bits of the row keep their values |
| Keyboard.PressReleaseRoundTrip | main.c:53-58 | pressing a released key and releasing it restores the row byte |
| Keyboard.ReleasePressRoundTrip | main.c:53-58 | releasing a pressed key and pressing it restores the row byte |
| Keyboard.ApplyKey | main.c:60-107 | an unmapped key leaves the matrix unchanged; a mapped key changes only its own bit of its own row; rows in 0x00-0x1F stay there |
| Keyboard.ApplyEvent | main.c:176-180 | one host event applied to the matrix keeps its eight rows |
| Keyboard.ApplyEvents | main.c:176-180 | a queue of host events, applied in order, keeps the matrix's eight rows |
| Keyboard.ApplyEventsInRange | main.c:48-107 | from a matrix in range, no sequence of events sets bits 5-7 of any row |
| Keyboard.KeyTapRestores | main.c:176-180 | a key-down followed by the matching key-up on a released key leaves the matrix as it was |
| Ports.SelectedAnd | main.c:115-116 | the accumulator of the port loop: 0xFF ANDed with every half-row whose bit is set in the selector; the specification that `SelectedAndBit`, `KeyVisible` and `SelectedAndAllOnes` characterise |
| Ports.SelectedAndBit | main.c:115-116 | a bit of the port loop's accumulator is 1 exactly when it is 1 in every selected row |
| Ports.KeyboardPortIn | main.c:113-118 | bits 5-7 of a port read are always 1, and an odd port reads 0xFF |
| Ports.KeyVisible | main.c:113-118 | on an even port, key bit k reads 0 exactly when some half-row selected by a 0 bit of B has bit k clear |
| Ports.NoRowSelected | main.c:115-117 | with B = 0xFF the port reads 0xFF whatever the matrix holds |
| Ports.SelectedAndAllOnes | main.c:116 | rows that are all ones leave the accumulator at 0xFF |
| Ports.ReleasedReadsAllOnes | main.c:113-118 | with every key released every port reads 0xFF, for every B |
| Ports.BorderColour | old_main.c:52-56 | the border colour is 0-7 and its bits 0-2 are bits 1-3 of the value written |
| Flash.FlashStep | main.c:173 | one step keeps the counter in 0-15 and flips the phase exactly when the counter reaches 16 |
| Flash.FlashAfter | main.c:173 | the flash counter and phase after n frames, n steps from the initial (0, false) of main.c:23-24; its counter is always in 0-15; the machine invariant ties the fields to it |
| Flash.FlashAfterClosedForm | main.c:173 | after n frames from the initial (0, false), the counter is n mod 16 and the phase is on in odd blocks of 16 frames |
| Flash.FlashTogglesEvery16th | main.c:173 | the counter always stays in 0-15, and the phase changes exactly when the frame number is a multiple of 16 |
| Video.LineOffset | main.c:186 | `y0`, the offset of scanline y in the bitmap; the specification that `LineOffsetBits` matches to the masks and `BitmapAddrDecodes`/`BitmapAddrOnto` show to be a bijection |
| Video.LineOffsetBits | main.c:186 | the masks and shifts computing `y0` equal the three-field offset: third * 2048 + pixel line * 256 + character row * 32 |
| Video.BitmapAddr | main.c:188 | every on-screen pixel's bitmap byte lies in 0x4000-0x57FF |
| Video.BitmapAddrDecodes | main.c:186-188 | the scanline and the 8-pixel column are recovered from a bitmap address |
| Video.BitmapAddrInjective | main.c:186-188 | two pixels share a bitmap byte exactly when they are on the same scanline and in the same 8-pixel column |
| Video.BitmapAddrOnto | main.c:185-188 | every byte of 0x4000-0x57FF is the bitmap byte of some on-screen pixel |
| Video.AttrAddr | main.c:189 | every on-screen pixel's attribute byte lies in 0x5800-0x5AFF |
| Video.AttrAddrCell | main.c:189 | two pixels share an attribute byte exactly when they are in the same 8 x 8 cell |
| Video.PixelBit | main.c:188 | the bit of the bitmap byte tested for column x is in 0-7 |
| Video.PixelMaskBits | main.c:188 | C's `0x80 >> (x & 7)` is the byte with only bit 7 - x mod 8 set |
| Video.DecodeAttribute | main.c:190-191 | the decoded ink and paper are 0-7, and re-encoding gives back the attribute byte |
| Video.DecodeEncode | main.c:190-191 | decoding an encoded attribute gives back its four fields |
| Video.PaletteFacts | main.c:164-169 | the palette has 16 opaque entries; both blacks are 0xFF000000; every other colour differs from its bright version |
| Video.ColourIndex | main.c:190-193 | the palette index is < 16; bit 3 is the bright flag; bits 0-2 are the ink for a set bit and the paper for a clear bit, swapped when the cell flashes in the inverted phase |
| Video.FlashSwapsInkAndPaper | main.c:192 | in the inverted phase a flashing cell shows each pixel in the colour of the opposite bit; a non-flashing cell is unaffected |
| Video.PlainColourIndex | old_main.c:139-142 | the flash-less index is < 16 and equals main.c's index in the non-inverted phase |
| Video.PixelAttribute | main.c:189 | the attribute decoded for a pixel has ink and paper in 0-7 |
| Video.PixelColour | main.c:188-194 | the colour of pixel (x, y): palette entry `ColourIndex` of its attribute and bitmap bit; the specification `DecodePixel` and `Screen` are stated in |
| Video.PlainPixelColour | old_main.c:133-144 | the flash-less colour of pixel (x, y); `PlainScreenIsUnflashed` shows it equals `PixelColour` in the non-inverted phase |
| Video.PixelReadsVideoRamOnly | main.c:188-189 | a pixel's colour inputs depend only on bytes in 0x4000-0x5AFF |
| Video.RowMajor | main.c:194 | pixel (x, y) is stored at index y * 256 + x < 49152, and that index maps back to (x, y) |
| Video.Screen | main.c:185-196 | main.c's frame has 49152 entries |
| Video.ScreenByPixels | main.c:194 | a buffer is main.c's frame exactly when each pixel (x, y) holds its colour at index y * 256 + x |
| Video.ScreenRowsGrow | main.c:185-187 | a buffer matching the frame on rows 0..y-1 and holding row y's colours matches it on rows 0..y |
| Video.PlainScreen | old_main.c:126-146 | old_main.c's frame has 49152 entries |
| Video.PlainScreenRowsGrow | old_main.c:126-131 | the same row-by-row growth for old_main.c's frame |
| Video.PlainScreenIsUnflashed | old_main.c:139-144 | old_main.c's frame equals main.c's frame in the non-inverted flash phase |
| Video.ScreenReadsVideoRamOnly | main.c:185-196 | two memories that agree on 0x4000-0x5AFF give the same frame in both variants |
| Video.BlankPixelIsBlack | main.c:188-194 | a pixel whose bitmap and attribute bytes are zero is palette entry 0 |
| Video.BlankVideoRamIsBlack | main.c:185-196 | zeroed video memory gives a frame that is 0xFF000000 everywhere |
| Video.WhiteOnBlack | main.c:190-194 | 0x07 shows 0xFFD7D7D7 ink on black; 0x47 is bright, showing 0xFFFFFFFF ink on black |
| Spectrum48.Machine.constructor | main.c:20-30 | memory and matrix start zero-filled; flash, beeper and phase start off/0 |
| Spectrum48.Machine.InitKeyboard | main.c:48-51 | every row becomes 0x1F, so the matrix is in range |
| Spectrum48.Machine.Start | main.c:138-139 | the ROM load's outcome and memory are those of `LoadRom`; the keyboard is reset only after a successful load |
| Spectrum48.Machine.UpdateKey | main.c:53-58 | only row `row` changes, to `UpdateRow` of its old value; rows stay in range for bits 0-4 |
| Spectrum48.Machine.HandleSdlKey | main.c:60-107 | the matrix becomes `ApplyKey` of the old matrix |
| Spectrum48.Machine.PortIn | main.c:113-118 | the value returned is `KeyboardPortIn` of the current matrix, the port and B |
| Spectrum48.Machine.ScanRows | main.c:115-116 | the loop's accumulator is the AND of the rows selected by `~B` |
| Spectrum48.Machine.PortOut | main.c:119-128 | an odd port changes nothing; an even port sets the beeper to bit 4, resets the phase exactly when the level changes, and keeps the latch equal to the level |
| Spectrum48.Machine.FlashTick | main.c:173 | the counter and phase take one `FlashStep`, staying equal to `FlashAfter` of the frame count |
| Spectrum48.Machine.DecodePixel | main.c:188-194 | the colour computed is `PixelColour` of the current memory and flash phase |
| Spectrum48.Machine.RenderLine | main.c:186-195 | every pixel of row y gets its colour; rows above keep theirs |
| Spectrum48.Machine.RenderFrame | main.c:185-196 | the frame buffer becomes exactly `Screen(memory, flash phase)` |
| Spectrum48.Machine.RunFrame | main.c:172-196 | one main-loop iteration ticks the flash, applies the event queue to the matrix, reports quit exactly when a quit event arrived, and draws the frame |
| Spectrum48.CellColour | main.c:190-193 | the C colour arithmetic gives `ColourIndex` of the decoded attribute |
| SpectrumBorder.PortIn | old_main.c:48-51 | every port read returns what main.c's port returns with every key released, 0xFF |
| SpectrumBorder.Machine.constructor | old_main.c:16-18 | memory starts zero-filled and the border colour is 0 |
| SpectrumBorder.Machine.PortOut | old_main.c:52-56 | an even port sets the border colour to bits 1-3 of the value; an odd port leaves it; it stays in 0-7 |
| SpectrumBorder.Machine.FillBorder | old_main.c:121-123 | every one of the 49152 entries becomes the border's palette colour |
| SpectrumBorder.Machine.DecodePixel | old_main.c:133-144 | the colour computed is `PlainPixelColour` of the current memory |
| SpectrumBorder.Machine.RenderLine | old_main.c:127-145 | every pixel of row y gets its colour; rows above keep theirs |
| SpectrumBorder.Machine.RenderFrame | old_main.c:126-146 | the frame buffer becomes exactly `PlainScreen(memory)`, whatever it held before |
| SpectrumBorder.Machine.RunFrame | old_main.c:106-146 | quit is reported exactly when a quit event arrived, and the frame is `PlainScreen(memory)`, independent of the border colour |
| SpectrumBorder.PlainCellColour | old_main.c:138-142 | the C colour arithmetic gives `PlainColourIndex` of the decoded attribute |

## Left out

- The audio callback (main.c:33-45) is not modelled. It runs on the host's audio thread, does floating-point arithmetic on `phase`, and races with `port_out` over `speaker_on` and `phase`. `phase` is a `real` field, and only its reset to 0 in `port_out` is modelled. `speaker_freq` is not modelled.
- SDL plumbing is not modelled: window, renderer, texture, presenting the frame, and frame pacing with `SDL_GetTicks`/`SDL_Delay`. The host event queue is a `seq<HostEvent>` parameter.
- SDL scancodes are a datatype of the names the table lists plus `KeyOther`. SDL's numeric codes are not modelled.
- The Z80 core is external code and is not part of this model: `z80_init`, `z80_step`, `z80_gen_int`, the cycle count and the frame's worth of CPU execution. `RunFrame` is one main-loop iteration without that CPU step, so memory does not change during it. The B register reaches `port_in` as a parameter.
- `load_rom`'s file is a parameter, `Option<seq<bv8>>`; `None` means `fopen` failed. `exit(1)` becomes a `false` result with the memory left as the failed load left it. `perror`, the error messages and `fclose` are not modelled.
- The rasterizers' masks and shifts on `int` coordinates are written as division and remainder by powers of two. `Video.LineOffsetBits` and `Video.PixelMaskBits` prove the two non-obvious expressions equal on bit-vectors. The step from those `bv16` lemmas to the `int` functions `Video.LineOffset` and `Video.PixelBit` (that the conversion preserves values below 256) is argued, not proved.
- The rasterizers' single nested loop is split into helper methods, one per scanline and one per pixel, plus the colour arithmetic. Each pixel's reads and computation are those of the C loop body.
- Spectrum48.Machine.UpdateKey requires `row < 8` and `bit < 8`. The C function does not check them. Its only caller passes table values, and anything larger would index past `key_matrix` or shift past the byte.
- Spectrum48.Machine.RenderLine states only that the rows above y keep their colours, not that the rows below do; rendering proceeds top-down, so the frame proof needs nothing more.
- SpectrumBorder.Machine.RenderLine is stated the same way, for the same reason.
