# MAX7219 display driver, modelled in Dafny

This project models the driver layer of the CircuitPython and MicroPython MAX7219
LED drivers. The layer sits between a one-bit frame buffer and the chip's register
writes. It covers five parts:

- **The register protocol** (`Registers`, `Driver`). Every command travels as one
  two-byte SPI transaction `[address, data]`. The power-on sequence is
  SHUTDOWN 0, DISPLAYTEST 0, SCANLIMIT 7, DECODEMODE d, SHUTDOWN 1.
  - `brightness` range-checks its value before writing INTENSITY.
  - `show` writes buffer byte `y` to digit register `1 + y`, for `y = 0 .. 7`.
  - The driver object records every transaction in `sent`.
  - `Registers.Latch` models the chip's sixteen registers: a frame stores its data
    byte in the register named by the low four bits of its address byte. This lets
    the model say what `show` and the power-on sequence leave in the chip.
- **The frame buffer of the package classes** (`FrameBuffer`, `Driver`). The
  buffer is a byte array of `(height // 8) * width` bytes. Pixel `(x, y)` is bit
  `y mod 8` of byte `(y // 8) * width + x`. `pixel` stores 1 for any truthy value
  and 0 for a falsy one or `None`; a pixel outside the picture is ignored.
- **Chained matrices** (`Matrices`):
  - `Matrix8x8.init_display` and `clear_all`.
  - `CustomMatrix`'s `y_index` table. It deals the `chain_length * 8` row positions
    round robin, in runs of `width // 8`, into `chain_length // (width // 8)`
    chunks, then lays the chunks end to end. The model proves the table is a
    permutation and, for a rectangular arrangement, gives each entry in closed
    form.
  - The coordinate remap of `CustomMatrix.pixel`: the pair it hands to the chained
    base class's `pixel`. For a rectangular arrangement, different pixels get
    different pairs.
- **BCD 7-segment digits**, in two versions:
  - `Digits` models `adafruit_max7219/bcddigits.py`. Digit position `dpos` is shown
    in column `nDigits - dpos - 1`.
  - `Legacy` models the older `adafruit_max7219.py`. There, digit `d` is column `d`,
    `setDot` has no range check, and `setIntDigits` right-aligns an integer in a
    field of `wide` digits.
  - In both, a digit's BCD code sits in rows 0 .. 3 of its column and its decimal
    point in row 7.
  - `show_str` is modelled as a plan of steps. Each step writes a digit code at the
    cursor or lights the point of the digit before it.
- **The MicroPython driver** (`MicroPython`). It models the root `max7219.py`: an
  8-byte buffer, byte `y` being row `y` and bit `x` of that byte column `x`. The
  driver drives chip select itself, and every register write appears on the bus as
  select, two bytes, deselect.

Each file is modelled on the runtime it is written for, and the two runtimes
store into a `bytearray` differently:

- The package, `adafruit_max7219/`, imports `const` from `micropython` and runs
  under CPython as well. It is modelled on CPython's `bytearray`, which raises
  ValueError for a value outside 0 .. 255.
- The older `adafruit_max7219.py` and the root `max7219.py` use `const` without
  importing it, which only MicroPython provides; the first imports the built-in
  `framebuf`, and the second's usage example imports `machine`. So they are
  MicroPython files.
  They are modelled on MicroPython's `bytearray`, which has no range check: it
  stores the low eight bits of the value (`Bits.Truncated`).

Errors the Python code raises are results, not preconditions:

- `ValueError` comes from:
  - a value outside 0 .. 255 sent by the package driver;
  - brightness outside 0 .. 15;
  - a negative column in the MicroPython `pixel`, whose shift `1 << x` then has a
    negative count.
- `IndexError` comes from:
  - `show` on a buffer shorter than eight bytes;
  - an empty chunk list;
  - `digits[wide - 1]` in `setIntDigits`;
  - a `y_index` index out of range in `CustomMatrix.pixel`;
  - a row outside -8 .. 7 in the MicroPython `pixel`.
- `ZeroDivisionError` comes from a matrix width below 8.

Consequences of the code as written, which the model keeps:

- A BCD display with fewer than eight digits (the default is one) fails in
  `init_display`, in both BCD classes. `show` asks for eight buffer bytes and the
  buffer holds `nDigits`, so an IndexError is raised.
- In the package, a BCD display with more than eight digits also fails there. Its
  decode byte `2 ** nDigits - 1` does not fit in a byte, so a ValueError is raised
  after three commands.
- The older `BCDDigits` with more than eight digits sends the decode byte as 0xFF
  and completes `init_display`.
- In the MicroPython `pixel`, a column of 8 or more is outside the stored byte.
  Setting or clearing it leaves the byte as it was, and reading it gives False.

The subclasses are modelled by composition: each display class holds a
`Driver.Max7219` as `dev`. The Python constructors call `init_display`. Here a
constructor only allocates, and `InitDisplay` is a separate method, because it can
fail.

The older `adafruit_max7219.py` has its own `MAX7219_SPI` base class and its own
`Matrix8x8.init_display`. The model uses `Driver.Max7219` and
`Matrices.Matrix8x8.InitDisplay` for them, and the table below notes them on those
members' rows. The two `write_cmd`s differ on a value outside 0 .. 255: the older
one stores it into a MicroPython `bytearray`, which keeps its low eight bits, while
the package raises ValueError. "## Left out" says why that difference never shows.

## Model

| member | source | states |
|---|---|---|
| Bits.WithBit | max7219.py:65-68 | the result has bit `k` equal to the colour and every other bit as before |
| Bits.Truncated | max7219.py:66-68 | a store into a MicroPython `bytearray` leaves a byte, and keeps a value that already is one |
| Bits.HighBitDropped | max7219.py:66 | setting a bit at 8 or above in a byte stores the byte unchanged |
| Bits.HighBitStored | max7219.py:66-68 | for a byte and a bit at 8 or above, both `b \| (1 << n)` and `b & ~(1 << n)` are stored as `b` |
| Bits.MaskUpdates | max7219.py:66-68 | `b \| (1 << k)` sets bit `k` and `b & ~(1 << k)` clears it, touching no other bit |
| Bits.NibbleOfInt | adafruit_max7219/bcddigits.py:65-68 | the four bits taken by `value & 1` with `value >>= 1` in between, read as a number, are `value mod 16`, negative values included |
| FrameBuffer.Plot | adafruit_max7219/max7219.py:136-137 | plotting keeps the buffer's size and shape |
| FrameBuffer.PlotPixel | adafruit_max7219/max7219.py:128-137 | plotting sets pixel (x, y) to the colour when it lies in the picture and leaves every other pixel unchanged; a pixel outside changes nothing |
| FrameBuffer.FilledPixel | adafruit_max7219/max7219.py:120-126 | after `fill` every pixel of the picture shows the fill colour |
| Registers.Frames | adafruit_max7219/max7219.py:148-154 | one two-byte frame per command, in command order |
| Registers.InitCommands | adafruit_max7219/bcddigits.py:45-51 | the power-on sequence is five commands, starting with shutdown and ending with start-up; all of them are bytes exactly when the decode mode is, and a write loop gets through all five or stops before the decode-mode command |
| Registers.Accepted | adafruit_max7219/bcddigits.py:45-52 | the commands a write loop sends before it raises: the longest prefix of bytes, and the first command after it is not sendable |
| Registers.RowCommands | adafruit_max7219/max7219.py:117-118 | every row write of `show` is a sendable pair of bytes |
| Registers.LatchAppend | adafruit_max7219/max7219.py:148-154 | the chip's registers after two runs of writes are those after the first run, updated by the second |
| Registers.ShowLatchesRows | adafruit_max7219/max7219.py:117-118 | after `show`, digit register `1 + y` holds buffer byte `y` for y = 0 .. 7 and every other register is unchanged |
| Registers.ShowIdempotent | adafruit_max7219/max7219.py:117-118 | a second `show` of the same buffer leaves the chip's registers as the first did |
| Registers.InitLatches | adafruit_max7219/matrices.py:40-48 | after the power-on sequence, SHUTDOWN holds 1, DISPLAYTEST 0, SCANLIMIT 7 and DECODEMODE the decode byte; every other register is unchanged |
| Driver.Max7219.constructor | adafruit_max7219/max7219.py:92-96 | the buffer is `(height // 8) * width` zero bytes and is a constant of the object, so it is never resized; nothing has been sent |
| Driver.Max7219.WriteCmd | adafruit_max7219/max7219.py:148-154 | exactly the bytes `[cmd, data]` are sent as one transaction; a value outside 0..255 raises ValueError and sends nothing |
| Driver.Max7219.WriteCommands | adafruit_max7219/matrices.py:41-48 | the commands are sent in order up to the first one that raises; the outcome is Pass exactly when all are bytes |
| Driver.Max7219.Brightness | adafruit_max7219/max7219.py:103-111 | a value outside 0..15 raises ValueError and sends nothing; otherwise exactly (INTENSITY, value) is sent; `MAX7219_SPI.brightness` at adafruit_max7219.py:47-54 is the same |
| Driver.Max7219.Show | adafruit_max7219/max7219.py:113-118 | sends (1 + y, buffer[y]) for y = 0 .. 7 in order and leaves the buffer alone; a buffer under 8 bytes sends its rows and raises IndexError; `MAX7219_SPI.show` at adafruit_max7219.py:56-61 is the same |
| Driver.Max7219.Fill | adafruit_max7219/max7219.py:120-126 | every byte becomes 0xFF for a truthy value and 0x00 otherwise |
| Driver.Max7219.Pixel | adafruit_max7219/max7219.py:128-137 | the buffer becomes the plot of (x, y) with 1 for a truthy value and 0 for a falsy one or None; `MAX7219_SPI.pixel` at adafruit_max7219.py:70-76 is the same |
| Matrices.Matrix8x8.constructor | adafruit_max7219/matrices.py:37-38 | an 8 x 8 device with an 8-byte buffer of zeros and nothing sent yet |
| Matrices.Matrix8x8.InitDisplay | adafruit_max7219/matrices.py:40-51 | sends the power-on sequence with decode mode 0, clears the buffer, then sends the eight zero rows; the older `Matrix8x8.init_display` at adafruit_max7219.py:92-103 is the same |
| Matrices.Matrix8x8.ClearAll | adafruit_max7219/matrices.py:64-68 | every pixel is off afterwards |
| Matrices.Chunks | adafruit_max7219/matrices.py:92-93 | there are `chain_length // (width // 8)` chunks |
| Matrices.DealStep | adafruit_max7219/matrices.py:96-103 | one round of the dealing loop moves `chunk` and `chunk_size` exactly as position `index + 1`'s chunk and place in its run require |
| Matrices.ChunkCounts | adafruit_max7219/matrices.py:96-103 | a chunk holds each position dealt to it exactly once and nothing else |
| Matrices.ChunkAscending | adafruit_max7219/matrices.py:96-103 | each chunk is strictly ascending and holds only positions below the count dealt |
| Matrices.WithinRound | adafruit_max7219/matrices.py:96-103 | during a round, chunk k receives the k-th run of `width // 8` consecutive positions, in order |
| Matrices.ChunkLength | adafruit_max7219/matrices.py:96-103 | after m whole rounds every chunk holds `m * (width // 8)` positions |
| Matrices.ChunkRuns | adafruit_max7219/matrices.py:96-103 | after m whole rounds chunk k is exactly its runs of those rounds, laid end to end |
| Matrices.ChunkAt | adafruit_max7219/matrices.py:96-103 | after m whole rounds, entry `r * run + j` of chunk k is position `run * chunks * r + k * run + j` |
| Matrices.YIndexIsPermutation | adafruit_max7219/matrices.py:90-108 | `y_index` is a permutation of 0 .. chain_length * 8 - 1 and so has chain_length * 8 entries |
| Matrices.YIndexAt | adafruit_max7219/matrices.py:105-108 | for a rectangular arrangement, entry `k * 8 * run + m * run + j` of `y_index` is `m * chain_length + k * run + j` |
| Matrices.Remap | adafruit_max7219/matrices.py:149-150 | the remap succeeds exactly when `ypos * y_offset` is a valid (possibly negative) index of `y_index`; the local x is `xpos mod 8` and lies in 0..7 |
| Matrices.RemapRectangular | adafruit_max7219/matrices.py:149-150 | for a rectangular arrangement, the pair handed to the base class's `pixel` for (x, y) is `(x mod 8, (y mod 8) * chain_length + (y // 8) * run + x // 8)` |
| Matrices.RemapSeparates | adafruit_max7219/matrices.py:149-150 | for a rectangular arrangement, two different pixels of the picture are never handed to the base class as the same pair |
| Matrices.CustomMatrix.constructor | adafruit_max7219/matrices.py:82-86 | `y_offset` is `width // 8` and `y_index` is the dealt table, fixed from then on |
| Matrices.CustomMatrix.CalculateYCoordinateOffsets | adafruit_max7219/matrices.py:90-108 | a width below 8 raises ZeroDivisionError; no chunk for a non-empty chain raises IndexError; otherwise the result is the dealt and concatenated table |
| Digits.CharValue | adafruit_max7219/bcddigits.py:111-115 | the code is a nibble, and it is a decimal digit exactly for the characters '0' .. '9' |
| Digits.WriteRowsPixel | adafruit_max7219/bcddigits.py:64-68 | after i rounds of `set_digit`'s loop, rows below i of the column hold bits of the value and every other pixel is unchanged |
| Digits.RowsReadback | adafruit_max7219/bcddigits.py:64-68 | rows 0 .. 3 of the column read back as `value mod 16`, and the decimal point is untouched |
| Digits.DigitReadback | adafruit_max7219/bcddigits.py:57-68 | position dpos, shown in column `nDigits - dpos - 1`, reads back as `value mod 16` with its point unchanged; a position off the display changes nothing |
| Digits.DigitsWrittenPixel | adafruit_max7219/bcddigits.py:70-80 | `set_digits` puts bit y of `values[k]` in row y < 4 of position `start + k`'s column and changes no other pixel |
| Digits.DigitsReadback | adafruit_max7219/bcddigits.py:70-80 | after `set_digits`, position `start + k` reads back as `values[k] mod 16` |
| Digits.DotPixel | adafruit_max7219/bcddigits.py:82-91 | `show_dot` changes only row 7 of the digit's column, and nothing for a position outside 0 .. nDigits - 1 |
| Digits.ClearedPixel | adafruit_max7219/bcddigits.py:93-99 | after `clear_all` rows 0 .. 6 are set and row 7 is clear in every column |
| Digits.DecodeModeFits | adafruit_max7219/bcddigits.py:45-52 | the decode byte `2 ** nDigits - 1` is a byte exactly when nDigits is at most 8 |
| Digits.PlanAt | adafruit_max7219/bcddigits.py:101-120 | character i of the string is step i; a '.' lights the point at cursor - 1, anything else writes its code at the cursor; the cursor is start plus the number of earlier non-'.' characters |
| Digits.DigitStringIsSetDigits | adafruit_max7219/bcddigits.py:101-120 | a string without '.' is shown exactly as `set_digits` of its character codes |
| Digits.LeadingDotIgnored | adafruit_max7219/bcddigits.py:108-118 | a '.' leading a string shown from position 0 changes nothing, because `show_dot` drops position -1 |
| Digits.BcdDigits.constructor | adafruit_max7219/bcddigits.py:39-41 | an `nDigits` by 8 display: one zero byte per digit, nothing sent |
| Digits.BcdDigits.InitDisplay | adafruit_max7219/bcddigits.py:43-55 | sends the power-on sequence with decode byte `2 ** nDigits - 1` as far as it is sendable, clears, then shows; ValueError above 8 digits, IndexError below 8, success at 8 |
| Digits.BcdDigits.SetDigit | adafruit_max7219/bcddigits.py:57-68 | the buffer becomes the four row writes of the value's low bits into column `nDigits - dpos - 1` |
| Digits.BcdDigits.SetDigits | adafruit_max7219/bcddigits.py:70-80 | the buffer becomes `set_digit(start + k, values[k])` applied for k in order |
| Digits.BcdDigits.ShowDot | adafruit_max7219/bcddigits.py:82-91 | the point of a position on the display takes the truthiness of the value; other positions change nothing |
| Digits.BcdDigits.ClearAll | adafruit_max7219/bcddigits.py:93-99 | every byte becomes 0x7F: segments set, decimal point clear |
| Digits.BcdDigits.ShowStr | adafruit_max7219/bcddigits.py:101-120 | the buffer becomes the result of the string's plan of steps from cursor `start` |
| Digits.BcdDigits.ShowHelp | adafruit_max7219/bcddigits.py:122-129 | the same as `set_digits(start, [12, 11, 13, 14])` |
| Legacy.IntFieldSlots | adafruit_max7219.py:168-179 | slot j is blank (15) exactly when it lies before the last slot and the value has fewer than `wide - j` digits; every other slot holds a decimal digit |
| Legacy.IntFieldOfZero | adafruit_max7219.py:169-174 | for value 0 the field is all 15 except a 0 in the last slot |
| Legacy.IntFieldValue | adafruit_max7219.py:168-179 | read with blanks as zeros, the field spells `abs(value) mod 10 ** wide`: digits that do not fit are dropped |
| Legacy.IntDigits | adafruit_max7219.py:168-181 | `wide < 1` raises IndexError at `digits[wide - 1]`; otherwise the list is the field of `abs(value)` |
| Legacy.DigitsWrittenPixel | adafruit_max7219.py:151-160 | `setDigits` puts bit y of `digits[k]` in row y < 4 of column `start + k`, with no reversal, and changes no other pixel |
| Legacy.DigitsReadback | adafruit_max7219.py:151-160 | after `setDigits`, column `start + k` reads back as `digits[k] mod 16` |
| Legacy.BcdDigits.constructor | adafruit_max7219.py:122-124 | an `nDigits` by 8 display: one zero byte per digit, nothing sent |
| Legacy.BcdDigits.InitDisplay | adafruit_max7219.py:126-138 | the power-on sequence with the decode byte as stored (its low eight bits), then `clearAll` and `show`; IndexError below 8 digits, success otherwise, with the buffer cleared |
| Legacy.DecodeByteStored | adafruit_max7219.py:132 | the stored decode byte is `2 ** nDigits - 1` up to 8 digits and 0xFF beyond |
| Legacy.BcdDigits.SetDigit | adafruit_max7219.py:140-149 | the buffer becomes the four row writes of the value's low bits into column `digit` |
| Legacy.BcdDigits.SetDigits | adafruit_max7219.py:151-160 | the buffer becomes `setDigit(start + k, digits[k])` applied for k in order |
| Legacy.BcdDigits.SetIntDigits | adafruit_max7219.py:162-181 | `wide < 1` raises IndexError and leaves the buffer alone; otherwise the field of `abs(value)` is shown from `start` |
| Legacy.BcdDigits.SetDot | adafruit_max7219.py:183-189 | the plot of row 7 of column `whichDigit` with the value's truthiness; a column off the display changes nothing |
| Legacy.BcdDigits.ClearAll | adafruit_max7219.py:191-197 | every byte becomes 0x7F: segments set, decimal point clear |
| MicroPython.Peek | max7219.py:62-64 | a read succeeds exactly for a row in -8 .. 7 and a column of 0 or more; a bad row gives IndexError and otherwise a negative column gives ValueError; a pixel that reads as on has a column below 8 |
| MicroPython.Poke | max7219.py:65-68 | a write that succeeds leaves an 8-byte buffer; a column past the byte leaves the buffer as it was |
| MicroPython.PokeBeyondByte | max7219.py:65-68 | for a column of 8 or more, the buffer a write leaves is the one the `bytearray` stores for `buffer[y] \| (1 << x)` or `buffer[y] & ~(1 << x)`: the row keeps its byte |
| MicroPython.PokeThenPeek | max7219.py:62-68 | reading a pixel right after writing it gives the colour written for a column in the byte, and off for a column past it |
| MicroPython.PokeFrame | max7219.py:65-68 | writing a pixel leaves every other pixel as it was |
| MicroPython.PokeRefused | max7219.py:62-68 | a write fails exactly for a row outside -8 .. 7 or a negative column: exactly when a read fails, and with the same error |
| MicroPython.TransactionsAt | max7219.py:37-40 | the bus shows three events per command: select, the two bytes `[command, data]`, deselect |
| MicroPython.ReceivedTransactions | max7219.py:37-50 | the chip receives exactly the commands' two-byte frames, in order |
| MicroPython.Matrix8x8.constructor | max7219.py:18-35 | chip select high, a zero 8-byte buffer, and the bus holding exactly the power-on sequence |
| MicroPython.Matrix8x8.Register | max7219.py:37-40 | one select, `[command, data]`, deselect on the bus; chip select high afterwards |
| MicroPython.Matrix8x8.RegisterAll | max7219.py:42-50 | one transaction per command, in order; chip select high after any command |
| MicroPython.Matrix8x8.Init | max7219.py:42-50 | the bus gains exactly the transactions of (12,0), (15,0), (11,7), (9,0), (12,1) |
| MicroPython.Matrix8x8.Brightness | max7219.py:52-55 | a value outside 0..15 raises ValueError and touches nothing; otherwise exactly (INTENSITY, value) |
| MicroPython.Matrix8x8.Fill | max7219.py:57-60 | all eight bytes become 0xFF for a truthy colour and 0x00 otherwise |
| MicroPython.Matrix8x8.GetPixel | max7219.py:62-64 | the result is the pixel read, with the read's error cases |
| MicroPython.Matrix8x8.SetPixel | max7219.py:62-68 | the buffer becomes the pixel write when it succeeds and is unchanged when it raises; a column past the byte changes nothing and raises nothing |
| MicroPython.Matrix8x8.UpdateRow | max7219.py:65-68 | `\|=` or `&=` of the bit's mask changes exactly bit x of row i |
| MicroPython.Matrix8x8.Show | max7219.py:70-72 | the bus gains one transaction (1 + y, buffer[y]) per row, rows in order |

## Left out

- The SPI device, the chip-select pin objects, the baud rate, polarity and phase are
  hardware I/O. Each driver records what it writes: `sent` in the package driver, the
  bus events in the MicroPython one.
- `adafruit_framebuf` and MicroPython's `framebuf` are not part of this model.
  - The package classes are modelled with that library's one-bit vertical layout, as
    `FrameBuffer1` is documented to use: bit `y mod 8` of byte
    `(y // 8) * width + x`, with pixels outside the picture ignored.
  - `text`, `scroll`, font rendering and the `rotation` that `CustomMatrix` sets on
    the frame buffer are left out.
- Driver.Max7219.constructor: requires `height` to be a multiple of 8. The vertical
  layout puts any rows past the last whole byte outside the buffer. `Matrix8x8` and
  `BCDDigits` pass 8. `CustomMatrix` passes the caller's `height`, but to its own
  base class `ChainableMAX7219`, which is not part of this model (below).
- `ChainableMAX7219`, the base class of `CustomMatrix`, is not part of this model.
  Its chain length is a constructor parameter here.
  - `Matrices.Remap` models the coordinate computation of `CustomMatrix.pixel`. The
    pixel write that follows goes to that base class.
  - `CustomMatrix.init_display` and `clear_all` are its own methods, but the
    `write_cmd`, `fill` and `show` they call belong to that base class. They are
    left out with it. `text` draws through the frame buffer and is left out too.
  - Matrices.RemapRectangular: states the pair handed to the base class. Where that
    pair lands in the buffer, after the frame buffer's `rotation` (1 by default), is
    up to the base class and the frame buffer, and is not modelled.
- Matrices.CustomMatrix.constructor: requires an arrangement that
  `_calculate_y_coordinate_offsets` accepts. The Python constructor raises otherwise,
  and `CalculateYCoordinateOffsets` models those errors.
- `MAX7219.init_display` of the base class does nothing and has no counterpart.
- The debug `print` calls in `adafruit_max7219.py` are left out.
- Driver.Max7219.WriteCmd: also stands for the older file's `write_cmd`
  (adafruit_max7219.py:81-85), which keeps the low eight bits of a value outside
  0 .. 255 where this member gives ValueError. `brightness` checks 0 .. 15 and
  `show` sends buffer bytes. The only non-byte a caller in that file passes is the
  decode value `2 ** nDigits - 1` of `BCDDigits.init_display` (adafruit_max7219.py:132)
  for more than eight digits. `Legacy.BcdDigits.InitDisplay` applies the truncation
  that `write_cmd`'s `bytearray` (adafruit_max7219.py:85) performs before sending
  (`Legacy.DecodeByteStored`), so the bytes sent are the same.
- `Matrix8x8.clearAll` of `adafruit_max7219.py` is left out: it is declared without
  `self` and cannot be called on an instance.
- Legacy.IntDigits: takes an integer. The `int()` truncation of a float argument is
  floating point and is not modelled.
- Digits.BcdDigits.constructor: `nDigits` is a natural number. A negative count
  already fails when the Python base class sizes its buffer.
- MicroPython.Matrix8x8.Register: requires both arguments to be bytes. Every caller
  in the file passes bytes, so MicroPython's truncating store never comes into play
  there.
- MicroPython.Matrix8x8.SetPixel: takes the colour's truthiness as a boolean.
  `GetPixel` is the `color is None` case of the same Python method.
- The `examples/` demos, `conf.py` and `setup.py` are hardware demos and packaging
  configuration.
