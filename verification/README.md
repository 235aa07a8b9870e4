# Thermal label printer core: status frames and halftoning

This project is a Dafny model of two pure parts of a web driver for thermal label
printers. The first is the decoder that turns the printer's 15-byte status frame
into a `PrinterStatus` record (`parsePrinterStatus`). The second is the image
pipeline that prepares a raster for printing. That pipeline is a greyscale
reduction (`convertToGreyscaleByLuminance`) followed by Atkinson error diffusion
(`ditherWithAtkinson`).

Modules:

- `TypedArray` (`typed_array.dfy`) defines the byte arrays both parts work on. A
  buffer is a `seq<byte>`. `Load` is the source's `data[i] ?? 0`, which reads 0
  outside `[0, length)`. `Store` is a store into a `Uint8ClampedArray`: it clamps
  the value to 0..255 and drops an out-of-range index.
- `Options` (`options.dfy`) holds `Option`, which stands for the source's
  `T | null`.
- `PrinterStatusFrame` (`printer_status.dfy`) models `src/core/PrinterStatus.ts`.
  It has the three coded enums, the 15-field record and the decoder. It also has
  an encoder, which exists only to state the frame layout as a round trip.
- `Greyscale` (`greyscale.dfy`) and `Atkinson` (`atkinson.dfy`) model
  `src/utils/image.ts`.
  - Both in-place passes are methods. Each takes the buffer's contents and
    returns the contents after the pass.
  - Each loop keeps the source's `<=` bound.
  - The extra step at an index at or past the length is proved to change nothing.

Arithmetic conventions:

- `Math.round(x)` is `floor(x + 1/2)`.
- The luminance is the exact rational `(21R + 71G + 7B + 50) / 100`.
- The diffusion error is `(v - out + 4) / 8`.
- Both divisors are positive, so Dafny's `/` is floor division here.

Behaviour of the program worth knowing, all stated by the model:

- The greyscale pass is not idempotent. The weights add up to 0.99, so a grey
  level above 50 drops on a second pass (`GreyFixedPoints`).
- Both loops run while the index is `<=` the length, so they take one step at
  or past the end. That step is proved to change nothing (`GreyStepPastEnd`,
  `DitherStepPastEnd`).
- Three bytes of the status frame are coded: printer status, label colour and
  paper type. The other twelve are plain numbers.
- The dithering flag `drawColour` is a boolean. The source's reassignment of a
  false flag to false changes nothing, so the model uses the flag as given.
- The down-left diffusion target has no column check. For column 0 it lands on
  the last pixel of the current row, and the model keeps that.
- Any integer width is accepted, as in the source. With a width of 0 or 1 some
  diffusion targets land on or before the visited sample, so a visited sample
  can end grey. The black-or-white results are therefore stated for widths of
  two pixels or more, as conditions inside the contracts.

## Model

| member | source | states |
|---|---|---|
| TypedArray.Clamp | src/utils/image.ts:35-45 | The value a clamped store keeps: an integer in 0..255 unchanged, anything below 0 as 0 and anything above 255 as 255 |
| TypedArray.Load | src/utils/image.ts:8 | A read gives the sample when the index is inside the array and 0 otherwise, as the source's fallback for an out-of-range read does |
| TypedArray.Store | src/utils/image.ts:37-42 | A store into the clamped array keeps the length, changes only the addressed in-range sample, stores the value clamped to 0..255, and drops an out-of-range index |
| TypedArray.ClampCompose | src/utils/image.ts:37-42 | Two clamped additions of the same sign equal one clamped addition of their sum |
| PrinterStatusFrame.PrinterStatusFromByte | src/core/PrinterStatus.ts:44-57 | Status is READY iff the byte is 0, LID_OPEN iff 1, NO_PAPER iff 4, BUSY iff 32, and UNKNOWN iff the byte is none of these |
| PrinterStatusFrame.LabelColorFromByte | src/core/PrinterStatus.ts:59-74 | Colour is TRANSPARENT iff 2, WHITE iff 3, PINK iff 4, BLUE iff 5, YELLOW iff 6, and UNKNOWN iff the byte is outside 2..6 |
| PrinterStatusFrame.PaperTypeFromByte | src/core/PrinterStatus.ts:76-87 | Paper is CONTINUOUS iff 0, GAPPED iff 1, BLACK_MARK iff 2, and UNKNOWN iff the byte is above 2 |
| PrinterStatusFrame.PrinterStatusCodeRoundTrip | src/core/PrinterStatus.ts:44-57 | Every known status has exactly one byte that decodes to it (its code); UNKNOWN has no code byte, and every unlisted byte decodes to it |
| PrinterStatusFrame.LabelColorCodeRoundTrip | src/core/PrinterStatus.ts:59-74 | Every known label colour has exactly one byte that decodes to it (its code); UNKNOWN has no code byte, and every unlisted byte decodes to it |
| PrinterStatusFrame.PaperTypeCodeRoundTrip | src/core/PrinterStatus.ts:76-87 | Every known paper type has exactly one byte that decodes to it (its code); UNKNOWN has no code byte, and every unlisted byte decodes to it |
| PrinterStatusFrame.ParsePrinterStatus | src/core/PrinterStatus.ts:89-111 | The result is null exactly when the buffer has fewer than 15 bytes, so every longer buffer decodes to a record |
| PrinterStatusFrame.EncodeStatus | src/core/PrinterStatus.ts:94-110 | A record has a frame exactly when its three coded fields are known, and the frame is 15 bytes long; the layout is stated by the two round-trip lemmas below |
| PrinterStatusFrame.ParseEncode | src/core/PrinterStatus.ts:94-110 | Decoding the frame of any record with known coded fields gives that record back |
| PrinterStatusFrame.EncodeParse | src/core/PrinterStatus.ts:94-110 | Re-encoding a decoded buffer whose coded bytes are known gives back exactly its first 15 bytes |
| PrinterStatusFrame.ParseFieldOffsets | src/core/PrinterStatus.ts:94-110 | For 15 bytes or more, each field is the byte at its fixed offset (coded fields through their tables), so no `?? 0` fallback is taken |
| PrinterStatusFrame.ParseReadsOnlyFrame | src/core/PrinterStatus.ts:94-110 | Two buffers that agree on their first 15 bytes decode to the same record |
| PrinterStatusFrame.Pm220Sample | src/core/PrinterStatus.ts:89-110 | The PM220 frame 0,10,1,34,3,0,3,0,6,18,21,40,60,30,45 decodes to READY, data length 10, WHITE, CONTINUOUS, label length 40, maximum width 60, width 30 |
| Greyscale.Luminance | src/utils/image.ts:8 | The result is the weighted sum 0.21R + 0.71G + 0.07B rounded half up (within half a unit of it), and never exceeds 252 |
| Greyscale.PixelLuminance | src/utils/image.ts:8 | The pixel's luminance is its weighted R, G, B rounded half up (channels past the end read as 0), and at most 252 |
| Greyscale.GreyStep | src/utils/image.ts:5-8 | One iteration sets the in-range samples among i, i+1, i+2 to the luminance of the pixel read before any store, and changes nothing else |
| Greyscale.GreyStepPastEnd | src/utils/image.ts:4-8 | The iteration the `<=` bound adds at i = length (or any later index) leaves the buffer unchanged |
| Greyscale.ConvertToGreyscaleByLuminance | src/utils/image.ts:3-11 | The length is kept and alpha samples are unchanged. Every other sample becomes the luminance (at most 252) of its pixel's original R, G, B, with missing trailing channels read as 0 |
| Greyscale.GreyFixedPoints | src/utils/image.ts:8 | A grey pixel g keeps its value under the pass iff g <= 50, and drops otherwise, so a second pass is not a no-op |
| Atkinson.Threshold | src/utils/image.ts:27-32 | The new value is black or white, and black exactly when the visited value is at most 128 |
| Atkinson.QuantisationError | src/utils/image.ts:34 | The error is (v - out)/8 rounded half up, within half a unit of it, and lies in [-16, 16] |
| Atkinson.StepSize | src/utils/image.ts:18-22 | The loop advances 1 sample per step exactly when drawing in colour, and 4 samples (one pixel) exactly when not |
| Atkinson.Offsets | src/utils/image.ts:37-42 | There are six targets. With width >= 2 the down-left target lies after the visited sample; with width < 2 it lands on or before it |
| Atkinson.Hits | src/utils/image.ts:37-42 | The number of diffusion targets landing on a sample is positive exactly when the sample's distance from the visited one is among the offsets |
| Atkinson.Diffuse | src/utils/image.ts:37-42 | Adding the error at the six targets keeps the buffer length |
| Atkinson.DiffuseEffect | src/utils/image.ts:37-42 | After the six clamped additions, each sample holds its old value plus the error once per target that hit it, clamped once to 0..255 |
| Atkinson.DitherStep | src/utils/image.ts:27-46 | One loop iteration keeps the buffer length; its per-sample effect is stated by `DitherStepEffect` |
| Atkinson.DitherStepEffect | src/utils/image.ts:26-46 | One step, for any width: the visited sample gets its threshold plus any diffusion that lands back on it. Every target gains the error per hit, clamped. In greyscale mode the two following samples copy the visited one. Nothing else changes |
| Atkinson.DitherStepPastEnd | src/utils/image.ts:26-46 | The iteration at an index at or past the length quantises a 0 with error 0 and leaves the buffer unchanged |
| Atkinson.OffsetsForward | src/utils/image.ts:37-42 | Every target is a whole number of pixels away, and with width >= 2 every target lies strictly after the visited sample |
| Atkinson.StepKeeps | src/utils/image.ts:35-46 | A step leaves alone every sample that is not the visited one, not one of its greyscale copies and not at one of the six target offsets |
| Atkinson.StepKeepsOffGrid | src/utils/image.ts:35-46 | A step leaves alone a sample off the visited sample's pixel grid, or before it when the width is at least two pixels, other than the visited sample and its copies |
| Atkinson.StepQuantises | src/utils/image.ts:28-35 | With width >= 2 the visited sample, and in greyscale mode its two copies, end as the plain threshold of the visited value |
| Atkinson.StepCopies | src/utils/image.ts:44-46 | In greyscale mode the two samples after the visited one end equal to it, for any width |
| Atkinson.GreyscaleStepProgress | src/utils/image.ts:26-46 | A greyscale-mode step keeps alpha untouched and extends the visited prefix where G = B (and, for width >= 2, R = G = B in {0, 255}) by one pixel |
| Atkinson.ColourStepProgress | src/utils/image.ts:26-42 | With width >= 2, a colour-mode step extends the prefix of black-or-white samples by one sample |
| Atkinson.DitherFrom | src/utils/image.ts:26-47 | Running the loop from any sample keeps the buffer length; the loop still visits an index equal to the length |
| Atkinson.DitherWithAtkinson | src/utils/image.ts:13-50 | The result is exactly the loop of steps from sample 0 (`DitherFrom`), with the length kept. Greyscale mode (step 4): alpha is unchanged and G = B for every width; with width >= 2 every R, G, B is 0 or 255 and equal within its pixel. Colour mode (step 1) with width >= 2: every sample, alpha included, is 0 or 255 |

## Left out

- `src/composables/useWebSerial.ts` (the serial session) is not part of this model. Its behaviour is the ordering of host-API awaits, a fire-and-forget read loop and a disconnect listener, and its only state is a flag and three nullable handles.
- Doubles: the luminance weights are exact decimals. IEEE-754 rounding of `0.21`, `0.71` and `0.07` can differ from the model at exact .5 ties.
- A non-integer `imageWidth` is not modelled. The width is an `int`. In the source a fractional index reads `undefined` and its store is dropped.
- `Uint8ClampedArray` stores of non-integers (round half to even) and of NaN are not modelled. Every value the source stores is an integer.
- `console.error`, `TextEncoder`, and the DOM and Vue types are foreign calls and are not modelled.
- The string values of the three enums (`'ready'`, `'lid_open'`, …) are represented by constructors.
- No fixed output pattern for a uniform mid-grey image is exhibited. `DitherFrom` defines the exact output, but no concrete buffer is evaluated against it.
