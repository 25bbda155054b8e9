# Ticket printer: the BLE printing path, modelled in Dafny

The ticket printer takes a sender name and a question from a web form
and prints them as a ticket on a 58 mm thermal printer. The printer is
reached over USB, serial, the network, classic Bluetooth or Bluetooth Low
Energy (BLE). This project models, and proves properties of, the parts
that decide what bytes reach the printer and when:

- `ble_printer.py`:
  - the ESC/POS text frame (`_escpos_frame`).
  - the `GS v 0` raster image command (`_image_to_escpos_raster`).
  - the payloads of the three print entry points.
  - chunking (`_chunk`).
  - the scan by address (`_find_device_by_address`, `ble_is_available`).
  - the write session `_ble_write`.
- `ble_escpos.py`:
  - the 13-line ticket (`_build_escpos_ticket`).
  - the choice of a writable GATT characteristic (`_auto_pick_write_char_uuid`).
  - the index-loop sender `_print_over_ble`.
- `app.py`:
  - the 11-line ticket text (`build_ticket_text`).
  - driver dispatch (`get_printer`).
  - the decisions of `/submit_ticket` and `/health`.

Modules, one file each:

- `wrappers.dfy` holds `Option`/`Result`/`Outcome` and Python `bytes` as a sequence of `byte`.
- `utf8.dfy` holds UTF-8 as in section 3 of RFC 3629, with a strict decoder and the round trip.
- `pystr.dfy` holds the `str` operations the code uses: `strip`, `upper`, `lower`, `"\n".join` and line structure.
- `chunking.dfy` holds `range(0, len, n)` slicing.
- `escpos.dfy` holds the frame.
- `raster.dfy` holds the raster command and its byte-packing loops.
- `gatt.dfy` holds devices, characteristics and a `Radio` class. The radio has the scan results and a write budget after which the link faults, and it records every write the printer receives in a ghost log.
- `ticket_layout.dfy` holds the two 32-column rules that both tickets are drawn with.
- `ble_printer.dfy`, `ble_escpos.dfy` and `app.dfy` follow the three source files.

Each state-changing operation is an imperative method against the
`Radio`. Its `ensures` ties the outcome and the new log to a
specification function of the inputs: `SessionOutcome`/`SessionWrites`
and `PrintOutcome`/`PrintWrites`. What the source promises is proved
about those functions:

- The printer receives a prefix of the payload, and never more than one copy of it. The code has no retry.
- It receives all of the payload exactly when the session passes with a positive chunk size.
- It receives strictly less when a write raises part-way.
- It receives nothing when the session fails before writing.

The clock, the BLE radio, the python-escpos drivers and Flask are
parameters. The wall-clock strings, the scan results and link budget,
and whether a driver could be constructed or its formatting succeeded
are all inputs.

Behaviours of the code worth knowing, each stated in the model:

- The code has no retry of a failed session. Every session makes at most one pass over the payload.
- The comment at ble_escpos.py:69 says write-without-response is preferred. The loop at ble_escpos.py:70-74 returns the first characteristic that allows either kind of write. `NoPreferenceForWriteWithoutResponse` shows this.
- `get_printer` returns None for an unknown printer type, on every call (app.py:81-87). Nothing rejects such a type at start-up.
- A negative BLE chunk size gives an empty `range()`. The session then "passes" and writes nothing. `SessionWrites` and `PrintWrites` state this case.

## Model

| member | source | states |
|---|---|---|
| Utf8.EncodeChar | ble_printer.py:33 | one to four bytes per character; one byte exactly for ASCII, equal to the code point; a lead byte 0xC2–0xF4 and continuation bytes 10xxxxxx otherwise |
| Utf8.Encode | ble_printer.py:33 | the encoding has between n and 4n bytes for n characters |
| Utf8.DecodeEncode | ble_printer.py:33 | strict UTF-8 decoding of `text.encode("utf-8")` gives the text back |
| Utf8.EncodeInjective | ble_printer.py:33 | different texts encode to different bytes |
| Utf8.EncodeAscii | ble_printer.py:33 | ASCII text encodes byte for byte to its code points |
| PyStr.StripSpec | app.py:49 | `strip()` keeps a contiguous part of the text, flanked only by whitespace, with non-whitespace ends; empty exactly when the text is all whitespace |
| PyStr.TrimStart | app.py:148 | the leading whitespace is removed and what is left does not start with whitespace |
| PyStr.TrimEnd | app.py:148 | the trailing whitespace is removed and what is left does not end with whitespace |
| PyStr.Upper | ble_printer.py:114-117 | `upper()` keeps the length and leaves no lower-case letter |
| PyStr.Lower | ble_escpos.py:12 | `lower()` keeps the length and leaves no upper-case letter |
| PyStr.UpperLower | ble_printer.py:114-117 | upper-casing forgets any earlier lower- or upper-casing |
| PyStr.JoinTerminated | app.py:53 | `"\n".join(lines) + "\n"` puts a newline after every line, the last included |
| PyStr.TerminatedHasLine | app.py:53 | every line of such a text stands on a line of its own |
| PyStr.CountTerminated | app.py:53 | such a text has one newline per line besides those inside the lines |
| Chunking.Slices | ble_printer.py:18-20 | every slice is non-empty and at most n bytes; there are none exactly for empty data |
| Chunking.FlattenSlices | ble_printer.py:18-20 | the slices joined give the data back |
| Chunking.SlicesFull | ble_printer.py:18-20 | every slice but the last is exactly n bytes |
| Chunking.SliceAt | ble_printer.py:19-20 | slice k is `data[k*n : k*n+n]`, clamped at the end |
| Chunking.SlicesCount | ble_printer.py:18-20 | there are ceil(len/n) slices |
| Chunking.Chunk | ble_printer.py:18-20 | a step of 0 is an error (`range()` raises); a negative step yields nothing; a positive one yields the slices, which join to the data; no chunk is longer than n |
| Chunking.SessionChunks | ble_escpos.py:95-96 | the chunks of the index loop join to the payload, ceil(len/n) of them, each non-empty and at most n bytes |
| Escpos.EscposFrame | ble_printer.py:23-36 | the frame is 8 bytes longer than the encoded text, starts with ESC @ and ends with three feeds and GS V 0 |
| Escpos.UnframeFrame | ble_printer.py:31-36 | the text can be read back from its frame, so none of it is lost |
| Escpos.FrameInjective | ble_printer.py:31-36 | different texts give different frames |
| Raster.Row | ble_printer.py:63-73 | a raster row has `(width + 7) // 8` bytes |
| Raster.RowsLength | ble_printer.py:62-73 | n rows have n·bytes-per-line bytes |
| Raster.PackBitsBit | ble_printer.py:64-72 | after packing n bits, bit k (MSB first) is set exactly when k < n, x is inside the image and the pixel is black (0) |
| Raster.PackByte | ble_printer.py:64-72 | the loop over the eight bits of one byte yields exactly the packed data byte `PackBits(img, y, xByte, 8)` that the pixel lemmas describe |
| Raster.RasterLength | ble_printer.py:56-84 | the command is 8 + height·bytes-per-line bytes long |
| Raster.HeaderFields | ble_printer.py:77-82 | the header is `1D 76 30 00`, then bytes-per-line and height little-endian (`xL + 256·xH`, `yL + 256·yH`) |
| Raster.RasterPixel | ble_printer.py:62-73 | the bit for pixel (x, y) at byte `8 + y·bpl + x/8`, mask `0x80 >> x%8`, is set exactly when the pixel is black |
| Raster.RasterPadding | ble_printer.py:65-67 | bits beyond the image width are zero |
| Raster.FullByte | ble_printer.py:64-73 | eight black pixels pack to 0xFF and eight white ones to 0x00 |
| Raster.BlackStrip | ble_printer.py:56-84 | an 8×1 black image gives `1D 76 30 00 01 00 01 00 FF` |
| Raster.WhiteStrip | ble_printer.py:56-84 | an 8×1 white image gives `1D 76 30 00 01 00 01 00 00` |
| Raster.Prepare | ble_printer.py:44-47 | a too-wide image is replaced by its resize to exactly the maximum width; any other is kept as it is |
| Raster.PreparedWidth | ble_printer.py:44-56 | bytes per line never exceed those of the maximum width (48 for 384 dots) |
| Raster.ImageToRaster | ble_printer.py:39-84 | the nested loops produce exactly the raster command of the prepared image |
| Gatt.FindDeviceByAddress | ble_printer.py:113-119 | the first scanned device whose upper-cased address (None as "") equals the upper-cased query, or None exactly when no device matches |
| Gatt.FindIgnoresCase | ble_printer.py:114-117 | the lookup gives the same device for a lower- or upper-cased query |
| Gatt.BleIsAvailable | ble_printer.py:187-192 | true exactly when some scanned device matches the address |
| Gatt.DataOfWrites | ble_printer.py:137-138 | the writes of a list of chunks carry those chunks, in order |
| Gatt.Accepted | ble_printer.py:137-138 | a link takes every write when it does not fault before the last, and fewer otherwise |
| Gatt.Radio.WriteGattChar | ble_printer.py:138 | a write the link accepts is appended to the log and uses up one unit of budget; one that raises changes nothing |
| BlePrinter.WriteUuidSetting | ble_printer.py:11 | BLE_WRITE_UUID is never empty: the stripped value, or the 2AF1 default when that is blank |
| BlePrinter.SessionOutcome | ble_printer.py:128-140 | not found exactly when no scanned device matches; not connected exactly when the match does not connect; a pass needs a found, connected printer, a non-zero step and a link that takes every chunk |
| BlePrinter.SessionWrites | ble_printer.py:128-140 | no writes on an early failure or a negative step; the received bytes are always a prefix of the payload, all of it on a pass with a positive step, strictly less after a failed write; every write is 1..n bytes, without response, to the configured UUID of the matching device |
| BlePrinter.SessionRuns | ble_printer.py:136-138 | once the printer is found and connected with a non-zero step, the session writes the chunks the link accepts and fails exactly when one is refused |
| BlePrinter.BleWrite | ble_printer.py:122-140 | the session's outcome, log and remaining budget are those of `SessionOutcome`/`SessionWrites` |
| BlePrinter.WriteEach | ble_printer.py:137-140 | the chunk loop writes the accepted chunks in order without response, stops at the first refused write, and reports whether every chunk went through |
| BlePrinter.ImagePayloadLayout | ble_printer.py:148-157 | the image payload is ESC @, the raster command, feeds and cut: 16 + height·bpl bytes |
| BlePrinter.TextOnlyPayloadIsFrame | ble_printer.py:163-178 | without an image the text-with-image payload is exactly the text frame |
| BlePrinter.TextWithImageLayout | ble_printer.py:163-178 | with an image: ESC @, the text, one newline, the raster command, feeds and cut, nothing else |
| BlePrinter.BuildImagePayload | ble_printer.py:148-157 | the payload is ESC @, the raster command of the prepared image, feeds and cut |
| BlePrinter.BuildTextWithImagePayload | ble_printer.py:163-178 | the step-by-step `+=` construction builds the text-with-image payload |
| BlePrinter.BlePrintText | ble_printer.py:143-145 | sends the text frame in chunks of BLE_CHUNK_SIZE |
| BlePrinter.BlePrintImage | ble_printer.py:148-160 | sends the image payload in chunks of BLE_IMAGE_CHUNK_SIZE |
| BlePrinter.TextWithImageChunkSize | ble_printer.py:180-184 | the image chunk size exactly when there is an image |
| BlePrinter.BlePrintTextWithImage | ble_printer.py:163-184 | sends the text-with-image payload with that chunk size |
| BlePrinter.TextWithoutImageIsPlainText | ble_printer.py:163-184 | text with no image has the same outcome and writes as `ble_print_text` |
| BlePrinter.DefaultTextDelivery | ble_printer.py:12-20 | with defaults and a sound link a reachable printer receives the whole frame, in ceil(len/20) writes of at most 20 bytes |
| App.TicketLines | app.py:40-52 | 11 lines, opening and closing with the banner, with the sender and the stripped question |
| App.BuildTicketText | app.py:35-53 | the text is the lines, each followed by a newline |
| App.TicketStart | app.py:40-43 | the text opens with the banner, "TICKET" and a rule, each on its own line |
| App.TicketEnd | app.py:51-53 | the text ends with the banner and exactly one newline |
| App.TicketHasSenderAndQuestion | app.py:44-53 | "From: name" and the stripped question are whole lines of the text |
| App.TicketNewlines | app.py:40-53 | 11 newlines plus those inside the name or question |
| App.BleAddressSetting | app.py:32 | BLE_PRINTER_ADDR is the environment value with leading and trailing whitespace removed: it sits in the value with only whitespace around it and starts and ends with a non-space character; it is empty exactly when unset or blank |
| App.PrinterFor | app.py:62-81 | a driver exactly for usb/serial/bluetooth/network; USB uses the configured ids only when both are truthy, else 0x0416/0x5011; "serial" opens SERIAL_PORT and "bluetooth" opens /dev/rfcomm0, both at 9600 baud; "network" connects to NETWORK_HOST |
| App.GetPrinter | app.py:56-87 | a driver exactly when the type has one and it could be constructed; never one for "ble" |
| App.SenderName | app.py:145 | "Anonymous" when `from_name` is absent; a present string is used as is; any other present value (null, a number) is shown as Python formats it, so a null sender prints "None" |
| App.SubmitTicket | app.py:141-176 | success exactly for 200; only 200/400/500; 400 exactly for a well-formed request whose question strips to empty; a truthy non-object body or a non-string question gives 500 with nothing attempted; BLE mode without an address gives 500 with nothing attempted; in driver mode a valid question succeeds exactly when `get_printer` gives a driver and formatting succeeds, and no driver gives 500 with nothing attempted; a BLE attempt only in BLE mode with an address; a driver attempt only with the driver `get_printer` gives |
| App.BlankQuestionRejected | app.py:146-149 | a missing or all-whitespace question gets 400 and nothing is printed |
| App.BleSubmission | app.py:152-160 | in BLE mode the ticket text (with sender and stripped question) is sent with `ble_print_text`, the reply succeeds exactly when that session passes, and a failure delivers strictly less than one frame |
| App.BleReply | app.py:152-160 | a valid BLE-mode submission answers 200 when the write session passes and 500 otherwise, with the ticket text as its attempt |
| App.Health | app.py:179-197 | BLE: connected exactly when an address is set and a scan finds it, with no scan for an empty address; otherwise connected exactly when a driver is obtained; "unhealthy" with 500 exactly when the BLE scan raises, which only happens with an address set; every other reply is healthy with 200 |
| App.HealthAgreesWithSubmit | app.py:182-187 | in BLE mode, when the health scan and the submit scan report the same device for the address, a printer that a healthy report shows as not connected never prints a ticket |
| BleEscpos.WriteCharUuidSetting | ble_escpos.py:12 | BLE_WRITE_CHAR_UUID has no upper-case letter and agrees, up to case, with the stripped environment value, so it is that value lower-cased; it is empty exactly when unset or blank |
| BleEscpos.TicketLines | ble_escpos.py:27-41 | 13 lines with the sender, the stripped question and two empty lines at the end |
| BleEscpos.TicketText | ble_escpos.py:42 | the text is the lines, each followed by a newline |
| BleEscpos.BuildEscposTicket | ble_escpos.py:18-52 | the ticket bytes (ESC @, the UTF-8 ticket text, three line feeds, GS V 0) equal the standard ESC/POS frame of the 13-line ticket text |
| BleEscpos.TicketIsFrame | ble_escpos.py:44-52 | the ticket bytes are the standard frame of the ticket text, from which the text reads back |
| BleEscpos.TicketExtendsAppTicket | ble_escpos.py:27-42 | the 13-line ticket is the 11-line one of app.py plus "\n\n" |
| BleEscpos.TicketEnd | ble_escpos.py:38-42 | the text ends with the banner and "\n\n\n" |
| BleEscpos.TicketHasSenderAndQuestion | ble_escpos.py:31-42 | "From: name" and the stripped question are whole lines of the text |
| BleEscpos.TicketNewlines | ble_escpos.py:27-42 | 13 newlines plus those inside the name or question |
| BleEscpos.FirstWritable | ble_escpos.py:70-74 | the first characteristic allowing a write, or None exactly when none does |
| BleEscpos.FirstWritableAt | ble_escpos.py:70-74 | the one at k is picked when none before it is writable |
| BleEscpos.AutoPick | ble_escpos.py:55-76 | services unavailable exactly when the client exposes no services object (None), while an empty service list gives no writable characteristic; no writable characteristic exactly when none allows a write; otherwise the UUID of a writable one |
| BleEscpos.AutoPickWriteCharUuid | ble_escpos.py:55-76 | the nested search with early return computes `AutoPick` |
| BleEscpos.NoPreferenceForWriteWithoutResponse | ble_escpos.py:69-74 | a "write" characteristic listed before a "write-without-response" one is chosen |
| BleEscpos.CharUuid | ble_escpos.py:90-92 | the configured UUID when set, else the auto-picked one lower-cased |
| BleEscpos.PrintOutcome | ble_escpos.py:79-98 | each failure exactly in its case: a missing address exactly when the address is empty, device-not-found exactly when the scan misses it, not-connected exactly when it is found but refuses the connection, and the characteristic error when no characteristic is usable; a pass exactly when all of those succeed, the step is non-zero and the link accepts every chunk; a failed write needs a budget below the chunk count |
| BleEscpos.PrintWrites | ble_escpos.py:94-98 | a prefix of the payload, all of it on a pass with a positive step, strictly less after a failed write; each write 1..n bytes, without response, to the chosen characteristic |
| BleEscpos.PrintRuns | ble_escpos.py:90-98 | once a characteristic is chosen with a non-zero step, the print writes the chunks the link accepts and fails exactly when one is refused |
| BleEscpos.SlicesFromStep | ble_escpos.py:95-96 | one turn of the index loop takes `payload[i:i+n]` and moves on to i + n |
| BleEscpos.WriteChunks | ble_escpos.py:95-98 | the index loop writes the slices the link accepts, in order, and reports whether all were accepted |
| BleEscpos.PrintOverBle | ble_escpos.py:79-98 | the outcome, log and budget are those of `PrintOutcome`/`PrintWrites` on the ticket bytes |

## Left out

- The BLE radio, scanning and connecting (Bleak) are inputs: the scan result list, whether a connection comes up, the services it exposes and a write budget after which writes raise. Scan and connect timeouts, and `asyncio`, are not modelled.
- The pauses between writes (`BLE_WRITE_GAP_SEC`, `BLE_IMAGE_WRITE_GAP_SEC`, `asyncio.sleep`) are timing only and are not modelled.
- `_print_over_ble` connects with `BleakClient(BLE_PRINTER_ADDR)`, which looks the device up itself. The model looks it up with the same case-insensitive match as `_find_device_by_address`.
- Raster.Prepare: the LANCZOS resize and the conversion to 1-bit pixels (dithering) are PIL operations. The model takes the resized 1-bit image as an input. It does not state the new height `int(height * 384 / width)`, which floating point computes.
- `process_image_base64` (base64, PIL decoding, transparency flattening) is image decoding by libraries and is not modelled.
- `datetime.now()` and `strftime` are replaced by the time and date strings, which are parameters.
- `text.encode("utf-8", errors="replace")`: a Dafny `char` is a Unicode scalar value, so there are no lone surrogates to replace, and the replacement path is not modelled.
- PyStr.Upper / PyStr.Lower: these map ASCII letters only. Python's full Unicode case mapping is not modelled. The values they are applied to (hardware addresses, characteristic UUIDs) are ASCII hexadecimal.
- `format_ticket_escpos` and the python-escpos drivers `Usb`, `Serial` and `Network` are foreign code. Whether a driver could be constructed and whether formatting succeeded are inputs.
- Flask routing, `render_template`, JSON encoding, logging and the exact text of exception messages are not modelled. A raised exception is reported as the reason `Raised`.
- Reading the environment and `int(...)` parsing of numeric settings are not modelled. A malformed number raises at import time. The settings are given as values, and the string settings' strip/lower/default handling is modelled.
- App.HealthAgreesWithSubmit: `/health` scans with `ble_is_available` for 3 s (ble_printer.py:187-192) and `/submit_ticket` scans again for 8 s in `_ble_write` (ble_printer.py:128). The two scans can differ: a printer that appears between them is reported missing and still prints. The lemma states the agreement only for scans that report the same device for the address.
- `print_ticket_over_ble` only calls `_print_over_ble` and re-raises its error, so it is the same as BleEscpos.PrintOverBle.
- backend/api.py, ble_print.py, ble_probe.py, config.py and the web front end are not part of this model.
