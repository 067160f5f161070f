# ByteWatcher core, modelled in Dafny

ByteWatcher is a desktop serial-port monitor. A background reader task reads
chunks of up to 128 bytes from the port. It renders each chunk as upper-case
hex pairs separated by single spaces, stamps it with the wall-clock time in
milliseconds, and pushes a line `"<ms>--<hex>"` onto a shared display queue.
The window holds the connection settings, a connect/disconnect button, a
protocol selector and a registry of the port names found at start-up. A unit
test computes two checksums over reference frames: a 16-bit additive sum and
CRC-16/XMODEM. It prints each little-endian in lower-case hex.

The model covers these pieces:

- `Bytes`: Rust's `u8`, `u16` and `u32`, and `u16::to_le_bytes` with its inverse.
- `Decimal`: how `{}` formats a `u64` as decimal, and reading it back.
- `Hex`: the chunk formatter. It is written exactly as the reader's iterator
  chain: the `hex` crate's lower-case encoding, then `enumerate().flat_map(..)`,
  which inserts a space before every even non-zero index and upper-cases each
  character. The model proves this chain equal to an independent layout,
  `Display`, built from pairs of the Base16 alphabet of section 8 of RFC 4648.
  It proves the layout's length and its character-by-character shape. It also
  defines a parser and proves the round trip in both directions.
- `Codec`: `LineCodec` with its `DELIMITER` 55 AA. `decode` collects the marker
  positions with a non-overlapping left-to-right scan (`memmem::find_iter`),
  always answers "no frame" and leaves the buffer alone. `decode_eof` fails
  with "bytes remaining on stream" when bytes are left. `encode` does nothing.
- `SerialWorker`: three parts.
  - The reader loop, as a method over a trace of `select!` outcomes: a read
    with its timestamp, a read error, or a shutdown. It copies each chunk into
    a fixed 128-byte array and pushes one line per read onto a queue object.
    Its result is tied to a fold, `Appended`.
  - The `Serial` handle. Its `close` takes the task handle out of its slot
    and sends one shutdown message only when a task was there.
  - Lemmas on the fold: a read error appends nothing, the first shutdown ends
    the loop, and the queue lines decode back, in order, to the timestamps and
    bytes of the reads.
- `Checksum`: three parts.
  - The additive checksum, as the checked `u16` fold a debug build runs.
  - CRC-16/XMODEM, bit by bit: polynomial 0x1021, initial value 0, no
    reflection, no final XOR.
  - The test's golden values: 0x00FD printed `fd00`, and 0xCD94 printed `94cd`.
- `App`: the `ConnectType` labels, the filling of the `SERIALS` registry,
  `ByteWatcherApp::default`, and the connect button.

The wall clock, the port and the window are inputs. The timestamp is a natural
number, truncated by `as u64`. A read's outcome is an event of the trace. The
enumerated ports are a `Result` value.

Commented-out lines in `decode` (src/serial.rs:31-45) sketch splitting
frames at the marker. The live code only collects and logs the marker
positions and returns `Ok(None)`, and the model follows the live code.

## Model

| member | source | states |
|---|---|---|
| Bytes.ToLeBytes | src/main.rs:352 | `to_le_bytes` of a `u16` gives two bytes, low byte first; together they give back the value |
| Bytes.LeRoundTrip | src/main.rs:352 | decoding the little-endian bytes of a `u16` gives back the `u16` |
| Bytes.LeRoundTripBytes | src/main.rs:352 | encoding a decoded byte pair gives back the same two bytes |
| Decimal.DecimalString | src/serial.rs:131 | `{}` of a number is a non-empty run of decimal digits with no leading zero, and it is `0` only for zero |
| Decimal.ParseDecimalString | src/serial.rs:131 | reading the decimal text back gives the number |
| Decimal.LeadingDigits | src/serial.rs:131 | the digit run at the front of a line is all digits and is followed by a non-digit or by the end |
| Hex.HexEncode | src/serial.rs:122 | `hex::encode` gives two characters per byte |
| Hex.SpaceAndUpper | src/serial.rs:123-129 | the `enumerate`/`flat_map` chain emits each character alone or after one space, so its output is between one and two times the input's length; its exact layout is stated by `FormatIsDisplay` |
| Hex.FormatChunk | src/serial.rs:122-130 | the reader's text for a chunk has length 0 for no bytes and 3n-1 for n bytes, and equals the reference layout `Display` |
| Hex.FormatIsDisplay | src/serial.rs:122-130 | the `enumerate`/`flat_map` chain, started at any even index, gives pairs of upper-case digits separated by single spaces, with a leading space when the index is not 0 |
| Hex.DisplayLength | src/serial.rs:124-128 | the reference layout has 3n-1 characters for n > 0 bytes and none for no bytes |
| Hex.DisplayAt | src/serial.rs:122-128 | byte k appears as its high-nibble digit at position 3k and its low-nibble digit at 3k+1, with a space after it unless it is the last byte |
| Hex.DisplayChar | src/serial.rs:124-128 | a character of the text is a space exactly at positions 2 mod 3, and otherwise an upper-case Base16 digit |
| Hex.FormatChunkLayout | src/serial.rs:122-130 | the reader's text, position by position: both digits of every byte in input order, spaces exactly between pairs, no other character |
| Hex.ParsePair | src/serial.rs:128 | a successfully parsed digit pair is the upper-case rendering of the byte it yields |
| Hex.ParsePairOfUpperPair | src/serial.rs:128 | the rendering of any byte parses back to that byte |
| Hex.ParseDisplayOfDisplay | src/serial.rs:122-130 | parsing the layout of any byte sequence gives back the sequence |
| Hex.ParseFormatChunk | src/serial.rs:122-130 | parsing the reader's text for a chunk gives back exactly that chunk |
| Hex.ParseDisplayIsDisplay | src/serial.rs:122-130 | every text the parser accepts is the layout of the bytes it yields |
| Hex.ParseDisplayExact | src/serial.rs:122-130 | every accepted text is exactly what the reader prints for the parsed bytes, so the text determines the chunk |
| Codec.FindIter | src/serial.rs:39 | the scan reports only marker positions at or after its start, each at least two past the previous one |
| Codec.DelimiterPositions | src/serial.rs:39 | the collected `find_iter` result: every position is a marker, each at least two past the previous one; that every marker is found is stated by `DelimiterPositionsExact` |
| Codec.FindIterComplete | src/serial.rs:24-39 | because 55 AA cannot overlap itself, the non-overlapping scan reports every marker at or after its start |
| Codec.DelimiterPositionsExact | src/serial.rs:24-39 | a position is reported if and only if the marker starts there, and positions are strictly increasing |
| Codec.Decode | src/serial.rs:30-47 | `decode` answers `Ok(None)` and leaves the buffer unchanged. It logs the scan's result, in scan order: exactly the marker positions, strictly increasing |
| Codec.DecodeEof | src/serial.rs:49-60 | `decode_eof` leaves the buffer unchanged, answers `Ok(None)` if and only if the buffer is empty, and fails with "bytes remaining on stream" if and only if it is not |
| Codec.Encode | src/serial.rs:76-78 | `encode` succeeds and leaves the destination unchanged |
| SerialWorker.Entry | src/serial.rs:118-131 | the line `"<ms>--<content>"` starts with a run of digits that is exactly the decimal time stamp, truncated to `u64`; the whole line of a read decodes back as stated by `ParseReadLine` |
| SerialWorker.ParseReadLine | src/serial.rs:118-131 | a queue line `"<ms>--<hex>"` decodes to the timestamp truncated to `u64` and to the exact bytes read |
| SerialWorker.Appended | src/serial.rs:111-141 | the lines the loop appends over a trace of events: at most one per event; what they are is stated by the lemmas below |
| SerialWorker.AppendedConcat | src/serial.rs:111-141 | before any shutdown the loop's output is compositional: a trace split in two appends the lines of each half in order |
| SerialWorker.ReadAppendsOneLine | src/serial.rs:115-131 | a successful read, of any length from 0 to 128, appends exactly one line at the back and leaves earlier lines unchanged |
| SerialWorker.ReadErrorAppendsNothing | src/serial.rs:133 | a read error appends nothing, and the loop goes on with the next event |
| SerialWorker.ShutdownEndsLoop | src/serial.rs:136-139 | after the first shutdown, nothing further is appended |
| SerialWorker.AppendedDecodesToReads | src/serial.rs:111-141 | the lines appended decode, one for one and in order, to the timestamps and bytes of the successful reads before the first shutdown |
| SerialWorker.AppendedStep | src/serial.rs:113-134 | one round that is not a shutdown keeps the loop running; a read adds its own line at the back and a read error adds nothing |
| SerialWorker.AppendedAtShutdown | src/serial.rs:136-139 | at the first shutdown, the loop's output so far is its whole output |
| SerialWorker.DataQueue.PushBack | src/serial.rs:131 | `push_back` adds one line at the back and leaves the earlier lines unchanged |
| SerialWorker.FillBuffer | src/serial.rs:110-113 | a read places the chunk in the first n cells of the 128-byte buffer |
| SerialWorker.ReadLoop | src/serial.rs:103-142 | the queue grows by exactly the fold of the events; the loop stops at the first shutdown and handles every event before it |
| SerialWorker.Serial.constructor | src/serial.rs:86-102 | a new `Serial` holds a reader task on the port opened with the given settings, and has sent no shutdown |
| SerialWorker.Serial.Close | src/serial.rs:143-150 | `close` empties the handle slot; it sends one shutdown message if the slot held a task, and none otherwise |
| SerialWorker.ClosesActLikeOne | src/serial.rs:143-150 | any number (at least one) of closes equals one close: the slot ends empty and at most one shutdown message is sent |
| Checksum.FoldAddIsSum | src/main.rs:357 | the checked `u16` fold from any start value gives that value plus the byte sum, or panics (`None`) exactly when the sum overflows |
| Checksum.AdditiveChecksum | src/main.rs:357 | the fold from `0u16` exists if and only if the byte sum fits in a `u16`, and it is then that sum |
| Checksum.SumGoldenVector | src/main.rs:354-358 | the 15-byte payload sums to 0x00FD, written FD 00 little-endian and printed `fd00` |
| Checksum.CrcFromConcat | src/main.rs:351 | the CRC register carries everything: a message may be fed in pieces |
| Checksum.Crc16Xmodem | src/main.rs:351 | `calculate` of XMODEM: after the message, feeding the register its own value high byte first clears it |
| Checksum.CrcResidue | src/main.rs:351 | appending a message's CRC, high byte first, gives a CRC of 0, which is the defining check of an unreflected CRC without final XOR |
| Checksum.CrcVectorTrace | src/main.rs:350-351 | the register value after each byte of the 8-byte test frame |
| Checksum.CrcGoldenVector | src/main.rs:350-352 | the CRC-16/XMODEM of the test frame is 0xCD94, written 94 CD little-endian and printed `94cd` |
| App.Label | src/main.rs:153-158 | the `match` is total and every link kind has a non-empty label; that the labels differ is stated by `LabelsDistinct` |
| App.LabelsDistinct | src/main.rs:153-158 | distinct link kinds have distinct labels |
| App.PopulateRegistry | src/main.rs:45-55 | after start-up the registry's keys are exactly the enumerated port names and each maps to itself; a failed enumeration leaves it empty |
| App.ByteWatcherApp.constructor | src/main.rs:117-131 | defaults: not connected, kind SERIAL, path "", 115200 baud, 8 data bits, 1 stop bit, no serial; the link-state invariant holds |
| App.ByteWatcherApp.Click | src/main.rs:217-234 | the button flips `connected`. Connecting stores a new `Serial` opened with the current settings. Disconnecting closes the stored `Serial`, if any, and keeps it. The kind and settings are unchanged, and afterwards `connected` holds exactly when a stored reader is running |

## Left out

- The window itself is not modelled: egui/eframe layout, fonts, styles, the icon, the combo boxes and drag values, and the TCP/UDP/WS configuration placeholders. They are presentation only.
- `get_primary_screen_size` is not modelled: it is a foreign Windows call that returns floats.
- The tokio machinery is not modelled: `spawn`, `select!`, the shutdown channel, `block_on`, the mutexes and awaiting the task. The reader's concurrency is reduced to the sequence of outcomes `select!` produces. The handle slot is a plain field.
- Opening the port is an input, not a step of the model. This covers `available_ports`, the `DataBits`/`StopBits` conversions and their `unwrap` panics, and `set_timeout`. The model covers only the successful case.
- `SystemTime::now` and its "Time went backwards" panic are left out: the time is an input number of milliseconds.
- Logging with `println!`/`eprintln!` has no effect on the modelled state and is left out. `decode` keeps its logged positions as part of its result.
- The `DATA` queue is not defined in the snapshot's `main.rs`. It is modelled as a queue object of strings, `DataQueue`.
- The window's consumer loop reads a `data_rx` field that `Serial` does not have, and it only prints a constant. It is not modelled.
- `Serial::new` also lists the available ports and prints them. That has no effect on state and is left out.
- Checksum.AdditiveChecksum: models the debug build, where an overflowing `+` on `u16` panics (`None`). A release build would wrap modulo 2^16 instead; that is not modelled.
- Checksum.Crc16Xmodem: computed bit by bit from the algorithm's definition, not with the `crc16` crate's lookup table.
- SerialWorker.Serial.Close: awaiting the reader task, and the panic if the task itself panicked, are not modelled. The state change is the emptied slot and the count of shutdown messages sent.
- SerialWorker.ReadLoop: the port reads into the buffer and the chunk is then formatted from `buf[..n]`. The bytes `BytesMut` copy (`b`) is never used, so it is not modelled.
- Frame extraction between markers, checksum-field validation and a bounded frame channel do not exist in the code, so they are not modelled.
