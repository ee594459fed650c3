# Ethernet plotter ingestion, modelled in Dafny

This project models what the PC-side plotter of a hardware-in-the-loop rig does
on each timer tick (`update()` in `CPU/ethernet_plotter.py`). The board sends UDP
datagrams of three signed 32-bit integers, one per channel. The plotter keeps a
100 × 3 table that starts as zeros. It keeps reading datagrams from its
non-blocking socket until a read finds none. For each one it rolls the table up by one row and writes the
new values into the last row. It stops reading when the socket reports
would-block. Then it hands column *i* of the table to curve *i*.

Three modules, one per concern:

- `Wire` (`wire.dfy`): the 12-byte payload. It reads a little-endian unsigned
  value (`FromLE`), applies 32-bit two's complement (`ToSigned`) and splits the
  payload into three words (`Decode`). The inverses (`ToLE`, `ToUnsigned`,
  `EncodeInt32`, `Encode`) are there so both round trips can be proved.
- `History` (`history.dfy`): the table as a value, a sequence of rows. It holds
  numpy's `roll` (`Roll`), one packet stored (`Pushed`), a batch stored in
  arrival order (`PushedAll`) and column selection (`Column`). The lemmas give
  the buffer's contents after any number of packets.
- `Plotter` (`plotter.dfy`): the imperative program. Class `DataBuffer` holds
  `data_buffer` as an `array2<int>` and a ghost table `Rows` that `Valid()` ties
  to the array. `Push` rolls into a fresh array (`RollRows`), as `np.roll` does,
  then overwrites the last row in place. `Drain` is the `while True` receive
  loop, stopped by would-block. `Series` selects the columns. `Update` is one
  tick. Each method is proved against the `History` functions.

Facts about the code that shape the model:

- A datagram carries three `int32` values and nothing else: 12 bytes, no header.
- The table starts as zeros and is shifted on every packet, so a row that was
  never written cannot be told apart from a row of zeros.
- The code does not check a payload's length (see "Left out").

The numpy table has dtype float64 (the `np.zeros` default). Every `int32` value
is exact in float64, so the table is modelled with `int`.

## Model

| member | source | states |
|---|---|---|
| `Wire.FromLE` | CPU/ethernet_plotter.py:23 | the unsigned value of an n-byte little-endian string is below 256^n |
| `Wire.FromLEToLE` | CPU/ethernet_plotter.py:23 | writing a value below 256^n as n little-endian bytes and reading them back gives the value |
| `Wire.ToLEFromLE` | CPU/ethernet_plotter.py:23 | reading a byte string and writing the value back as that many bytes gives the same bytes |
| `Wire.FromLEOfWord` | CPU/ethernet_plotter.py:23 | a 4-byte word's unsigned value is b0 + 256·b1 + 65536·b2 + 16777216·b3 |
| `Wire.ToSigned` | CPU/ethernet_plotter.py:23 | the two's-complement reading of a 32-bit word is an int32; it is negative exactly when the word is at least 2^31; it differs from the word by 0 or 2^32 |
| `Wire.ToUnsigned` | CPU/ethernet_plotter.py:23 | every int32 has a 32-bit word whose two's-complement reading is that int32 |
| `Wire.DecodeInt32` | CPU/ethernet_plotter.py:23 | four bytes read as an int32: the little-endian value less 2^32 when the top byte's high bit is set; negative exactly when that bit is set |
| `Wire.DecodeEncodeInt32` | CPU/ethernet_plotter.py:23 | decoding the 4-byte encoding of any int32 gives it back |
| `Wire.EncodeDecodeInt32` | CPU/ethernet_plotter.py:23 | every 4-byte word is the encoding of the int32 it decodes to |
| `Wire.Word` | CPU/ethernet_plotter.py:23 | the bytes that carry channel j are the 4 bytes at offsets 4j..4j+3 of the payload |
| `Wire.Decode` | CPU/ethernet_plotter.py:22-23 | a 12-byte payload decodes to exactly three int32 values; value j comes from bytes 4j..4j+3; the payload is the encoding of the result |
| `Wire.DecodeEncode` | CPU/ethernet_plotter.py:22-23 | decoding the encoding of any three int32 values gives them back |
| `History.Initial` | CPU/ethernet_plotter.py:16 | before any packet the table has 100 rows of 3 values, all zero |
| `History.Roll` | CPU/ethernet_plotter.py:24 | rolling by -1 along the rows keeps the length and moves the first row to the end, behind the others |
| `History.Pushed` | CPU/ethernet_plotter.py:24-25 | after roll-then-overwrite the length is unchanged; row k is old row k+1 for every k below the last; the last row is the new packet; so the oldest row is dropped |
| `History.PushedAll` | CPU/ethernet_plotter.py:21-25 | storing packets in arrival order keeps the number of rows and, when all rows and packets have 3 values, the width of every row |
| `History.PushedAllKeepsNewest` | CPU/ethernet_plotter.py:21-25 | after storing packets the table is the newest \|rows\| entries of the old rows followed by the packets |
| `History.PushedAllSnoc` | CPU/ethernet_plotter.py:21-25 | storing one more packet after a batch is storing the longer batch |
| `History.PushedAllAppend` | CPU/ethernet_plotter.py:18-30 | two ticks that drain two batches leave the same table as one tick that drains both batches in order |
| `History.HistoryFromStart` | CPU/ethernet_plotter.py:16-25 | from the zero table, n ≥ 100 packets leave exactly the last 100 packets, oldest first; n < 100 packets leave 100 − n zero rows followed by the n packets in order |
| `History.Column` | CPU/ethernet_plotter.py:33 | `data_buffer[:, i]`: one value per row, in row order, entry k being row k's channel-i value |
| `History.ColumnOfPushed` | CPU/ethernet_plotter.py:24-25 | after one packet, channel i's column loses its oldest value and gains the packet's channel-i value at the end |
| `History.ColumnFromStart` | CPU/ethernet_plotter.py:16-33 | from the zero table, channel i's column is the channel's last 100 values, with zeros in front while fewer than 100 packets have arrived |
| `Plotter.Receive` | CPU/ethernet_plotter.py:22-30 | a receive after `taken` payloads returns the next payload in arrival order while one remains, and would-block exactly when all have been read |
| `Plotter.DecodeAll` | CPU/ethernet_plotter.py:22-23 | one decoded row of 3 values per received payload, in arrival order, row k being the decoding of payload k |
| `Plotter.RollRows` | CPU/ethernet_plotter.py:24 | `np.roll(a, -1, axis=0)` returns a new array of the same shape whose row k is row (k + 1) mod n of `a` |
| `Plotter.DataBuffer.constructor` | CPU/ethernet_plotter.py:16 | the new buffer is a fresh 100 × 3 array holding the all-zero table |
| `Plotter.DataBuffer.Push` | CPU/ethernet_plotter.py:24-25 | the buffer is rebound to a fresh 100 × 3 array holding the old table rolled, with the packet written into the last row |
| `Plotter.DataBuffer.Drain` | CPU/ethernet_plotter.py:21-30 | the receive loop stores every payload received before would-block, decoded, in arrival order; it stops when the socket reports would-block, with no further change to the table |
| `Plotter.DataBuffer.Series` | CPU/ethernet_plotter.py:32-33 | there are 3 series; series i is column i of the table and has 100 entries; the buffer is not changed |
| `Plotter.DataBuffer.Update` | CPU/ethernet_plotter.py:18-33 | one tick drains the queue into the table as above, then returns each channel's 100-entry column of the new table |

## Left out

- Socket creation, binding to port 5005 and the switch to non-blocking mode
  (`CPU/ethernet_plotter.py:7-9`) and `recvfrom` itself are network I/O. The
  socket is modelled by the sequence of payloads that `recvfrom` returns before
  its first `BlockingIOError`, including any that arrive while the loop runs:
  `Receive` returns the next payload, or would-block once the sequence is used
  up. The sender address returned by `recvfrom` is not modelled.
- Drain: the model assumes that sequence is finite, so `Drain` always ends. The
  source does not ensure this: if datagrams keep arriving at least as fast as one
  iteration of the loop handles them (the `print` included), the `while True`
  loop of `CPU/ethernet_plotter.py:21-30` never sees would-block, and `setData`
  on line 33 is never reached.
- The Qt application, the pyqtgraph window, plot and curves, and the rendering
  done by `setData` (`CPU/ethernet_plotter.py:12-15, 33`) are a foreign
  graphics library. Only the series handed to each curve is modelled.
- The `QTimer` that calls `update()` every 20 ms and the Qt event loop
  (`CPU/ethernet_plotter.py:35-40`) are external drivers. The model starts at
  one call of `update()`.
- The diagnostic `print` per datagram (`CPU/ethernet_plotter.py:27`) is output
  only.
- Payloads of any length other than 12 bytes. The code does not check the
  length. On POSIX systems `recvfrom(12)` cuts a longer datagram down to 12
  bytes; on Windows it raises `OSError` (WinError 10040) instead, which escapes
  `update()`. A shorter
  payload makes `np.frombuffer` or the row assignment raise an exception that
  `update()` does not catch (a 4-byte payload would instead be broadcast to all
  three channels). `Decode`, `Drain` and `Update` therefore require every payload
  to be exactly 12 bytes.
- Transport errors other than would-block also escape `update()`. They are not
  modelled.
- Byte order. `np.frombuffer` uses the host's native byte order. The model fixes
  it to little-endian, the byte order of x86 and of ARM as usually configured.
- Storage type. The numpy table is float64. It is modelled as `int`, which is
  exact for every `int32` value.
