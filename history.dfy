/**
 * The rolling history as a value: a table of rows, one row of channel
 * values per received packet, oldest row first.  These functions are the
 * specification that the array-based buffer in module Plotter is proved
 * against.
 */
module History {

  import opened Wire

  /** Number of rows kept (`np.zeros((100, 3))`). */
  const Depth: nat := 100

  type Row = seq<int>

  /** Every row has exactly `width` entries. */
  predicate RowsOfWidth(rows: seq<Row>, width: nat) {
    forall k :: 0 <= k < |rows| ==> |rows[k]| == width
  }

  /** The shape of the plotter's buffer: `Depth` rows of `ChannelCount` values. */
  predicate WellShaped(rows: seq<Row>) {
    |rows| == Depth && RowsOfWidth(rows, ChannelCount)
  }

  /** n rows of zeros. */
  function ZeroRows(n: nat): (rows: seq<Row>)
    ensures |rows| == n && RowsOfWidth(rows, ChannelCount)
    ensures forall k, c :: 0 <= k < n && 0 <= c < ChannelCount ==> rows[k][c] == 0
  {
    seq(n, _ => seq(ChannelCount, _ => 0))
  }

  /** The buffer before any packet has arrived. */
  function Initial(): (rows: seq<Row>)
    ensures WellShaped(rows)
    ensures forall k, c :: 0 <= k < Depth && 0 <= c < ChannelCount ==> rows[k][c] == 0
  {
    ZeroRows(Depth)
  }

  /**
   * `np.roll(rows, -1, axis=0)`: entry k of the result is entry
   * (k + 1) mod |rows| of the input, so the first row moves to the end.
   */
  function Roll(rows: seq<Row>): (r: seq<Row>)
    ensures |r| == |rows|
    ensures rows != [] ==> r == rows[1..] + [rows[0]]
  {
    seq(|rows|, k requires 0 <= k < |rows| => if k + 1 < |rows| then rows[k + 1] else rows[0])
  }

  /**
   * One packet ingested: roll, then overwrite the last row with the new
   * values.  The row rolled round to the end is the oldest one, so the
   * effect is to drop the oldest row and append the new one.
   */
  function Pushed(rows: seq<Row>, vals: Row): (r: seq<Row>)
    requires rows != []
    ensures r == rows[1..] + [vals]
    ensures |r| == |rows| && r[|r| - 1] == vals
    ensures forall k :: 0 <= k < |rows| - 1 ==> r[k] == rows[k + 1]
  {
    Roll(rows)[|rows| - 1 := vals]
  }

  /** Packets ingested one after another, in arrival order. */
  function PushedAll(rows: seq<Row>, packets: seq<Row>): (r: seq<Row>)
    requires rows != []
    ensures |r| == |rows|
    ensures RowsOfWidth(rows, ChannelCount) && RowsOfWidth(packets, ChannelCount) ==> RowsOfWidth(r, ChannelCount)
    decreases |packets|
  {
    if packets == [] then rows
    else
      var next := Pushed(rows, packets[0]);
      assert RowsOfWidth(rows, ChannelCount) && |packets[0]| == ChannelCount ==> RowsOfWidth(next, ChannelCount);
      PushedAll(next, packets[1..])
  }

  /** Ingesting packets keeps the newest |rows| of old rows and packets together. */
  lemma {:induction false} PushedAllKeepsNewest(rows: seq<Row>, packets: seq<Row>)
    requires rows != []
    ensures PushedAll(rows, packets) == (rows + packets)[|packets|..]
    decreases |packets|
  {
    if packets != [] {
      var next := Pushed(rows, packets[0]);
      PushedAllKeepsNewest(next, packets[1..]);
      calc {
        (next + packets[1..])[|packets| - 1..];
        { assert next + packets[1..] == (rows + packets)[1..]; }
        (rows + packets)[1..][|packets| - 1..];
        (rows + packets)[|packets|..];
      }
    }
  }

  /** Ingesting one more packet after a batch is ingesting the longer batch. */
  lemma {:induction false} PushedAllSnoc(rows: seq<Row>, packets: seq<Row>, vals: Row)
    requires rows != []
    ensures PushedAll(rows, packets + [vals]) == Pushed(PushedAll(rows, packets), vals)
  {
    PushedAllKeepsNewest(rows, packets + [vals]);
    PushedAllKeepsNewest(rows, packets);
    assert rows + (packets + [vals]) == (rows + packets) + [vals];
  }

  /** Two batches ingested one after the other equal their concatenation ingested at once. */
  lemma {:induction false} PushedAllAppend(rows: seq<Row>, first: seq<Row>, second: seq<Row>)
    requires rows != []
    ensures PushedAll(PushedAll(rows, first), second) == PushedAll(rows, first + second)
  {
    PushedAllKeepsNewest(rows, first);
    PushedAllKeepsNewest(PushedAll(rows, first), second);
    PushedAllKeepsNewest(rows, first + second);
    assert rows + (first + second) == (rows + first) + second;
  }

  /**
   * From the zero-initialised buffer: with at least `Depth` packets the
   * table holds exactly the last `Depth` of them, oldest first; with fewer,
   * it holds `Depth - n` zero rows followed by the n packets in order.
   */
  lemma {:induction false} HistoryFromStart(packets: seq<Row>)
    ensures |packets| >= Depth ==> PushedAll(Initial(), packets) == packets[|packets| - Depth..]
    ensures |packets| < Depth ==> PushedAll(Initial(), packets) == ZeroRows(Depth - |packets|) + packets
  {
    PushedAllKeepsNewest(Initial(), packets);
    var all := Initial() + packets;
    var n := |packets|;
    if n >= Depth {
      assert all[n..] == packets[n - Depth..];
    } else {
      assert Initial()[n..] == ZeroRows(Depth - n);
      assert all[n..] == Initial()[n..] + packets;
    }
  }

  /** Column `i` of the table: channel i's value in every row, oldest first. */
  function Column(rows: seq<Row>, i: nat): (col: seq<int>)
    requires forall k :: 0 <= k < |rows| ==> i < |rows[k]|
    ensures |col| == |rows|
    ensures forall k :: 0 <= k < |rows| ==> col[k] == rows[k][i]
  {
    seq(|rows|, k requires 0 <= k < |rows| => rows[k][i])
  }

  /** After one packet every column scrolls by one: its oldest value drops out and the packet's value is appended. */
  lemma ColumnOfPushed(rows: seq<Row>, vals: Row, i: nat)
    requires rows != [] && RowsOfWidth(rows, ChannelCount) && |vals| == ChannelCount && i < ChannelCount
    ensures Column(Pushed(rows, vals), i) == Column(rows, i)[1..] + [vals[i]]
  {
  }

  /**
   * The series shown for channel i after n packets from the start: the
   * channel's last `Depth` values, padded in front with zeros while fewer
   * than `Depth` packets have arrived.
   */
  lemma {:induction false} ColumnFromStart(packets: seq<Row>, i: nat)
    requires RowsOfWidth(packets, ChannelCount) && i < ChannelCount
    ensures |packets| >= Depth ==>
      Column(PushedAll(Initial(), packets), i) == Column(packets, i)[|packets| - Depth..]
    ensures |packets| < Depth ==>
      Column(PushedAll(Initial(), packets), i) == seq(Depth - |packets|, _ => 0) + Column(packets, i)
  {
    HistoryFromStart(packets);
    var n := |packets|;
    var col := Column(PushedAll(Initial(), packets), i);
    if n >= Depth {
      assert forall k :: 0 <= k < Depth ==> col[k] == packets[n - Depth + k][i];
    } else {
      var zs: seq<int> := seq(Depth - n, _ => 0);
      assert forall k :: 0 <= k < Depth - n ==> col[k] == 0 == zs[k];
      assert forall k :: Depth - n <= k < Depth ==> col[k] == packets[k - (Depth - n)][i];
    }
  }
}
