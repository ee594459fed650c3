/**
 * The plotter's timer callback `update()`: read every datagram waiting on
 * the non-blocking socket into the 100 x 3 history buffer, then hand each
 * channel's column of the buffer to its curve.
 *
 * The socket is modelled by the payloads `recvfrom` returns before its
 * first `BlockingIOError`, including any that arrive during the loop; the
 * curves by the sequence of series handed to them.
 */
module Plotter {

  import opened Wire
  import opened History

  /** What one non-blocking `recvfrom(12)` yields: a payload, or would-block. */
  datatype Poll = Datagram(payload: seq<byte>) | WouldBlock

  /** The receive call after `taken` of the payloads have already been read. */
  function Receive(queue: seq<seq<byte>>, taken: nat): (p: Poll)
    ensures p.WouldBlock? <==> taken >= |queue|
    ensures p.Datagram? ==> p.payload == queue[taken]
  {
    if taken < |queue| then Datagram(queue[taken]) else WouldBlock
  }

  /** Every queued payload has the 12 bytes the decoder reads. */
  predicate WellFormedQueue(queue: seq<seq<byte>>) {
    forall k :: 0 <= k < |queue| ==> |queue[k]| == PayloadSize
  }

  /** The rows the queued payloads decode to, in arrival order. */
  function DecodeAll(queue: seq<seq<byte>>): (rows: seq<Row>)
    requires WellFormedQueue(queue)
    ensures |rows| == |queue| && RowsOfWidth(rows, ChannelCount)
    ensures forall k :: 0 <= k < |queue| ==> rows[k] == Decode(queue[k])
  {
    seq(|queue|, k requires 0 <= k < |queue| && |queue[k]| == PayloadSize => Decode(queue[k]))
  }

  /**
   * `np.roll(a, -1, axis=0)`: a new array whose row k is row (k + 1) mod n
   * of `a`, n being the number of rows.
   */
  method RollRows(a: array2<int>) returns (b: array2<int>)
    ensures fresh(b) && b.Length0 == a.Length0 && b.Length1 == a.Length1
    ensures forall k, c :: 0 <= k < a.Length0 && 0 <= c < a.Length1 ==>
      b[k, c] == a[if k + 1 < a.Length0 then k + 1 else 0, c]
  {
    var n, m := a.Length0, a.Length1;
    b := new int[n, m];
    for k := 0 to n
      invariant forall k', c :: 0 <= k' < k && 0 <= c < m ==>
        b[k', c] == a[if k' + 1 < n then k' + 1 else 0, c]
    {
      var from := if k + 1 < n then k + 1 else 0;
      for c := 0 to m
        invariant forall c' :: 0 <= c' < c ==> b[k, c'] == a[from, c']
        invariant forall k', c' :: 0 <= k' < k && 0 <= c' < m ==>
          b[k', c'] == a[if k' + 1 < n then k' + 1 else 0, c']
      {
        b[k, c] := a[from, c];
      }
    }
  }

  /** The module-level `data_buffer` of the plotter. */
  class DataBuffer {

    /** Depth rows of ChannelCount channel values. */
    var data: array2<int>
    /** The table `data` holds, oldest row first. */
    ghost var Rows: seq<Row>

    ghost predicate Valid()
      reads this, data
    {
      && data.Length0 == Depth && data.Length1 == ChannelCount
      && WellShaped(Rows)
      && forall k, c :: 0 <= k < Depth && 0 <= c < ChannelCount ==> data[k, c] == Rows[k][c]
    }

    /** `np.zeros((100, 3))`. */
    constructor ()
      ensures Valid() && fresh(data)
      ensures Rows == Initial()
    {
      data := new int[Depth, ChannelCount]((k, c) => 0);
      Rows := Initial();
    }

    /** One packet's values stored: roll the buffer, then overwrite its last row. */
    method Push(vals: Row)
      requires Valid() && |vals| == ChannelCount
      modifies this
      ensures Valid() && fresh(data)
      ensures Rows == Pushed(old(Rows), vals)
    {
      var rolled := RollRows(data);
      ghost var expected := Roll(Rows);
      for c := 0 to ChannelCount
        modifies rolled
        invariant forall k, c' :: 0 <= k < Depth && 0 <= c' < ChannelCount ==>
          rolled[k, c'] == if k == Depth - 1 && c' < c then vals[c'] else expected[k][c']
      {
        rolled[Depth - 1, c] := vals[c];
      }
      data := rolled;
      Rows := Pushed(Rows, vals);
    }

    /**
     * The `while True` loop: receive and store datagrams in arrival order
     * until the socket reports would-block, which ends the loop with the
     * buffer left as the last datagram made it.
     */
    method Drain(queue: seq<seq<byte>>)
      requires Valid() && WellFormedQueue(queue)
      modifies this
      ensures Valid()
      ensures Rows == PushedAll(old(Rows), DecodeAll(queue))
    {
      var taken := 0;
      while true
        invariant taken <= |queue| && Valid()
        invariant Rows == PushedAll(old(Rows), DecodeAll(queue[..taken]))
        decreases |queue| - taken
      {
        match Receive(queue, taken)
        case WouldBlock =>
          break;
        case Datagram(payload) =>
          var vals := Decode(payload);
          PushedAllSnoc(old(Rows), DecodeAll(queue[..taken]), vals);
          assert DecodeAll(queue[..taken + 1]) == DecodeAll(queue[..taken]) + [vals];
          Push(vals);
          taken := taken + 1;
      }
      assert queue[..taken] == queue;
    }

    /** `data_buffer[:, i]` for each channel i: the series handed to curve i. */
    method Series() returns (series: seq<seq<int>>)
      requires Valid()
      ensures |series| == ChannelCount
      ensures forall i :: 0 <= i < ChannelCount ==> |series[i]| == Depth && series[i] == Column(Rows, i)
    {
      var a := data;
      series := [];
      for i := 0 to ChannelCount
        invariant |series| == i
        invariant forall i' :: 0 <= i' < i ==> series[i'] == Column(Rows, i')
      {
        var col := seq(Depth, k requires 0 <= k < a.Length0 && i < a.Length1 reads a => a[k, i]);
        series := series + [col];
      }
    }

    /** One timer tick: drain the socket, then select every channel's series. */
    method Update(queue: seq<seq<byte>>) returns (series: seq<seq<int>>)
      requires Valid() && WellFormedQueue(queue)
      modifies this
      ensures Valid()
      ensures Rows == PushedAll(old(Rows), DecodeAll(queue))
      ensures |series| == ChannelCount
      ensures forall i :: 0 <= i < ChannelCount ==> |series[i]| == Depth && series[i] == Column(Rows, i)
    {
      Drain(queue);
      series := Series();
    }
  }
}
