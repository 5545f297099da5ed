/** Status and re-send request packets (hw_stuff.go). */
module StatusPackets {
  import opened Wire

  datatype TargetStatus = TargetStatus(mtu: Word, nresponsebuffer: Word, nextid: Half,
                                       received: seq<PacketHeader>, sent: seq<PacketHeader>)

  function NewResendPacket(id: Half): seq<Byte> {
    [PROTOCOL_VERSION * 0x10, id / 0x100, id % 0x100, 0xf0 + RESEND]
  }

  function NewStatusPacket(): seq<Byte> {
    [PROTOCOL_VERSION * 0x10, 0, 0, 0xf0 + STATUS] + seq(60, _ => 0)
  }

  /** Both queries carry a big-endian header; the re-send request names the lost packet. */
  lemma QueriesDecode(id: Half)
    ensures DecodePacketHeader(NewResendPacket(id)) == Some(PacketHeader(PROTOCOL_VERSION, id, RESEND, BigEndian))
    ensures DecodePacketHeader(NewStatusPacket()) == Some(PacketHeader(PROTOCOL_VERSION, 0, STATUS, BigEndian))
    ensures |NewStatusPacket()| == 64
  {
  }

  /** The valid headers among `n` slots of four bytes. */
  function ValidHeaders(slots: seq<Byte>, n: nat): seq<PacketHeader>
    requires |slots| >= 4 * n
  {
    if n == 0 then []
    else
      ValidHeaders(slots, n - 1) +
      match DecodePacketHeader(slots[4 * (n - 1)..4 * n]) case None => [] case Some(h) => [h]
  }

  lemma SliceOfSlice(data: seq<Byte>, start: nat, n: nat, i: nat)
    requires i + 4 <= n && start + n <= |data|
    ensures data[start..start + n][i..i + 4] == data[start + i..start + i + 4]
  {
    var xs, ys := data[start..start + n][i..i + 4], data[start + i..start + i + 4];
    forall k | 0 <= k < 4
      ensures xs[k] == ys[k]
    {
      assert xs[k] == data[start..start + n][i + k] == data[start + i + k];
    }
    assert |xs| == |ys| == 4;
  }

  method ReadHeaders(data: seq<Byte>, start: nat) returns (headers: seq<PacketHeader>)
    requires |data| >= start + 16
    ensures headers == ValidHeaders(data[start..start + 16], 4)
  {
    headers := [];
    for i := 0 to 4
      invariant headers == ValidHeaders(data[start..start + 16], i)
    {
      var index := start + 4 * i;
      SliceOfSlice(data, start, 16, 4 * i);
      var header := DecodePacketHeader(data[index..index + 4]);
      if header.Some? {
        headers := headers + [header.value];
      }
    }
  }

  /** The fields of a status reply of 64 bytes. */
  function StatusOf(data: seq<Byte>): TargetStatus
    requires |data| >= 64
  {
    TargetStatus(GetWord(BigEndian, data[4..8]), GetWord(BigEndian, data[8..12]),
                 GetWord(BigEndian, data[12..16]) / 0x100 % 0x1_0000,
                 ValidHeaders(data[32..48], 4), ValidHeaders(data[48..64], 4))
  }

  method ParseStatus(data: seq<Byte>) returns (ts: TargetStatus)
    requires |data| >= 64
    ensures ts == StatusOf(data)
  {
    var mtu := GetWord(BigEndian, data[4..8]);
    var nresponsebuffer := GetWord(BigEndian, data[8..12]);
    var nextheader := GetWord(BigEndian, data[12..16]);
    var nextid := nextheader / 0x100 % 0x1_0000;
    var received := ReadHeaders(data, 32);
    var sent := ReadHeaders(data, 48);
    ts := TargetStatus(mtu, nresponsebuffer, nextid, received, sent);
  }

  // ----- a status reply as the device writes it -----

  function HeaderSlots(headers: seq<PacketHeader>): (bs: seq<Byte>)
    ensures |bs| == 4 * |headers|
  {
    if headers == [] then [] else HeaderSlots(headers[..|headers| - 1]) + EncodePacketHeader(headers[|headers| - 1])
  }

  /** Headers in four slots, unused slots zero. */
  function History(headers: seq<PacketHeader>): (bs: seq<Byte>)
    requires |headers| <= 4
    ensures |bs| == 16
  {
    HeaderSlots(headers) + seq(16 - 4 * |headers|, _ => 0)
  }

  function EncodeStatus(st: TargetStatus, traffic: seq<Byte>): seq<Byte>
    requires |st.received| <= 4 && |st.sent| <= 4 && |traffic| == 16
  {
    EncodePacketHeader(PacketHeader(PROTOCOL_VERSION, 0, STATUS, BigEndian))
    + PutWord(BigEndian, st.mtu) + PutWord(BigEndian, st.nresponsebuffer)
    + EncodePacketHeader(PacketHeader(PROTOCOL_VERSION, st.nextid, CONTROL, BigEndian))
    + traffic + History(st.received) + History(st.sent)
  }

  ghost predicate Versioned(headers: seq<PacketHeader>) {
    forall i :: 0 <= i < |headers| ==> headers[i].version == PROTOCOL_VERSION
  }

  lemma SlotAt(bs: seq<Byte>, e: seq<Byte>, rest: seq<Byte>)
    requires |e| == 4
    ensures bs + e + rest == bs + (e + rest) && (bs + (e + rest))[|bs|..|bs| + 4] == e
  {
  }

  lemma {:induction false} SlotsRead(headers: seq<PacketHeader>, rest: seq<Byte>)
    requires Versioned(headers)
    ensures ValidHeaders(HeaderSlots(headers) + rest, |headers|) == headers
  {
    if headers != [] {
      var n, h := |headers| - 1, headers[|headers| - 1];
      var bs, e := HeaderSlots(headers[..n]), EncodePacketHeader(h);
      SlotsRead(headers[..n], e + rest);
      SlotAt(bs, e, rest);
      PacketHeaderInverse(e, h);
      assert headers == headers[..n] + [h];
    }
  }

  /** Unused slots add nothing. */
  lemma {:induction false} ZerosRead(slots: seq<Byte>, k: nat, n: nat)
    requires k <= n && |slots| >= 4 * n
    requires forall i :: 4 * k <= i < 4 * n ==> slots[i] == 0
    ensures ValidHeaders(slots, n) == ValidHeaders(slots, k)
    decreases n
  {
    if k < n {
      ZerosRead(slots, k, n - 1);
      assert slots[4 * (n - 1)..4 * n] == [0, 0, 0, 0];
      assert DecodePacketHeader([0, 0, 0, 0]) == None;
    }
  }

  lemma HistoryRead(headers: seq<PacketHeader>)
    requires Versioned(headers) && |headers| <= 4
    ensures ValidHeaders(History(headers), 4) == headers
  {
    ZerosRead(History(headers), |headers|, 4);
    SlotsRead(headers, seq(16 - 4 * |headers|, _ => 0));
  }

  lemma NextIdRead(id: Half)
    ensures GetWord(BigEndian, EncodePacketHeader(PacketHeader(PROTOCOL_VERSION, id, CONTROL, BigEndian)))
              / 0x100 % 0x1_0000 == id
  {
    var e := EncodePacketHeader(PacketHeader(PROTOCOL_VERSION, id, CONTROL, BigEndian));
    assert e[..4] == e;
    assert GetWord(BigEndian, e) == 0x100 * (0x1_0000 * 0x20 + id) + 0xf0;
  }

  /** Every status a device reports is read back: MTU, buffers, next id, and the two histories with
      their order, whatever number of slots is in use. */
  lemma StatusRoundTrip(st: TargetStatus, traffic: seq<Byte>)
    requires |st.received| <= 4 && |st.sent| <= 4 && |traffic| == 16
    requires Versioned(st.received) && Versioned(st.sent)
    ensures |EncodeStatus(st, traffic)| == 64 && StatusOf(EncodeStatus(st, traffic)) == st
  {
    var bs := EncodeStatus(st, traffic);
    var mtu, nbuf := PutWord(BigEndian, st.mtu), PutWord(BigEndian, st.nresponsebuffer);
    var next := EncodePacketHeader(PacketHeader(PROTOCOL_VERSION, st.nextid, CONTROL, BigEndian));
    assert bs[4..8] == mtu + [] && bs[8..12] == nbuf + [] && bs[12..16] == next;
    assert bs[32..48] == History(st.received) && bs[48..64] == History(st.sent);
    GetPutWord(BigEndian, st.mtu, []);
    GetPutWord(BigEndian, st.nresponsebuffer, []);
    NextIdRead(st.nextid);
    HistoryRead(st.received);
    HistoryRead(st.sent);
  }
}
