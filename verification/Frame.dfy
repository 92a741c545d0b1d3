/** The Ethernet frame that main of SocketsRawPacket/Client/client.c builds in its
    1024-byte buffer, for any message that fits. */
module Frame {
  import opened Checksum

  const BUFF_SIZE := 1024
  const ETH := 14
  const IP := 20
  const UDPH := 8

  const DEST_MAC: seq<Byte> := [0x08, 0x00, 0x27, 0x83, 0x7a, 0x42]
  const SRC_MAC: seq<Byte> := [0x08, 0x00, 0x27, 0x19, 0x34, 0x4b]
  const SOURCE_ADDRESS: seq<Byte> := [192, 168, 0, 178]
  const SERVER_ADDRESS: seq<Byte> := [192, 168, 0, 158]
  const SOURCE_PORT: Word := 8888
  const SERVER_PORT: Word := 10200

  predicate Fits(message: seq<Byte>) {
    ETH + IP + UDPH + |message| < BUFF_SIZE
  }

  function EthernetHeader(): seq<Byte> {
    DEST_MAC + SRC_MAC + Be16(0x0800)
  }

  /** The IPv4 header with its checksum field zero (section 3.1 of RFC 791). */
  function IpHeader(total: Word): (h: seq<Byte>)
    ensures |h| == 20 && h[10] == 0 && h[11] == 0
  {
    [0x45, 0] + Be16(total) + Be16(1010) + [0, 0] + [64, UDP] + [0, 0] + SOURCE_ADDRESS + SERVER_ADDRESS
  }

  /** The UDP header with its checksum field zero (RFC 768). */
  function UdpHeader(length: Word): (h: seq<Byte>)
    ensures |h| == 8 && h[6] == 0 && h[7] == 0
  {
    Be16(SOURCE_PORT) + Be16(SERVER_PORT) + Be16(length) + [0, 0]
  }

  function IpTotal(message: seq<Byte>): Word
    requires Fits(message)
  {
    IP + UDPH + |message|
  }

  function UdpLength(message: seq<Byte>): Word
    requires Fits(message)
  {
    UDPH + |message|
  }

  function IpCheck(message: seq<Byte>): Word
    requires Fits(message)
  {
    Complement(FoldTwice(NativeSum(IpHeader(IpTotal(message)))))
  }

  function UdpCheck(message: seq<Byte>): Word
    requires Fits(message)
  {
    Complement(Fold(NativeSum(UdpCovered(SOURCE_ADDRESS, SERVER_ADDRESS, UdpHeader(UdpLength(message)), message))))
  }

  function FrameOf(message: seq<Byte>): seq<Byte>
    requires Fits(message)
  {
    EthernetHeader()
    + Stored(IpHeader(IpTotal(message)), 10, IpCheck(message))
    + Stored(UdpHeader(UdpLength(message)), 6, UdpCheck(message))
    + message
  }

  /** Writes bytes just after a part of the buffer already filled, and nothing else. */
  method Put(buffer: array<Byte>, start: nat, ghost filled: seq<Byte>, at: nat, bytes: seq<Byte>)
    requires start <= at && at + |bytes| <= buffer.Length && buffer[start..at] == filled
    modifies buffer
    ensures buffer[start..at + |bytes|] == filled + bytes
    ensures Untouched(old(buffer[..]), buffer[..], start, at + |bytes|)
  {
    for i := 0 to |bytes|
      invariant buffer[start..at + i] == filled + bytes[..i]
      invariant Untouched(old(buffer[..]), buffer[..], start, at + |bytes|)
    {
      buffer[at + i] := bytes[i];
    }
  }

  /** The two buffers agree outside lo..hi. */
  ghost predicate Untouched(a: seq<Byte>, b: seq<Byte>, lo: nat, hi: nat)
    requires |a| == |b|
  {
    forall i :: 0 <= i < |a| && (i < lo || hi <= i) ==> a[i] == b[i]
  }

  /** Assigns the checksum field at offset o of the n-byte header at `start`. */
  method PutCheck(buffer: array<Byte>, start: nat, n: nat, o: nat, check: Word)
    requires start + n <= buffer.Length && o + 1 < n
    modifies buffer
    ensures buffer[start..start + n] == Stored(old(buffer[start..start + n]), o, check)
    ensures Untouched(old(buffer[..]), buffer[..], start, start + n)
  {
    buffer[start + o] := check % 0x100;
    buffer[start + o + 1] := check / 0x100;
  }

  lemma SubSlice(s: seq<Byte>, a: nat, b: nat, c: nat, d: nat)
    requires a <= b <= |s| && c <= d <= b - a
    ensures s[a..b][c..d] == s[a + c..a + d]
  {
    var t, u := s[a..b][c..d], s[a + c..a + d];
    assert |t| == |u| && forall i :: 0 <= i < |t| ==> t[i] == s[a + c + i] == u[i];
  }

  /** The IPv4 header, its checksum field assigned last. */
  method PutIp(buffer: array<Byte>, at: nat, message: seq<Byte>)
    requires at + 20 <= buffer.Length && Fits(message)
    modifies buffer
    ensures buffer[at..at + 20] == Stored(IpHeader(IpTotal(message)), 10, IpCheck(message))
    ensures Untouched(old(buffer[..]), buffer[..], at, at + 20)
  {
    ghost var was, total := buffer[..], IpTotal(message);
    ghost var h: seq<Byte> := [0x45, 0];
    Put(buffer, at, [], at, [0x45, 0]);
    Put(buffer, at, h, at + 2, Be16(IpTotal(message)));
    h := h + Be16(total);
    Put(buffer, at, h, at + 4, Be16(1010));
    h := h + Be16(1010);
    Put(buffer, at, h, at + 6, [0, 0]);
    h := h + [0, 0];
    Put(buffer, at, h, at + 8, [64, UDP]);
    h := h + [64, UDP];
    Put(buffer, at, h, at + 10, [0, 0]);
    h := h + [0, 0];
    Put(buffer, at, h, at + 12, SOURCE_ADDRESS);
    h := h + SOURCE_ADDRESS;
    Put(buffer, at, h, at + 16, SERVER_ADDRESS);
    assert buffer[at..at + 20] == IpHeader(total);
    var check := IpChecksum(buffer, at, 20);
    PutCheck(buffer, at, 20, 10, check);
  }

  /** The UDP header and the data after an IPv4 header at `ip`; the checksum last. */
  method PutUdp(buffer: array<Byte>, ip: nat, message: seq<Byte>)
    requires Fits(message) && ip + 28 + |message| < buffer.Length
    requires buffer[ip..ip + 20] == Stored(IpHeader(IpTotal(message)), 10, IpCheck(message))
    modifies buffer
    ensures buffer[ip + 20..ip + 28] == Stored(UdpHeader(UdpLength(message)), 6, UdpCheck(message))
    ensures buffer[ip + 28..ip + 28 + |message|] == message
    ensures buffer[..ip + 20] == old(buffer[..ip + 20])
  {
    var udp := ip + 20;
    ghost var was := buffer[..];
    var header := UdpHeader(UdpLength(message));
    Put(buffer, udp, [], udp, header);
    Put(buffer, udp, header, udp + 8, message + [0]);
    UdpParts(was, buffer[..], ip, header, message);
    var check := UdpChecksum(buffer, ip, udp, udp + 8, |message|);
    PutCheck(buffer, udp, 8, 6, check);
  }

  /** What udp_checksum finds in the buffer. */
  lemma UdpParts(was: seq<Byte>, b: seq<Byte>, ip: nat, header: seq<Byte>, message: seq<Byte>)
    requires Fits(message) && |header| == 8 && ip + 28 + |message| < |was| == |b|
    requires was[ip..ip + 20] == Stored(IpHeader(IpTotal(message)), 10, IpCheck(message))
    requires Untouched(was, b, ip + 20, ip + 29 + |message|)
    requires b[ip + 20..ip + 29 + |message|] == header + (message + [0])
    ensures b[ip + 12..ip + 16] == SOURCE_ADDRESS && b[ip + 16..ip + 20] == SERVER_ADDRESS
    ensures b[ip + 20..ip + 28] == header && b[ip + 28..ip + 28 + |message|] == message
  {
    AddressesIn(IpTotal(message), IpCheck(message));
    SubSlice(was, ip, ip + 20, 12, 16);
    SubSlice(was, ip, ip + 20, 16, 20);
    SubSlice(b, ip + 20, ip + 29 + |message|, 0, 8);
    SubSlice(b, ip + 20, ip + 29 + |message|, 8, 8 + |message|);
    assert b[ip + 12..ip + 16] == was[ip + 12..ip + 16];
    assert b[ip + 16..ip + 20] == was[ip + 16..ip + 20];
  }

  /** The frame main sends: the first `total` bytes of its buffer. */
  method BuildFrame(message: seq<Byte>) returns (buffer: array<Byte>, total: nat)
    requires Fits(message)
    ensures fresh(buffer) && buffer.Length == BUFF_SIZE && total == ETH + IP + UDPH + |message|
    ensures buffer[..total] == FrameOf(message)
  {
    buffer := new Byte[BUFF_SIZE](_ => 0);
    total := ETH + IP + UDPH + |message|;
    Put(buffer, 0, [], 0, EthernetHeader());
    PutIp(buffer, 14, message);
    ghost var was := buffer[..];
    PutUdp(buffer, 14, message);
    Join(was, buffer[..], EthernetHeader(), 14, 34, 42, total);
  }

  lemma Join(was: seq<Byte>, b: seq<Byte>, first: seq<Byte>, i: nat, j: nat, k: nat, l: nat)
    requires i <= j <= k <= l <= |was| == |b|
    requires was[..j] == b[..j] && was[..i] == first
    ensures b[..l] == first + was[i..j] + b[j..k] + b[k..l]
  {
    assert b[..i] == was[..j][..i] == first;
    assert b[i..j] == was[i..j];
  }

  lemma AddressesIn(total: Word, check: Word)
    ensures Stored(IpHeader(total), 10, check)[12..16] == SOURCE_ADDRESS
    ensures Stored(IpHeader(total), 10, check)[16..20] == SERVER_ADDRESS
    ensures |EthernetHeader()| == 14
  {
  }

  /** The headers field by field, at their places in the frame: EtherType, version and header
      length, total length, identification, time to live, protocol, addresses, ports, length. */
  lemma FrameFields(message: seq<Byte>)
    requires Fits(message)
    ensures var f := FrameOf(message);
            && |f| == 42 + |message|
            && f[0..6] == [0x08, 0x00, 0x27, 0x83, 0x7a, 0x42] && f[6..12] == [0x08, 0x00, 0x27, 0x19, 0x34, 0x4b]
            && f[12] == 0x08 && f[13] == 0x00
            && f[14] == 0x45 && f[15] == 0
            && 0x100 * (f[16] as int) + f[17] == |f| - 14 && 0x100 * (f[18] as int) + f[19] == 1010
            && f[20] == 0 && f[21] == 0 && f[22] == 64 && f[23] == 17
            && f[26..30] == [192, 168, 0, 178] && f[30..34] == [192, 168, 0, 158]
            && 0x100 * (f[34] as int) + f[35] == 8888 && 0x100 * (f[36] as int) + f[37] == 10200
            && 0x100 * (f[38] as int) + f[39] == |f| - 34
            && f[42..] == message
  {
    var f := FrameOf(message);
    var ip := Stored(IpHeader(IpTotal(message)), 10, IpCheck(message));
    var udp := Stored(UdpHeader(UdpLength(message)), 6, UdpCheck(message));
    var eth := EthernetHeader();
    IpFields(IpTotal(message), IpCheck(message));
    UdpFields(UdpLength(message), UdpCheck(message));
    assert |eth| == 14;
    assert forall i :: 0 <= i < 14 ==> f[i] == eth[i];
    assert forall i :: 0 <= i < 20 ==> f[14 + i] == ip[i];
    assert forall i :: 0 <= i < 8 ==> f[34 + i] == udp[i];
    assert f[26..30] == ip[12..16] && f[30..34] == ip[16..20];
  }

  lemma IpFields(total: Word, check: Word)
    ensures var h := Stored(IpHeader(total), 10, check);
            && h[0] == 0x45 && h[1] == 0 && 0x100 * (h[2] as int) + h[3] == total && 0x100 * (h[4] as int) + h[5] == 1010
            && h[6] == 0 && h[7] == 0 && h[8] == 64 && h[9] == 17
            && h[12..16] == [192, 168, 0, 178] && h[16..20] == [192, 168, 0, 158]
  {
    BytesOf(total, total / 0x100, total % 0x100);
  }

  lemma UdpFields(length: Word, check: Word)
    ensures var h := Stored(UdpHeader(length), 6, check);
            && 0x100 * (h[0] as int) + h[1] == 8888 && 0x100 * (h[2] as int) + h[3] == 10200 && 0x100 * (h[4] as int) + h[5] == length
  {
    BytesOf(length, length / 0x100, length % 0x100);
  }

  /** The receiver accepts the frame: the header sums to 0xFFFF, and so do the
      pseudo-header it reads from the packet, the UDP header and the data; every
      length field says how much follows. */
  lemma ReceiverAcceptsFrame(message: seq<Byte>)
    requires Fits(message)
    ensures var f := FrameOf(message);
            && |f| == ETH + IP + UDPH + |message|
            && Accepts(f[14..34])
            && Accepts(UdpCovered(f[26..30], f[30..34], f[34..42], f[42..]))
            && f[42..] == message
            && f[16..18] == Be16(|f| - ETH) && f[38..40] == Be16(|f| - ETH - IP)
  {
    var f := FrameOf(message);
    var ipZero, udpZero := IpHeader(IpTotal(message)), UdpHeader(UdpLength(message));
    var ip, udp := Stored(ipZero, 10, IpCheck(message)), Stored(udpZero, 6, UdpCheck(message));
    assert |EthernetHeader()| == 14;
    assert f[14..34] == ip && f[34..42] == udp && f[42..] == message;
    assert f[26..30] == f[14..34][12..16] && f[30..34] == f[14..34][16..20];
    AddressesIn(IpTotal(message), IpCheck(message));
    ShortcutIsExact(ipZero);
    ReceiverAcceptsIff(ipZero, 10, IpCheck(message));
    var covered := UdpCovered(SOURCE_ADDRESS, SERVER_ADDRESS, udpZero, message);
    assert covered[18] == udpZero[6] && covered[19] == udpZero[7];
    ReceiverAcceptsIff(covered, 18, UdpCheck(message));
    assert Stored(covered, 18, UdpCheck(message)) == UdpCovered(SOURCE_ADDRESS, SERVER_ADDRESS, udp, message);
    assert f[16..18] == f[14..34][2..4] == ip[2..4] == Be16(IpTotal(message));
    assert f[38..40] == f[34..42][4..6] == udp[4..6] == Be16(UdpLength(message));
  }
}
