/** An Ethernet, IPv4 and UDP frame built in place around a payload. */
module UdpFrames {
  import opened Basics
  import opened BigEndian
  import opened Checksums
  import Gateway = GatewaySpec

  const FRAME_CAP: nat := 600
  const ETHERNET: nat := 14
  const IP_HEADER: nat := 20
  const UDP_HEADER: nat := 8
  /** Payloads up to this size get a UDP checksum. */
  const MAX_SUMMED: nat := 512

  type Ip4 = b: Bytes | |b| == 4 witness [0, 0, 0, 0]
  type MacAddr = b: Bytes | |b| == 6 witness [0, 0, 0, 0, 0, 0]

  datatype Flow = Flow(dstMac: MacAddr, srcMac: MacAddr, src: Ip4, dst: Ip4, sport: U16, dport: U16)

  // ---- The frame as bytes ----------------------------------------------------------------------

  function IpZero(f: Flow, len: U16): (b: Bytes)
    ensures |b| == IP_HEADER && b[10] == 0 && b[11] == 0
  {
    [0x45, 0] + PutU16(len) + [0, 0, 0, 0, 64, 17, 0, 0] + f.src + f.dst
  }

  function IpHeader(f: Flow, len: U16): (b: Bytes)
    ensures |b| == IP_HEADER
  {
    WithWord(IpZero(f, len), 10, Csum(IpZero(f, len)))
  }

  function UdpZero(f: Flow, payload: Bytes): (b: Bytes)
    requires |payload| + UDP_HEADER < TWO_16
    ensures |b| == UDP_HEADER + |payload| && b[6] == 0 && b[7] == 0
  {
    PutU16(f.sport) + PutU16(f.dport) + PutU16(UDP_HEADER + |payload|) + [0, 0] + payload
  }

  /** What the UDP checksum covers ahead of the segment. */
  function Pseudo(f: Flow, len: U16): (b: Bytes)
    ensures |b| == 12
  {
    f.src + f.dst + [0, 17] + PutU16(len)
  }

  /** Zero in the field means no checksum, so a computed zero is sent as all ones. */
  function UdpSum(f: Flow, payload: Bytes): U16
    requires |payload| + UDP_HEADER < TWO_16
  {
    var c := Csum(Pseudo(f, UDP_HEADER + |payload|) + UdpZero(f, payload));
    if c == 0 then ONES else c
  }

  function UdpSegment(f: Flow, payload: Bytes): (b: Bytes)
    requires |payload| + UDP_HEADER < TWO_16
    ensures |b| == UDP_HEADER + |payload|
  {
    if |payload| <= MAX_SUMMED then WithWord(UdpZero(f, payload), 6, UdpSum(f, payload)) else UdpZero(f, payload)
  }

  function Frame(f: Flow, payload: Bytes): (b: Bytes)
    requires |payload| <= FRAME_CAP
    ensures |b| == ETHERNET + IP_HEADER + UDP_HEADER + |payload|
  {
    f.dstMac + f.srcMac + [8, 0] + IpHeader(f, IP_HEADER + UDP_HEADER + |payload|) + UdpSegment(f, payload)
  }

  // ---- Receivers accept it ---------------------------------------------------------------------

  /** Summing the finished IPv4 header gives zero. */
  lemma HeaderVerifies(f: Flow, payload: Bytes)
    requires |payload| <= FRAME_CAP
    ensures Csum(Frame(f, payload)[ETHERNET..ETHERNET + IP_HEADER]) == 0
  {
    var len: U16 := IP_HEADER + UDP_HEADER + |payload|;
    ChecksumVerifies(IpZero(f, len), 10);
    assert Frame(f, payload)[ETHERNET..ETHERNET + IP_HEADER] == IpHeader(f, len);
  }

  lemma SegmentVerifies(f: Flow, payload: Bytes)
    requires |payload| <= MAX_SUMMED
    ensures Csum(Pseudo(f, UDP_HEADER + |payload|) + UdpSegment(f, payload)) == 0 && UdpSum(f, payload) != 0
  {
    var pseudo := Pseudo(f, UDP_HEADER + |payload|);
    var zero := UdpZero(f, payload);
    assert pseudo + WithWord(zero, 6, UdpSum(f, payload)) == WithWord(pseudo + zero, 18, UdpSum(f, payload));
    if Csum(pseudo + zero) == 0 {
      ShortNeverWraps(pseudo + zero, 18);
      AllOnesVerifies(pseudo + zero, 18);
    } else {
      ChecksumVerifies(pseudo + zero, 18);
    }
  }

  /** Summing pseudo-header and segment gives zero for every payload up to 512 bytes, and the field is
      never the "no checksum" value; longer payloads are sent with exactly that value. */
  lemma UdpVerifies(f: Flow, payload: Bytes)
    requires |payload| <= FRAME_CAP
    ensures var segment := Frame(f, payload)[ETHERNET + IP_HEADER..];
            if |payload| <= MAX_SUMMED
            then Csum(Pseudo(f, UDP_HEADER + |payload|) + segment) == 0 && segment[6..8] != [0, 0]
            else segment[6..8] == [0, 0]
  {
    var segment := UdpSegment(f, payload);
    assert Frame(f, payload)[ETHERNET + IP_HEADER..] == segment;
    if |payload| <= MAX_SUMMED {
      SegmentVerifies(f, payload);
      TwoBytes(UdpSum(f, payload));
      assert segment[6..8] == PutU16(UdpSum(f, payload));
    }
  }

  /** The gateway's parser reads the flow's addresses from the IPv4 packet in a frame. */
  lemma FrameParses(f: Flow, payload: Bytes)
    requires |payload| <= FRAME_CAP
    ensures Gateway.ParseIPv4(Frame(f, payload)[ETHERNET..])
         == Some(Gateway.Inner(Gateway.AddrOf(f.src), Gateway.AddrOf(f.dst)))
  {
    var len: U16 := IP_HEADER + UDP_HEADER + |payload|;
    var packet := Frame(f, payload)[ETHERNET..];
    hide IpHeader, UdpSegment, Gateway.AddrOf;
    var header := IpHeader(f, len);
    FrameBody(f.dstMac + f.srcMac + [8, 0], header, UdpSegment(f, payload));
    HeaderFields(f, len);
  }

  lemma FrameBody(ethernet: Bytes, header: Bytes, segment: Bytes)
    requires |ethernet| == ETHERNET && |header| == IP_HEADER
    ensures var packet := (ethernet + header + segment)[ETHERNET..];
            && |packet| == IP_HEADER + |segment| && packet[0] == header[0]
            && packet[12..16] == header[12..16] && packet[16..20] == header[16..20]
  {
  }

  lemma HeaderFields(f: Flow, len: U16)
    ensures var b := IpHeader(f, len); b[0] == 0x45 && b[12..16] == f.src && b[16..20] == f.dst
  {
    var zero := IpZero(f, len);
    assert zero[12..16] == f.src && zero[16..20] == f.dst && zero[0] == 0x45;
    hide IpZero, Csum;
    var b := IpHeader(f, len);
    assert b[12..16] == zero[12..16] && b[16..20] == zero[16..20] && b[0] == zero[0];
  }

  // ---- What stands where -----------------------------------------------------------------------

  /** The IPv4 header: version and header length, total length, no identification, flags or offset, time
      to live 64, protocol 17, and the two addresses. */
  lemma IpLayout(f: Flow, len: U16)
    ensures var b := IpHeader(f, len);
            && b[0] == 0x45 && b[1] == 0 && GetU16(b[2..4]) == len && b[4..8] == [0, 0, 0, 0]
            && b[8] == 64 && b[9] == 17 && b[12..16] == f.src && b[16..20] == f.dst
  {
    var zero, b := IpZero(f, len), IpHeader(f, len);
    assert zero[2..4] == PutU16(len) && zero[4..8] == [0, 0, 0, 0] && zero[12..16] == f.src && zero[16..20] == f.dst;
    assert zero[0] == 0x45 && zero[1] == 0 && zero[8] == 64 && zero[9] == 17;
    U16RoundTrip(len);
    hide IpZero, Csum, PutU16, GetU16;
    assert b[..10] == zero[..10] && b[12..] == zero[12..];
    assert b[2..4] == b[..10][2..4] && b[4..8] == b[..10][4..8] && b[12..16] == b[12..][..4] && b[16..20] == b[12..][4..];
    assert zero[2..4] == zero[..10][2..4] && zero[4..8] == zero[..10][4..8];
    assert zero[12..16] == zero[12..][..4] && zero[16..20] == zero[12..][4..];
    assert b[..10][0] == b[0] && b[..10][1] == b[1] && b[..10][8] == b[8] && b[..10][9] == b[9];
  }

  /** The UDP segment: ports, length, and the payload behind the checksum. */
  lemma UdpLayout(f: Flow, payload: Bytes)
    requires |payload| + UDP_HEADER < TWO_16
    ensures var b := UdpSegment(f, payload);
            && GetU16(b[0..2]) == f.sport && GetU16(b[2..4]) == f.dport && GetU16(b[4..6]) == 8 + |payload| && b[8..] == payload
  {
    var zero, b := UdpZero(f, payload), UdpSegment(f, payload);
    assert zero[0..2] == PutU16(f.sport) && zero[2..4] == PutU16(f.dport);
    assert zero[4..6] == PutU16(UDP_HEADER + |payload|) && zero[8..] == payload;
    U16RoundTrip(f.sport);
    U16RoundTrip(f.dport);
    U16RoundTrip(UDP_HEADER + |payload|);
    hide UdpZero, UdpSum, PutU16, GetU16;
    assert b[..6] == zero[..6] && b[8..] == zero[8..];
    assert b[0..2] == b[..6][0..2] && b[2..4] == b[..6][2..4] && b[4..6] == b[..6][4..6];
    assert zero[0..2] == zero[..6][0..2] && zero[2..4] == zero[..6][2..4] && zero[4..6] == zero[..6][4..6];
  }

  /** What the UDP checksum covers ahead of the segment: the addresses, zero, 17 and the length. */
  lemma PseudoLayout(f: Flow, len: U16)
    ensures var b := Pseudo(f, len);
            |b| == 12 && b[0..4] == f.src && b[4..8] == f.dst && b[8] == 0 && b[9] == 17 && GetU16(b[10..12]) == len
  {
    assert Pseudo(f, len)[10..12] == PutU16(len);
    U16RoundTrip(len);
  }

  /** The finished frame, byte by byte but for the two checksums. */
  ghost predicate FrameLaid(b: Bytes, f: Flow, payload: Bytes) {
    && |b| == 42 + |payload|
    && b[0..6] == f.dstMac && b[6..12] == f.srcMac && b[12] == 8 && b[13] == 0
    && b[14] == 0x45 && b[15] == 0 && GetU16(b[16..18]) == |b| - 14 && b[18..22] == [0, 0, 0, 0] && b[22] == 64 && b[23] == 17
    && b[26..30] == f.src && b[30..34] == f.dst
    && GetU16(b[34..36]) == f.sport && GetU16(b[36..38]) == f.dport && GetU16(b[38..40]) == 8 + |payload| && b[42..] == payload
  }

  lemma FrameLayout(f: Flow, payload: Bytes)
    requires |payload| <= FRAME_CAP
    ensures FrameLaid(Frame(f, payload), f, payload)
  {
    var len: U16 := IP_HEADER + UDP_HEADER + |payload|;
    IpLayout(f, len);
    UdpLayout(f, payload);
    hide IpHeader, UdpSegment, GetU16;
    PartsLaid(f.dstMac, f.srcMac, IpHeader(f, len), UdpSegment(f, payload));
  }

  /** Where the parts of a frame end up in it. */
  lemma PartsLaid(dst: MacAddr, src: MacAddr, ip: Bytes, udp: Bytes)
    requires |ip| == 20 && |udp| >= 8
    ensures var b := dst + src + [8, 0] + ip + udp;
            && |b| == 34 + |udp| && b[0..6] == dst && b[6..12] == src && b[12] == 8 && b[13] == 0
            && b[14] == ip[0] && b[15] == ip[1] && b[16..18] == ip[2..4] && b[18..22] == ip[4..8] && b[22] == ip[8] && b[23] == ip[9]
            && b[26..30] == ip[12..16] && b[30..34] == ip[16..20]
            && b[34..36] == udp[0..2] && b[36..38] == udp[2..4] && b[38..40] == udp[4..6] && b[42..] == udp[8..]
  {
  }

  // ---- Building it in place --------------------------------------------------------------------

  /** Nothing outside `lo..hi` differs from `was`. */
  ghost predicate Only(now: Bytes, was: Bytes, lo: nat, hi: nat) {
    |now| == |was| && forall k | 0 <= k < |was| && !(lo <= k < hi) :: now[k] == was[k]
  }

  lemma OnlyNothing(was: Bytes, lo: nat)
    ensures Only(was, was, lo, lo)
  {
  }

  lemma OnlyBoth(now: Bytes, mid: Bytes, was: Bytes, lo: nat, at: nat, hi: nat)
    requires lo <= at <= hi && Only(now, mid, lo, at) && Only(mid, was, at, hi)
    ensures Only(now, was, lo, hi)
  {
  }

  lemma OnlyWider(now: Bytes, was: Bytes, lo: nat, hi: nat, lo': nat, hi': nat)
    requires lo' <= lo && hi <= hi' && Only(now, was, lo, hi)
    ensures Only(now, was, lo', hi')
  {
  }

  /** What lies outside is kept. */
  lemma Kept(now: Bytes, was: Bytes, lo: nat, hi: nat, i: nat, j: nat)
    requires Only(now, was, lo, hi) && i <= j <= |was| && (j <= lo || hi <= i)
    ensures |now| == |was| && now[i..j] == was[i..j]
  {
  }

  /** Writes `src` behind the stretch that begins at `lo`. */
  method PutNext(out: array<Byte>, ghost was: Bytes, ghost lo: nat, off: nat, src: Bytes)
    requires lo <= off && off + |src| <= out.Length && Only(out[..], was, lo, off)
    modifies out
    ensures out[lo..off + |src|] == old(out[lo..off]) + src && Only(out[..], was, lo, off + |src|)
  {
    CopyInto(out, off, src);
    assert out[lo..off] == old(out[lo..off]) && out[off..off + |src|] == src;
    assert out[lo..off + |src|] == out[lo..off] + out[off..off + |src|];
  }

  lemma IpFixedIs(len: U16)
    ensures [] + [0x45, 0] + PutU16(len) + [0, 0] + [0, 0] + [64, 17] + [0, 0] == [0x45, 0] + PutU16(len) + [0, 0, 0, 0, 64, 17, 0, 0]
  {
  }

  method PutIpFields(frame: array<Byte>, f: Flow, len: U16)
    requires frame.Length >= FRAME_CAP
    modifies frame
    ensures frame[14..34] == IpZero(f, len) && Only(frame[..], old(frame[..]), 14, 34)
  {
    hide Only, PutU16;
    ghost var was := frame[..];
    OnlyNothing(was, 14);
    PutNext(frame, was, 14, 14, [0x45, 0]);
    PutNext(frame, was, 14, 16, PutU16(len));
    PutNext(frame, was, 14, 18, [0, 0]);
    PutNext(frame, was, 14, 20, [0, 0]);
    PutNext(frame, was, 14, 22, [64, 17]);
    PutNext(frame, was, 14, 24, [0, 0]);
    IpFixedIs(len);
    PutNext(frame, was, 14, 26, f.src);
    PutNext(frame, was, 14, 30, f.dst);
  }

  /** Writes a word at `at` into the stretch `lo..hi`. */
  method PutWord(frame: array<Byte>, lo: nat, hi: nat, at: nat, w: U16)
    requires lo <= at && at + 2 <= hi <= frame.Length
    modifies frame
    ensures frame[lo..hi] == WithWord(old(frame[lo..hi]), at - lo, w)
    ensures Only(frame[..], old(frame[..]), at, at + 2)
  {
    ghost var was := frame[lo..hi];
    CopyInto(frame, at, PutU16(w));
    assert frame[lo..at] == was[..at - lo] && frame[at..at + 2] == PutU16(w) && frame[at + 2..hi] == was[at - lo + 2..];
    assert frame[lo..hi] == frame[lo..at] + frame[at..at + 2] + frame[at + 2..hi];
  }

  method PutIp(frame: array<Byte>, f: Flow, len: U16)
    requires frame.Length >= FRAME_CAP
    modifies frame
    ensures frame[14..34] == IpHeader(f, len) && Only(frame[..], old(frame[..]), 14, 34)
  {
    hide IpZero, Csum, WithWord, Only;
    ghost var was := frame[..];
    PutIpFields(frame, f, len);
    ghost var mid := frame[..];
    var c := InetCsum(frame, 14, IP_HEADER);
    PutWord(frame, 14, 34, 24, c);
    OnlyWider(frame[..], mid, 24, 26, 14, 34);
    OnlyTwice(frame[..], mid, was, 14, 34);
  }

  lemma OnlyTwice(now: Bytes, mid: Bytes, was: Bytes, lo: nat, hi: nat)
    requires Only(now, mid, lo, hi) && Only(mid, was, lo, hi)
    ensures Only(now, was, lo, hi)
  {
  }

  method PutUdpHeader(frame: array<Byte>, f: Flow, len: U16)
    requires frame.Length >= FRAME_CAP
    modifies frame
    ensures frame[34..42] == PutU16(f.sport) + PutU16(f.dport) + PutU16(len) + [0, 0]
    ensures Only(frame[..], old(frame[..]), 34, 42)
  {
    hide Only, PutU16;
    ghost var was := frame[..];
    OnlyNothing(was, 34);
    PutNext(frame, was, 34, 34, PutU16(f.sport));
    PutNext(frame, was, 34, 36, PutU16(f.dport));
    PutNext(frame, was, 34, 38, PutU16(len));
    PutNext(frame, was, 34, 40, [0, 0]);
  }

  method PutUdp(frame: array<Byte>, f: Flow, payload: Bytes)
    requires frame.Length >= FRAME_CAP && 42 + |payload| <= FRAME_CAP
    modifies frame
    ensures frame[34..42 + |payload|] == UdpZero(f, payload)
    ensures Only(frame[..], old(frame[..]), 34, 42 + |payload|)
  {
    hide Only, PutU16;
    ghost var was, end := frame[..], 42 + |payload|;
    OnlyNothing(was, 42);
    PutNext(frame, was, 42, 42, payload);
    ghost var mid := frame[..];
    PutUdpHeader(frame, f, UDP_HEADER + |payload|);
    Kept(frame[..], mid, 34, 42, 42, end);
    OnlyBoth(frame[..], mid, was, 34, 42, end);
    assert frame[34..end] == frame[34..42] + frame[42..end];
  }

  /** The pseudo-header and the segment, side by side in a buffer of their own. */
  method GatherPseudo(pseudo: array<Byte>, f: Flow, segment: Bytes)
    requires 12 + |segment| <= pseudo.Length && |segment| < TWO_16
    modifies pseudo
    ensures pseudo[0..12 + |segment|] == Pseudo(f, |segment|) + segment
  {
    hide Only, PutU16;
    ghost var was := pseudo[..];
    OnlyNothing(was, 0);
    PutNext(pseudo, was, 0, 0, f.src);
    PutNext(pseudo, was, 0, 4, f.dst);
    PutNext(pseudo, was, 0, 8, [0, 17]);
    PutNext(pseudo, was, 0, 10, PutU16(|segment|));
    PutNext(pseudo, was, 0, 12, segment);
  }

  method PutUdpSum(frame: array<Byte>, f: Flow, ghost payload: Bytes, udpLen: nat)
    requires frame.Length >= FRAME_CAP && 34 + udpLen <= FRAME_CAP && udpLen == UDP_HEADER + |payload|
    requires frame[34..34 + udpLen] == UdpZero(f, payload)
    modifies frame
    ensures frame[34..34 + udpLen] == UdpSegment(f, payload)
    ensures Only(frame[..], old(frame[..]), 40, 42)
  {
    hide UdpZero, Csum, WithWord, Pseudo, Only;
    OnlyNothing(frame[..], 40);
    OnlyWider(frame[..], frame[..], 40, 40, 40, 42);
    var pseudo := new Byte[12 + 8 + 512](_ => 0);
    if udpLen <= pseudo.Length - 12 {
      GatherPseudo(pseudo, f, frame[34..34 + udpLen]);
      var c := InetCsum(pseudo, 0, 12 + udpLen);
      if c == 0 {
        c := ONES;
      }
      PutWord(frame, 34, 34 + udpLen, 40, c);
    }
  }

  method PutEthernet(frame: array<Byte>, f: Flow)
    requires frame.Length >= FRAME_CAP
    modifies frame
    ensures frame[..14] == f.dstMac + f.srcMac + [8, 0] && Only(frame[..], old(frame[..]), 0, 14)
  {
    hide Only;
    ghost var was := frame[..];
    OnlyNothing(was, 0);
    PutNext(frame, was, 0, 0, f.dstMac);
    PutNext(frame, was, 0, 6, f.srcMac);
    PutNext(frame, was, 0, 12, [8, 0]);
  }

  method Clear(frame: array<Byte>, n: nat)
    requires n <= frame.Length
    modifies frame
    ensures Only(frame[..], old(frame[..]), 0, n) && forall k | 0 <= k < n :: frame[k] == 0
  {
    for i := 0 to n
      invariant Only(frame[..], old(frame[..]), 0, n) && forall k | 0 <= k < i :: frame[k] == 0
    {
      frame[i] := 0;
    }
  }

  /** Fills `frame` and returns its length, or -1 with the buffer untouched when the frame would not
      fit. */
  method BuildUdpFrame(frame: array<Byte>, f: Flow, payload: Bytes, plen: int) returns (n: int)
    requires frame.Length >= FRAME_CAP && plen <= |payload|
    modifies frame
    ensures plen < 0 || 42 + plen > FRAME_CAP ==> n == -1 && frame[..] == old(frame[..])
    ensures 0 <= plen && 42 + plen <= FRAME_CAP ==>
              && n == 42 + plen && frame[..n] == Frame(f, payload[..plen]) && Only(frame[..], old(frame[..]), 0, n)
              && FrameLaid(frame[..n], f, payload[..plen])
  {
    hide UdpZero, UdpSegment, IpHeader, Only, FrameLaid;
    n := ETHERNET + IP_HEADER + UDP_HEADER + plen;
    if plen < 0 || n > FRAME_CAP {
      return -1;
    }
    ghost var a := frame[..];
    FrameLayout(f, payload[..plen]);
    Clear(frame, n);
    ghost var b := frame[..];
    PutEthernet(frame, f);
    ghost var c := frame[..];
    PutUdp(frame, f, payload[..plen]);
    ghost var d := frame[..];
    PutIp(frame, f, IP_HEADER + UDP_HEADER + plen);
    ghost var e := frame[..];
    Kept(e, d, 14, 34, 34, n);
    PutUdpSum(frame, f, payload[..plen], UDP_HEADER + plen);
    FrameParts(a, b, c, d, e, frame[..], n);
    assert frame[..n] == frame[..14] + frame[14..34] + frame[34..n];
  }

  /** Each part stays as it was written, and nothing beyond the frame is touched. */
  lemma FrameParts(a: Bytes, b: Bytes, c: Bytes, d: Bytes, e: Bytes, now: Bytes, n: nat)
    requires 42 <= n <= |a| && Only(b, a, 0, n) && Only(c, b, 0, 14) && Only(d, c, 34, n) && Only(e, d, 14, 34) && Only(now, e, 40, 42)
    ensures |now| == |c| == |e| == |a| && now[..14] == c[..14] && now[14..34] == e[14..34] && Only(now, a, 0, n)
  {
  }
}
