/** The UDP path: the Internet checksum (section 1 of RFC 1071, section 3.1 of RFC 791), building a frame, taking one
    apart, and the bounded queues of received packets. The machine is little-endian and the network big-endian. */
module Net {
  import opened FsBlocks
  import opened Params

  const U16 := 0x1_0000
  const U32 := 0x1_0000_0000
  const MAX_PENDING := 16
  const MAX_PORTS := 64

  const ETH_LEN := 14
  const IP_LEN := 20
  const UDP_LEN := 8
  const HEADERS := ETH_LEN + IP_LEN + UDP_LEN

  /** 10.0.2.15 */
  const LOCAL_IP := 0x0a00_020f
  const LOCAL_MAC: seq<Byte> := [0x52, 0x54, 0x00, 0x12, 0x34, 0x56]
  const HOST_MAC: seq<Byte> := [0x52, 0x55, 0x0a, 0x00, 0x02, 0x02]

  // ----- Byte order -----

  function Bswaps(v: int): (r: int)
    requires 0 <= v < U16
    ensures 0 <= r < U16
  {
    v % 0x100 * 0x100 + v / 0x100
  }

  function Bswapl(v: int): (r: int)
    requires 0 <= v < U32
    ensures 0 <= r < U32
  {
    v % 0x100 * 0x100_0000 + v / 0x100 % 0x100 * 0x1_0000 + v / 0x1_0000 % 0x100 * 0x100 + v / 0x100_0000
  }

  /** Swapping twice gives the value back. */
  lemma BswapsTwice(v: int)
    requires 0 <= v < U16
    ensures Bswaps(Bswaps(v)) == v
  {
    var a, b := v / 0x100, v % 0x100;
    assert (b * 0x100 + a) / 0x100 == b && (b * 0x100 + a) % 0x100 == a;
  }

  lemma BswaplTwice(v: int)
    requires 0 <= v < U32
    ensures Bswapl(Bswapl(v)) == v
  {
    var hi, lo := v / U16, v % U16;
    var a, b, c, d := hi / 0x100, hi % 0x100, lo / 0x100, lo % 0x100;
    Four(a, b, c, d, v);
    Four(d, c, b, a, Bswapl(v));
  }

  /** The bytes of a 32-bit number, from the most significant. */
  lemma Four(a: int, b: int, c: int, d: int, v: int)
    requires 0 <= a < 0x100 && 0 <= b < 0x100 && 0 <= c < 0x100 && 0 <= d < 0x100
    requires v == a * 0x100_0000 + b * 0x1_0000 + c * 0x100 + d
    ensures v % 0x100 == d && v / 0x100 % 0x100 == c && v / 0x1_0000 % 0x100 == b && v / 0x100_0000 == a
  {
    assert v / 0x100 == a * 0x1_0000 + b * 0x100 + c;
    assert v / 0x1_0000 == a * 0x100 + b;
  }

  /** A 16-bit and a 32-bit number in memory. */
  function Put16(v: int): (r: seq<Byte>)
    requires 0 <= v < U16
    ensures |r| == 2 && Get16(r, 0) == v
  {
    [v % 0x100, v / 0x100]
  }

  function Put32(v: int): (r: seq<Byte>)
    requires 0 <= v < U32
    ensures |r| == 4 && Get32(r, 0) == v
  {
    Put16(v % U16) + Put16(v / U16)
  }

  function Get16(b: seq<Byte>, o: nat): (v: int)
    requires o + 2 <= |b|
    ensures 0 <= v < U16
  {
    b[o] as int + 0x100 * (b[o + 1] as int)
  }

  function Get32(b: seq<Byte>, o: nat): (v: int)
    requires o + 4 <= |b|
    ensures 0 <= v < U32
  {
    Get16(b, o) + Get16(b, o + 2) * U16
  }

  /** A number in the network's byte order: the most significant byte comes first. */
  function Net16(b: seq<Byte>, o: nat): (v: int)
    requires o + 2 <= |b|
    ensures 0 <= v < U16
  {
    0x100 * (b[o] as int) + b[o + 1] as int
  }

  function Net32(b: seq<Byte>, o: nat): (v: int)
    requires o + 4 <= |b|
    ensures 0 <= v < U32
  {
    0x100_0000 * (b[o] as int) + 0x1_0000 * (b[o + 1] as int) + 0x100 * (b[o + 2] as int) + b[o + 3] as int
  }

  /** Swapping a number read from memory gives the number in the network's byte order, and the other way round. */
  lemma SwapReads16(b: seq<Byte>, o: nat)
    requires o + 2 <= |b|
    ensures Bswaps(Get16(b, o)) == Net16(b, o)
  {
    var lo, hi := b[o] as int, b[o + 1] as int;
    assert (lo + 0x100 * hi) % 0x100 == lo && (lo + 0x100 * hi) / 0x100 == hi;
  }

  lemma SwapReads32(b: seq<Byte>, o: nat)
    requires o + 4 <= |b|
    ensures Bswapl(Get32(b, o)) == Net32(b, o)
  {
    var w, x, y, z := b[o] as int, b[o + 1] as int, b[o + 2] as int, b[o + 3] as int;
    Four(z, y, x, w, Get32(b, o));
  }

  lemma SwapStored16(b: seq<Byte>, o: nat, v: int)
    requires o + 2 <= |b| && 0 <= v < U16 && Get16(b, o) == Bswaps(v)
    ensures Net16(b, o) == v
  {
    SwapReads16(b, o);
    BswapsTwice(v);
  }

  lemma SwapStored32(b: seq<Byte>, o: nat, v: int)
    requires o + 4 <= |b| && 0 <= v < U32 && Get32(b, o) == Bswapl(v)
    ensures Net32(b, o) == v
  {
    SwapReads32(b, o);
    BswaplTwice(v);
  }

  // ----- The checksum -----

  /** The sum of the 16-bit words of `b`; an odd last byte counts as the low half of a word. */
  function Sum(b: seq<Byte>): (s: nat)
    ensures s <= (|b| + 1) / 2 * 0xffff
  {
    if b == [] then 0 else if |b| == 1 then b[0] else Get16(b, 0) + Sum(b[2..])
  }

  /** Sums of parts add up, if the first part is one of whole words; a word has its low byte first. */
  lemma {:induction false} SumJoins(a: seq<Byte>, b: seq<Byte>)
    requires |a| % 2 == 0
    ensures Sum(a + b) == Sum(a) + Sum(b)
    ensures |b| == 1 ==> Sum(b) == b[0] as int
    ensures |b| == 2 ==> Sum(b) == b[0] as int + 0x100 * (b[1] as int)
  {
    if a != [] {
      SumJoins(a[2..], b);
      assert (a + b)[2..] == a[2..] + b;
    } else {
      assert a + b == b;
    }
  }

  /** Addition with end-around carry, done on a whole sum at once: the sum modulo 0xffff, with 0 only for 0. */
  function OnesComplement(s: nat): (r: int)
    ensures 0 <= r <= 0xffff
  {
    if s == 0 then 0 else (s - 1) % 0xffff + 1
  }

  /** Two foldings reduce every 32-bit sum as far as end-around carries would. */
  lemma TwoFolds(s: nat)
    requires s < U32
    ensures var t := s % U16 + s / U16; (t + t / U16) % U16 == OnesComplement(s) && t + t / U16 < U32
  {
    var h, l := s / U16, s % U16;
    var t := h + l;
    assert s == h * 0xffff + t;
    if t == 0 {
    } else {
      assert s - 1 == h * 0xffff + (t - 1);
      assert (s - 1) % 0xffff == (t - 1) % 0xffff;
      if t <= 0xffff {
        assert (t - 1) % 0xffff == t - 1;
        assert t / U16 == 0;
      } else {
        assert t / U16 == 1;
      }
    }
  }

  lemma SumFrom(b: seq<Byte>, i: nat)
    requires i + 2 <= |b|
    ensures Sum(b[i..]) == Get16(b, i) + Sum(b[i + 2..])
  {
    assert b[i..][2..] == b[i + 2..];
  }

  /** The checksum of a byte string: no 32-bit overflow happens up to 128 KB. */
  method InCksum(b: seq<Byte>) returns (answer: int)
    requires |b| <= 0x2_0000
    ensures answer == 0xffff - OnesComplement(Sum(b))
  {
    var sum, i := 0, 0;
    while |b| - i > 1
      invariant 0 <= i <= |b| && 0 <= sum == Sum(b) - Sum(b[i..])
    {
      SumFrom(b, i);
      sum := (sum + Get16(b, i)) % U32;
      i := i + 2;
    }
    if |b| - i == 1 {
      sum := (sum + b[i]) % U32;
    }
    assert sum == Sum(b);
    answer := FoldAndComplement(sum);
  }

  /** The last steps: fold twice, complement, and keep 16 bits. */
  method FoldAndComplement(total: nat) returns (answer: int)
    requires total < U32
    ensures answer == 0xffff - OnesComplement(total)
  {
    TwoFolds(total);
    var once := (total % U16 + total / U16) % U32;
    assert once == total % U16 + total / U16;
    var twice := (once + once / U16) % U32;
    assert twice == once + once / U16;
    Complement(twice);
    answer := (U32 - 1 - twice) % U16;
  }

  lemma Complement(x: nat)
    requires x < U32
    ensures (U32 - 1 - x) % U16 == 0xffff - x % U16
  {
    var h, l := x / U16, x % U16;
    assert U32 - 1 - x == (0xffff - h) * U16 + (0xffff - l);
  }

  /** `b` with the 16-bit number `x` stored at offset `o`. */
  function Store16(b: seq<Byte>, o: nat, x: int): (r: seq<Byte>)
    requires o + 2 <= |b| && 0 <= x < U16
    ensures |r| == |b| && Get16(r, o) == x && forall i :: 0 <= i < |b| && i != o && i != o + 1 ==> r[i] == b[i]
  {
    b[..o] + Put16(x) + b[o + 2..]
  }

  /** Storing a number in a word that was 0 adds it to the sum. */
  lemma {:induction false} SumStored(b: seq<Byte>, o: nat, x: int)
    requires o % 2 == 0 && o + 2 <= |b| && 0 <= x < U16 && Get16(b, o) == 0
    ensures Sum(Store16(b, o, x)) == Sum(b) + x
  {
    var r := Store16(b, o, x);
    if o == 0 {
      assert r[2..] == b[2..];
    } else {
      assert Get16(b[2..], o - 2) == 0;
      SumStored(b[2..], o - 2, x);
      assert r[2..] == Store16(b[2..], o - 2, x);
    }
  }

  lemma Cancels(s: nat, sum: int)
    requires sum == 0xffff - OnesComplement(s)
    ensures sum >= 0 && OnesComplement(s + sum) == 0xffff
  {
    if s > 0 {
      var q := (s - 1) / 0xffff;
      assert s + sum == (q + 1) * 0xffff;
      assert (s + sum - 1) % 0xffff == 0xfffe;
    }
  }

  /** Storing the checksum of a header, computed with its checksum field at 0, makes the checksum of the whole 0: for
      every header, wherever the field is. */
  lemma ChecksumCancels(b: seq<Byte>, o: nat, sum: int)
    requires o % 2 == 0 && o + 2 <= |b| && Get16(b, o) == 0 && sum == 0xffff - OnesComplement(Sum(b))
    ensures OnesComplement(Sum(Store16(b, o, sum))) == 0xffff
  {
    SumStored(b, o, sum);
    hide Sum, Store16, Get16;
    Cancels(Sum(b), sum);
  }

  // ----- The frame -----

  /** The low 16 and 32 bits of an argument. */
  function Low16(x: int): (r: int)
    ensures 0 <= r < U16
  {
    x % U16
  }

  function Low32(x: int): (r: int)
    ensures 0 <= r < U32
  {
    x % U32
  }

  function EthHeader(): (h: seq<Byte>)
    ensures |h| == ETH_LEN && h[..6] == HOST_MAC && h[6..12] == LOCAL_MAC && Get16(h, 12) == Bswaps(0x0800)
  {
    HOST_MAC + LOCAL_MAC + Put16(Bswaps(0x0800))
  }

  /** The IP header of a datagram with `n` bytes of payload, its checksum field still 0. */
  function IpHeader(n: nat, dst: int): (h: seq<Byte>)
    requires n <= PGSIZE
    ensures |h| == IP_LEN && h[..2] == [0x45, 0] && h[4..10] == [0, 0, 0, 0, 100, 17] && Get16(h, 10) == 0
    ensures Get16(h, 2) == Bswaps(IP_LEN + UDP_LEN + n) && Get32(h, 12) == Bswapl(LOCAL_IP) &&
            Get32(h, 16) == Bswapl(Low32(dst))
  {
    var front := [0x45, 0] + Put16(Bswaps(IP_LEN + UDP_LEN + n)) + [0, 0, 0, 0, 100, 17, 0, 0];
    var addresses := Put32(Bswapl(LOCAL_IP)) + Put32(Bswapl(Low32(dst)));
    assert Get32(addresses, 0) == Bswapl(LOCAL_IP) && Get32(addresses, 4) == Bswapl(Low32(dst));
    front + addresses
  }

  function UdpHeader(sport: int, dport: int, n: nat): (h: seq<Byte>)
    requires n <= PGSIZE
    ensures |h| == UDP_LEN && h[6..] == [0, 0]
    ensures Get16(h, 0) == Bswaps(Low16(sport)) && Get16(h, 2) == Bswaps(Low16(dport)) &&
            Get16(h, 4) == Bswaps(n + UDP_LEN)
  {
    Put16(Bswaps(Low16(sport))) + Put16(Bswaps(Low16(dport))) + Put16(Bswaps(n + UDP_LEN)) + [0, 0]
  }

  /** A whole frame around an IP header. */
  function Frame(ip: seq<Byte>, sport: int, dport: int, payload: seq<Byte>): (f: seq<Byte>)
    requires |ip| == IP_LEN && |payload| + HEADERS <= PGSIZE
    ensures |f| == HEADERS + |payload|
    ensures f[ETH_LEN..ETH_LEN + IP_LEN] == ip && f[HEADERS..] == payload
    ensures f[..ETH_LEN] == EthHeader() && f[ETH_LEN + IP_LEN..HEADERS] == UdpHeader(sport, dport, |payload|)
  {
    EthHeader() + ip + UdpHeader(sport, dport, |payload|) + payload
  }

  /** What send gives to the network card, or nothing when the frame would not fit a page. */
  datatype Sent = NoFrame | Transmit(frame: seq<Byte>)

  /** An IP header of this machine for `n` bytes of payload to `dst`, byte by byte, and its checksum is 0. */
  ghost predicate GoodIp(h: seq<Byte>, n: nat, dst: int) {
    && |h| == IP_LEN && n <= PGSIZE && h[..2] == [0x45, 0] && h[4..10] == [0, 0, 0, 0, 100, 17]
    && Net16(h, 2) == IP_LEN + UDP_LEN + n && Net32(h, 12) == LOCAL_IP && Net32(h, 16) == Low32(dst)
    && OnesComplement(Sum(h)) == 0xffff
  }

  /** The frame is one that carries `payload` from port `sport` of this machine to port `dport` of `dst`, in the
      network's byte order. */
  ghost predicate Carries(f: seq<Byte>, sport: int, dst: int, dport: int, payload: seq<Byte>) {
    && |f| == HEADERS + |payload| <= PGSIZE
    && f[..6] == HOST_MAC && f[6..12] == LOCAL_MAC && Net16(f, 12) == 0x0800
    && GoodIp(f[ETH_LEN..ETH_LEN + IP_LEN], |payload|, dst)
    && Net16(f, 34) == Low16(sport) && Net16(f, 36) == Low16(dport) && Net16(f, 38) == UDP_LEN + |payload|
    && f[40..42] == [0, 0] && f[HEADERS..] == payload
  }

  // ----- The length that a caller gives -----

  const INT_LIMIT := 0x8000_0000

  /** The 32-bit number with the low bits of `x`. */
  function Int32(x: int): (r: int)
    ensures -INT_LIMIT <= r < INT_LIMIT && (x - r) % (2 * INT_LIMIT) == 0
  {
    (x + INT_LIMIT) % (2 * INT_LIMIT) - INT_LIMIT
  }

  /** The size check of `sys_send` lets length `len` pass. */
  predicate LengthPasses(len: int) {
    Int32(len + HEADERS) <= PGSIZE
  }

  /** How many bytes are to be copied for length `len`: it becomes an unsigned 64-bit number. */
  function CopyLength(len: int): (n: nat)
    requires -INT_LIMIT <= len < INT_LIMIT
  {
    if len < 0 then len + 0x1_0000_0000_0000_0000 else len
  }

  /** Of the lengths that pass, exactly those from 0 to the room behind the headers keep the copy inside the page; the
      others that pass are all negative ones and those so large that the sum wraps around. */
  lemma CopyStaysInside(len: int)
    requires -INT_LIMIT <= len < INT_LIMIT
    ensures LengthPasses(len) && HEADERS + CopyLength(len) <= PGSIZE <==> 0 <= len <= PGSIZE - HEADERS
    ensures LengthPasses(len) && HEADERS + CopyLength(len) > PGSIZE <==> len < 0 || len >= INT_LIMIT - HEADERS
  {
    if len + HEADERS < INT_LIMIT {
      assert Int32(len + HEADERS) == len + HEADERS;
    } else {
      assert Int32(len + HEADERS) == len + HEADERS - 2 * INT_LIMIT;
    }
  }

  lemma LengthMinusOne()
    ensures LengthPasses(-1) && CopyLength(-1) == 0xFFFF_FFFF_FFFF_FFFF
    ensures LengthPasses(0x7FFF_FFFF) && CopyLength(0x7FFF_FFFF) > PGSIZE
  {
    CopyStaysInside(-1);
    CopyStaysInside(0x7FFF_FFFF);
  }

  /** Build the frame of a UDP packet. */
  method Send(sport: int, dst: int, dport: int, payload: seq<Byte>) returns (r: Sent)
    ensures r.NoFrame? <==> |payload| + HEADERS > PGSIZE
    ensures r.Transmit? ==> Carries(r.frame, sport, dst, dport, payload)
  {
    if |payload| + HEADERS > PGSIZE {
      return NoFrame;
    }
    var ip0 := IpHeader(|payload|, dst);
    var sum := InCksum(ip0);
    ChecksumCancels(ip0, 10, sum);
    var ip := Store16(ip0, 10, sum);
    HeaderGood(ip0, ip, sum, |payload|, dst);
    var f := Frame(ip, sport, dport, payload);
    FrameCarries(f, ip, sport, dst, dport, payload);
    r := Transmit(f);
  }

  /** The IP header with its checksum stored. */
  lemma HeaderGood(ip0: seq<Byte>, ip: seq<Byte>, sum: int, n: nat, dst: int)
    requires n <= PGSIZE && ip0 == IpHeader(n, dst) && 0 <= sum < U16 && ip == Store16(ip0, 10, sum)
    requires OnesComplement(Sum(ip)) == 0xffff
    ensures GoodIp(ip, n, dst)
  {
    hide Get16, Get32, Sum;
    SwapStored16(ip0, 2, IP_LEN + UDP_LEN + n);
    SwapStored32(ip0, 12, LOCAL_IP);
    SwapStored32(ip0, 16, Low32(dst));
  }

  /** The fields of the UDP header. */
  lemma UdpFields(h: seq<Byte>, sport: int, dport: int, n: nat)
    requires n <= PGSIZE && h == UdpHeader(sport, dport, n)
    ensures Net16(h, 0) == Low16(sport) && Net16(h, 2) == Low16(dport) && Net16(h, 4) == UDP_LEN + n && h[6..] == [0, 0]
  {
    hide Get16, UdpHeader;
    SwapStored16(h, 0, Low16(sport));
    SwapStored16(h, 2, Low16(dport));
    SwapStored16(h, 4, UDP_LEN + n);
  }

  lemma FrameCarries(f: seq<Byte>, ip: seq<Byte>, sport: int, dst: int, dport: int, payload: seq<Byte>)
    requires |f| == HEADERS + |payload| <= PGSIZE && GoodIp(ip, |payload|, dst)
    requires f[..ETH_LEN] == EthHeader() && f[ETH_LEN..ETH_LEN + IP_LEN] == ip && f[HEADERS..] == payload
    requires f[ETH_LEN + IP_LEN..HEADERS] == UdpHeader(sport, dport, |payload|)
    ensures Carries(f, sport, dst, dport, payload)
  {
    hide GoodIp, EthHeader, UdpHeader;
    var eth, udp := f[..ETH_LEN], f[ETH_LEN + IP_LEN..HEADERS];
    SwapStored16(eth, 12, 0x0800);
    UdpFields(udp, sport, dport, |payload|);
    assert f[..6] == eth[..6] && f[6..12] == eth[6..12] && f[40..42] == udp[6..];
  }

  // ----- Receiving -----

  datatype Packet = Packet(data: seq<Byte>, srcIp: int, srcPort: int)
  datatype Port = Port(port: int, count: int, queue: seq<Packet>)

  /** What a received frame holds for UDP. */
  datatype Parsed = Malformed | Datagram(dport: int, packet: Packet)

  /** How a frame is taken apart; the lengths it names must fit its own. */
  function TakeApart(f: seq<Byte>): (r: Parsed) {
    if |f| < HEADERS then Malformed
    else
      var ulen := Bswaps(Get16(f, 38));
      if ulen < UDP_LEN || |f| < ETH_LEN + IP_LEN + ulen then Malformed
      else Datagram(Bswaps(Get16(f, 36)),
                    Packet(f[HEADERS..HEADERS + ulen - UDP_LEN], Bswapl(Get32(f, 26)), Bswaps(Get16(f, 34))))
  }

  /** What is taken from any frame, byte by byte: it is malformed exactly when it is too short for its headers or for
      the length it names, or that is too short for a header; what lies behind that length is ignored. */
  lemma TakesApart(f: seq<Byte>)
    ensures TakeApart(f) == Malformed <==>
              |f| < 42 || Net16(f, 38) < 8 || |f| < 34 + Net16(f, 38)
    ensures TakeApart(f) != Malformed ==>
              TakeApart(f) == Datagram(Net16(f, 36), Packet(f[42..34 + Net16(f, 38)], Net32(f, 26), Net16(f, 34)))
  {
    if |f| >= HEADERS {
      SwapReads16(f, 34);
      SwapReads16(f, 36);
      SwapReads16(f, 38);
      SwapReads32(f, 26);
      hide Get16, Get32, Bswaps, Bswapl;
    }
  }

  /** Taking a frame apart gives what was sent. */
  lemma SendThenTakeApart(f: seq<Byte>, sport: int, dst: int, dport: int, payload: seq<Byte>)
    requires Carries(f, sport, dst, dport, payload)
    ensures TakeApart(f) == Datagram(Low16(dport), Packet(payload, LOCAL_IP, Low16(sport)))
  {
    TakesApart(f);
    assert Net32(f, 26) == Net32(f[ETH_LEN..ETH_LEN + IP_LEN], 12);
  }

  /** Bound ports are different 16-bit numbers, and each queue is bounded and counted. */
  ghost predicate PortsOk(ports: seq<Port>) {
    && |ports| <= MAX_PORTS
    && (forall i :: 0 <= i < |ports| ==> 0 <= ports[i].port < U16 && ports[i].count == |ports[i].queue| <= MAX_PENDING)
    && (forall i, j :: 0 <= i < j < |ports| ==> ports[i].port != ports[j].port)
  }

  /** `i` is where `port` is bound. */
  predicate BoundAt(ports: seq<Port>, port: int, i: int) {
    0 <= i < |ports| && ports[i].port == port
  }

  function Enqueued(p: Port, packet: Packet): (r: Port) {
    Port(p.port, p.count + 1, p.queue + [packet])
  }

  class UdpTable {
    var ports: seq<Port>

    ghost predicate Valid()
      reads this
    {
      PortsOk(ports)
    }

    constructor ()
      ensures Valid() && ports == []
    {
      ports := [];
    }

    /** Where a port is bound, or -1. */
    method FindBoundPort(port: int) returns (i: int)
      requires Valid()
      ensures i == -1 || BoundAt(ports, port, i)
      ensures i == -1 <==> forall j :: 0 <= j < |ports| ==> ports[j].port != port
    {
      i := 0;
      while i < |ports|
        invariant 0 <= i <= |ports| && forall j :: 0 <= j < i ==> ports[j].port != port
      {
        if ports[i].port == port {
          return;
        }
        i := i + 1;
      }
      i := -1;
    }

    /** Bind the low 16 bits of `port`, unless they are bound or the table is full. */
    method Bind(port: int) returns (r: int)
      requires Valid()
      modifies this
      ensures Valid() && (r == 0 || r == -1)
      ensures r == -1 <==> |old(ports)| >= MAX_PORTS || exists j :: BoundAt(old(ports), Low16(port), j)
      ensures ports == old(ports) + if r == 0 then [Port(Low16(port), 0, [])] else []
    {
      var i := FindBoundPort(Low16(port));
      if i != -1 || |ports| >= MAX_PORTS {
        assert ports == ports + [];
        return -1;
      }
      ports := ports + [Port(Low16(port), 0, [])];
      r := 0;
    }

    /** A received frame: a well-formed datagram for a bound port goes to the end of the port's queue, if it has room
        and there is memory (`mem`); every other frame is dropped. */
    method IpRx(f: seq<Byte>, mem: bool)
      requires Valid()
      modifies this
      ensures Valid() && |ports| == |old(ports)|
      ensures forall i :: 0 <= i < |ports| ==>
                ports[i] == if TakeApart(f).Datagram? && TakeApart(f).dport == old(ports)[i].port &&
                    old(ports)[i].count < MAX_PENDING && mem
                            then Enqueued(old(ports)[i], TakeApart(f).packet) else old(ports)[i]
    {
      var d := TakeApart(f);
      if d.Datagram? {
        Deliver(d.dport, d.packet, mem);
      }
    }

    /** Put a packet at the end of the queue of a port, if it is bound and has room and there is memory. */
    method Deliver(dport: int, packet: Packet, mem: bool)
      requires Valid()
      modifies this
      ensures Valid() && |ports| == |old(ports)|
      ensures forall i :: 0 <= i < |ports| ==>
                ports[i] == if old(ports)[i].port == dport && old(ports)[i].count < MAX_PENDING && mem
                            then Enqueued(old(ports)[i], packet) else old(ports)[i]
    {
      var i := FindBoundPort(dport);
      if i != -1 && ports[i].count < MAX_PENDING && mem {
        ports := ports[i := Enqueued(ports[i], packet)];
      }
    }

    /** Take the oldest packet from the queue of a port, and at most `maxlen` bytes of it. -1 means that the port is not
        bound; `blocked` that the caller has to wait because the queue is empty. */
    method Recv(dport: int, maxlen: nat) returns (r: int, blocked: bool, packet: Packet)
      requires Valid()
      modifies this
      ensures Valid()
      ensures r == -1 && !blocked <==> forall j :: 0 <= j < |old(ports)| ==> old(ports)[j].port != Low16(dport)
      ensures blocked || r == -1 ==> unchanged(this)
      ensures blocked ==> exists i :: BoundAt(ports, Low16(dport), i) && ports[i].queue == []
      ensures !blocked && r != -1 ==>
              exists i :: BoundAt(old(ports), Low16(dport), i) && Received(old(ports), ports, i, maxlen, r, packet)
    {
      blocked, packet := false, Packet([], 0, 0);
      var i := FindBoundPort(Low16(dport));
      if i == -1 {
        return -1, false, packet;
      }
      var p := ports[i];
      if p.queue == [] {
        return -1, true, packet;
      }
      var head := p.queue[0];
      ports := ports[i := Port(p.port, p.count - 1, p.queue[1..])];
      r := if |head.data| > maxlen then maxlen else |head.data|;
      packet := head.(data := head.data[..r]);
      assert Received(old(ports), ports, i, maxlen, r, packet);
    }

    /** A frame sent to a bound port with room arrives as it was sent, behind all packets that arrived before. */
    method SendAndReceive(sport: int, dst: int, dport: int, payload: seq<Byte>, ghost i: int)
      requires Valid() && BoundAt(ports, Low16(dport), i) && ports[i].count < MAX_PENDING &&
               |payload| + HEADERS <= PGSIZE
      modifies this
      ensures Valid() && ports == old(ports)[i := Enqueued(old(ports)[i], Packet(payload, LOCAL_IP, Low16(sport)))]
    {
      var sent := Send(sport, dst, dport, payload);
      SendThenTakeApart(sent.frame, sport, dst, dport, payload);
      IpRx(sent.frame, true);
    }
  }

  /** The oldest packet of queue `i` has left it, and at most `maxlen` bytes of it have been handed over. */
  ghost predicate Received(ports: seq<Port>, ports': seq<Port>, i: int, maxlen: nat, r: int, packet: Packet) {
    && 0 <= i < |ports| && ports[i].queue != []
    && (var p := ports[i]; var head := p.queue[0];
        && ports' == ports[i := Port(p.port, p.count - 1, p.queue[1..])]
        && 0 <= r <= maxlen && r <= |head.data| && (r < |head.data| ==> r == maxlen)
        && packet == Packet(head.data[..r], head.srcIp, head.srcPort))
  }
}
