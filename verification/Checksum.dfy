/** The Internet checksum and the frame of SocketsRawPacket/Client/client.c.
    Words are read and stored in the little-endian order of the machine the program
    runs on; RFC 1071, RFC 791 and RFC 768 speak of big-endian words. */
module Checksum {

  type Byte = b: nat | b < 0x100
  type Word = w: nat | w < 0x1_0000

  // ---------------------------------------------------------------------------
  // Sums of words

  function NativeWord(first: Byte, second: Byte): Word {
    var f: nat, s: nat := first, second;
    f + 0x100 * s
  }

  /** The sum both routines accumulate: native words, an odd last byte as it is. */
  function NativeSum(b: seq<Byte>): nat {
    if |b| == 0 then 0
    else if |b| == 1 then b[0]
    else NativeWord(b[0], b[1]) + NativeSum(b[2..])
  }

  /** The sum RFC 1071 describes: network-order words, an odd last byte padded with zero. */
  function NetworkSum(b: seq<Byte>): nat {
    if |b| == 0 then 0
    else if |b| == 1 then 0x100 * b[0]
    else NativeWord(b[1], b[0]) + NetworkSum(b[2..])
  }

  /** The fold loop: add the carries back until none is left. */
  function Fold(sum: nat): (r: Word) {
    if sum < 0x1_0000 then sum else Fold(sum % 0x1_0000 + sum / 0x1_0000)
  }

  /** The two fixed folds of ip_checksum, cut to 16 bits. */
  function FoldOnce(sum: nat): nat {
    sum / 0x1_0000 + sum % 0x1_0000
  }

  function FoldTwice(sum: nat): Word {
    (FoldOnce(sum) + FoldOnce(sum) / 0x1_0000) % 0x1_0000
  }

  function Complement(w: Word): Word {
    0xFFFF - w
  }

  // ---------------------------------------------------------------------------
  // Folding computes the representative modulo 65535

  /** The one's complement representative of s: 0 only for 0, otherwise in 1..65535. */
  ghost predicate Represents(r: Word, s: nat) {
    && (s == 0 <==> r == 0)
    && exists k: nat :: s == r + 0xFFFF * k
  }

  lemma {:induction false} FoldRepresents(s: nat)
    ensures Represents(Fold(s), s)
  {
    if s < 0x1_0000 {
      assert s == Fold(s) + 0xFFFF * 0;
    } else {
      var h, l := s / 0x1_0000, s % 0x1_0000;
      assert s == 0x1_0000 * h + l;
      FoldRepresents(h + l);
      var k: nat :| h + l == Fold(h + l) + 0xFFFF * k;
      assert s == Fold(s) + 0xFFFF * (k + h);
    }
  }

  lemma RepresentativeIsUnique(r: Word, q: Word, s: nat)
    requires Represents(r, s) && Represents(q, s)
    ensures r == q
  {
    var j: nat :| s == r + 0xFFFF * j;
    var k: nat :| s == q + 0xFFFF * k;
    assert r - q == 0xFFFF * (k - j);
  }

  /** Any number congruent to s, positive exactly when s is, folds to the same word. */
  lemma FoldOfCongruent(s: nat, r: Word, k: int)
    requires s == r + 0xFFFF * k && (s == 0 <==> r == 0)
    ensures Fold(s) == r
  {
    assert k >= 0;
    var n: nat := k;
    assert s == r + 0xFFFF * n;
    FoldRepresents(s);
    RepresentativeIsUnique(r, Fold(s), s);
  }

  /** The 16-bit result is the sum modulo 65535, a nonzero multiple giving 0xFFFF. */
  lemma FoldIsModulo(s: nat)
    ensures Fold(s) == if s == 0 then 0 else if s % 0xFFFF == 0 then 0xFFFF else s % 0xFFFF
  {
    var m, k := s % 0xFFFF, s / 0xFFFF;
    assert s == m + 0xFFFF * k;
    if m != 0 || s == 0 {
      FoldOfCongruent(s, m, k);
    } else {
      FoldOfCongruent(s, 0xFFFF, k - 1);
    }
  }

  /** How large a sum can be after one fold. */
  lemma FoldOnceBelow(s: nat)
    ensures s < 0x4000_0000_0000 ==> FoldOnce(s) < 0x4001_0000
    ensures s < 0x1_0000_FFFF ==> FoldOnce(s) < 0x1_FFFF
  {
    var q, r := s / 0x1_0000, s % 0x1_0000;
    assert s == 0x1_0000 * q + r && r < 0x1_0000;
  }

  /** The loop does not notice a fold. */
  lemma FoldOfFoldOnce(s: nat)
    ensures Fold(FoldOnce(s)) == Fold(s)
  {
    if s < 0x1_0000 {
      assert s / 0x1_0000 == 0 && FoldOnce(s) == s;
    }
  }

  /** The parts of a sum after one fold. */
  lemma FoldOnceParts(s: nat) returns (a: nat, b: nat)
    ensures FoldOnce(s) == 0x1_0000 * a + b && b < 0x1_0000
    ensures FoldOnce(FoldOnce(s)) == a + b
    ensures FoldTwice(s) == (a + b) % 0x1_0000
    ensures Fold(s) == Fold(a + b)
  {
    var t := FoldOnce(s);
    a, b := t / 0x1_0000, t % 0x1_0000;
    assert t + a == 0x1_0000 * a + (a + b);
    assert (t + a) % 0x1_0000 == (a + b) % 0x1_0000;
    FoldOfFoldOnce(s);
    FoldOfFoldOnce(t);
  }

  /** A second carry is added by the loop and lost by the shortcut. */
  lemma CarryIsLost(n: nat)
    requires 0x1_0000 <= n < 0x1_FFFF
    ensures Fold(n) == n % 0x1_0000 + 1
  {
    assert Fold(n) == Fold(n - 0x1_0000 + 1);
  }

  /** Folding twice equals folding to the end exactly when the second fold leaves no
      carry; for every sum an int-sized buffer can have. */
  lemma FoldTwiceIsFoldIff(s: nat)
    requires s < 0x4000_0000_0000
    ensures FoldTwice(s) == Fold(s) <==> FoldOnce(FoldOnce(s)) < 0x1_0000
  {
    var a, b := FoldOnceParts(s);
    FoldOnceBelow(s);
    PartsBelow(FoldOnce(s), a, b);
    CarryIsLostIff(a + b);
  }

  lemma PartsBelow(t: nat, a: nat, b: nat)
    requires t == 0x1_0000 * a + b && b < 0x1_0000
    ensures t < 0x4001_0000 ==> a + b < 0x1_FFFF
    ensures t < 0x1_FFFF ==> a + b < 0x1_0000
  {
  }

  lemma CarryIsLostIff(n: nat)
    requires n < 0x1_FFFF
    ensures n % 0x1_0000 == Fold(n) <==> n < 0x1_0000
  {
    if n >= 0x1_0000 {
      CarryIsLost(n);
    }
  }

  /** Below 0x10000FFFF the two agree. */
  lemma FoldTwiceAgreesBelow(s: nat)
    requires s < 0x1_0000_FFFF
    ensures FoldTwice(s) == Fold(s)
  {
    var a, b := FoldOnceParts(s);
    FoldOnceBelow(s);
    PartsBelow(FoldOnce(s), a, b);
    CarryIsLostIff(a + b);
  }

  /** There they first differ. */
  lemma FoldTwiceFirstDiffers(s: nat)
    requires s == 0x1_0000_FFFF
    ensures FoldTwice(s) == 0 && Fold(s) == 1
  {
    var a, b := FoldOnceParts(s);
    FoldOfCongruent(s, 1, 0x1_0002);
  }

  lemma {:induction false} NativeSumBound(b: seq<Byte>)
    ensures NativeSum(b) <= 0xFFFF * ((|b| + 1) / 2)
  {
    if |b| >= 2 {
      NativeSumBound(b[2..]);
      assert (|b| + 1) / 2 == (|b[2..]| + 1) / 2 + 1;
    }
  }

  /** So ip_checksum's shortcut is exact for every buffer of up to 131076 bytes. */
  lemma ShortcutIsExact(b: seq<Byte>)
    requires |b| <= 131076
    ensures FoldTwice(NativeSum(b)) == Fold(NativeSum(b))
  {
    NativeSumBound(b);
    assert (|b| + 1) / 2 <= 65538;
    FoldTwiceAgreesBelow(NativeSum(b));
  }

  /** Two folds are enough for every buffer of n bytes. */
  ghost predicate SafeLength(n: nat) {
    forall b: seq<Byte> :: |b| == n ==> FoldTwice(NativeSum(b)) == Fold(NativeSum(b))
  }

  /** And for no greater length: ip_checksum meets the definition on all buffers of n
      bytes if and only if n is at most 131076. */
  lemma SafeLengthIff(n: nat)
    ensures SafeLength(n) <==> n <= 131076
  {
    if n <= 131076 {
      forall b: seq<Byte> | |b| == n
        ensures FoldTwice(NativeSum(b)) == Fold(NativeSum(b))
      {
        ShortcutIsExact(b);
      }
    } else {
      var b := Worst(65538, n);
      WorstSum(65538, n);
      FoldTwiceFirstDiffers(NativeSum(b));
    }
  }

  /** k words 0xFFFF, a word 1, and zeros up to n bytes. */
  function Worst(k: nat, n: nat): (b: seq<Byte>)
    requires 2 * k < n
    ensures |b| == n
  {
    if k == 0 then [1] + seq(n - 1, _ => 0) else [0xFF, 0xFF] + Worst(k - 1, n - 2)
  }

  lemma {:induction false} WorstSum(k: nat, n: nat)
    requires 2 * k < n
    ensures NativeSum(Worst(k, n)) == 0xFFFF * k + 1
  {
    var b := Worst(k, n);
    if k > 0 {
      WorstSum(k - 1, n - 2);
      assert b[2..] == Worst(k - 1, n - 2);
    } else if n > 1 {
      ZerosSum(b[2..]);
    }
  }

  lemma {:induction false} ZerosSum(b: seq<Byte>)
    requires forall i :: 0 <= i < |b| ==> b[i] == 0
    ensures NativeSum(b) == 0
  {
    if |b| >= 2 {
      ZerosSum(b[2..]);
    }
  }

  // ---------------------------------------------------------------------------
  // Byte-order independence, section 2(B) of RFC 1071

  function Swap(w: Word): Word {
    w % 0x100 * 0x100 + w / 0x100
  }

  ghost function OddBytes(b: seq<Byte>): nat {
    if |b| < 2 then 0 else b[1] + OddBytes(b[2..])
  }

  lemma {:induction false} NetworkIsShiftedNative(b: seq<Byte>)
    ensures 0x100 * NativeSum(b) == NetworkSum(b) + 0xFFFF * OddBytes(b)
    ensures NativeSum(b) == 0 <==> NetworkSum(b) == 0
  {
    if |b| >= 2 {
      NetworkIsShiftedNative(b[2..]);
    }
  }

  /** The folded network sum is the folded native sum with its bytes swapped. */
  lemma FoldSwaps(b: seq<Byte>)
    ensures Fold(NetworkSum(b)) == Swap(Fold(NativeSum(b)))
  {
    NetworkIsShiftedNative(b);
    var s, t := NativeSum(b), NetworkSum(b);
    FoldRepresents(s);
    var r := Fold(s);
    var k: nat :| s == r + 0xFFFF * k;
    assert 0x100 * r == Swap(r) + 0xFFFF * (r / 0x100);
    FoldOfCongruent(t, Swap(r), 0x100 * k + r / 0x100 - OddBytes(b));
  }

  function StoreNative(w: Word): seq<Byte> {
    [w % 0x100, w / 0x100]
  }

  /** htons, and the order in which a frame carries a word. */
  function Be16(w: Word): seq<Byte> {
    [w / 0x100, w % 0x100]
  }

  lemma BytesOf(w: Word, high: Byte, low: Byte)
    requires w == 0x100 * high + low
    ensures StoreNative(w) == [low, high] && Be16(w) == [high, low]
  {
  }

  lemma StoringSwapped(w: Word)
    ensures StoreNative(Complement(w)) == Be16(Complement(Swap(w)))
  {
    var high: Byte, low: Byte := w / 0x100, w % 0x100;
    assert Swap(w) == 0x100 * low + high;
    BytesOf(Complement(w), 0xFF - high, 0xFF - low);
    BytesOf(Complement(Swap(w)), 0xFF - low, 0xFF - high);
  }

  /** The bytes the program stores are the bytes of the big-endian computation, for
      every buffer, even or odd. */
  lemma StoredBytesAreByteOrderFree(b: seq<Byte>)
    ensures StoreNative(Complement(Fold(NativeSum(b)))) == Be16(Complement(Fold(NetworkSum(b))))
    ensures |b| <= 131076 ==>
              StoreNative(Complement(FoldTwice(NativeSum(b)))) == Be16(Complement(Fold(NetworkSum(b))))
  {
    FoldSwaps(b);
    StoringSwapped(Fold(NativeSum(b)));
    if |b| <= 131076 {
      ShortcutIsExact(b);
    }
  }

  // ---------------------------------------------------------------------------
  // What the receiver sees

  /** The bytes with a word stored in native order at position o. */
  function Stored(b: seq<Byte>, o: nat, w: Word): (r: seq<Byte>)
    requires o + 1 < |b|
    ensures |r| == |b|
  {
    b[o := w % 0x100][o + 1 := w / 0x100]
  }

  predicate Accepts(b: seq<Byte>) {
    Fold(NetworkSum(b)) == 0xFFFF
  }

  lemma {:induction false} StoringAdds(b: seq<Byte>, o: nat, w: Word)
    requires o + 1 < |b| && o % 2 == 0 && b[o] == 0 && b[o + 1] == 0
    ensures NativeSum(Stored(b, o, w)) == NativeSum(b) + w
  {
    var c := Stored(b, o, w);
    if o == 0 {
      assert c[2..] == b[2..];
    } else {
      assert c[2..] == Stored(b[2..], o - 2, w);
      StoringAdds(b[2..], o - 2, w);
    }
  }

  lemma AcceptsNative(b: seq<Byte>)
    ensures Accepts(b) <==> Fold(NativeSum(b)) == 0xFFFF
  {
    FoldSwaps(b);
  }

  /** Which words bring a sum to 0xFFFF. */
  lemma CompletesIff(s: nat, w: Word)
    ensures var check := Complement(Fold(s));
            Fold(s + w) == 0xFFFF <==> (w == check || (check == 0 && w == 0xFFFF))
  {
    FoldRepresents(s);
    var k: nat :| s == Fold(s) + 0xFFFF * k;
    var check := Complement(Fold(s));
    if w == check {
      FoldOfCongruent(s + w, 0xFFFF, k);
    }
    if check == 0 && w == 0xFFFF {
      FoldOfCongruent(s + w, 0xFFFF, k + 1);
    }
    if Fold(s + w) == 0xFFFF {
      CompletesOnlyAs(s, w, k);
    }
  }

  lemma CompletesOnlyAs(s: nat, w: Word, k: nat)
    requires s == Fold(s) + 0xFFFF * k && Fold(s + w) == 0xFFFF
    ensures var check := Complement(Fold(s)); w == check || (check == 0 && w == 0xFFFF)
  {
    FoldRepresents(s + w);
    var j: nat :| s + w == 0xFFFF + 0xFFFF * j;
    var m: int := j - k;
    var check: int := Complement(Fold(s));
    assert w - check == 0xFFFF * m;
    assert m == 0 || m == 1;
  }

  /** A check field at an even offset makes the receiver's sum 0xFFFF exactly when it is
      the complement of the folded sum with the field zero; 0xFFFF may stand for 0. */
  lemma ReceiverAcceptsIff(b: seq<Byte>, o: nat, w: Word)
    requires o + 1 < |b| && o % 2 == 0 && b[o] == 0 && b[o + 1] == 0
    ensures var check := Complement(Fold(NativeSum(b)));
            Accepts(Stored(b, o, w)) <==> (w == check || (check == 0 && w == 0xFFFF))
  {
    StoringAdds(b, o, w);
    AcceptsNative(Stored(b, o, w));
    CompletesIff(NativeSum(b), w);
  }

  // ---------------------------------------------------------------------------
  // The routines

  /** The summing loop of ip_checksum. */
  method SumBytes(buffer: array<Byte>, start: nat, length: nat) returns (sum: nat)
    requires start + length <= buffer.Length
    ensures sum == NativeSum(buffer[start..start + length])
  {
    sum := 0;
    var at, left := start, length;
    while left > 1
      invariant start <= at && at + left == start + length
      invariant sum + NativeSum(buffer[at..at + left]) == NativeSum(buffer[start..start + length])
    {
      assert buffer[at..at + left][2..] == buffer[at + 2..at + left];
      sum := sum + NativeWord(buffer[at], buffer[at + 1]);
      at := at + 2;
      left := left - 2;
    }
    if left == 1 {
      sum := sum + buffer[at];
    }
  }

  method IpChecksum(buffer: array<Byte>, start: nat, length: nat) returns (check: Word)
    requires start + length <= buffer.Length
    ensures check == Complement(FoldTwice(NativeSum(buffer[start..start + length])))
  {
    var sum := SumBytes(buffer, start, length);
    ghost var total := sum;
    sum := sum / 0x1_0000 + sum % 0x1_0000;
    sum := sum + sum / 0x1_0000;
    TwoFolds(total, sum);
    check := 0xFFFF - sum % 0x1_0000;
  }

  lemma TwoFolds(total: nat, sum: nat)
    requires sum == FoldOnce(total) + FoldOnce(total) / 0x1_0000
    ensures FoldTwice(total) == sum % 0x1_0000
  {
  }

  const UDP: Byte := 17

  /** Pseudo-header, UDP header and data: what the checksum of RFC 768 covers. */
  function UdpCovered(src: seq<Byte>, dst: seq<Byte>, udp: seq<Byte>, data: seq<Byte>): seq<Byte>
    requires 8 + |data| < 0x1_0000
  {
    src + dst + [0, UDP] + Be16(8 + |data|) + udp + data
  }

  /** Byte by byte: source, destination, zero, protocol 17, length in network order, UDP
      header, data. */
  lemma CoveredFields(src: seq<Byte>, dst: seq<Byte>, udp: seq<Byte>, data: seq<Byte>)
    requires |src| == |dst| == 4 && |udp| == 8 && 8 + |data| < 0x1_0000
    ensures var c := UdpCovered(src, dst, udp, data);
            && |c| == 20 + |data|
            && (forall i :: 0 <= i < 4 ==> c[i] == src[i])
            && (forall i :: 4 <= i < 8 ==> c[i] == dst[i - 4])
            && c[8] == 0 && c[9] == 17 && 0x100 * (c[10] as int) + c[11] == 8 + |data|
            && (forall i :: 12 <= i < 20 ==> c[i] == udp[i - 12])
            && (forall i :: 20 <= i < |c| ==> c[i] == data[i - 20])
  {
    var length: Word := 8 + |data|;
    BytesOf(length, length / 0x100, length % 0x100);
  }

  /** memcpy. */
  method Copy(src: array<Byte>, from: nat, dst: array<Byte>, to: nat, n: nat)
    requires src != dst && from + n <= src.Length && to + n <= dst.Length
    modifies dst
    ensures dst[..to + n] == old(dst[..to]) + src[from..from + n]
    ensures dst[to + n..] == old(dst[to + n..])
  {
    for i := 0 to n
      invariant dst[..to] == old(dst[..to]) && dst[to..to + i] == src[from..from + i]
      invariant dst[to + i..] == old(dst[to + i..])
    {
      dst[to + i] := src[from + i];
    }
  }

  /** udp_checksum: the headers and the data lie in the frame at the given offsets. */
  method UdpChecksum(frame: array<Byte>, ip: nat, udp: nat, data: nat, dataLen: nat) returns (check: Word)
    requires ip + 20 <= frame.Length && udp + 8 <= frame.Length && data + dataLen <= frame.Length
    requires dataLen <= 1004
    ensures check == Complement(Fold(NativeSum(UdpCovered(frame[ip + 12..ip + 16], frame[ip + 16..ip + 20],
                                                          frame[udp..udp + 8], frame[data..data + dataLen]))))
  {
    var buf := new Byte[1024];
    ghost var src, dst := frame[ip + 12..ip + 16], frame[ip + 16..ip + 20];
    Copy(frame, ip + 12, buf, 0, 4);
    Copy(frame, ip + 16, buf, 4, 4);
    assert buf[..8] == src + dst;
    buf[8], buf[9] := 0, UDP;
    buf[10], buf[11] := (8 + dataLen) / 0x100, (8 + dataLen) % 0x100;
    assert buf[..12] == src + dst + [0, UDP] + Be16(8 + dataLen);
    Copy(frame, udp, buf, 12, 8);
    assert buf[..20] == src + dst + [0, UDP] + Be16(8 + dataLen) + frame[udp..udp + 8];
    Copy(frame, data, buf, 20, dataLen);
    assert buf[..20 + dataLen] == UdpCovered(src, dst, frame[udp..udp + 8], frame[data..data + dataLen]);
    check := SumAndFold(buf, 20 + dataLen);
  }

  /** The summing loop of udp_checksum, indexing words, and its fold loop. */
  method SumAndFold(buf: array<Byte>, offset: nat) returns (check: Word)
    requires offset <= buf.Length
    ensures check == Complement(Fold(NativeSum(buf[..offset])))
  {
    var sum: nat := 0;
    assert buf[0..offset] == buf[..offset];
    for i := 0 to offset / 2
      invariant sum + NativeSum(buf[2 * i..offset]) == NativeSum(buf[..offset])
    {
      assert buf[2 * i..offset][2..] == buf[2 * (i + 1)..offset];
      sum := sum + NativeWord(buf[2 * i], buf[2 * i + 1]);
    }
    if offset % 2 == 1 {
      sum := sum + buf[offset - 1];
    }
    ghost var total := sum;
    while sum / 0x1_0000 != 0
      invariant Fold(sum) == Fold(total)
      decreases sum
    {
      sum := sum % 0x1_0000 + sum / 0x1_0000;
    }
    check := 0xFFFF - sum % 0x1_0000;
  }
}
