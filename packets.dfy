/**
 * Reading the packets the collect routines find in the receive buffer: a
 * SeedLink-style header (signature and hexadecimal sequence number) followed
 * by a 512-byte Mini-SEED record. `dl_sequence` reads the sequence number,
 * `dl_packettype` classifies the record by its blockettes, and
 * `update_stream` records the packet's sequence number and start time in
 * the matching entries of the stream chain.
 *
 * The record's fixed header is read at the offsets of the SEED 2.4 "Fixed
 * Section of Data Header" (station at 8, network at 18, start time at 20,
 * number of samples at 30, sample rate factor at 32, first blockette at 46),
 * each 16-bit field in network byte order.
 */
module Packets {
  import opened CStd
  import opened LibDali
  import opened StrUtils

  /** The size of one packet in the receive buffer: header and record. */
  const PACKETSIZE: int := SLHEADSIZE + SLRECSIZE

  /** A packet as it lies in the buffer. */
  type Packet = p: seq<Octet> | |p| == PACKETSIZE witness seq(520, _ => '\0')

  /** `strncmp(slhead, INFOSIGNATURE, 6) == 0`: the literal holds no NUL, so this is byte equality. */
  predicate IsInfo(p: Packet) { p[..6] == INFOSIGNATURE }

  /** An INFO packet is the last of its response unless its header ends in '*'. */
  predicate InfoTerminated(p: Packet) { p[SLHEADSIZE - 1] != '*' }

  // ---------------------------------------------------------------------
  // dl_sequence

  /** The C string `strncpy` leaves from a run of bytes: the bytes before the first NUL. */
  function CStr(s: string): (t: string)
    ensures |t| <= |s| && t == s[..|t|]
    ensures '\0' !in t
    ensures |t| < |s| ==> s[|t|] == '\0'
  {
    if s == [] || s[0] == '\0' then [] else [s[0]] + CStr(s[1..])
  }

  /** Bytes without a NUL are a C string already. */
  lemma CStrOfPlain(s: string)
    requires '\0' !in s
    ensures CStr(s) == s
  {
  }

  /** The C `int` an `unsigned long` is converted to: its low 32 bits, two's complement. */
  function AsInt(u: int): (x: int)
    requires 0 <= u
    ensures -0x8000_0000 <= x < 0x8000_0000
    ensures x >= 0 ==> x == u % 0x1_0000_0000
  {
    var w := u % 0x1_0000_0000;
    if w >= 0x8000_0000 then w - 0x1_0000_0000 else w
  }

  /**
   * `dl_sequence`: -1 for a header without the signature, 0 for an INFO
   * header, otherwise the base-16 value of the six characters after the
   * signature (read by `strtoul` up to the first NUL), or -1 when the value
   * falls outside 24 bits or characters are left over.
   */
  function Sequence(p: Packet): (n: int)
    ensures -1 <= n <= 0xffffff
    ensures p[..2] != SIGNATURE ==> n == -1
    ensures p[..2] == SIGNATURE && IsInfo(p) ==> n == 0
  {
    if p[..2] != SIGNATURE then -1
    else if IsInfo(p) then 0
    else SequenceNumber(CStr(p[2..8]))
  }

  /**
   * The conversion `dl_sequence` makes of the sequence characters: the
   * `strtoul` value taken as an `int`, or -1 when it falls outside 24 bits or
   * characters are left over.
   */
  function SequenceNumber(digits: string): (n: int)
    ensures -1 <= n <= 0xffffff
  {
    var c := Strtoul(digits, 16);
    var v := AsInt(c.value);
    if v < 0 || v > 0xffffff || c.end < |digits| then -1 else v
  }

  /** 16 to the power `n`. */
  function Pow16(n: nat): (r: nat)
    ensures r >= 1
  {
    if n == 0 then 1 else 16 * Pow16(n - 1)
  }

  /** `n` hexadecimal digits have a value below 16^n. */
  lemma {:induction false} DigitsBelow(s: string)
    requires AllDigits(s, 16)
    ensures DigitsValue(s, 16) < Pow16(|s|)
  {
    if s != [] {
      var t := s[..|s| - 1];
      assert AllDigits(t, 16) by {
        forall k | 0 <= k < |t| ensures IsDigitIn(t[k], 16) {
          assert t[k] == s[k];
        }
      }
      DigitsBelow(t);
      assert DigitsValue(s, 16) == DigitsValue(t, 16) * 16 + DigitValue(s[|s| - 1]);
    }
  }

  /** The upper-case hexadecimal digit of a value below 16. */
  function HexDigit(d: int): (c: Octet)
    requires 0 <= d < 16
    ensures IsDigitIn(c, 16) && DigitValue(c) == d
  {
    if d < 10 then (d + '0' as int) as char else (d - 10 + 'A' as int) as char
  }

  /** The last `width` hexadecimal digits of `n`, most significant first (`%0*X`). */
  function Hex(n: nat, width: nat): (s: seq<Octet>)
    ensures |s| == width && AllDigits(s, 16)
  {
    if width == 0 then [] else Hex(n / 16, width - 1) + [HexDigit(n % 16)]
  }

  /** Reading the digits of a number that fits them back gives the number. */
  lemma {:induction false} HexValue(n: nat, width: nat)
    requires n < Pow16(width)
    ensures DigitsValue(Hex(n, width), 16) == n
  {
    if width > 0 {
      var s := Hex(n, width);
      QuotientBelow(n, Pow16(width - 1));
      HexValue(n / 16, width - 1);
      HexLast(n, width);
      var high, low := DigitsValue(s[..|s| - 1], 16), DigitValue(s[|s| - 1]);
      assert DigitsValue(s, 16) == high * 16 + low;
      Recombine(n, high, low);
    }
  }

  /** The digits of `n` are those of `n / 16` followed by the digit of `n % 16`. */
  lemma HexLast(n: nat, width: nat)
    requires width > 0
    ensures var s := Hex(n, width);
      s[..|s| - 1] == Hex(n / 16, width - 1) && DigitValue(s[|s| - 1]) == n % 16
  {
    var s := Hex(n, width);
    assert s == Hex(n / 16, width - 1) + [HexDigit(n % 16)];
  }

  /** Below 16 * p, the quotient by 16 is below p. */
  lemma QuotientBelow(n: nat, p: nat)
    requires n < 16 * p
    ensures n / 16 < p
  {
  }

  /** Quotient and remainder by 16 rebuild the number. */
  lemma Recombine(n: nat, high: int, low: int)
    requires high == n / 16 && low == n % 16
    ensures high * 16 + low == n
  {
  }

  /**
   * A data header carrying six hexadecimal digits after the signature
   * yields their value: the sequence number is read back exactly as the
   * server wrote it.
   */
  lemma SequenceOfDigits(p: Packet)
    requires p[..2] == SIGNATURE && AllDigits(p[2..8], 16)
    ensures Sequence(p) == DigitsValue(p[2..8], 16)
  {
    var h := p[2..8];
    assert p[..6][2] == h[0] && IsDigitIn(h[0], 16);
    assert !IsInfo(p);
    DigitsAreNotNul(h);
    CStrOfPlain(h);
    assert Sequence(p) == SequenceNumber(h);
    SequenceNumberOfDigits(h);
  }

  lemma DigitsAreNotNul(h: string)
    requires AllDigits(h, 16)
    ensures '\0' !in h
  {
    forall k | 0 <= k < |h| ensures h[k] != '\0' {
      assert IsDigitIn(h[k], 16);
    }
  }

  /** Six hexadecimal digits convert to their value. */
  lemma SequenceNumberOfDigits(h: string)
    requires |h| == 6 && AllDigits(h, 16)
    ensures SequenceNumber(h) == DigitsValue(h, 16)
  {
    StrtoulOfDigits(h, 16);
    DigitsBelow(h);
    Pow16Six();
    var d := DigitsValue(h, 16);
    assert Strtoul(h, 16) == Conversion(d, 6);
    AsIntSmall(d);
  }

  lemma Pow16Six()
    ensures Pow16(6) == 0x100_0000
  {
  }

  /** A value that fits 31 bits reads back unchanged as an `int`. */
  lemma AsIntSmall(u: int)
    requires 0 <= u < 0x8000_0000
    ensures AsInt(u) == u
  {
  }

  /** Writing a 24-bit sequence number in six hexadecimal digits and reading it back gives it again. */
  lemma SequenceRoundTrip(n: nat, p: Packet)
    requires n <= 0xffffff
    requires p[..2] == SIGNATURE && p[2..8] == Hex(n, 6)
    ensures Sequence(p) == n
  {
    SequenceOfDigits(p);
    Pow16Six();
    HexValue(n, 6);
  }

  /** A header whose first sequence character is a NUL reads as sequence number 0. */
  lemma SequenceOfEmptyDigits(p: Packet)
    requires p[..2] == SIGNATURE && p[2] == '\0'
    ensures Sequence(p) == 0
  {
    assert p[..6][2] == p[2];
    assert CStr(p[2..8]) == [];
  }

  // ---------------------------------------------------------------------
  // The Mini-SEED fixed header

  /** A 16-bit word in network byte order (`ntohs`). */
  function Word(p: Packet, i: int): (w: int)
    requires 0 <= i && i + 2 <= PACKETSIZE
    ensures 0 <= w < 0x1_0000
  {
    p[i] as int * 256 + p[i + 1] as int
  }

  /** The `int16_t` a 16-bit word is read as. */
  function Signed16(w: int): (x: int)
    requires 0 <= w < 0x1_0000
    ensures -0x8000 <= x < 0x8000
    ensures x % 0x1_0000 == w
  {
    if w >= 0x8000 then w - 0x1_0000 else w
  }

  function NumSamples(p: Packet): int { Word(p, SLHEADSIZE + 30) }
  function SamprateFact(p: Packet): int { Signed16(Word(p, SLHEADSIZE + 32)) }
  function BeginBlockette(p: Packet): int { Signed16(Word(p, SLHEADSIZE + 46)) }

  /** The network code (2 bytes), station code (5 bytes) and start time (10 bytes) of the record. */
  function NetworkCode(p: Packet): seq<Octet> { p[SLHEADSIZE + 18..SLHEADSIZE + 20] }
  function StationCode(p: Packet): seq<Octet> { p[SLHEADSIZE + 8..SLHEADSIZE + 13] }
  function StartTime(p: Packet): seq<Octet> { p[SLHEADSIZE + 20..SLHEADSIZE + 30] }

  // ---------------------------------------------------------------------
  // dl_packettype

  /**
   * Whether the 4-byte blockette header at offset `o` from the start of the
   * record lies inside the packet (offsets may be negative: the record
   * follows the packet header).
   */
  predicate Readable(o: int) { -SLHEADSIZE <= o && o + 4 <= SLRECSIZE }

  function BlocketteType(p: Packet, o: int): int
    requires Readable(o)
  {
    Word(p, SLHEADSIZE + o)
  }

  function NextBlockette(p: Packet, o: int): int
    requires Readable(o)
  {
    Word(p, SLHEADSIZE + o + 2)
  }

  /** The packet type a marker blockette type gives, if it is one. */
  function Marker(t: int): (k: Option<PacketKind>)
    ensures k == Some(SLDET) <==> 200 <= t <= 299
    ensures k == Some(SLCAL) <==> 300 <= t <= 399
    ensures k == Some(SLTIM) <==> 500 <= t <= 599
    ensures k.None? <==> !(200 <= t <= 399 || 500 <= t <= 599)
  {
    if 200 <= t <= 299 then Some(SLDET)
    else if 300 <= t <= 399 then Some(SLCAL)
    else if 500 <= t <= 599 then Some(SLTIM)
    else None
  }

  /** The type of a record without marker blockettes, once its chain has ended. */
  function Unmarked(p: Packet, b2000: bool): (k: PacketKind)
    ensures k == SLMSG <==> SamprateFact(p) == 0 && NumSamples(p) != 0
    ensures k == SLBLK <==> SamprateFact(p) == 0 && NumSamples(p) == 0 && b2000
    ensures k == SLDATA || k == SLMSG || k == SLBLK
  {
    if SamprateFact(p) == 0 && NumSamples(p) != 0 then SLMSG
    else if SamprateFact(p) == 0 && b2000 then SLBLK
    else SLDATA
  }

  /** What the blockette walk of `dl_packettype` as written comes to. */
  datatype Walk = Returns(kind: PacketKind) | ReadsOutside | StillWalking

  /**
   * The do/while loop of `dl_packettype` as written, from the blockette at
   * offset `o`, for at most `fuel` further blockettes: an offset beyond
   * MAX_HEADER_SIZE gives SLNUM, a marker type gives its packet type, and
   * the walk goes on to the next offset until that offset is 0. A blockette
   * header outside the packet, which the C code would read all the same,
   * is `ReadsOutside`.
   */
  function WalkAsWritten(p: Packet, o: int, b2000: bool, fuel: nat): (w: Walk)
    ensures w.Returns? && w.kind == SLNUM ==> o > MAX_HEADER_SIZE || fuel > 0
    decreases fuel
  {
    if o > MAX_HEADER_SIZE then Returns(SLNUM)
    else if !Readable(o) then ReadsOutside
    else if Marker(BlocketteType(p, o)).Some? then Returns(Marker(BlocketteType(p, o)).value)
    else
      var b := b2000 || BlocketteType(p, o) == 2000;
      var next := NextBlockette(p, o);
      if next == 0 then Returns(Unmarked(p, b))
      else if fuel == 0 then StillWalking
      else WalkAsWritten(p, next, b, fuel - 1)
  }

  /** `dl_packettype` as written, allowed `fuel` blockettes after the first. */
  function PacketTypeAsWritten(p: Packet, fuel: nat): (w: Walk)
    ensures IsInfo(p) ==> w == Returns(if InfoTerminated(p) then SLINFT else SLINF)
  {
    if IsInfo(p) then Returns(if InfoTerminated(p) then SLINFT else SLINF)
    else WalkAsWritten(p, BeginBlockette(p), false, fuel)
  }

  /** The offsets at or below MAX_HEADER_SIZE at which a readable blockette header can start. */
  const WalkOffsets: set<int> := set o | -SLHEADSIZE <= o <= MAX_HEADER_SIZE

  /**
   * The blockette walk with the end it evidently needs: it remembers the
   * offsets it has visited, and a next offset that leads back to one of
   * them, like a header outside the packet, makes the record SLNUM. The
   * walk then ends for every record.
   */
  function WalkChecked(p: Packet, o: int, b2000: bool, seen: set<int>): (k: PacketKind)
    ensures o > MAX_HEADER_SIZE ==> k == SLNUM
    ensures o <= MAX_HEADER_SIZE && Readable(o) && o !in seen && Marker(BlocketteType(p, o)).Some? ==>
      k == Marker(BlocketteType(p, o)).value
    ensures k != SLINF && k != SLINFT
    decreases WalkOffsets - seen
  {
    if o > MAX_HEADER_SIZE || !Readable(o) || o in seen then SLNUM
    else if Marker(BlocketteType(p, o)).Some? then Marker(BlocketteType(p, o)).value
    else
      var b := b2000 || BlocketteType(p, o) == 2000;
      var next := NextBlockette(p, o);
      if next == 0 then Unmarked(p, b)
      else WalkChecked(p, next, b, seen + {o})
  }

  /**
   * `dl_packettype`: INFO packets by their terminator, then the first marker
   * blockette (detection, calibration, timing), SLNUM for a blockette beyond
   * MAX_HEADER_SIZE, and for a zero sample rate factor SLMSG (samples
   * present) or SLBLK (a blockette 2000 seen); anything else is SLDATA.
   */
  function PacketType(p: Packet): (k: PacketKind)
    ensures IsInfo(p) <==> k == SLINF || k == SLINFT
    ensures IsInfo(p) ==> (k == SLINFT <==> InfoTerminated(p))
    ensures !IsInfo(p) && BeginBlockette(p) > MAX_HEADER_SIZE ==> k == SLNUM
    ensures !IsInfo(p) && BeginBlockette(p) <= MAX_HEADER_SIZE && Readable(BeginBlockette(p))
            && Marker(BlocketteType(p, BeginBlockette(p))).Some? ==>
      k == Marker(BlocketteType(p, BeginBlockette(p))).value
  {
    if IsInfo(p) then (if InfoTerminated(p) then SLINFT else SLINF)
    else WalkChecked(p, BeginBlockette(p), false, {})
  }

  // The blockette chain of a record, as a sequence of offsets.

  /** A blockette the walk reads and then leaves: no marker, and a non-zero next offset. */
  predicate PassesOn(p: Packet, o: int)
  {
    o <= MAX_HEADER_SIZE && Readable(o) && Marker(BlocketteType(p, o)).None? && NextBlockette(p, o) != 0
  }

  /** Each offset of `c` but the last is passed on from, to the offset after it. */
  predicate Linked(p: Packet, c: seq<int>)
  {
    forall i :: 0 <= i < |c| - 1 ==> PassesOn(p, c[i]) && NextBlockette(p, c[i]) == c[i + 1]
  }

  predicate Distinct(c: seq<int>)
  {
    forall i, j :: 0 <= i < j < |c| ==> c[i] != c[j]
  }

  function Offsets(c: seq<int>): set<int>
  {
    set o | o in c
  }

  /** Whether a blockette on `c` is a blockette 2000. */
  predicate Has2000(p: Packet, c: seq<int>)
  {
    exists i :: 0 <= i < |c| && Readable(c[i]) && BlocketteType(p, c[i]) == 2000
  }

  /** The chain from the first blockette of `p`, visiting no offset twice. */
  predicate WalkedChain(p: Packet, c: seq<int>)
  {
    |c| > 0 && c[0] == BeginBlockette(p) && Linked(p, c) && Distinct(c)
  }

  /** The walk stops at the last offset of `c`: it does not pass on, or it passes back onto `c`. */
  predicate Stops(p: Packet, c: seq<int>)
    requires |c| > 0
  {
    !PassesOn(p, c[|c| - 1]) || NextBlockette(p, c[|c| - 1]) in c
  }

  /** The chain `c` ends at a blockette without a marker whose next offset is 0. */
  predicate EndsUnmarked(p: Packet, c: seq<int>)
    requires |c| > 0
  {
    var o := c[|c| - 1];
    o <= MAX_HEADER_SIZE && Readable(o) && Marker(BlocketteType(p, o)).None? && NextBlockette(p, o) == 0
  }

  lemma LinkedSnoc(p: Packet, c: seq<int>, n: int)
    requires |c| > 0 && Linked(p, c)
    requires PassesOn(p, c[|c| - 1]) && NextBlockette(p, c[|c| - 1]) == n
    ensures Linked(p, c + [n])
  {
    var d := c + [n];
    forall i | 0 <= i < |d| - 1
      ensures PassesOn(p, d[i]) && NextBlockette(p, d[i]) == d[i + 1]
    {
      assert d[i] == c[i];
    }
  }

  /** A stretch of a chain that starts at its `i`th offset is a chain too. */
  lemma LinkedSuffix(p: Packet, c: seq<int>, i: nat)
    requires Linked(p, c) && i <= |c|
    ensures Linked(p, c[i..])
  {
    var d := c[i..];
    forall k | 0 <= k < |d| - 1
      ensures PassesOn(p, d[k]) && NextBlockette(p, d[k]) == d[k + 1]
    {
      assert d[k] == c[i + k] && d[k + 1] == c[i + k + 1];
    }
  }

  lemma Has2000Snoc(p: Packet, c: seq<int>, o: int)
    ensures Has2000(p, c + [o]) <==> Has2000(p, c) || (Readable(o) && BlocketteType(p, o) == 2000)
  {
    var d := c + [o];
    if Has2000(p, c) {
      var i :| 0 <= i < |c| && Readable(c[i]) && BlocketteType(p, c[i]) == 2000;
      assert d[i] == c[i];
    }
    if Readable(o) && BlocketteType(p, o) == 2000 {
      assert d[|c|] == o;
    }
    if Has2000(p, d) {
      var i :| 0 <= i < |d| && Readable(d[i]) && BlocketteType(p, d[i]) == 2000;
      if i < |c| {
        assert c[i] == d[i];
      }
    }
  }

  /**
   * Round a cycle of the chain, an offset that leads back to itself, the
   * walk as written goes on for ever, whatever fuel it is given.
   */
  lemma {:induction false} CycleNeverReturns(p: Packet, c: seq<int>, b2000: bool, fuel: nat)
    requires |c| >= 2 && Linked(p, c) && c[|c| - 1] == c[0]
    ensures WalkAsWritten(p, c[0], b2000, fuel) == StillWalking
    decreases fuel
  {
    assert PassesOn(p, c[0]) && NextBlockette(p, c[0]) == c[1];
    if fuel > 0 {
      var d := c[1..] + [c[1]];
      forall i | 0 <= i < |d| - 1
        ensures PassesOn(p, d[i]) && NextBlockette(p, d[i]) == d[i + 1]
      {
        if i < |c| - 2 {
          assert d[i] == c[i + 1] && d[i + 1] == c[i + 2];
        } else {
          assert d[i] == c[0] && d[i + 1] == c[1];
        }
      }
      CycleNeverReturns(p, d, b2000 || BlocketteType(p, c[0]) == 2000, fuel - 1);
    }
  }

  /** An offset met again along a chain closes a cycle. */
  lemma RevisitCycle(p: Packet, path: seq<int>, o: int) returns (c: seq<int>)
    requires Linked(p, path + [o]) && o in Offsets(path)
    ensures |c| >= 2 && Linked(p, c) && c[0] == o && c[|c| - 1] == o
  {
    var i :| 0 <= i < |path| && path[i] == o;
    LinkedSuffix(p, path + [o], i);
    c := (path + [o])[i..];
  }

  lemma {:induction false} CheckedAgreesFrom(p: Packet, path: seq<int>, o: int, b2000: bool, fuel: nat)
    requires Linked(p, path + [o])
    requires WalkAsWritten(p, o, b2000, fuel).Returns?
    ensures WalkChecked(p, o, b2000, Offsets(path)) == WalkAsWritten(p, o, b2000, fuel).kind
    decreases fuel
  {
    if o <= MAX_HEADER_SIZE && Readable(o) {
      if o in Offsets(path) {
        var c := RevisitCycle(p, path, o);
        CycleNeverReturns(p, c, b2000, fuel);
        assert false;
      } else if Marker(BlocketteType(p, o)).None? && NextBlockette(p, o) != 0 {
        var next := NextBlockette(p, o);
        LinkedSnoc(p, path + [o], next);
        assert Offsets(path + [o]) == Offsets(path) + {o};
        CheckedAgreesFrom(p, path + [o], next, b2000 || BlocketteType(p, o) == 2000, fuel - 1);
      }
    }
  }

  /**
   * Whatever the fuel, a type `dl_packettype` as written returns is the type
   * the corrected one gives.
   */
  lemma PacketTypeAsWrittenAgrees(p: Packet, fuel: nat)
    ensures PacketTypeAsWritten(p, fuel).Returns? ==> PacketTypeAsWritten(p, fuel).kind == PacketType(p)
  {
    if !IsInfo(p) && PacketTypeAsWritten(p, fuel).Returns? {
      assert Offsets([]) == {};
      CheckedAgreesFrom(p, [], BeginBlockette(p), false, fuel);
    }
  }

  lemma {:induction false} CheckedReachedFrom(p: Packet, path: seq<int>, o: int, b2000: bool) returns (fuel: nat)
    requires Linked(p, path + [o])
    ensures WalkAsWritten(p, o, b2000, fuel) == Returns(WalkChecked(p, o, b2000, Offsets(path)))
            || forall g: nat :: !WalkAsWritten(p, o, b2000, g).Returns?
    decreases WalkOffsets - Offsets(path)
  {
    fuel := 0;
    if o <= MAX_HEADER_SIZE && Readable(o) {
      if o in Offsets(path) {
        var c := RevisitCycle(p, path, o);
        forall g: nat
          ensures !WalkAsWritten(p, o, b2000, g).Returns?
        {
          CycleNeverReturns(p, c, b2000, g);
        }
      } else if Marker(BlocketteType(p, o)).None? && NextBlockette(p, o) != 0 {
        var next := NextBlockette(p, o);
        var b := b2000 || BlocketteType(p, o) == 2000;
        LinkedSnoc(p, path + [o], next);
        assert Offsets(path + [o]) == Offsets(path) + {o};
        assert o in WalkOffsets;
        var f := CheckedReachedFrom(p, path + [o], next, b);
        fuel := f + 1;
        if WalkAsWritten(p, next, b, f) != Returns(WalkChecked(p, next, b, Offsets(path + [o]))) {
          forall g: nat
            ensures !WalkAsWritten(p, o, b2000, g).Returns?
          {
            if g > 0 {
              assert !WalkAsWritten(p, next, b, g - 1).Returns?;
              assert WalkAsWritten(p, o, b2000, g) == WalkAsWritten(p, next, b, g - 1);
            } else {
              assert WalkAsWritten(p, o, b2000, g) == StillWalking;
            }
          }
        }
      }
    }
  }

  /**
   * Given enough fuel, `dl_packettype` as written returns the type the
   * corrected one gives, unless it returns nothing whatever its fuel.
   */
  lemma PacketTypeAsWrittenEnds(p: Packet) returns (fuel: nat)
    ensures PacketTypeAsWritten(p, fuel) == Returns(PacketType(p))
            || forall g: nat :: !PacketTypeAsWritten(p, g).Returns?
  {
    fuel := 0;
    if !IsInfo(p) {
      assert Offsets([]) == {};
      fuel := CheckedReachedFrom(p, [], BeginBlockette(p), false);
      assert PacketType(p) == WalkChecked(p, BeginBlockette(p), false, Offsets([]));
      if PacketTypeAsWritten(p, fuel) != Returns(PacketType(p)) {
        assert WalkAsWritten(p, BeginBlockette(p), false, fuel) != Returns(PacketType(p));
        forall g: nat
          ensures !PacketTypeAsWritten(p, g).Returns?
        {
          assert !WalkAsWritten(p, BeginBlockette(p), false, g).Returns?;
          assert PacketTypeAsWritten(p, g) == WalkAsWritten(p, BeginBlockette(p), false, g);
        }
      }
    }
  }

  lemma {:induction false} ChainDecidesFrom(p: Packet, c: seq<int>, j: nat)
    requires Linked(p, c) && Distinct(c) && j < |c|
    ensures var o, k := c[|c| - 1], WalkChecked(p, c[j], Has2000(p, c[..j]), Offsets(c[..j]));
      && (o > MAX_HEADER_SIZE || !Readable(o) ==> k == SLNUM)
      && (o <= MAX_HEADER_SIZE && Readable(o) && Marker(BlocketteType(p, o)).Some? ==>
            k == Marker(BlocketteType(p, o)).value)
      && (EndsUnmarked(p, c) ==> k == Unmarked(p, Has2000(p, c)))
      && (PassesOn(p, o) && NextBlockette(p, o) in c ==> k == SLNUM)
    decreases |c| - j
  {
    var o := c[j];
    assert o !in Offsets(c[..j]);
    Has2000Snoc(p, c[..j], o);
    assert c[..j + 1] == c[..j] + [o];
    assert Offsets(c[..j + 1]) == Offsets(c[..j]) + {o};
    if j < |c| - 1 {
      assert PassesOn(p, o) && NextBlockette(p, o) == c[j + 1];
      ChainDecidesFrom(p, c, j + 1);
    } else {
      assert c[..j + 1] == c;
    }
  }

  /**
   * The type the corrected `dl_packettype` gives a record is decided at the
   * last blockette of its chain: SLNUM beyond MAX_HEADER_SIZE, outside the
   * packet, or where the chain leads back onto itself; the marker's type at
   * the first marker blockette; and at the end of a chain without one, the
   * type its sample rate factor, sample count and blockettes 2000 give.
   */
  lemma ChainDecides(p: Packet, c: seq<int>)
    requires !IsInfo(p) && WalkedChain(p, c)
    ensures var o := c[|c| - 1];
      && (o > MAX_HEADER_SIZE || !Readable(o) ==> PacketType(p) == SLNUM)
      && (o <= MAX_HEADER_SIZE && Readable(o) && Marker(BlocketteType(p, o)).Some? ==>
            PacketType(p) == Marker(BlocketteType(p, o)).value)
      && (EndsUnmarked(p, c) ==> PacketType(p) == Unmarked(p, Has2000(p, c)))
      && (PassesOn(p, o) && NextBlockette(p, o) in c ==> PacketType(p) == SLNUM)
  {
    assert c[..0] == [];
    assert Offsets([]) == {};
    ChainDecidesFrom(p, c, 0);
  }

  lemma {:induction false} ChainFrom(p: Packet, c0: seq<int>) returns (c: seq<int>)
    requires |c0| > 0 && Linked(p, c0) && Distinct(c0)
    ensures |c| > 0 && c[0] == c0[0] && Linked(p, c) && Distinct(c) && Stops(p, c)
    decreases WalkOffsets - Offsets(c0)
  {
    var o := c0[|c0| - 1];
    if Stops(p, c0) {
      c := c0;
    } else {
      var next := NextBlockette(p, o);
      LinkedSnoc(p, c0, next);
      var c1 := c0 + [next];
      assert Offsets(c1) == Offsets(c0) + {next};
      assert Distinct(c1) by {
        forall i, j | 0 <= i < j < |c1|
          ensures c1[i] != c1[j]
        {
          if j < |c0| {
            assert c1[i] == c0[i] && c1[j] == c0[j];
          } else {
            assert c1[i] == c0[i] && c1[j] == next;
          }
        }
      }
      if !PassesOn(p, next) {
        c := c1;
      } else {
        assert next in WalkOffsets;
        c := ChainFrom(p, c1);
      }
    }
  }

  /** Every record has a chain from its first blockette that ends where the walk stops. */
  lemma WalkedChainExists(p: Packet) returns (c: seq<int>)
    ensures WalkedChain(p, c) && Stops(p, c)
  {
    c := ChainFrom(p, [BeginBlockette(p)]);
  }

  /**
   * A record whose chain stops at a blockette without a marker and with a
   * next offset of 0 is SLMSG exactly when it has no sample rate factor but
   * samples, and SLDATA exactly when it has a sample rate factor, or neither
   * samples nor a blockette 2000; no other record is either.
   */
  lemma UnmarkedKinds(p: Packet, c: seq<int>)
    requires !IsInfo(p) && WalkedChain(p, c) && Stops(p, c)
    ensures PacketType(p) == SLMSG <==> EndsUnmarked(p, c) && SamprateFact(p) == 0 && NumSamples(p) != 0
    ensures PacketType(p) == SLDATA <==>
      EndsUnmarked(p, c) && (SamprateFact(p) != 0 || (NumSamples(p) == 0 && !Has2000(p, c)))
  {
    ChainDecides(p, c);
  }

  /**
   * A record is SLBLK exactly when its chain stops without a marker, at a
   * next offset of 0, having met a blockette 2000, with neither a sample rate
   * factor nor samples.
   */
  lemma BlockRecordNeeds2000(p: Packet, c: seq<int>)
    requires !IsInfo(p) && WalkedChain(p, c) && Stops(p, c)
    ensures PacketType(p) == SLBLK <==>
      EndsUnmarked(p, c) && SamprateFact(p) == 0 && NumSamples(p) == 0 && Has2000(p, c)
  {
    ChainDecides(p, c);
  }

  /**
   * A record whose first blockette (offset 48, type 1000) names itself as
   * the next one: the walk as written goes round for ever, whatever fuel it
   * is given, where the corrected walk calls the record SLNUM.
   */
  predicate SelfLinked(p: Packet)
  {
    !IsInfo(p) && BeginBlockette(p) == 48
    && BlocketteType(p, 48) == 1000 && NextBlockette(p, 48) == 48
  }

  lemma {:induction false} SelfLinkedWalk(p: Packet, fuel: nat)
    requires SelfLinked(p)
    ensures WalkAsWritten(p, 48, false, fuel) == StillWalking
    decreases fuel
  {
    if fuel > 0 {
      SelfLinkedWalk(p, fuel - 1);
    }
  }

  lemma SelfLinkedNeverTyped(p: Packet, fuel: nat)
    requires SelfLinked(p)
    ensures PacketTypeAsWritten(p, fuel) == StillWalking
    ensures PacketType(p) == SLNUM
  {
    SelfLinkedWalk(p, fuel);
  }

  /** Such a record exists: all NUL bytes except the two offsets and the blockette type. */
  function SelfLinkedRecord(): (p: Packet)
    ensures SelfLinked(p)
  {
    var p: Packet := seq(PACKETSIZE, i =>
      if i == SLHEADSIZE + 47 || i == SLHEADSIZE + 51 then 48 as char
      else if i == SLHEADSIZE + 48 then 3 as char
      else if i == SLHEADSIZE + 49 then 0xE8 as char
      else '\0');
    assert p[0] == '\0' && !IsInfo(p);
    p
  }

  // ---------------------------------------------------------------------
  // update_stream

  /** The C string `dl_strncpclean` makes of `n` code bytes: the bytes without spaces, up to a NUL. */
  function CleanCode(code: seq<Octet>): string
  {
    CStr(Clean(code))
  }

  /** An entry after it received a packet: its sequence number and the record's start time. */
  function Stamped(e: Stream, p: Packet): (f: Stream)
    ensures f.net == e.net && f.sta == e.sta && f.selectors == e.selectors
    ensures f.seqnum == Sequence(p) && f.timestamp == RecordStart(StartTime(p))
  {
    e.(seqnum := Sequence(p), timestamp := RecordStart(StartTime(p)))
  }

  /** Whether a multi-station entry's (wildcard) codes match the packet's cleaned codes. */
  predicate Matches(e: Stream, p: Packet)
  {
    GlobMatch(CleanCode(NetworkCode(p)), e.net) && GlobMatch(CleanCode(StationCode(p)), e.sta)
  }

  /**
   * `update_stream` on the chain: None (-1) for a packet without a sequence
   * number or one no entry takes. The uni-station entry takes every packet;
   * otherwise every matching entry is updated and the others are kept.
   */
  function UpdateStreams(chain: seq<Stream>, p: Packet): (r: Option<seq<Stream>>)
    ensures r.Some? ==> Sequence(p) != -1 && |r.value| == |chain| > 0
    ensures r.Some? && IsUni(chain[0]) ==> r.value == [Stamped(chain[0], p)] + chain[1..]
    ensures r.Some? && !IsUni(chain[0]) ==>
      forall k :: 0 <= k < |chain| ==> r.value[k] == if Matches(chain[k], p) then Stamped(chain[k], p) else chain[k]
    ensures r.None? <==>
      Sequence(p) == -1 || chain == [] || (!IsUni(chain[0]) && forall k :: 0 <= k < |chain| ==> !Matches(chain[k], p))
  {
    if Sequence(p) == -1 || chain == [] then None
    else if IsUni(chain[0]) then Some([Stamped(chain[0], p)] + chain[1..])
    else if forall k :: 0 <= k < |chain| ==> !Matches(chain[k], p) then None
    else Some(seq(|chain|, k requires 0 <= k < |chain| =>
      if Matches(chain[k], p) then Stamped(chain[k], p) else chain[k]))
  }
}
