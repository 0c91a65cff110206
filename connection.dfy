/**
 * Managing a DataLink connection: the stream chain and INFO request of a
 * connection, and the collect routines. One pass of `dl_collect_nb` (one
 * turn of the primary loop of `dl_collect`) is the composition of pure
 * steps on the connection as a value (`ConnView`): the control steps
 * (timeout, keepalive, INFO request, reconnect, negotiation), the draining
 * of complete packets from the receive buffer, the compaction of what is
 * left, the read from the socket and the timers. Each step is also a method
 * on the `Dlcp` object that is proved to do what the pure step says.
 *
 * What the network calls return (sending INFO and keepalive requests,
 * configuring the link, polling and reading the socket, the clock) is an
 * input of the pass.
 */
module Connection {
  import opened CStd
  import opened LibDali
  import opened Packets
  import opened Network

  // ---------------------------------------------------------------------
  // The stream chain

  /**
   * The time stamp field of a new entry: empty without a time stamp, else
   * what `strncpy` copies into the 20-byte field, its first 20 characters.
   */
  function StampOf(timestamp: Option<string>): (s: Stamp)
    ensures s.Text? && |s.text| <= 20
    ensures timestamp.Some? ==> s.text <= timestamp.value
    ensures timestamp.Some? && |timestamp.value| <= 20 ==> s.text == timestamp.value
    ensures timestamp.None? ==> s.text == []
  {
    Text(if timestamp.None? then [] else if |timestamp.value| <= 20 then timestamp.value else timestamp.value[..20])
  }

  /** The entry `dl_addstream` makes. */
  function Entry(net: string, sta: string, selectors: Option<string>, seqnum: int, timestamp: Option<string>): Stream
  {
    Stream(net, sta, selectors, seqnum, StampOf(timestamp))
  }

  /** The entry `dl_setuniparams` makes. */
  function UniEntry(selectors: Option<string>, seqnum: int, timestamp: Option<string>): (e: Stream)
    ensures IsUni(e)
  {
    Entry(UNINETWORK, UNISTATION, selectors, seqnum, timestamp)
  }

  /**
   * `dl_addstream` on the chain: the entry is appended after the existing
   * ones, which are kept in order, unless the chain is in uni-station mode.
   */
  function ChainAdd(chain: seq<Stream>, e: Stream): (r: Option<seq<Stream>>)
    ensures r.None? <==> chain != [] && IsUni(chain[0])
    ensures r.Some? ==> |r.value| == |chain| + 1 && r.value[..|chain|] == chain && r.value[|chain|] == e
  {
    if chain != [] && IsUni(chain[0]) then None else Some(chain + [e])
  }

  /**
   * `dl_setuniparams` on the chain: refused when a multi-station entry
   * leads the chain; otherwise the chain becomes the one uni-station entry.
   */
  function ChainSetUni(chain: seq<Stream>, e: Stream): (r: Option<seq<Stream>>)
    requires IsUni(e)
    ensures r.None? <==> chain != [] && !IsUni(chain[0])
    ensures r.Some? ==> |r.value| == 1 && r.value[0] == e
  {
    if chain != [] && !IsUni(chain[0]) then None else Some([e])
  }

  /** Once in uni-station mode, adding a stream is refused. */
  lemma UniModeRefusesAdd(chain: seq<Stream>, u: Stream, e: Stream)
    requires IsUni(u) && ChainSetUni(chain, u).Some?
    ensures ChainAdd(ChainSetUni(chain, u).value, e).None?
  {
  }

  /** Once a multi-station entry has been added, uni-station mode is refused. */
  lemma MultiModeRefusesUni(chain: seq<Stream>, e: Stream, u: Stream)
    requires !IsUni(e) && IsUni(u) && ChainAdd(chain, e).Some?
    ensures ChainSetUni(ChainAdd(chain, e).value, u).None?
  {
    var c := ChainAdd(chain, e).value;
    if chain == [] {
      assert c[0] == e;
    } else {
      assert c[0] == chain[0];
    }
  }

  /** Setting the uni-station parameters again overwrites the entry. */
  lemma SetUniOverwrites(chain: seq<Stream>, u: Stream, u': Stream)
    requires IsUni(u) && IsUni(u') && ChainSetUni(chain, u).Some?
    ensures ChainSetUni(ChainSetUni(chain, u).value, u') == Some([u'])
  {
  }

  /**
   * `dl_addstream`: -1 and no change when the chain is in uni-station mode;
   * otherwise the entry is appended and the connection is multi-station.
   */
  method AddStream(conn: Dlcp, net: string, sta: string, selectors: Option<string>, seqnum: int,
                   timestamp: Option<string>) returns (rc: int)
    modifies conn
    ensures var r := ChainAdd(old(conn.streams), Entry(net, sta, selectors, seqnum, timestamp));
      && (r.None? ==> rc == -1 && conn.View() == old(conn.View()))
      && (r.Some? ==> rc == 0 && conn.View() == old(conn.View()).(streams := r.value, multistation := true))
  {
    if conn.streams != [] && IsUni(conn.streams[0]) {
      return -1;
    }
    conn.streams := conn.streams + [Entry(net, sta, selectors, seqnum, timestamp)];
    conn.multistation := true;
    return 0;
  }

  /**
   * `dl_setuniparams`: -1 and no change when the chain holds multi-station
   * entries; otherwise the chain is the single uni-station entry and the
   * connection is not multi-station.
   */
  method SetUniParams(conn: Dlcp, selectors: Option<string>, seqnum: int, timestamp: Option<string>)
    returns (rc: int)
    modifies conn
    ensures var r := ChainSetUni(old(conn.streams), UniEntry(selectors, seqnum, timestamp));
      && (r.None? ==> rc == -1 && conn.View() == old(conn.View()))
      && (r.Some? ==> rc == 0 && conn.View() == old(conn.View()).(streams := r.value, multistation := false))
  {
    if conn.streams != [] && !IsUni(conn.streams[0]) {
      return -1;
    }
    conn.streams := [UniEntry(selectors, seqnum, timestamp)];
    conn.multistation := false;
    return 0;
  }

  /**
   * `dl_request_info`: refused while a request is pending, otherwise
   * recorded. A NULL request (`None`) succeeds and leaves no request pending.
   */
  method RequestInfo(conn: Dlcp, infostr: Option<string>) returns (rc: int)
    modifies conn
    ensures old(conn.info).Some? ==> rc == -1 && conn.View() == old(conn.View())
    ensures old(conn.info).None? ==> rc == 0 && conn.View() == old(conn.View()).(info := infostr)
  {
    if conn.info.Some? {
      return -1;
    }
    conn.info := infostr;
    return 0;
  }

  /** `dl_terminate`: ask the collect routines to finish. */
  method Terminate(conn: Dlcp)
    modifies conn
    ensures conn.View() == old(conn.View()).(terminate := true)
  {
    conn.terminate := true;
  }

  /**
   * `update_stream` on the connection: the chain becomes what
   * `UpdateStreams` gives, entry by entry in the multi-station case; -1
   * leaves it as it was.
   */
  method UpdateStream(conn: Dlcp, p: Packet) returns (rc: int)
    modifies conn
    ensures rc == (if UpdateStreams(old(conn.streams), p).None? then -1 else 0)
    ensures rc == -1 ==> conn.View() == old(conn.View())
    ensures rc == 0 ==> conn.View() == old(conn.View()).(streams := UpdateStreams(old(conn.streams), p).value)
  {
    var seqnum := Sequence(p);
    if seqnum == -1 || conn.streams == [] {
      return -1;
    }
    if IsUni(conn.streams[0]) {
      conn.streams := [Stamped(conn.streams[0], p)] + conn.streams[1..];
      return 0;
    }
    var marked, updates := MarkMatches(conn.streams, p);
    if updates == 0 {
      return -1;
    }
    conn.streams := marked;
    return 0;
  }

  /**
   * The multi-station loop of `update_stream`: every entry whose codes match
   * the packet is stamped, and the matches are counted.
   */
  method MarkMatches(chain: seq<Stream>, p: Packet) returns (marked: seq<Stream>, updates: int)
    ensures |marked| == |chain|
    ensures forall k :: 0 <= k < |chain| ==>
      marked[k] == if Matches(chain[k], p) then Stamped(chain[k], p) else chain[k]
    ensures updates == 0 <==> forall k :: 0 <= k < |chain| ==> !Matches(chain[k], p)
  {
    marked := chain;
    updates := 0;
    var i := 0;
    while i < |marked|
      invariant 0 <= i <= |marked| == |chain|
      invariant forall k :: 0 <= k < i ==>
        marked[k] == if Matches(chain[k], p) then Stamped(chain[k], p) else chain[k]
      invariant forall k :: i <= k < |chain| ==> marked[k] == chain[k]
      invariant updates == 0 <==> forall k :: 0 <= k < i ==> !Matches(chain[k], p)
    {
      if Matches(marked[i], p) {
        marked := marked[i := Stamped(marked[i], p)];
        updates := updates + 1;
      }
      i := i + 1;
    }
  }

  // ---------------------------------------------------------------------
  // Timers

  /** A trigger with the time stamp it was last set at. */
  datatype Timer = Timer(trig: int, stamp: int)

  /** Whether more than `interval` seconds lie between `stamp` and `now` (times in ticks). */
  predicate Elapsed(now: int, stamp: int, interval: int) { now - stamp > interval * DLTMODULUS }

  /**
   * The network timeout and keepalive timers: a reset trigger (-1) starts
   * counting (0) from `now`, and a counting one fires (1) once more than the
   * interval has passed. A zero interval disables the timer.
   */
  function Countdown(interval: int, t: Timer, now: int): (u: Timer)
  {
    if interval == 0 then t
    else if t.trig == -1 then Timer(0, now)
    else if t.trig == 0 && Elapsed(now, t.stamp, interval) then Timer(1, t.stamp)
    else t
  }

  /**
   * The reconnect delay timer runs the other way: a reset trigger (-1)
   * starts waiting (1) from `now`, and the wait ends (0, "connect now") once
   * more than the delay has passed.
   */
  function Delay(interval: int, t: Timer, now: int): (u: Timer)
  {
    if interval == 0 then t
    else if t.trig == -1 then Timer(1, now)
    else if t.trig == 1 && Elapsed(now, t.stamp, interval) then Timer(0, t.stamp)
    else t
  }

  /** A countdown moves -1 to 0 to 1 and nowhere else, and a zero interval leaves it alone. */
  lemma CountdownSteps(interval: int, t: Timer, now: int)
    ensures interval == 0 ==> Countdown(interval, t, now) == t
    ensures interval != 0 && t.trig == -1 ==> Countdown(interval, t, now) == Timer(0, now)
    ensures Countdown(interval, t, now).trig == 1 && t.trig != 1 ==>
      interval != 0 && t.trig == 0 && Elapsed(now, t.stamp, interval)
    ensures t.trig in {-1, 0, 1} ==> Countdown(interval, t, now).trig in {-1, 0, 1}
    ensures t.trig == 1 ==> Countdown(interval, t, now) == t
  {
  }

  /**
   * After a reset at `start`, the countdown has fired at a later `now`
   * exactly when more than the interval has passed since `start`.
   */
  lemma CountdownFires(interval: int, stamp: int, start: int, now: int)
    requires interval != 0
    ensures var u := Countdown(interval, Countdown(interval, Timer(-1, stamp), start), now);
      (u.trig == 1 <==> Elapsed(now, start, interval)) && u.stamp == start
  {
  }

  /**
   * After a disconnection resets it at `start`, the reconnect delay lets
   * the connection be retried at `now` exactly when more than the delay has
   * passed; with a zero delay the reset trigger never opens again.
   */
  lemma DelayOpens(interval: int, stamp: int, start: int, now: int)
    ensures var u := Delay(interval, Delay(interval, Timer(-1, stamp), start), now);
      (interval != 0 ==> (u.trig == 0 <==> Elapsed(now, start, interval)))
      && (interval == 0 ==> u.trig == -1)
  {
  }

  /** The three timers of a connection after the timing logic ran at `now`. */
  function TimersAfter(v: ConnView, now: int): (w: ConnView)
    ensures w.(stat := v.stat) == v
    ensures w.stat.(nettoTrig := v.stat.nettoTrig, nettoTime := v.stat.nettoTime,
                    keepaliveTrig := v.stat.keepaliveTrig, keepaliveTime := v.stat.keepaliveTime,
                    netdlyTrig := v.stat.netdlyTrig, netdlyTime := v.stat.netdlyTime) == v.stat
    ensures w.addr == v.addr && w.stat.databuf == v.stat.databuf
    ensures w.stat.recptr == v.stat.recptr && w.stat.sendptr == v.stat.sendptr
  {
    var s := v.stat;
    var n := Countdown(v.netto, Timer(s.nettoTrig, s.nettoTime), now);
    var k := Countdown(v.keepalive, Timer(s.keepaliveTrig, s.keepaliveTime), now);
    var d := Delay(v.netdly, Timer(s.netdlyTrig, s.netdlyTime), now);
    v.(stat := s.(nettoTrig := n.trig, nettoTime := n.stamp, keepaliveTrig := k.trig,
                  keepaliveTime := k.stamp, netdlyTrig := d.trig, netdlyTime := d.stamp))
  }

  /** The timing logic at the end of a pass. */
  method UpdateTimers(conn: Dlcp, now: int)
    modifies conn.stat
    ensures conn.View() == TimersAfter(old(conn.View()), now)
  {
    TickNetto(conn.stat, conn.netto, now);
    TickKeepalive(conn.stat, conn.keepalive, now);
    TickNetdly(conn.stat, conn.netdly, now);
  }

  /** The network timeout timing logic. */
  method TickNetto(st: DlStat, interval: int, now: int)
    modifies st
    ensures Timer(st.nettoTrig, st.nettoTime) == Countdown(interval, Timer(old(st.nettoTrig), old(st.nettoTime)), now)
    ensures st.View() == old(st.View()).(nettoTrig := st.nettoTrig, nettoTime := st.nettoTime)
  {
    if interval != 0 {
      if st.nettoTrig == -1 {
        st.nettoTime := now;
        st.nettoTrig := 0;
      } else if st.nettoTrig == 0 && now - st.nettoTime > interval * DLTMODULUS {
        st.nettoTrig := 1;
      }
    }
  }

  /** The keepalive interval timing logic. */
  method TickKeepalive(st: DlStat, interval: int, now: int)
    modifies st
    ensures Timer(st.keepaliveTrig, st.keepaliveTime) ==
      Countdown(interval, Timer(old(st.keepaliveTrig), old(st.keepaliveTime)), now)
    ensures st.View() == old(st.View()).(keepaliveTrig := st.keepaliveTrig, keepaliveTime := st.keepaliveTime)
  {
    if interval != 0 {
      if st.keepaliveTrig == -1 {
        st.keepaliveTime := now;
        st.keepaliveTrig := 0;
      } else if st.keepaliveTrig == 0 && now - st.keepaliveTime > interval * DLTMODULUS {
        st.keepaliveTrig := 1;
      }
    }
  }

  /** The network delay timing logic. */
  method TickNetdly(st: DlStat, interval: int, now: int)
    modifies st
    ensures Timer(st.netdlyTrig, st.netdlyTime) == Delay(interval, Timer(old(st.netdlyTrig), old(st.netdlyTime)), now)
    ensures st.View() == old(st.View()).(netdlyTrig := st.netdlyTrig, netdlyTime := st.netdlyTime)
  {
    if interval != 0 {
      if st.netdlyTrig == -1 {
        st.netdlyTime := now;
        st.netdlyTrig := 1;
      } else if st.netdlyTrig == 1 && now - st.netdlyTime > interval * DLTMODULUS {
        st.netdlyTrig := 0;
      }
    }
  }

  // ---------------------------------------------------------------------
  // Draining the receive buffer

  /** The bytes received but not handed out yet. */
  function Pending(s: StatView): seq<Octet>
    requires BufferOk(s)
  {
    s.databuf[s.sendptr..s.recptr]
  }

  /** The packet at the send pointer. */
  function NextPacket(s: StatView): Packet
    requires BufferOk(s) && s.recptr - s.sendptr >= PACKETSIZE
  {
    s.databuf[s.sendptr..s.sendptr + PACKETSIZE]
  }

  /**
   * The query state after an INFO packet: the query in progress is over,
   * and so is the expected response once its terminated last packet came.
   */
  function InfoTaken(s: StatView, p: Packet): (t: StatView)
    requires IsInfo(p)
    ensures t.queryMode == NoQuery
    ensures t.expectInfo <==> s.expectInfo && p[SLHEADSIZE - 1] == '*'
    ensures t.(queryMode := s.queryMode, expectInfo := s.expectInfo) == s
  {
    s.(expectInfo := s.expectInfo && !InfoTerminated(p), queryMode := NoQuery)
  }

  /** Whether an INFO packet goes to the caller: all but the answer to an expected keepalive do. */
  predicate InfoDelivered(s: StatView)
  {
    !(s.expectInfo && s.queryMode == KeepAliveQuery)
  }

  /** The send pointer moved past one packet. */
  function Advanced(s: StatView): (t: StatView)
    requires BufferOk(s) && s.recptr - s.sendptr >= PACKETSIZE
    ensures BufferOk(t) && t.sendptr - s.sendptr == PACKETSIZE
    ensures t.(sendptr := s.sendptr) == s
  {
    s.(sendptr := s.sendptr + PACKETSIZE)
  }

  /** The part of a connection the packet loop changes, and whether the packet taken goes to the caller. */
  datatype Consumed = Consumed(streams: seq<Stream>, stat: StatView, deliver: bool)

  /**
   * One turn of the packet loop of the collect routines. An INFO packet
   * updates the query state; any other packet updates the stream chain and
   * is withheld when `update_stream` fails. The send pointer moves past the
   * packet either way.
   */
  function ConsumeOne(chain: seq<Stream>, s: StatView): (r: Consumed)
    requires BufferOk(s) && s.recptr - s.sendptr >= PACKETSIZE
    ensures BufferOk(r.stat) && r.stat.sendptr == s.sendptr + PACKETSIZE
    ensures r.stat.databuf == s.databuf && r.stat.recptr == s.recptr
    ensures IsInfo(NextPacket(s)) ==> r.streams == chain
    ensures !IsInfo(NextPacket(s)) ==> r.stat == Advanced(s)
    ensures !IsInfo(NextPacket(s)) ==> (r.deliver <==> UpdateStreams(chain, NextPacket(s)).Some?)
  {
    var p := NextPacket(s);
    if IsInfo(p) then
      Consumed(chain, Advanced(InfoTaken(s, p)), InfoDelivered(s))
    else
      match UpdateStreams(chain, p)
      case None => Consumed(chain, Advanced(s), false)
      case Some(updated) => Consumed(updated, Advanced(s), true)
  }

  /**
   * An INFO packet answering an expected keepalive is withheld; any other
   * INFO packet, including one nobody asked for, is handed to the caller.
   * Either way no query is in progress afterwards.
   */
  lemma InfoPacketDelivery(chain: seq<Stream>, s: StatView)
    requires BufferOk(s) && s.recptr - s.sendptr >= PACKETSIZE && IsInfo(NextPacket(s))
    ensures ConsumeOne(chain, s).deliver <==> !(s.expectInfo && s.queryMode == KeepAliveQuery)
    ensures ConsumeOne(chain, s).stat.queryMode == NoQuery
    ensures !s.expectInfo ==> ConsumeOne(chain, s).deliver && !ConsumeOne(chain, s).stat.expectInfo
  {
  }

  /** The part of a connection the packet loop changes, and where the packet handed out starts, if one is. */
  datatype Drained = Drained(streams: seq<Stream>, stat: StatView, packet: Option<int>)

  /**
   * The packet loop: complete packets are taken one at a time until one
   * goes to the caller or less than a packet is left. A packet handed out
   * starts where the send pointer stood and ends where it stands now.
   */
  function Drain(chain: seq<Stream>, s: StatView): (r: Drained)
    requires BufferOk(s)
    ensures BufferOk(r.stat)
    ensures r.stat.databuf == s.databuf && r.stat.recptr == s.recptr
    ensures s.sendptr <= r.stat.sendptr
    ensures r.packet.Some? ==> s.sendptr <= r.packet.value && r.packet.value + PACKETSIZE == r.stat.sendptr
    ensures r.packet.None? ==> r.stat.recptr - r.stat.sendptr < PACKETSIZE
    decreases s.recptr - s.sendptr
  {
    if s.recptr - s.sendptr < PACKETSIZE then Drained(chain, s, None)
    else
      var c := ConsumeOne(chain, s);
      if c.deliver then Drained(c.streams, c.stat, Some(s.sendptr)) else Drain(c.streams, c.stat)
  }

  /** The INFO half of one turn of the packet loop, on the persistent state. */
  method TakeInfo(st: DlStat, p: Packet) returns (deliver: bool)
    requires IsInfo(p)
    modifies st
    ensures deliver == InfoDelivered(old(st.View()))
    ensures st.View() == InfoTaken(old(st.View()), p)
  {
    var terminator := p[SLHEADSIZE - 1] != '*';
    deliver := true;
    if st.expectInfo {
      if terminator {
        st.expectInfo := false;
      }
      if st.queryMode == KeepAliveQuery {
        deliver := false;
      }
    }
    if st.queryMode != NoQuery {
      st.queryMode := NoQuery;
    }
  }

  /** Moves the send pointer past one packet. */
  method Advance(st: DlStat)
    requires BufferOk(st.View()) && st.recptr - st.sendptr >= PACKETSIZE
    modifies st
    ensures st.View() == Advanced(old(st.View()))
  {
    st.sendptr := st.sendptr + PACKETSIZE;
  }

  /** One turn of the packet loop on the connection, as `ConsumeOne` describes it. */
  method ConsumePacket(conn: Dlcp) returns (deliver: bool)
    requires conn.Valid() && conn.stat.recptr - conn.stat.sendptr >= PACKETSIZE
    modifies conn, conn.stat
    ensures conn.Valid()
    ensures var c := ConsumeOne(old(conn.streams), old(conn.stat.View()));
      deliver == c.deliver && conn.View() == old(conn.View()).(streams := c.streams, stat := c.stat)
  {
    var st := conn.stat;
    var p: Packet := st.databuf[st.sendptr..st.sendptr + PACKETSIZE];
    assert p == NextPacket(st.View());
    if p[..6] == INFOSIGNATURE {
      deliver := ConsumeInfo(st, p);
    } else {
      deliver := ConsumeData(conn, p);
    }
  }

  /** The packet loop's turn for an INFO packet. */
  method ConsumeInfo(st: DlStat, p: Packet) returns (deliver: bool)
    requires BufferOk(st.View()) && st.recptr - st.sendptr >= PACKETSIZE && IsInfo(p)
    modifies st
    ensures deliver == InfoDelivered(old(st.View()))
    ensures st.View() == Advanced(InfoTaken(old(st.View()), p))
  {
    deliver := TakeInfo(st, p);
    Advance(st);
  }

  /** The packet loop's turn for any other packet. */
  method ConsumeData(conn: Dlcp, p: Packet) returns (deliver: bool)
    requires conn.Valid() && conn.stat.recptr - conn.stat.sendptr >= PACKETSIZE
    modifies conn, conn.stat
    ensures var u := UpdateStreams(old(conn.streams), p);
      deliver == u.Some?
      && conn.View() == old(conn.View()).(streams := if u.Some? then u.value else old(conn.streams),
                                          stat := Advanced(old(conn.stat.View())))
  {
    var rc := UpdateStream(conn, p);
    deliver := rc != -1;
    Advance(conn.stat);
  }

  /** The packet loop on the connection, as `Drain` describes it. */
  method ProcessBuffer(conn: Dlcp) returns (packet: Option<int>)
    requires conn.Valid()
    modifies conn, conn.stat
    ensures conn.Valid()
    ensures var d := Drain(old(conn.streams), old(conn.stat.View()));
      packet == d.packet && conn.View() == old(conn.View()).(streams := d.streams, stat := d.stat)
  {
    while conn.stat.recptr - conn.stat.sendptr >= PACKETSIZE
      invariant conn.Valid()
      invariant Drain(conn.streams, conn.stat.View()) == Drain(old(conn.streams), old(conn.stat.View()))
      invariant conn.View() == old(conn.View()).(streams := conn.streams, stat := conn.stat.View())
      decreases conn.stat.recptr - conn.stat.sendptr
    {
      var deliver := ConsumePacket(conn);
      if deliver {
        return Some(conn.stat.sendptr - PACKETSIZE);
      }
    }
    return None;
  }

  // ---------------------------------------------------------------------
  // After the packet loop

  /** The buffer after `memmove` shifted the pending bytes to the front. */
  function Compacted(s: StatView): (t: StatView)
    requires BufferOk(s)
    ensures BufferOk(t) && t.sendptr == 0 && t.recptr == s.recptr - s.sendptr
    ensures Pending(t) == Pending(s)
    ensures t.databuf[t.recptr..] == s.databuf[t.recptr..]
    ensures t.(databuf := s.databuf, recptr := s.recptr, sendptr := s.sendptr) == s
  {
    s.(databuf := Pending(s) + s.databuf[s.recptr - s.sendptr..], recptr := s.recptr - s.sendptr, sendptr := 0)
  }

  /** Compacting an already compacted buffer changes nothing. */
  lemma CompactedIdempotent(s: StatView)
    requires BufferOk(s)
    ensures Compacted(Compacted(s)) == Compacted(s)
  {
    var t := Compacted(s);
    assert t.databuf[..t.recptr] + t.databuf[t.recptr..] == t.databuf;
  }

  /** The `memmove` of the collect routines: the pending bytes move to the front of the buffer. */
  method Compact(st: DlStat)
    requires BufferOk(st.View())
    modifies st, st.databuf
    ensures st.View() == Compacted(old(st.View()))
  {
    var n := st.recptr - st.sendptr;
    MoveDown(st.databuf, st.sendptr, n);
    st.recptr, st.sendptr := n, 0;
  }

  /** `memmove(buf, buf + from, n)`: the `n` bytes at `from` move to the front, the rest stays. */
  method MoveDown(buf: array<Octet>, from: int, n: int)
    requires 0 <= from && 0 <= n && from + n <= buf.Length
    modifies buf
    ensures buf[..] == old(buf[from..from + n]) + old(buf[n..])
  {
    ghost var orig := buf[..];
    var i := 0;
    while i < n
      invariant 0 <= i <= n
      invariant forall k :: 0 <= k < i ==> buf[k] == orig[from + k]
      invariant forall k :: i <= k < buf.Length ==> buf[k] == orig[k]
    {
      buf[i] := buf[from + i];
      i := i + 1;
    }
    assert buf[..] == orig[from..from + n] + orig[n..];
  }

  /** The replies that stop the data stream. */
  const ERROR_REPLY: seq<Octet> := "ERROR\r\n"
  const END_REPLY: seq<Octet> := "END"

  /** The connection after the end-of-pass checks, and whether the routine returns DLTERMINATE. */
  datatype Settled = Settled(v: ConnView, stop: bool)

  /**
   * After the packet loop: a terminating connection stops here, with all
   * complete packets handed out. Otherwise the pending bytes are moved to
   * the front, and a buffer holding nothing but the server's "ERROR\r\n"
   * or "END" reply closes the connection and stops.
   */
  function Settle(v: ConnView): (r: Settled)
    requires BufferOk(v.stat)
    ensures BufferOk(r.v.stat)
    ensures v.terminate ==> r == Settled(v, true)
    ensures !v.terminate ==> r.v.stat.sendptr == 0 && Pending(r.v.stat) == Pending(v.stat)
    ensures !v.terminate ==> (r.stop <==> Pending(v.stat) == ERROR_REPLY || Pending(v.stat) == END_REPLY)
    ensures !v.terminate ==> r.v.link == (if r.stop then -1 else v.link)
    ensures r.v.addr == v.addr && r.v.terminate == v.terminate
    ensures r.v.stat.recptr - r.v.stat.sendptr == v.stat.recptr - v.stat.sendptr
  {
    if v.terminate then Settled(v, true)
    else
      var c := if v.stat.sendptr != 0 then v.(stat := Compacted(v.stat)) else v;
      if Pending(c.stat) == ERROR_REPLY || Pending(c.stat) == END_REPLY then Settled(AfterDisconnect(c), true)
      else Settled(c, false)
  }

  /** The end-of-pass checks on the connection, as `Settle` describes them. */
  method SettleBuffer(conn: Dlcp) returns (stop: bool)
    requires conn.Valid()
    modifies conn, conn.stat, conn.stat.databuf
    ensures conn.Valid()
    ensures Settled(conn.View(), stop) == Settle(old(conn.View()))
  {
    if conn.terminate {
      return true;
    }
    CompactPending(conn);
    stop := CloseOnReply(conn);
  }

  /** The `memmove` step of the end-of-pass checks: pending bytes move to the front when some were handed out. */
  method CompactPending(conn: Dlcp)
    requires conn.Valid()
    modifies conn.stat, conn.stat.databuf
    ensures conn.Valid()
    ensures var v := old(conn.View());
      conn.View() == if v.stat.sendptr != 0 then v.(stat := Compacted(v.stat)) else v
  {
    if conn.stat.sendptr != 0 {
      Compact(conn.stat);
    }
  }

  /** The check for the server's "ERROR\r\n" or "END" reply: a buffer holding just one closes the connection. */
  method CloseOnReply(conn: Dlcp) returns (stop: bool)
    requires conn.Valid()
    modifies conn
    ensures conn.Valid()
    ensures stop <==> Pending(old(conn.View()).stat) == ERROR_REPLY || Pending(old(conn.View()).stat) == END_REPLY
    ensures conn.View() == if stop then AfterDisconnect(old(conn.View())) else old(conn.View())
  {
    var st := conn.stat;
    var size := st.recptr - st.sendptr;
    stop := (size == 7 && st.databuf[st.sendptr..st.sendptr + 7] == ERROR_REPLY)
            || (size == 3 && st.databuf[st.sendptr..st.sendptr + 3] == END_REPLY);
    if stop {
      var rc, _ := Disconnect(conn);
      conn.link := rc;
    }
  }

  /** Once the packet loop and the end-of-pass checks are through, the buffer has room to read into. */
  lemma RoomAfterSettle(chain: seq<Stream>, v: ConnView)
    requires BufferOk(v.stat)
    ensures var d := Drain(chain, v.stat);
      var r := Settle(v.(streams := d.streams, stat := d.stat));
      d.packet.None? && !r.stop ==> r.v.stat.recptr < PACKETSIZE < BUFSIZE
  {
  }

  // ---------------------------------------------------------------------
  // Reading from the socket

  /** What `recv` does on the connection's socket: delivers bytes (none at all when the peer closed), or fails. */
  datatype RecvInput = Got(bytes: seq<Octet>) | RecvFailed(wouldBlock: bool)

  /** What the `select` of the blocking routine reports: the socket is readable, another descriptor is, nothing is, or an error. */
  datatype Poll = Ready(recv: RecvInput) | Stray | Quiet | PollFailed

  /** What `dl_recvdata` returns when asked for at most `space` bytes. */
  function BytesRead(r: RecvInput, space: int): (n: int)
    ensures n > 0 <==> r.Got? && |r.bytes| > 0 && space > 0
    ensures n > 0 ==> n == (if |r.bytes| <= space then |r.bytes| else space)
    ensures n == 0 <==> r.RecvFailed? && r.wouldBlock
    ensures n == -1 <==> !(n > 0 || n == 0)
  {
    var received := match r
      case Got(b) => if |b| <= space then |b| else space
      case RecvFailed(_) => -1;
    RecvData(true, received, r.RecvFailed? && r.wouldBlock)
  }

  /** The buffer after `n` received bytes were stored at the receive pointer, with the timeout and keepalive timers reset. */
  function Filled(s: StatView, data: seq<Octet>): (t: StatView)
    requires BufferOk(s) && |data| <= BUFSIZE - s.recptr
    ensures BufferOk(t) && t.sendptr == s.sendptr && t.recptr == s.recptr + |data|
    ensures Pending(t) == Pending(s) + data
    ensures t.databuf[..s.sendptr] == s.databuf[..s.sendptr] && t.databuf[t.recptr..] == s.databuf[t.recptr..]
    ensures t.nettoTrig == -1 && t.keepaliveTrig == -1
    ensures t.(databuf := s.databuf, recptr := s.recptr, nettoTrig := s.nettoTrig, keepaliveTrig := s.keepaliveTrig) == s
  {
    var buf := s.databuf[..s.recptr] + data + s.databuf[s.recptr + |data|..];
    assert buf[s.sendptr..s.recptr + |data|] == s.databuf[s.sendptr..s.recptr] + data;
    s.(databuf := buf, recptr := s.recptr + |data|, nettoTrig := -1, keepaliveTrig := -1)
  }

  /** A connection dropped after a failed read: closed, with the reconnect delay restarted. */
  function Dropped(v: ConnView): (w: ConnView)
    ensures w.link == -1 && w.stat.netdlyTrig == -1
    ensures w.(link := v.link, stat := v.stat) == v && w.stat.(netdlyTrig := v.stat.netdlyTrig) == v.stat
    ensures w.addr == v.addr
  {
    AfterDisconnect(v).(stat := v.stat.(netdlyTrig := -1))
  }

  /**
   * What a read does to the connection: received bytes are appended to
   * the pending ones and reset the timeout and keepalive timers; a failed
   * read or a closed peer drops the connection when `dropOnFailure`; "no
   * data yet" changes nothing.
   */
  function ReadInto(v: ConnView, r: RecvInput, dropOnFailure: bool): (w: ConnView)
    requires BufferOk(v.stat)
    ensures BufferOk(w.stat) && w.stat.sendptr == v.stat.sendptr
    ensures var n := BytesRead(r, BUFSIZE - v.stat.recptr);
      && (n > 0 ==> w == v.(stat := Filled(v.stat, r.bytes[..n])))
      && (n < 0 && dropOnFailure ==> w == Dropped(v))
      && (n == 0 || (n < 0 && !dropOnFailure) ==> w == v)
    ensures w.addr == v.addr
  {
    var n := BytesRead(r, BUFSIZE - v.stat.recptr);
    if n < 0 then (if dropOnFailure then Dropped(v) else v)
    else if n > 0 then v.(stat := Filled(v.stat, r.bytes[..n]))
    else v
  }

  /**
   * The read step of `dl_collect`, for a connection that is streaming:
   * a readable socket is read, and a read that fails or finds the peer
   * gone drops the connection; a failed `select` drops it unless the
   * connection is terminating; anything else changes nothing.
   */
  function BlockingRead(v: ConnView, poll: Poll): (w: ConnView)
    requires BufferOk(v.stat)
    ensures BufferOk(w.stat) && w.stat.sendptr == v.stat.sendptr
    ensures v.stat.dlState != Data || poll.Stray? || poll.Quiet? ==> w == v
    ensures v.stat.dlState == Data && poll.PollFailed? ==> w == (if v.terminate then v else Dropped(v))
    ensures v.stat.dlState == Data && poll.Ready? ==> w == ReadInto(v, poll.recv, true)
    ensures w.addr == v.addr && w.terminate == v.terminate
  {
    if v.stat.dlState != Data then v
    else match poll
      case Ready(r) => ReadInto(v, r, true)
      case PollFailed => if !v.terminate then Dropped(v) else v
      case _ => v
  }

  /** The read step of `dl_collect_nb`: a failed read drops a streaming connection unless it is terminating. */
  function NonBlockingRead(v: ConnView, r: RecvInput): (w: ConnView)
    requires BufferOk(v.stat)
    ensures BufferOk(w.stat) && w.stat.sendptr == v.stat.sendptr
    ensures v.stat.dlState != Data ==> w == v
    ensures v.stat.dlState == Data ==> w == ReadInto(v, r, !v.terminate)
    ensures w.addr == v.addr && w.terminate == v.terminate
  {
    if v.stat.dlState != Data then v else ReadInto(v, r, !v.terminate)
  }

  /** Whatever the read step does, the bytes pending before it are still pending, in front. */
  lemma ReadKeepsPending(v: ConnView, r: RecvInput, dropOnFailure: bool)
    requires BufferOk(v.stat)
    ensures var w := ReadInto(v, r, dropOnFailure);
      |Pending(v.stat)| <= |Pending(w.stat)| && Pending(w.stat)[..|Pending(v.stat)|] == Pending(v.stat)
  {
    var n := BytesRead(r, BUFSIZE - v.stat.recptr);
    if n > 0 {
      var w := ReadInto(v, r, dropOnFailure);
      assert Pending(w.stat) == Pending(v.stat) + r.bytes[..n];
    }
  }

  /** Data arriving restarts the timeout and keepalive timers. */
  lemma DataResetsTimers(v: ConnView, r: RecvInput, dropOnFailure: bool)
    requires BufferOk(v.stat) && r.Got? && |r.bytes| > 0 && v.stat.recptr < BUFSIZE
    ensures var w := ReadInto(v, r, dropOnFailure);
      w.stat.nettoTrig == -1 && w.stat.keepaliveTrig == -1 && w.link == v.link
      && |Pending(w.stat)| > |Pending(v.stat)|
  {
  }

  /** Stores received bytes at the receive pointer, as `recv` does, and restarts the timeout and keepalive timers. */
  method Store(st: DlStat, data: seq<Octet>)
    requires BufferOk(st.View()) && |data| <= BUFSIZE - st.recptr
    modifies st, st.databuf
    ensures st.View() == Filled(old(st.View()), data)
  {
    Overwrite(st.databuf, st.recptr, data);
    st.recptr := st.recptr + |data|;
    st.nettoTrig := -1;
    st.keepaliveTrig := -1;
  }

  /** The bytes `recv` writes into the buffer at `at`. */
  method Overwrite(buf: array<Octet>, at: int, data: seq<Octet>)
    requires 0 <= at && at + |data| <= buf.Length
    modifies buf
    ensures buf[..] == old(buf[..at]) + data + old(buf[at + |data|..])
  {
    forall i | 0 <= i < |data| {
      buf[at + i] := data[i];
    }
    assert buf[..] == old(buf[..at]) + data + old(buf[at + |data|..]);
  }

  /** Drops the connection after a failed read. */
  method Drop(conn: Dlcp)
    requires conn.Valid()
    modifies conn, conn.stat
    ensures conn.Valid()
    ensures conn.View() == Dropped(old(conn.View()))
  {
    var rc, _ := Disconnect(conn);
    conn.link := rc;
    conn.stat.netdlyTrig := -1;
  }

  /** A read into the connection's buffer, as `ReadInto` describes it. */
  method Receive(conn: Dlcp, r: RecvInput, dropOnFailure: bool)
    requires conn.Valid()
    modifies conn, conn.stat, conn.stat.databuf
    ensures conn.Valid()
    ensures conn.View() == ReadInto(old(conn.View()), r, dropOnFailure)
  {
    var n := BytesRead(r, BUFSIZE - conn.stat.recptr);
    if n < 0 {
      if dropOnFailure {
        Drop(conn);
      }
    } else if n > 0 {
      Store(conn.stat, r.bytes[..n]);
    }
  }

  /** The read step of `dl_collect` on the connection. */
  method ReadBlocking(conn: Dlcp, poll: Poll)
    requires conn.Valid()
    modifies conn, conn.stat, conn.stat.databuf
    ensures conn.Valid()
    ensures conn.View() == BlockingRead(old(conn.View()), poll)
  {
    if conn.stat.dlState == Data {
      match poll
      case Ready(r) =>
        Receive(conn, r, true);
      case PollFailed =>
        if !conn.terminate {
          Drop(conn);
        }
      case _ =>
    }
  }

  /** The read step of `dl_collect_nb` on the connection. */
  method ReadNonBlocking(conn: Dlcp, r: RecvInput)
    requires conn.Valid()
    modifies conn, conn.stat, conn.stat.databuf
    ensures conn.Valid()
    ensures conn.View() == NonBlockingRead(old(conn.View()), r)
  {
    if conn.stat.dlState == Data {
      Receive(conn, r, !conn.terminate);
    }
  }

  // ---------------------------------------------------------------------
  // The control steps at the head of a pass

  /** What the server and the outside world answer during the control steps of one pass. */
  datatype ControlInput = ControlInput(
    keepaliveSent: bool,  // whether `dl_send_info` sent the keepalive query
    infoSent: bool,       // whether `dl_send_info` sent the pending INFO request
    dial: SocketEnv,      // what a reconnection attempt meets
    configOk: bool)       // whether `dl_configlink` succeeded

  /** A connection whose socket is gone is down. */
  function LinkCheck(v: ConnView): (w: ConnView)
    ensures v.link == -1 ==> w == v.(stat := v.stat.(dlState := Down))
    ensures v.link != -1 ==> w == v
  {
    if v.link == -1 then v.(stat := v.stat.(dlState := Down)) else v
  }

  /** Whether the network timeout fires: the connection streams and its timer ran out. */
  predicate TimeoutDue(v: ConnView)
  {
    v.stat.dlState == Data && v.netto != 0 && v.stat.nettoTrig > 0
  }

  /** The network timeout check: the connection is closed and goes down, and the reconnect delay restarts. */
  function TimeoutStep(v: ConnView): (w: ConnView)
    ensures TimeoutDue(v) ==>
      w.link == -1 && w.stat.dlState == Down && w.stat.nettoTrig == -1 && w.stat.netdlyTrig == -1
    ensures !TimeoutDue(v) ==> w == v
    ensures w.(link := v.link, stat := v.stat) == v
    ensures w.stat.(dlState := v.stat.dlState, nettoTrig := v.stat.nettoTrig, netdlyTrig := v.stat.netdlyTrig) == v.stat
  {
    if TimeoutDue(v) then
      AfterDisconnect(v).(stat := v.stat.(dlState := Down, nettoTrig := -1, netdlyTrig := -1))
    else v
  }

  /** Whether a keepalive is due: the connection streams, no response is awaited and the keepalive timer ran out. */
  predicate KeepaliveDue(v: ConnView)
  {
    v.stat.dlState == Data && !v.stat.expectInfo && v.keepalive != 0 && v.stat.keepaliveTrig > 0
  }

  /** The keepalive check: a keepalive query that went out is awaited as a response, and its timer restarts. */
  function KeepaliveStep(v: ConnView, sent: bool): (w: ConnView)
    ensures w != v <==> KeepaliveDue(v) && sent
    ensures w != v ==> w.stat.queryMode == KeepAliveQuery && w.stat.expectInfo && w.stat.keepaliveTrig == -1
    ensures w.(stat := v.stat) == v
    ensures w.stat.(queryMode := v.stat.queryMode, expectInfo := v.stat.expectInfo, keepaliveTrig := v.stat.keepaliveTrig) == v.stat
  {
    if KeepaliveDue(v) && sent then
      v.(stat := v.stat.(queryMode := KeepAliveQuery, expectInfo := true, keepaliveTrig := -1))
    else v
  }

  /** Whether an INFO request is sent in-stream: the connection streams, no response is awaited, and one is pending. */
  predicate InfoDue(v: ConnView)
  {
    v.stat.dlState == Data && !v.stat.expectInfo && v.info.Some?
  }

  /** The in-stream INFO check: the request is consumed whether or not it went out; a sent one is awaited. */
  function InfoStep(v: ConnView, sent: bool): (w: ConnView)
    ensures InfoDue(v) ==>
      w.info.None? && w.stat.expectInfo == sent && w.stat.queryMode == (if sent then InfoQuery else NoQuery)
    ensures !InfoDue(v) ==> w == v
    ensures w.(info := v.info, stat := v.stat) == v
    ensures w.stat.(queryMode := v.stat.queryMode, expectInfo := v.stat.expectInfo) == v.stat
  {
    if InfoDue(v) then
      v.(info := None, stat := v.stat.(queryMode := if sent then InfoQuery else NoQuery, expectInfo := sent))
    else v
  }

  /** Whether a reconnection is attempted: the connection is down and the reconnect delay has passed. */
  predicate ReconnectDue(v: ConnView)
  {
    v.stat.dlState == Down && v.stat.netdlyTrig == 0
  }

  /**
   * The reconnection step: `dl_connect` with the greeting; the connection
   * is up when it succeeds, and all three timers restart either way.
   */
  function ReconnectStep(v: ConnView, env: SocketEnv): (w: ConnView)
    requires v.addr.Some?
    ensures !ReconnectDue(v) ==> w == v
    ensures ReconnectDue(v) ==>
      var c := ConnectView(v, true, env);
      && w.(stat := v.stat) == c.view
      && w.stat.dlState == (if c.rc != -1 then Up else Down)
      && w.stat.nettoTrig == -1 && w.stat.netdlyTrig == -1 && w.stat.keepaliveTrig == -1
    ensures w.(link := v.link, protocolVer := v.protocolVer, terminate := v.terminate, stat := v.stat) == v
    ensures w.stat.(dlState := v.stat.dlState, nettoTrig := v.stat.nettoTrig,
                    netdlyTrig := v.stat.netdlyTrig, keepaliveTrig := v.stat.keepaliveTrig) == v.stat
  {
    if ReconnectDue(v) then
      var c := ConnectView(v, true, env);
      c.view.(stat := v.stat.(dlState := if c.rc != -1 then Up else Down,
                             nettoTrig := -1, netdlyTrig := -1, keepaliveTrig := -1))
    else v
  }

  /** A connection that came up has a socket. */
  lemma ReconnectedHasSocket(v: ConnView, env: SocketEnv)
    requires v.addr.Some? && ReconnectDue(v)
    ensures ReconnectStep(v, env).stat.dlState == Up ==> ReconnectStep(v, env).link >= 0
  {
  }

  /**
   * A greeting that fails leaves the connection down but `link` holding
   * the descriptor `dl_connect` already closed, so the next passes do not
   * see the socket as gone.
   */
  lemma FailedGreetingKeepsClosedSocket(v: ConnView, env: SocketEnv)
    requires v.addr.Some? && ReconnectDue(v) && !v.terminate && !env.stopRequested
    requires DialServer(v.addr.value, env).Connected? && Hello(env.hello, v.protocolVer).rc == -1
    ensures ReconnectStep(v, env).stat.dlState == Down && ReconnectStep(v, env).link == env.sock >= 0
  {
  }

  /**
   * A `dl_terminate` that runs while a reconnection waits for the socket is
   * seen once the socket is ready: the descriptor is not kept, the
   * connection stays down, and the flag is set for the rest of the pass.
   */
  lemma StopDuringReconnect(v: ConnView, env: SocketEnv)
    requires v.addr.Some? && ReconnectDue(v) && env.stopRequested
    ensures var w := ReconnectStep(v, env);
      w.terminate && w.stat.dlState == Down && w.link == v.link && w.protocolVer == v.protocolVer
  {
  }

  /** Whether the negotiation sends the pending INFO request instead of configuring streams. */
  predicate QueryOnly(v: ConnView)
  {
    v.info.Some? && |v.streams| == 0
  }

  /** The first half of the negotiation: send the pending INFO request when no streams are configured, or configure the link. */
  function NegotiationQuery(v: ConnView, infoSent: bool): (w: ConnView)
    ensures QueryOnly(v) ==>
      w.info.None? && w.stat.expectInfo == infoSent && w.stat.queryMode == (if infoSent then InfoQuery else NoQuery)
    ensures !QueryOnly(v) ==> w.info == v.info && !w.stat.expectInfo && w.stat.queryMode == v.stat.queryMode
    ensures w.(info := v.info, stat := v.stat) == v
    ensures w.stat.(queryMode := v.stat.queryMode, expectInfo := v.stat.expectInfo) == v.stat
  {
    if QueryOnly(v) then
      v.(info := None, stat := v.stat.(queryMode := if infoSent then InfoQuery else NoQuery, expectInfo := infoSent))
    else v.(stat := v.stat.(expectInfo := false))
  }

  /**
   * The negotiation step of a connection that is up. Sending the INFO
   * request always counts as success; otherwise `dl_configlink` decides.
   * Success clears the buffer and starts streaming; failure closes the
   * connection, restarts the reconnect delay and leaves the state up.
   */
  function NegotiateStep(v: ConnView, infoSent: bool, configOk: bool): (w: ConnView)
    ensures v.stat.dlState != Up ==> w == v
    ensures v.stat.dlState == Up && (QueryOnly(v) || configOk) ==>
      w.stat.dlState == Data && w.stat.recptr == 0 && w.stat.sendptr == 0 && w.link == v.link
    ensures v.stat.dlState == Up && !(QueryOnly(v) || configOk) ==>
      w.stat.dlState == Up && w.link == -1 && w.stat.netdlyTrig == -1
      && w.stat.recptr == v.stat.recptr && w.stat.sendptr == v.stat.sendptr
    ensures v.stat.dlState == Up ==>
      var q := NegotiationQuery(v, infoSent);
      w.info == q.info && w.stat.expectInfo == q.stat.expectInfo && w.stat.queryMode == q.stat.queryMode
    ensures w.addr == v.addr && w.streams == v.streams && w.terminate == v.terminate
    ensures w.keepalive == v.keepalive && w.netto == v.netto && w.netdly == v.netdly
    ensures w.stat.databuf == v.stat.databuf
  {
    if v.stat.dlState != Up then v
    else
      var q := NegotiationQuery(v, infoSent);
      if QueryOnly(v) || configOk then StreamStarted(q) else Dropped(q)
  }

  /** A connection that starts streaming, on an emptied buffer. */
  function StreamStarted(v: ConnView): (w: ConnView)
    ensures w.stat.dlState == Data && w.stat.recptr == 0 && w.stat.sendptr == 0
    ensures w.(stat := v.stat) == v
    ensures w.stat.(dlState := v.stat.dlState, recptr := v.stat.recptr, sendptr := v.stat.sendptr) == v.stat
  {
    v.(stat := v.stat.(recptr := 0, sendptr := 0, dlState := Data))
  }

  /**
   * The terminating branch: the connection is closed, and its state is
   * left down by `dl_collect` but streaming by `dl_collect_nb`.
   */
  function TerminatingStep(v: ConnView, nonBlocking: bool): (w: ConnView)
    ensures w.link == -1 && w.stat.dlState == (if nonBlocking then Data else Down)
    ensures w.(link := v.link, stat := v.stat) == v
    ensures w.stat.(dlState := v.stat.dlState) == v.stat
  {
    var c := if v.link != -1 then AfterDisconnect(v) else v;
    c.(stat := c.stat.(dlState := if nonBlocking then Data else Down))
  }

  /** The control steps of one pass, in the order the collect routines take them. */
  function Control(v: ConnView, input: ControlInput, nonBlocking: bool): (w: ConnView)
    requires v.addr.Some?
    ensures w.addr == v.addr && w.netto == v.netto && w.netdly == v.netdly && w.keepalive == v.keepalive
    ensures BufferOk(v.stat) ==> BufferOk(w.stat)
    ensures v.terminate ==> w == TerminatingStep(v, nonBlocking)
  {
    if v.terminate then TerminatingStep(v, nonBlocking)
    else
      var k := KeepaliveStep(TimeoutStep(LinkCheck(v)), input.keepaliveSent);
      var i := InfoStep(k, input.infoSent);
      NegotiateStep(ReconnectStep(i, input.dial), input.infoSent, input.configOk)
  }

  /** The two collect routines leave a terminating connection closed, and in different states. */
  lemma TerminateBranches(v: ConnView, input: ControlInput)
    requires v.addr.Some? && v.terminate
    ensures Control(v, input, false).link == -1 && Control(v, input, false).stat.dlState == Down
    ensures Control(v, input, true).link == -1 && Control(v, input, true).stat.dlState == Data
  {
  }

  /** A pass whose control steps start a stream starts it on an empty buffer. */
  lemma StreamStartsEmpty(v: ConnView, input: ControlInput, nonBlocking: bool)
    requires v.addr.Some? && !v.terminate && v.stat.dlState != Data && v.link == -1
    ensures var w := Control(v, input, nonBlocking);
      w.stat.dlState == Data ==> w.stat.recptr == 0 && w.stat.sendptr == 0 && w.link >= 0
  {
    var k := KeepaliveStep(TimeoutStep(LinkCheck(v)), input.keepaliveSent);
    var i := InfoStep(k, input.infoSent);
    assert i.stat.dlState == Down;
    var r := ReconnectStep(i, input.dial);
    assert Control(v, input, nonBlocking) == NegotiateStep(r, input.infoSent, input.configOk);
    if ReconnectDue(i) {
      ReconnectedHasSocket(i, input.dial);
    } else {
      assert r.stat.dlState == Down;
    }
  }

  /** A timed-out connection is not reconnected in the same pass: the reconnect delay must run first. */
  lemma TimeoutWaitsForDelay(v: ConnView, input: ControlInput, nonBlocking: bool)
    requires v.addr.Some? && !v.terminate && v.link != -1 && TimeoutDue(v)
    ensures var w := Control(v, input, nonBlocking);
      w.link == -1 && w.stat.dlState == Down && w.stat.netdlyTrig == -1 && w.stat.nettoTrig == -1
  {
  }

  /** The connection-down check on the connection. */
  method CheckLink(conn: Dlcp)
    requires conn.Valid()
    modifies conn.stat
    ensures conn.Valid()
    ensures conn.View() == LinkCheck(old(conn.View()))
  {
    if conn.link == -1 {
      conn.stat.dlState := Down;
    }
  }

  /** The network timeout check on the connection. */
  method CheckTimeout(conn: Dlcp)
    requires conn.Valid()
    modifies conn, conn.stat
    ensures conn.Valid()
    ensures conn.View() == TimeoutStep(old(conn.View()))
  {
    if conn.stat.dlState == Data && conn.netto != 0 && conn.stat.nettoTrig > 0 {
      var rc, _ := Disconnect(conn);
      conn.link := rc;
      conn.stat.dlState, conn.stat.nettoTrig, conn.stat.netdlyTrig := Down, -1, -1;
    }
  }

  /** The keepalive check on the connection; `sent` is what `dl_send_info` reports when it is called. */
  method CheckKeepalive(conn: Dlcp, sent: bool)
    requires conn.Valid()
    modifies conn.stat
    ensures conn.Valid()
    ensures conn.View() == KeepaliveStep(old(conn.View()), sent)
  {
    var st := conn.stat;
    if st.dlState == Data && !st.expectInfo && conn.keepalive != 0 && st.keepaliveTrig > 0 {
      if sent {
        st.queryMode, st.expectInfo, st.keepaliveTrig := KeepAliveQuery, true, -1;
      }
    }
  }

  /** The in-stream INFO check on the connection. */
  method CheckInfo(conn: Dlcp, sent: bool)
    requires conn.Valid()
    modifies conn, conn.stat
    ensures conn.Valid()
    ensures conn.View() == InfoStep(old(conn.View()), sent)
  {
    var st := conn.stat;
    if st.dlState == Data && !st.expectInfo && conn.info.Some? {
      if sent {
        st.queryMode, st.expectInfo := InfoQuery, true;
      } else {
        st.queryMode := NoQuery;
      }
      conn.info := None;
    }
  }

  /** The reconnection step on the connection. */
  method Reconnect(conn: Dlcp, env: SocketEnv)
    requires conn.Valid() && conn.addr.Some?
    modifies conn, conn.stat
    ensures conn.Valid()
    ensures conn.View() == ReconnectStep(old(conn.View()), env)
  {
    if conn.stat.dlState == Down && conn.stat.netdlyTrig == 0 {
      ghost var v := conn.View();
      var rc := Connect(conn, true, env);
      ghost var c := ConnectView(v, true, env);
      assert conn.View() == c.view && rc == c.rc;
      Restart(conn.stat, rc != -1);
    }
  }

  /** The timers restart after a reconnection attempt; the state is up when it succeeded. */
  method Restart(st: DlStat, up: bool)
    modifies st
    ensures st.View() == old(st.View()).(dlState := if up then Up else old(st.dlState),
                                         nettoTrig := -1, netdlyTrig := -1, keepaliveTrig := -1)
  {
    if up {
      st.dlState := Up;
    }
    st.nettoTrig, st.netdlyTrig, st.keepaliveTrig := -1, -1, -1;
  }

  /** The negotiation step on the connection. */
  method Negotiate(conn: Dlcp, infoSent: bool, configOk: bool)
    requires conn.Valid()
    modifies conn, conn.stat
    ensures conn.Valid()
    ensures conn.View() == NegotiateStep(old(conn.View()), infoSent, configOk)
  {
    if conn.stat.dlState == Up {
      var ok := QueryOrConfigure(conn, infoSent, configOk);
      if ok {
        StartStream(conn.stat);
      } else {
        Drop(conn);
      }
    }
  }

  /** The first half of the negotiation on the connection, as `NegotiationQuery` describes it. */
  method QueryOrConfigure(conn: Dlcp, infoSent: bool, configOk: bool) returns (ok: bool)
    requires conn.Valid()
    modifies conn, conn.stat
    ensures conn.Valid()
    ensures ok == (QueryOnly(old(conn.View())) || configOk)
    ensures conn.View() == NegotiationQuery(old(conn.View()), infoSent)
  {
    var st := conn.stat;
    if conn.info.Some? && |conn.streams| == 0 {
      if infoSent {
        st.queryMode, st.expectInfo := InfoQuery, true;
      } else {
        st.queryMode, st.expectInfo := NoQuery, false;
      }
      conn.info := None;
      ok := true;
    } else {
      ok := configOk;
      st.expectInfo := false;
    }
  }

  /** Clears the buffer pointers and starts streaming. */
  method StartStream(st: DlStat)
    modifies st
    ensures st.View() == old(st.View()).(recptr := 0, sendptr := 0, dlState := Data)
  {
    st.recptr, st.sendptr, st.dlState := 0, 0, Data;
  }

  /** The terminating branch on the connection. */
  method CloseForTermination(conn: Dlcp, nonBlocking: bool)
    requires conn.Valid()
    modifies conn, conn.stat
    ensures conn.Valid()
    ensures conn.View() == TerminatingStep(old(conn.View()), nonBlocking)
  {
    if conn.link != -1 {
      var rc, _ := Disconnect(conn);
      conn.link := rc;
    }
    conn.stat.dlState := if nonBlocking then Data else Down;
  }

  /** The control steps of one pass on the connection, as `Control` describes them. */
  method ControlSteps(conn: Dlcp, input: ControlInput, nonBlocking: bool)
    requires conn.Valid() && conn.addr.Some?
    modifies conn, conn.stat
    ensures conn.Valid()
    ensures conn.View() == Control(old(conn.View()), input, nonBlocking)
  {
    if conn.terminate {
      CloseForTermination(conn, nonBlocking);
      return;
    }
    CheckLink(conn);
    CheckTimeout(conn);
    CheckKeepalive(conn, input.keepaliveSent);
    CheckInfo(conn, input.infoSent);
    Reconnect(conn, input.dial);
    Negotiate(conn, input.infoSent, input.configOk);
  }

  // ---------------------------------------------------------------------
  // The collect routines

  /** How a call of a collect routine ends; `Waiting` is a blocking call still looping when the passes given run out. */
  datatype Outcome = Delivered(start: int) | Terminated | NoPacket | Waiting

  /** What one call of a collect routine returns: DLPACKET, DLTERMINATE or DLNOPACKET. */
  function ReturnCode(o: Outcome): (rc: int)
    requires !o.Waiting?
    ensures rc == DLPACKET <==> o.Delivered?
    ensures rc == DLTERMINATE <==> o.Terminated?
    ensures rc == DLNOPACKET <==> o.NoPacket?
  {
    CollectCodesDistinct();
    match o
    case Delivered(_) => DLPACKET
    case Terminated => DLTERMINATE
    case NoPacket => DLNOPACKET
  }

  /**
   * What the outside world answers during one pass: what the control steps
   * meet, what `select` and `recv` report, and the clock. Two flags say
   * whether `dl_terminate` ran (from a signal handler, say) during the
   * pass: `stopBeforeTrapDoor` after the pass's first look at the flag and
   * before the trap door, `stopRequested` while the read step waited on
   * the socket. (One that ran before the pass began has set the flag the
   * pass starts with.)
   */
  datatype PassInput = PassInput(control: ControlInput, poll: Poll, recv: RecvInput, now: int,
                                 stopBeforeTrapDoor: bool, stopRequested: bool)

  /** Whether `dl_terminate` ran at some moment of the pass. */
  predicate TerminateRequested(input: PassInput)
  {
    input.stopBeforeTrapDoor || input.stopRequested
  }

  /** The connection after a pass, and the outcome when the pass ends the call. */
  datatype PassResult = PassResult(v: ConnView, outcome: Option<Outcome>)

  /** The checks made once per call: a pending INFO request marks an INFO query. */
  function InfoMarked(v: ConnView): (w: ConnView)
    ensures w.(stat := v.stat) == v
    ensures w.stat == (if v.info.Some? then v.stat.(queryMode := InfoQuery) else v.stat)
    ensures w.addr == v.addr && w.link == v.link && w.stat.databuf == v.stat.databuf
    ensures w.stat.recptr == v.stat.recptr && w.stat.sendptr == v.stat.sendptr
  {
    if v.info.Some? then v.(stat := v.stat.(queryMode := InfoQuery)) else v
  }

  /** For a connection that is down, the timeout and keepalive timers are reset once per call. */
  function TimersReset(v: ConnView): (w: ConnView)
    ensures v.link != -1 ==> w == v
    ensures v.link == -1 ==> w == v.(stat := v.stat.(nettoTrig := -1, keepaliveTrig := -1))
    ensures w.addr == v.addr && w.stat.databuf == v.stat.databuf
    ensures w.stat.recptr == v.stat.recptr && w.stat.sendptr == v.stat.sendptr
  {
    if v.link == -1 then v.(stat := v.stat.(nettoTrig := -1, keepaliveTrig := -1)) else v
  }

  /**
   * The read step of either routine. A `dl_terminate` that ran while the
   * routine waited on the socket has set the termination flag by the time
   * the result of the wait is looked at.
   */
  function ReadStep(v: ConnView, input: PassInput, nonBlocking: bool): (w: ConnView)
    requires BufferOk(v.stat)
    ensures BufferOk(w.stat) && w.stat.sendptr == v.stat.sendptr && w.addr == v.addr
    ensures w.terminate == (v.terminate || input.stopRequested)
  {
    var t := if input.stopRequested then v.(terminate := true) else v;
    if nonBlocking then NonBlockingRead(t, input.recv) else BlockingRead(t, input.poll)
  }

  /**
   * A `select` interrupted by `dl_terminate` is not an error: a streaming
   * connection keeps its socket and only its termination flag is set. An
   * interrupted wait without such a request drops the connection.
   */
  lemma InterruptedWaitKeepsSocket(v: ConnView, input: PassInput)
    requires BufferOk(v.stat) && v.stat.dlState == Data && input.poll.PollFailed?
    ensures ReadStep(v, input, false) ==
      if v.terminate || input.stopRequested then v.(terminate := true) else Dropped(v)
  {
  }

  /**
   * The same for `dl_collect_nb`: a `recv` that fails once termination was
   * requested keeps the socket.
   */
  lemma InterruptedReadKeepsSocket(v: ConnView, input: PassInput)
    requires BufferOk(v.stat) && v.stat.dlState == Data && input.recv.RecvFailed? && !input.recv.wouldBlock
    ensures ReadStep(v, input, true) ==
      if v.terminate || input.stopRequested then v.(terminate := true) else Dropped(v)
  {
  }

  /**
   * One pass of a collect routine: the control steps, the packet loop,
   * the end-of-pass checks, the read and the timing logic. A pass ends the
   * call when it hands out a packet or the connection stops.
   */
  function Pass(v: ConnView, input: PassInput, nonBlocking: bool): (r: PassResult)
    requires BufferOk(v.stat) && v.addr.Some?
    ensures BufferOk(r.v.stat) && r.v.addr == v.addr
    ensures r.outcome.Some? ==> r.outcome.value.Delivered? || r.outcome.value.Terminated?
    ensures r.outcome == Some(Terminated) ==> r.v.stat.recptr - r.v.stat.sendptr < PACKETSIZE
    ensures v.terminate || input.stopBeforeTrapDoor ==> r.outcome.Some?
    ensures input.stopRequested && r.outcome.None? ==> r.v.terminate
  {
    AfterControl(Control(v, input.control, nonBlocking), input, nonBlocking)
  }

  /** The part of a pass after the control steps: the packet loop, then the rest of the pass. */
  function AfterControl(c: ConnView, input: PassInput, nonBlocking: bool): (r: PassResult)
    requires BufferOk(c.stat)
    ensures BufferOk(r.v.stat) && r.v.addr == c.addr
    ensures r.outcome.Some? ==> r.outcome.value.Delivered? || r.outcome.value.Terminated?
    ensures c.terminate || input.stopBeforeTrapDoor ==> r.outcome.Some?
    ensures input.stopRequested && r.outcome.None? ==> r.v.terminate
    ensures r.outcome == Some(Terminated) ==> r.v.stat.recptr - r.v.stat.sendptr < PACKETSIZE
    ensures r.outcome.Some? && r.outcome.value.Delivered? ==>
      0 <= r.outcome.value.start && r.outcome.value.start + PACKETSIZE == r.v.stat.sendptr <= r.v.stat.recptr
  {
    var d := Drain(c.streams, c.stat);
    var dv := c.(streams := d.streams, stat := d.stat);
    if d.packet.Some? then PassResult(dv, Some(Delivered(d.packet.value)))
    else FinishPass(dv, input, nonBlocking)
  }

  /**
   * The rest of a pass that handed out no packet: the end-of-pass checks,
   * then the read and the timing logic unless the connection stops. A
   * `dl_terminate` that ran since the pass's first look at the flag is seen
   * at the trap door: the call ends there, with the socket and the buffer
   * as they are.
   */
  function FinishPass(v: ConnView, input: PassInput, nonBlocking: bool): (r: PassResult)
    requires BufferOk(v.stat) && v.stat.recptr - v.stat.sendptr < PACKETSIZE
    ensures BufferOk(r.v.stat) && r.v.addr == v.addr
    ensures r.outcome.Some? ==> r.outcome == Some(Terminated)
    ensures r.outcome.Some? ==> r.v.stat.recptr - r.v.stat.sendptr < PACKETSIZE
    ensures v.terminate ==> r.outcome.Some?
    ensures input.stopBeforeTrapDoor ==> r == PassResult(v.(terminate := true), Some(Terminated))
    ensures input.stopRequested && r.outcome.None? ==> r.v.terminate
  {
    var u := if input.stopBeforeTrapDoor then v.(terminate := true) else v;
    var s := Settle(u);
    if s.stop then PassResult(s.v, Some(Terminated))
    else PassResult(TimersAfter(ReadStep(s.v, input, nonBlocking), input.now), None)
  }

  /**
   * A packet handed out by a pass is a complete packet of the buffer, just
   * behind the send pointer, so it stays in place until the next call.
   */
  lemma DeliveredPacketInBuffer(v: ConnView, input: PassInput, nonBlocking: bool)
    requires BufferOk(v.stat) && v.addr.Some?
    requires Pass(v, input, nonBlocking).outcome.Some? && Pass(v, input, nonBlocking).outcome.value.Delivered?
    ensures var r := Pass(v, input, nonBlocking);
      var start := r.outcome.value.start;
      0 <= start && start + PACKETSIZE == r.v.stat.sendptr <= r.v.stat.recptr
  {
  }

  /**
   * A connection whose termination flag is set when the pass begins ends
   * the call without reading: its socket is closed, every complete packet
   * still buffered is handed out first, and DLTERMINATE comes only when
   * less than a packet is left.
   */
  lemma TerminationDrainsBuffer(v: ConnView, input: PassInput, nonBlocking: bool)
    requires BufferOk(v.stat) && v.addr.Some? && v.terminate
    ensures var r := Pass(v, input, nonBlocking);
      r.outcome == Some(Terminated) ==> r.v.stat.recptr - r.v.stat.sendptr < PACKETSIZE && r.v.link == -1
  {
    var c := Control(v, input.control, nonBlocking);
    assert c == TerminatingStep(v, nonBlocking);
  }

  /**
   * A `dl_terminate` that runs after the pass's first look at the flag is
   * seen only at the trap door: once the complete packets are handed out,
   * the call ends with DLTERMINATE, the socket still open and the buffer
   * neither compacted nor read into.
   */
  lemma StopAtTrapDoor(c: ConnView, input: PassInput, nonBlocking: bool)
    requires BufferOk(c.stat) && input.stopBeforeTrapDoor
    ensures var d := Drain(c.streams, c.stat);
      d.packet.None? ==>
        AfterControl(c, input, nonBlocking) ==
          PassResult(c.(streams := d.streams, stat := d.stat, terminate := true), Some(Terminated))
  {
  }

  /** The blocking routine's passes, until one ends the call or the passes given run out. */
  function Loop(v: ConnView, inputs: seq<PassInput>): (r: PassResult)
    requires BufferOk(v.stat) && v.addr.Some?
    ensures BufferOk(r.v.stat) && r.v.addr == v.addr
    ensures r.outcome.Some? ==> r.outcome.value.Delivered? || r.outcome.value.Terminated?
    ensures r.outcome == Some(Terminated) ==> r.v.stat.recptr - r.v.stat.sendptr < PACKETSIZE
    ensures inputs == [] ==> r == PassResult(v, None)
    decreases |inputs|
  {
    if inputs == [] then PassResult(v, None)
    else
      var p := Pass(v, inputs[0], false);
      if p.outcome.Some? then p else Loop(p.v, inputs[1..])
  }

  /** Once the first `k` passes end the call, the passes given after them make no difference. */
  lemma {:induction false} LoopPrefix(v: ConnView, inputs: seq<PassInput>, k: nat)
    requires BufferOk(v.stat) && v.addr.Some?
    requires k <= |inputs| && Loop(v, inputs[..k]).outcome.Some?
    ensures Loop(v, inputs) == Loop(v, inputs[..k])
    decreases k
  {
    var p := Pass(v, inputs[0], false);
    assert inputs[..k][0] == inputs[0];
    if p.outcome.None? {
      assert Loop(v, inputs[..k]) == Loop(p.v, inputs[..k][1..]);
      assert inputs[1..][..k - 1] == inputs[..k][1..];
      LoopPrefix(p.v, inputs[1..], k - 1);
    }
  }

  /** A pass during which `dl_terminate` ran ends the call, or the next pass does. */
  lemma StopThenNextPass(v: ConnView, stopped: PassInput, next: PassInput)
    requires BufferOk(v.stat) && v.addr.Some? && TerminateRequested(stopped)
    ensures var p := Pass(v, stopped, false);
      p.outcome.Some? || Pass(p.v, next, false).outcome.Some?
  {
  }

  /** A `dl_terminate` during the first of two or more passes ends the call. */
  lemma StopFirstEndsPasses(v: ConnView, inputs: seq<PassInput>)
    requires BufferOk(v.stat) && v.addr.Some?
    requires 1 < |inputs| && TerminateRequested(inputs[0])
    ensures Loop(v, inputs).outcome.Some?
  {
    var rest := inputs[1..];
    assert rest[0] == inputs[1];
    var p := Pass(v, inputs[0], false);
    StopThenNextPass(v, inputs[0], inputs[1]);
    if p.outcome.None? {
      assert Loop(v, inputs) == Loop(p.v, rest);
    }
  }

  /** A `dl_terminate` during a pass that is followed by another one ends the call. */
  lemma {:induction false} StopEndsPasses(v: ConnView, inputs: seq<PassInput>, i: nat)
    requires BufferOk(v.stat) && v.addr.Some?
    requires i + 1 < |inputs| && TerminateRequested(inputs[i])
    ensures Loop(v, inputs).outcome.Some?
    decreases i
  {
    if i == 0 {
      StopFirstEndsPasses(v, inputs);
    } else {
      var rest := inputs[1..];
      assert rest[i - 1] == inputs[i];
      var p := Pass(v, inputs[0], false);
      if p.outcome.None? {
        assert Loop(v, inputs) == Loop(p.v, rest);
        StopEndsPasses(p.v, rest, i - 1);
      }
    }
  }

  /**
   * A `dl_terminate` that runs during a pass of `dl_collect` ends the call
   * by the next pass at the latest: the passes after that one are never
   * run, and the call hands out a packet or returns DLTERMINATE with less
   * than a packet left in the buffer.
   */
  lemma StopEndsLoop(v: ConnView, inputs: seq<PassInput>, i: nat)
    requires BufferOk(v.stat) && v.addr.Some?
    requires i + 1 < |inputs| && TerminateRequested(inputs[i])
    ensures Loop(v, inputs) == Loop(v, inputs[..i + 2])
    ensures Loop(v, inputs).outcome.Some?
  {
    assert inputs[..i + 2][i] == inputs[i];
    StopEndsPasses(v, inputs[..i + 2], i);
    LoopPrefix(v, inputs, i + 2);
  }

  /** A result of the collect routines: the connection and how the call ended. */
  datatype Collected = Collected(v: ConnView, outcome: Outcome)

  /**
   * `dl_collect`: a call that finds the connection closed fails with
   * DLTERMINATE when `dl_checkdlcp` rejects the parameters; otherwise the
   * passes run until a packet is handed out or the connection stops.
   */
  function Collect(v: ConnView, checkOk: bool, inputs: seq<PassInput>): (r: Collected)
    requires BufferOk(v.stat) && v.addr.Some?
    ensures BufferOk(r.v.stat)
    ensures v.link == -1 && !checkOk ==> r == Collected(InfoMarked(v), Terminated)
    ensures !r.outcome.NoPacket?
  {
    var m := InfoMarked(v);
    if v.link == -1 && !checkOk then Collected(m, Terminated)
    else
      var l := Loop(TimersReset(m), inputs);
      Collected(l.v, if l.outcome.Some? then l.outcome.value else Waiting)
  }

  /**
   * `dl_collect_nb`: one pass; a pass that neither hands out a packet nor
   * stops the connection returns DLNOPACKET.
   */
  function CollectNonBlocking(v: ConnView, checkOk: bool, input: PassInput): (r: Collected)
    requires BufferOk(v.stat) && v.addr.Some?
    ensures BufferOk(r.v.stat)
    ensures v.link == -1 && !checkOk ==> r == Collected(InfoMarked(v), Terminated)
    ensures !r.outcome.Waiting?
  {
    var m := InfoMarked(v);
    if v.link == -1 && !checkOk then Collected(m, Terminated)
    else OnePass(TimersReset(m), input)
  }

  /** The single pass of `dl_collect_nb`; a pass that does not end the call means DLNOPACKET. */
  function OnePass(v: ConnView, input: PassInput): (r: Collected)
    requires BufferOk(v.stat) && v.addr.Some?
    ensures BufferOk(r.v.stat) && !r.outcome.Waiting?
    ensures v.terminate || input.stopBeforeTrapDoor ==> !r.outcome.NoPacket?
  {
    var p := Pass(v, input, true);
    Collected(p.v, if p.outcome.Some? then p.outcome.value else NoPacket)
  }

  /**
   * A `dl_terminate` that runs during a pass of `dl_collect` ends the call
   * by the next pass: the call does not wait on, and returns a packet or,
   * unless it failed its parameter check, DLTERMINATE with less than a
   * packet buffered.
   */
  lemma StopEndsCollect(v: ConnView, checkOk: bool, inputs: seq<PassInput>, i: nat)
    requires BufferOk(v.stat) && v.addr.Some?
    requires i + 1 < |inputs| && TerminateRequested(inputs[i])
    ensures var r := Collect(v, checkOk, inputs);
      && r == Collect(v, checkOk, inputs[..i + 2])
      && r.outcome != Waiting
      && (r.outcome == Terminated && (v.link != -1 || checkOk) ==> r.v.stat.recptr - r.v.stat.sendptr < PACKETSIZE)
  {
    if v.link != -1 || checkOk {
      StopEndsLoop(TimersReset(InfoMarked(v)), inputs, i);
    }
  }

  /**
   * A `dl_terminate` that runs during `dl_collect_nb` before its trap door
   * ends that same call: it never reports "no packet".
   */
  lemma StopNeverIdle(v: ConnView, checkOk: bool, input: PassInput)
    requires BufferOk(v.stat) && v.addr.Some? && input.stopBeforeTrapDoor
    ensures CollectNonBlocking(v, checkOk, input).outcome != NoPacket
  {
  }

  /** A call of `dl_collect_nb` on a terminating connection never reports "no packet". */
  lemma TerminatingNeverIdle(v: ConnView, checkOk: bool, input: PassInput)
    requires BufferOk(v.stat) && v.addr.Some? && v.terminate
    ensures CollectNonBlocking(v, checkOk, input).outcome != NoPacket
  {
  }

  /** One pass on the connection, as `Pass` describes it. */
  method RunPass(conn: Dlcp, input: PassInput, nonBlocking: bool) returns (outcome: Option<Outcome>)
    requires conn.Valid() && conn.addr.Some?
    modifies conn, conn.stat, conn.stat.databuf
    ensures conn.Valid()
    ensures PassResult(conn.View(), outcome) == Pass(old(conn.View()), input, nonBlocking)
  {
    ControlSteps(conn, input.control, nonBlocking);
    outcome := RunAfterControl(conn, input, nonBlocking);
  }

  /** The part of a pass after the control steps on the connection, as `AfterControl` describes it. */
  method RunAfterControl(conn: Dlcp, input: PassInput, nonBlocking: bool) returns (outcome: Option<Outcome>)
    requires conn.Valid()
    modifies conn, conn.stat, conn.stat.databuf
    ensures conn.Valid()
    ensures PassResult(conn.View(), outcome) == AfterControl(old(conn.View()), input, nonBlocking)
  {
    var packet := ProcessBuffer(conn);
    if packet.Some? {
      return Some(Delivered(packet.value));
    }
    outcome := RunFinish(conn, input, nonBlocking);
  }

  /** The rest of a pass on the connection, as `FinishPass` describes it. */
  method RunFinish(conn: Dlcp, input: PassInput, nonBlocking: bool) returns (outcome: Option<Outcome>)
    requires conn.Valid() && conn.stat.recptr - conn.stat.sendptr < PACKETSIZE
    modifies conn, conn.stat, conn.stat.databuf
    ensures conn.Valid()
    ensures PassResult(conn.View(), outcome) == FinishPass(old(conn.View()), input, nonBlocking)
  {
    if input.stopBeforeTrapDoor {
      conn.terminate := true;
    }
    var stop := SettleBuffer(conn);
    if stop {
      return Some(Terminated);
    }
    if input.stopRequested {
      conn.terminate := true;
    }
    if nonBlocking {
      ReadNonBlocking(conn, input.recv);
    } else {
      ReadBlocking(conn, input.poll);
    }
    UpdateTimers(conn, input.now);
    return None;
  }

  /** The once-per-call checks on the connection. */
  method Prepare(conn: Dlcp, checkOk: bool) returns (proceed: bool)
    modifies conn.stat
    ensures proceed == !(old(conn.link) == -1 && !checkOk)
    ensures proceed ==> conn.View() == TimersReset(InfoMarked(old(conn.View())))
    ensures !proceed ==> conn.View() == InfoMarked(old(conn.View()))
  {
    if conn.info.Some? {
      conn.stat.queryMode := InfoQuery;
    }
    if conn.link == -1 {
      if !checkOk {
        return false;
      }
      conn.stat.nettoTrig, conn.stat.keepaliveTrig := -1, -1;
    }
    return true;
  }

  /** `dl_collect` on the connection, as `Collect` describes it, over the passes given. */
  method CollectPackets(conn: Dlcp, checkOk: bool, inputs: seq<PassInput>) returns (outcome: Outcome)
    requires conn.Valid() && conn.addr.Some?
    modifies conn, conn.stat, conn.stat.databuf
    ensures conn.Valid()
    ensures Collected(conn.View(), outcome) == Collect(old(conn.View()), checkOk, inputs)
  {
    var proceed := Prepare(conn, checkOk);
    if !proceed {
      return Terminated;
    }
    ghost var start := conn.View();
    var i := 0;
    while i < |inputs|
      invariant 0 <= i <= |inputs|
      invariant conn.Valid() && conn.addr.Some?
      invariant Loop(conn.View(), inputs[i..]) == Loop(start, inputs)
    {
      assert inputs[i..][1..] == inputs[i + 1..];
      var result := RunPass(conn, inputs[i], false);
      if result.Some? {
        return result.value;
      }
      i := i + 1;
    }
    return Waiting;
  }

  /** `dl_collect_nb` on the connection, as `CollectNonBlocking` describes it. */
  method CollectPacketsNonBlocking(conn: Dlcp, checkOk: bool, input: PassInput) returns (outcome: Outcome)
    requires conn.Valid() && conn.addr.Some?
    modifies conn, conn.stat, conn.stat.databuf
    ensures conn.Valid()
    ensures Collected(conn.View(), outcome) == CollectNonBlocking(old(conn.View()), checkOk, input)
  {
    var proceed := Prepare(conn, checkOk);
    if !proceed {
      return Terminated;
    }
    var result := RunPass(conn, input, true);
    outcome := if result.Some? then result.value else NoPacket;
  }
}
