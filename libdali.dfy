/**
 * The interface of the DataLink client library: its constants, the
 * high-precision time macros, the collect return codes, the enumerations of
 * the persistent connection state and the two records a connection is made
 * of (the connection parameters and the persistent state with its receive
 * buffer).
 */
module LibDali {
  import opened CStd

  const RECVBUFSIZE: int := 8192
  const MAXSTREAMID: int := 60

  /** Return values of the collect routines. */
  const DLPACKET: int := 1
  const DLTERMINATE: int := 0
  const DLNOPACKET: int := -1

  /** The high-precision tick is 1/DLTMODULUS of a second. */
  const DLTMODULUS: int := 1000000

  /** The error value of routines that return a high-precision time. */
  const DLTERROR: int := -2145916800000000

  // ---------------------------------------------------------------------
  // High-precision time

  /**
   * DL_EPOCH2DLTIME: seconds of the Unix epoch to ticks, in the 64-bit
   * `dltime_t`. The result must fit the type. Converting back gives the
   * seconds again.
   */
  function Epoch2DlTime(x: int): (t: int)
    requires InInt64(x * DLTMODULUS)
    ensures InInt64(t)
    ensures DlTime2Epoch(t) == x
    ensures t % DLTMODULUS == 0
  {
    x * DLTMODULUS
  }

  /**
   * DL_DLTIME2EPOCH: ticks to whole seconds with C's division, so the
   * sub-second part is dropped toward zero: for a non-negative time the
   * seconds are rounded down, for a negative one they are rounded up.
   */
  function DlTime2Epoch(t: int): (x: int)
    ensures t >= 0 ==> x >= 0 && x * DLTMODULUS <= t < x * DLTMODULUS + DLTMODULUS
    ensures t < 0 ==> x <= 0 && x * DLTMODULUS - DLTMODULUS < t <= x * DLTMODULUS
  {
    CDiv(t, DLTMODULUS)
  }

  /** For a non-negative time, seconds and back loses only the sub-second ticks. */
  lemma TruncateNonNegative(t: int)
    requires 0 <= t <= INT64_MAX
    ensures Epoch2DlTime(DlTime2Epoch(t)) <= t < Epoch2DlTime(DlTime2Epoch(t)) + DLTMODULUS
    ensures t - Epoch2DlTime(DlTime2Epoch(t)) == t % DLTMODULUS
  {
    var x := DlTime2Epoch(t);
    assert 0 <= x * DLTMODULUS <= t;
  }

  /** The number of days in a year of the Gregorian calendar. */
  function DaysInYear(y: int): (d: int)
    ensures d == 365 || d == 366
  {
    if y % 4 == 0 && (y % 100 != 0 || y % 400 == 0) then 366 else 365
  }

  /** The number of days from 1 January of year `y` to 1 January 1970. */
  function DaysToEpoch(y: int): (d: nat)
    requires y <= 1970
    decreases 1970 - y
  {
    if y == 1970 then 0 else DaysInYear(y) + DaysToEpoch(y + 1)
  }

  /** Between 1901 and 1970 every fourth year is a leap year and no other. */
  lemma {:induction false} DaysToEpochClosed(y: int)
    requires 1901 <= y <= 1970
    ensures DaysToEpoch(y) == (1970 - y) * 365 + 492 - (y - 1) / 4
    decreases 1970 - y
  {
    if y < 1970 {
      DaysToEpochClosed(y + 1);
      assert DaysInYear(y) == if y % 4 == 0 then 366 else 365;
    }
  }

  /** DLTERROR is the time 1902-01-01 00:00:00, as its comment says. */
  lemma ErrorTimeIs1902()
    ensures DaysToEpoch(1902) == 68 * 365 + 17
    ensures DLTERROR == Epoch2DlTime(-(DaysToEpoch(1902) * 86400))
    ensures DLTERROR == Epoch2DlTime(-2145916800)
  {
    DaysToEpochClosed(1902);
  }

  /** The three collect return codes can be told apart. */
  lemma CollectCodesDistinct()
    ensures DLPACKET != DLTERMINATE && DLPACKET != DLNOPACKET && DLTERMINATE != DLNOPACKET
  {
  }

  // ---------------------------------------------------------------------
  // Constants the library takes from the SeedLink client library it grew out
  // of. They are not defined in the library's own files; the values are those
  // of that library (libslink), whose packet layout the code still uses.

  /** A packet header: the 2-byte signature and 6 hexadecimal sequence digits. */
  const SLHEADSIZE: int := 8
  /** The record after the header: one 512-byte Mini-SEED record. */
  const SLRECSIZE: int := 512
  /** The number of bytes the collect routines may fill: the whole `databuf`. */
  const BUFSIZE: int := RECVBUFSIZE
  /** The signature that starts every data packet header. */
  const SIGNATURE: seq<Octet> := "SL"
  /** The signature that starts an INFO packet header. */
  const INFOSIGNATURE: seq<Octet> := "SLINFO"
  /** The network and station codes of the single uni-station stream entry. */
  const UNINETWORK: string := "XX"
  const UNISTATION: string := "UNI"
  /** The largest blockette offset a record header may use. */
  const MAX_HEADER_SIZE: int := 128

  /** The packet types `dl_packettype` tells apart. */
  datatype PacketKind = SLDATA | SLDET | SLCAL | SLTIM | SLMSG | SLBLK | SLNUM | SLINF | SLINFT

  /** Matching of a network or station code against a pattern with wildcards. */
  const GlobMatch: (string, string) -> bool

  // ---------------------------------------------------------------------
  // The connection records

  /** The connection state of the persistent state record. */
  datatype LinkState = Down | Up | Data

  /** The INFO query state of the persistent state record. */
  datatype QueryMode = NoQuery | InfoQuery | KeepAliveQuery

  /**
   * The time stamp kept with a stream entry: the text it was given (empty
   * for none), or the start time (the SEED `BTIME` bytes) of the last record received for it.
   */
  datatype Stamp = Text(text: string) | RecordStart(btime: seq<Octet>)

  /** One entry of the stream chain. */
  datatype Stream = Stream(net: string, sta: string, selectors: Option<string>, seqnum: int, timestamp: Stamp)

  /** Whether an entry is the uni-station entry. */
  predicate IsUni(s: Stream) { s.net == UNINETWORK && s.sta == UNISTATION }

  /** The protocol version learned from the server: recognised or the minimum (0.0). */
  datatype ProtocolVersion = Minimum | Parsed(text: string)

  /** The persistent state record, as a value. */
  datatype StatView = StatView(
    databuf: seq<Octet>, recptr: int, sendptr: int, expectInfo: bool,
    nettoTrig: int, netdlyTrig: int, keepaliveTrig: int,
    nettoTime: int, netdlyTime: int, keepaliveTime: int,
    dlState: LinkState, queryMode: QueryMode)

  /** The connection parameters with their persistent state, as a value. */
  datatype ConnView = ConnView(
    addr: Option<string>, beginTime: Option<string>, endTime: Option<string>,
    resume: bool, multistation: bool, dialup: bool, lastpkttime: bool, terminate: bool,
    keepalive: int, netto: int, netdly: int,
    protocolVer: ProtocolVersion, info: Option<string>, link: int,
    streams: seq<Stream>, stat: StatView)

  /** The buffer invariant of the receive cursors. */
  predicate BufferOk(s: StatView)
  {
    |s.databuf| == BUFSIZE && 0 <= s.sendptr <= s.recptr <= BUFSIZE
  }

  /** Persistent state: the receive buffer, its cursors, the timers and the protocol state. */
  class DlStat {
    const databuf: array<Octet>
    var recptr: int
    var sendptr: int
    var expectInfo: bool
    var nettoTrig: int
    var netdlyTrig: int
    var keepaliveTrig: int
    var nettoTime: int
    var netdlyTime: int
    var keepaliveTime: int
    var dlState: LinkState
    var queryMode: QueryMode

    function View(): StatView
      reads this, databuf
    {
      StatView(databuf[..], recptr, sendptr, expectInfo, nettoTrig, netdlyTrig, keepaliveTrig,
               nettoTime, netdlyTime, keepaliveTime, dlState, queryMode)
    }

    /**
     * The persistent state of a new connection (the second half of
     * `dl_newdlcp`). The buffer's contents are left unspecified, as `malloc`
     * leaves them.
     */
    constructor ()
      ensures fresh(databuf) && databuf.Length == BUFSIZE
      ensures recptr == 0 && sendptr == 0 && !expectInfo
      ensures nettoTrig == -1 && netdlyTrig == 0 && keepaliveTrig == -1
      ensures nettoTime == 0 && netdlyTime == 0 && keepaliveTime == 0
      ensures dlState == Down && queryMode == NoQuery
    {
      databuf := new Octet[BUFSIZE](_ => '\0');
      recptr, sendptr, expectInfo := 0, 0, false;
      nettoTrig, netdlyTrig, keepaliveTrig := -1, 0, -1;
      nettoTime, netdlyTime, keepaliveTime := 0, 0, 0;
      dlState, queryMode := Down, NoQuery;
    }
  }

  /** The connection parameters of one DataLink connection. */
  class Dlcp {
    var addr: Option<string>
    var beginTime: Option<string>
    var endTime: Option<string>
    var resume: bool
    var multistation: bool
    var dialup: bool
    var lastpkttime: bool
    var terminate: bool
    var keepalive: int
    var netto: int
    var netdly: int
    var protocolVer: ProtocolVersion
    var info: Option<string>
    var link: int
    var streams: seq<Stream>
    const stat: DlStat

    ghost predicate Valid()
      reads this, stat
    {
      stat.databuf.Length == BUFSIZE && 0 <= stat.sendptr <= stat.recptr <= BUFSIZE
    }

    function View(): ConnView
      reads this, stat, stat.databuf
    {
      ConnView(addr, beginTime, endTime, resume, multistation, dialup, lastpkttime, terminate,
               keepalive, netto, netdly, protocolVer, info, link, streams, stat.View())
    }

    /** `dl_newdlcp`: a connection with the library defaults. */
    constructor ()
      ensures Valid() && fresh(stat) && fresh(stat.databuf)
      ensures addr.None? && beginTime.None? && endTime.None? && streams == []
      ensures resume && !multistation && !dialup && !lastpkttime && !terminate
      ensures keepalive == 0 && netto == 600 && netdly == 30
      ensures link == -1 && info.None? && protocolVer == Minimum
      ensures stat.recptr == 0 && stat.sendptr == 0 && !stat.expectInfo
      ensures stat.nettoTrig == -1 && stat.netdlyTrig == 0 && stat.keepaliveTrig == -1
      ensures stat.nettoTime == 0 && stat.netdlyTime == 0 && stat.keepaliveTime == 0
      ensures stat.dlState == Down && stat.queryMode == NoQuery
    {
      addr, beginTime, endTime, streams := None, None, None, [];
      resume, multistation, dialup, lastpkttime, terminate := true, false, false, false, false;
      keepalive, netto, netdly := 0, 600, 30;
      link, info, protocolVer := -1, None, Minimum;
      stat := new DlStat();
    }
  }
}
