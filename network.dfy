/**
 * The network side of a DataLink connection: reading the server address,
 * opening the socket, the HELLO exchange that learns the server's protocol
 * version and capabilities, closing the socket, and the checks made on what
 * `recv` returns. Sockets are not modelled: what each socket call returned
 * is an input of the model.
 */
module Network {
  import opened CStd
  import opened LibDali

  // ---------------------------------------------------------------------
  // The server address

  const DEFAULT_HOST: string := "localhost"
  const DEFAULT_PORT: string := "16000"

  /** The host name and port text handed to the resolver. */
  datatype Endpoint = Endpoint(host: string, port: string)

  /** The address read from `host:port`, or a port that is not acceptable. */
  datatype AddressResult = Address(ep: Endpoint) | BadPort

  /**
   * The port check of `dl_connect`: `strtoul` in base 10 must consume the
   * whole text, and the value, read as a `long`, must be 1 to 65535.
   */
  predicate PortOk(port: string)
  {
    var c := Strtoul(port, 10);
    c.end == |port| && 0 < AsLong(c.value) <= 0xffff
  }

  /**
   * The defaults of `dl_connect` for the server address: ":" alone is
   * localhost and port 16000; without a colon the whole text is the host and
   * the port is 16000 (not checked); otherwise the text before the first
   * colon is the host (localhost when empty) and the rest is the port, which
   * must pass the port check.
   */
  function ParseAddress(addr: string): (r: AddressResult)
    ensures r.Address? ==> r.ep.host != [] || addr == []
    ensures r.BadPort? ==> ':' in addr
  {
    if addr == ":" then Address(Endpoint(DEFAULT_HOST, DEFAULT_PORT))
    else match Find(addr, ":")
      case None => Address(Endpoint(addr, DEFAULT_PORT))
      case Some(i) =>
        assert addr[i..i + 1] == ":" by { FindLeftmost(addr, ":"); }
        assert addr[i] == ':';
        var port := addr[i + 1..];
        if !PortOk(port) then BadPort
        else Address(Endpoint(if i == 0 then DEFAULT_HOST else addr[..i], port))
  }

  /** The host read from an address never holds a colon, and a colon-free address is all host. */
  lemma AddressHostColonFree(addr: string)
    ensures ParseAddress(addr).Address? ==> ':' !in ParseAddress(addr).ep.host
    ensures ':' !in addr ==> ParseAddress(addr) == Address(Endpoint(addr, DEFAULT_PORT))
  {
    FindCharFrom(addr, ':', 0);
    match Find(addr, ":")
    case None =>
    case Some(i) =>
      if i > 0 && addr != ":" {
        var host := addr[..i];
        forall j | 0 <= j < |host| ensures host[j] != ':' {
          assert host[j] == addr[j];
        }
      }
  }

  /** On plain digits the port check is exactly the range check 1..65535. */
  lemma PortOfDigits(port: string)
    requires port != [] && AllDigits(port, 10)
    ensures PortOk(port) <==> 0 < DigitsValue(port, 10) <= 0xffff
  {
    StrtoulOfDigits(port, 10);
  }

  /** The values of the two example ports, digit by digit. */
  lemma DigitsValueOf18000()
    ensures DigitsValue("18000", 10) == 18000
  {
    assert DigitsValue("1", 10) == 1 by { assert "1"[..0] == []; }
    assert DigitsValue("18", 10) == 18 by { assert "18"[..1] == "1"; }
    assert DigitsValue("180", 10) == 180 by { assert "180"[..2] == "18"; }
    assert DigitsValue("1800", 10) == 1800 by { assert "1800"[..3] == "180"; }
    assert "18000"[..4] == "1800";
  }

  lemma DigitsValueOf70000()
    ensures DigitsValue("70000", 10) == 70000
  {
    assert DigitsValue("7", 10) == 7 by { assert "7"[..0] == []; }
    assert DigitsValue("70", 10) == 70 by { assert "70"[..1] == "7"; }
    assert DigitsValue("700", 10) == 700 by { assert "700"[..2] == "70"; }
    assert DigitsValue("7000", 10) == 7000 by { assert "7000"[..3] == "700"; }
    assert "70000"[..4] == "7000";
  }

  /** A host without a colon and an acceptable port are read back from `host:port`. */
  lemma ParseAddressJoined(host: string, port: string)
    requires ':' !in host && PortOk(port)
    ensures ParseAddress(host + ":" + port)
         == Address(Endpoint(if host == [] then DEFAULT_HOST else host, port))
  {
    assert port != [] by {
      assert Strtoul([], 10) == Conversion(0, 0);
    }
    var addr := host + ":" + port;
    assert addr == host + ([':'] + port);
    FindCharFirst(host, ':', port);
    assert addr != ":";
    assert addr[|host| + 1..] == port;
    assert addr[..|host|] == host;
  }

  /** A host without a colon and an unacceptable port are refused, unless both are empty (":" alone). */
  lemma ParseAddressRefused(host: string, port: string)
    requires ':' !in host && !PortOk(port)
    ensures ParseAddress(host + ":" + port) == BadPort <==> host != [] || port != []
  {
    var addr := host + ":" + port;
    assert addr == host + ([':'] + port);
    FindCharFirst(host, ':', port);
    assert addr[|host| + 1..] == port;
    if host == [] && port == [] {
      assert addr == ":";
    } else {
      assert |addr| > 1;
    }
  }

  /** The example addresses, spelled as their parts. */
  lemma AddressSpellings()
    ensures ":18000" == "" + ":" + "18000"
    ensures "host:18000" == "host" + ":" + "18000"
    ensures "host:" == "host" + ":" + ""
    ensures "host:70000" == "host" + ":" + "70000"
  {
  }

  /** The address forms `dl_connect` documents. */
  lemma AddressDefaults()
    ensures ParseAddress(":") == Address(Endpoint("localhost", "16000"))
    ensures ParseAddress("host") == Address(Endpoint("host", "16000"))
    ensures ParseAddress(":18000") == Address(Endpoint("localhost", "18000"))
    ensures ParseAddress("host:18000") == Address(Endpoint("host", "18000"))
  {
    AddressHostColonFree("host");
    PortOfDigits("18000");
    DigitsValueOf18000();
    AddressSpellings();
    ParseAddressJoined("", "18000");
    ParseAddressJoined("host", "18000");
  }

  /** An empty port and a port above 65535 are refused. */
  lemma AddressRefusedPorts()
    ensures ParseAddress("host:") == BadPort
    ensures ParseAddress("host:70000") == BadPort
  {
    assert Strtoul([], 10) == Conversion(0, 0);
    PortOfDigits("70000");
    DigitsValueOf70000();
    AddressSpellings();
    ParseAddressRefused("host", "");
    ParseAddressRefused("host", "70000");
  }

  // ---------------------------------------------------------------------
  // HELLO

  /**
   * What the server sent during HELLO: the server identification line, the
   * site line and the reply to CAPABILITIES. None stands for a failed
   * receive (or, for the last, a failed send).
   */
  datatype HelloExchange = HelloExchange(serverLine: Option<string>, siteLine: Option<string>, capsReply: Option<seq<Octet>>)

  /** The result of `dl_sayhello` and the protocol version it leaves. */
  datatype HelloOutcome = HelloOutcome(rc: int, version: ProtocolVersion)

  /** The server identification is kept to 198 characters (a 200-byte buffer, room for one added space). */
  const SERVER_ID_MAX: nat := 198

  /** The first carriage return or NUL at or after `i`, or the end: `strcspn` on a C string. */
  function LineEnd(s: string, i: nat): (j: nat)
    requires i <= |s|
    ensures i <= j <= |s|
    ensures forall k :: i <= k < j ==> s[k] != '\r' && s[k] != '\0'
    ensures j < |s| ==> s[j] == '\r' || s[j] == '\0'
    decreases |s| - i
  {
    if i < |s| && s[i] != '\r' && s[i] != '\0' then LineEnd(s, i + 1) else i
  }

  /** A line without carriage return or NUL ends where the string does. */
  lemma {:induction false} LineEndOfPlain(s: string, i: nat, n: nat)
    requires i <= n <= |s|
    requires forall k :: i <= k < n ==> s[k] != '\r' && s[k] != '\0'
    requires n < |s| ==> s[n] == '\r'
    ensures LineEnd(s, i) == n
    decreases n - i
  {
    if i < n {
      LineEndOfPlain(s, i + 1, n);
    }
  }

  /** The server identification line: up to the first carriage return, at most 198 characters. */
  function IdLine(raw: string): (line: string)
    ensures |line| <= SERVER_ID_MAX && line <= raw
    ensures forall k :: 0 <= k < |line| ==> line[k] != '\r' && line[k] != '\0'
  {
    var n := LineEnd(raw, 0);
    raw[..if n > SERVER_ID_MAX then SERVER_ID_MAX else n]
  }

  /** A line the server ends with CR LF comes back whole, when it fits. */
  lemma IdLineOfTerminated(line: string, rest: string)
    requires |line| <= SERVER_ID_MAX
    requires forall k :: 0 <= k < |line| ==> line[k] != '\r' && line[k] != '\0'
    ensures IdLine(line + "\r" + rest) == line
  {
    var raw := line + "\r" + rest;
    LineEndOfPlain(raw, 0, |line|);
    assert raw[..|line|] == line;
  }

  /** Cutting the line again changes nothing. */
  lemma IdLineIdempotent(raw: string)
    ensures IdLine(IdLine(raw)) == IdLine(raw)
  {
    var line := IdLine(raw);
    LineEndOfPlain(line, 0, |line|);
    assert line[..|line|] == line;
  }

  /** The server identification split at the first "::": the text before and the capability flags after. */
  datatype ServerId = ServerId(id: string, caps: Option<string>)

  /** Drops the leading spaces (only the space character). */
  function SkipBlanks(s: string): (t: string)
    ensures t == [] || t[0] != ' '
    ensures |t| <= |s| && t == s[|s| - |t|..]
    ensures forall k :: 0 <= k < |s| - |t| ==> s[k] == ' '
  {
    if s != [] && s[0] == ' ' then SkipBlanks(s[1..]) else s
  }

  /** The line cut at the first "::", with the spaces after it skipped. */
  function SplitServerId(line: string): (r: ServerId)
    ensures r.caps.None? ==> r.id == line
    ensures r.caps.Some? ==> |r.id| + 2 + |r.caps.value| <= |line| && r.id <= line
  {
    match Find(line, "::")
    case None => ServerId(line, None)
    case Some(i) => ServerId(line[..i], Some(SkipBlanks(line[i + 2..])))
  }

  /** Past text without a colon, the first "::" is the one placed there. */
  lemma {:induction false} FindPairAfter(x: string, y: string, k: nat)
    requires k <= |x| && forall j :: k <= j < |x| ==> x[j] != ':'
    ensures FindFrom(x + ("::" + y), "::", k) == Some(|x|)
    decreases |x| - k
  {
    var s := x + ("::" + y);
    if k < |x| {
      assert s[k..k + 2][0] == x[k];
      FindPairAfter(x, y, k + 1);
    } else {
      assert s[k..k + 2] == "::";
    }
  }

  /** An identification without a colon, "::", spaces and flags not starting with a space are split apart again. */
  lemma SplitServerIdJoined(id: string, gap: string, caps: string)
    requires ':' !in id && (caps == [] || caps[0] != ' ')
    requires forall k :: 0 <= k < |gap| ==> gap[k] == ' '
    ensures SplitServerId(id + "::" + gap + caps) == ServerId(id, Some(caps))
  {
    var line := id + "::" + gap + caps;
    assert line == id + ("::" + (gap + caps));
    FindPairAfter(id, gap + caps, 0);
    assert line[..|id|] == id;
    assert line[|id| + 2..] == gap + caps;
    SkipBlanksOf(gap, caps);
  }

  /** Spaces before text that does not start with one are exactly what is skipped. */
  lemma {:induction false} SkipBlanksOf(gap: string, caps: string)
    requires caps == [] || caps[0] != ' '
    requires forall k :: 0 <= k < |gap| ==> gap[k] == ' '
    ensures SkipBlanks(gap + caps) == caps
  {
    if gap != [] {
      assert (gap + caps)[1..] == gap[1..] + caps;
      SkipBlanksOf(gap[1..], caps);
    } else {
      assert gap + caps == caps;
    }
  }

  /**
   * The split is faithful: the line is the identification, "::", a run of
   * spaces and the flags, and no "::" occurs in the identification.
   */
  lemma SplitServerIdParts(line: string)
    requires SplitServerId(line).caps.Some?
    ensures var r := SplitServerId(line);
      var i := |r.id|;
      var j := |line| - |r.caps.value|;
      line[..i] == r.id && line[i..i + 2] == "::" && line[j..] == r.caps.value
      && forall k :: i + 2 <= k < j ==> line[k] == ' '
    ensures Find(SplitServerId(line).id, "::").None?
  {
    var i := Find(line, "::").value;
    SplitShape(line, i);
    SplitIdHasNoPair(line, i);
  }

  lemma SplitShape(line: string, i: nat)
    requires Find(line, "::") == Some(i)
    ensures var r := SplitServerId(line);
      var i := |r.id|;
      var j := |line| - |r.caps.value|;
      line[..i] == r.id && line[i..i + 2] == "::" && line[j..] == r.caps.value
      && forall k :: i + 2 <= k < j ==> line[k] == ' '
  {
    FindFromFound(line, "::", 0);
    assert OccursAt(line, "::", i);
    var caps := SkipBlanks(line[i + 2..]);
    assert SplitServerId(line) == ServerId(line[..i], Some(caps));
    GapShape(line, i, line[i + 2..], caps);
  }

  /** What follows "::" at `i` is a run of spaces, then `caps`. */
  lemma GapShape(line: string, i: nat, rest: string, caps: string)
    requires i + 2 <= |line| && rest == line[i + 2..]
    requires |caps| <= |rest| && caps == rest[|rest| - |caps|..]
    requires forall k :: 0 <= k < |rest| - |caps| ==> rest[k] == ' '
    ensures line[|line| - |caps|..] == caps
    ensures forall k :: i + 2 <= k < |line| - |caps| ==> line[k] == ' '
  {
    forall k | i + 2 <= k < |line| - |caps| ensures line[k] == ' ' {
      assert line[k] == rest[k - i - 2];
    }
  }

  lemma SplitIdHasNoPair(line: string, i: nat)
    requires Find(line, "::") == Some(i)
    ensures Find(SplitServerId(line).id, "::").None?
  {
    FindLeftmost(line, "::");
    FindInSliceNone(line, "::", 0, i, 0);
    assert line[0..i] == line[..i];
  }

  /** The end of the token `%s` reads from `i`: the first white-space character, or the end. */
  function TokenEnd(s: string, i: nat): (j: nat)
    requires i <= |s|
    ensures i <= j <= |s|
    ensures forall k :: i <= k < j ==> !IsSpace(s[k])
    ensures j < |s| ==> IsSpace(s[j])
    decreases |s| - i
  {
    if i < |s| && !IsSpace(s[i]) then TokenEnd(s, i + 1) else i
  }

  /** A run without white space followed by white space (or the end) is the token. */
  lemma {:induction false} TokenEndRun(s: string, i: nat, j: nat)
    requires i <= j <= |s|
    requires forall k :: i <= k < j ==> !IsSpace(s[k])
    requires j < |s| ==> IsSpace(s[j])
    ensures TokenEnd(s, i) == j
    decreases j - i
  {
    if i < j {
      TokenEndRun(s, i + 1, j);
    }
  }

  /**
   * Where digits with an optional fraction from `b` end, when there is at
   * least one digit: "12", "12.", "12.5" and ".5", but not ".".
   */
  function MantissaEnd(s: string, b: nat): (e: Option<nat>)
    requires b <= |s|
    ensures e.Some? ==> b < e.value <= |s|
    ensures e.Some? ==> IsDigitIn(s[b], 10) || (b + 1 < e.value && s[b] == '.' && IsDigitIn(s[b + 1], 10))
  {
    var c := DigitSpan(s, b, 10);
    var e := if c < |s| && s[c] == '.' then DigitSpan(s, c + 1, 10) else c;
    if c == b && e <= c + 1 then None else Some(e)
  }

  /**
   * Where an exponent from `e` ends: at `e` when no marker `e` or `E` is
   * there, after its digits when the marker and an optional sign are
   * followed by one, and nowhere when they are not.
   */
  function ExponentEnd(s: string, e: nat): (y: Option<nat>)
    requires e <= |s|
    ensures y.Some? ==> e <= y.value <= |s|
    ensures y.Some? && y.value > e ==> s[e] == 'e' || s[e] == 'E'
  {
    if e < |s| && (s[e] == 'e' || s[e] == 'E') then
      var x := if e + 1 < |s| && (s[e + 1] == '+' || s[e + 1] == '-') then e + 2 else e + 1;
      var y := DigitSpan(s, x, 10);
      if y == x then None else Some(y)
    else Some(e)
  }

  /**
   * The text a `%f` conversion reads from index `i`: white space skipped,
   * an optional sign, digits with an optional fraction (at least one
   * digit), and an optional exponent `e` or `E`, sign and digits. An
   * exponent marker without digits leaves a text that is no number, and
   * the conversion fails.
   */
  function FloatText(s: string, i: nat): (r: Option<string>)
    requires i <= |s|
    ensures r.Some? ==> r.value != [] && exists k :: 0 <= k < |r.value| && IsDigitIn(r.value[k], 10)
  {
    var a := SpaceSpan(s, i);
    var b := if a < |s| && (s[a] == '+' || s[a] == '-') then a + 1 else a;
    match MantissaEnd(s, b)
    case None => None
    case Some(e) =>
      match ExponentEnd(s, e)
      case None => None
      case Some(y) =>
        assert if IsDigitIn(s[b], 10) then IsDigitIn(s[a..y][b - a], 10) else IsDigitIn(s[a..y][b + 1 - a], 10);
        Some(s[a..y])
  }

  /** Digits on `[a, c)`, a point at `c`, digits on `(c, e)`, and no digit at `e`. */
  predicate MantissaRun(s: string, a: nat, c: nat, e: nat)
  {
    a < c < e <= |s| && s[c] == '.'
    && (forall k :: a <= k < c ==> IsDigitIn(s[k], 10))
    && (forall k :: c < k < e ==> IsDigitIn(s[k], 10))
    && (e < |s| ==> !IsDigitIn(s[e], 10))
  }

  /** A mantissa on `[a, e)` that no exponent marker follows. */
  predicate DecimalRun(s: string, a: nat, c: nat, e: nat)
  {
    MantissaRun(s, a, c, e) && (e < |s| ==> s[e] != 'e' && s[e] != 'E')
  }

  /** An exponent marker at `e`, an optional sign, digits on `[x, y)`, and no digit at `y`. */
  predicate ExponentRun(s: string, e: nat, x: nat, y: nat)
  {
    e < x < y <= |s| && (s[e] == 'e' || s[e] == 'E')
    && (x == e + 1 || (x == e + 2 && (s[e + 1] == '+' || s[e + 1] == '-')))
    && (forall k :: x <= k < y ==> IsDigitIn(s[k], 10))
    && (y < |s| ==> !IsDigitIn(s[y], 10))
  }

  /** A mantissa run is what `MantissaEnd` measures. */
  lemma MantissaEndAt(s: string, a: nat, c: nat, e: nat)
    requires MantissaRun(s, a, c, e)
    ensures MantissaEnd(s, a) == Some(e)
  {
    DigitSpanRun(s, a, c, 10);
    DigitSpanRun(s, c + 1, e, 10);
  }

  /** `%f` reads a decimal run whole. */
  lemma FloatTextAt(s: string, a: nat, c: nat, e: nat)
    requires DecimalRun(s, a, c, e)
    ensures FloatText(s, a) == Some(s[a..e])
  {
    assert IsDigitIn(s[a], 10);
    assert SpaceSpan(s, a) == a;
    MantissaEndAt(s, a, c, e);
    assert ExponentEnd(s, e) == Some(e);
  }

  /** `%f` reads a mantissa and its exponent whole. */
  lemma FloatTextExponentAt(s: string, a: nat, c: nat, e: nat, x: nat, y: nat)
    requires MantissaRun(s, a, c, e) && ExponentRun(s, e, x, y)
    ensures FloatText(s, a) == Some(s[a..y])
  {
    assert IsDigitIn(s[a], 10);
    assert SpaceSpan(s, a) == a;
    MantissaEndAt(s, a, c, e);
    assert IsDigitIn(s[x], 10);
    DigitSpanRun(s, x, y, 10);
    assert ExponentEnd(s, e) == Some(y);
  }

  /** A mantissa followed by an exponent marker, an optional sign and no digit is not a number to `%f`. */
  lemma FloatTextDanglingExponent(s: string, a: nat, c: nat, e: nat)
    requires MantissaRun(s, a, c, e) && e < |s| && (s[e] == 'e' || s[e] == 'E')
    requires var x := if e + 1 < |s| && (s[e + 1] == '+' || s[e + 1] == '-') then e + 2 else e + 1;
      x < |s| ==> !IsDigitIn(s[x], 10)
    ensures FloatText(s, a).None?
  {
    assert IsDigitIn(s[a], 10);
    assert SpaceSpan(s, a) == a;
    MantissaEndAt(s, a, c, e);
    assert ExponentEnd(s, e).None?;
  }

  /** Where the digits and the point of "<x><m>.<f><rest>" lie. */
  lemma DecimalAt(s: string, x: string, m: string, f: string, rest: string)
    requires s == x + (m + "." + f) + rest
    requires m != [] && AllDigits(m, 10) && AllDigits(f, 10)
    requires rest == [] || (!IsDigitIn(rest[0], 10) && rest[0] != 'e' && rest[0] != 'E')
    ensures DecimalRun(s, |x|, |x| + |m|, |x| + |m| + 1 + |f|)
    ensures s[|x|..|x| + |m| + 1 + |f|] == m + "." + f
  {
    var a, c, e := |x|, |x| + |m|, |x| + |m| + 1 + |f|;
    forall k | a <= k < c ensures IsDigitIn(s[k], 10) {
      assert s[k] == m[k - a];
    }
    forall k | c < k < e ensures IsDigitIn(s[k], 10) {
      assert s[k] == f[k - c - 1];
    }
    if e < |s| {
      assert s[e] == rest[0];
    }
    assert s[a..e] == m + "." + f;
  }

  /** A number written as digits, a point and digits is read whole when no further digit follows. */
  lemma FloatTextOfDecimal(s: string, a: nat, x: string, m: string, f: string, rest: string)
    requires s == x + (m + "." + f) + rest && a == |x|
    requires m != [] && AllDigits(m, 10) && AllDigits(f, 10)
    requires rest == [] || (!IsDigitIn(rest[0], 10) && rest[0] != 'e' && rest[0] != 'E')
    ensures FloatText(s, a) == Some(m + "." + f)
  {
    DecimalAt(s, x, m, f, rest);
    FloatTextAt(s, a, a + |m|, a + |m| + 1 + |f|);
  }

  /** The server identifier starts with "DataLink", in any letter case (`strncasecmp` over 8 characters). */
  predicate IsDataLinkId(token: string)
  {
    |token| >= 8 && forall k :: 0 <= k < 8 ==> ToLower(token[k]) == "datalink"[k]
  }

  /**
   * `sscanf(id, "%s v%f ")` followed by the check of the identifier: the
   * version text when the first token is a DataLink identifier followed by
   * `v` and a number, the minimum version otherwise.
   */
  function ScanVersion(u: string): (v: ProtocolVersion)
    ensures v.Parsed? ==> v.text != []
  {
    var a := SpaceSpan(u, 0);
    if a == |u| then Minimum else VersionAfterToken(u, a, TokenEnd(u, a))
  }

  /** The rest of the scan once the token `u[a..b]` is read: white space, `v` and a number. */
  function VersionAfterToken(u: string, a: nat, b: nat): (v: ProtocolVersion)
    requires a <= b <= |u|
    ensures v.Parsed? ==> v.text != []
  {
    var c := SpaceSpan(u, b);
    if c < |u| && u[c] == 'v' && IsDataLinkId(u[a..b]) then
      match FloatText(u, c + 1)
      case None => Minimum
      case Some(f) => Parsed(f)
    else Minimum
  }

  /** The scan in index terms: a DataLink token ending at `b`, one space, `v` and a number. */
  lemma ScanVersionAt(u: string, b: nat, d: string)
    requires 0 < b && b + 2 <= |u| && !IsSpace(u[0])
    requires TokenEnd(u, 0) == b && SpaceSpan(u, b) == b + 1 && u[b + 1] == 'v'
    requires IsDataLinkId(u[0..b]) && FloatText(u, b + 2) == Some(d)
    ensures ScanVersion(u) == Parsed(d)
  {
    assert SpaceSpan(u, 0) == 0;
  }

  /**
   * The classic identification: a DataLink token of `b` characters, a space,
   * `v` and a decimal number `<m>.<f>` on `[b + 2, e)`; its version is that
   * number.
   */
  lemma ScanVersionOf(u: string, b: nat, c: nat, e: nat)
    requires 0 < b && b + 2 <= |u| && u[b] == ' ' && u[b + 1] == 'v'
    requires IsDataLinkId(u[..b]) && forall k :: 0 <= k < b ==> !IsSpace(u[k])
    requires DecimalRun(u, b + 2, c, e)
    ensures ScanVersion(u) == Parsed(u[b + 2..e])
  {
    DataLinkTokenAt(u, b);
    FloatTextAt(u, b + 2, c, e);
    ScanVersionAt(u, b, u[b + 2..e]);
  }

  /** A DataLink token of `b` characters followed by one space. */
  lemma DataLinkTokenAt(u: string, b: nat)
    requires 0 < b && b + 2 <= |u| && u[b] == ' ' && u[b + 1] == 'v'
    requires IsDataLinkId(u[..b]) && forall k :: 0 <= k < b ==> !IsSpace(u[k])
    ensures !IsSpace(u[0]) && TokenEnd(u, 0) == b && SpaceSpan(u, b) == b + 1 && IsDataLinkId(u[0..b])
  {
    TokenEndRun(u, 0, b);
    assert SpaceSpan(u, b) == b + 1;
    assert u[..b] == u[0..b];
  }

  /** A version with an exponent is read with it: "1e1" is ten. */
  lemma ScanVersionExponent()
    ensures ScanVersion("DataLink v1e1 ") == Parsed("1e1")
  {
    var u := "DataLink v1e1 ";
    assert IsDataLinkId(u[..8]);
    DataLinkTokenAt(u, 8);
    FloatTextOneE1(u);
    ScanVersionAt(u, 8, "1e1");
  }

  lemma FloatTextOneE1(u: string)
    requires u == "DataLink v1e1 "
    ensures FloatText(u, 10) == Some("1e1")
  {
    assert SpaceSpan(u, 10) == 10;
    DigitSpanRun(u, 10, 11, 10);
    assert MantissaEnd(u, 10) == Some(11);
    DigitSpanRun(u, 12, 13, 10);
    assert ExponentEnd(u, 11) == Some(13);
    assert u[10..13] == "1e1";
  }

  /** A DataLink token and `v` followed by no number: the minimum version. */
  lemma ScanVersionUnread(u: string, b: nat)
    requires 0 < b && b + 2 <= |u| && !IsSpace(u[0])
    requires TokenEnd(u, 0) == b && SpaceSpan(u, b) == b + 1 && u[b + 1] == 'v'
    requires FloatText(u, b + 2).None?
    ensures ScanVersion(u) == Minimum
  {
    assert SpaceSpan(u, 0) == 0;
  }

  /** A version whose exponent has no digits is no number: the minimum version. */
  lemma ScanVersionDanglingExponent()
    ensures ScanVersion("DataLink v1.5e ") == Minimum
  {
    var w := "DataLink v1.5e ";
    assert IsDataLinkId(w[..8]);
    DataLinkTokenAt(w, 8);
    FloatTextDanglingExponent(w, 10, 11, 13);
    ScanVersionUnread(w, 8);
  }

  /** An identification whose first token is not a DataLink identifier gives the minimum version. */
  lemma ScanVersionForeign(u: string)
    requires var a := SpaceSpan(u, 0); a < |u| && !IsDataLinkId(u[a..TokenEnd(u, a)])
    ensures ScanVersion(u) == Minimum
  {
  }

  /** "SLPROTO:<number>" in the capability flags overrides the version; anything else leaves it. */
  function SlprotoVersion(flags: string, v: ProtocolVersion): (w: ProtocolVersion)
    ensures Find(flags, "SLPROTO").None? ==> w == v
  {
    match Find(flags, "SLPROTO")
    case None => v
    case Some(t) =>
      if t + 8 <= |flags| && flags[t + 7] == ':' then
        match FloatText(flags, t + 8)
        case None => v
        case Some(f) => Parsed(f)
      else v
  }

  /** The server supports the CAPABILITIES command when its flags contain "CAP". */
  predicate HasCap(flags: string) { Find(flags, "CAP").Some? }

  /** How `dl_sayhello` reads the reply to CAPABILITIES. */
  datatype CapsAnswer = Accepted(ext: Option<seq<Octet>>) | Rejected(ext: Option<seq<Octet>>) | Invalid

  /** "OK\r" and at least four bytes is acceptance, "ERROR\r" and at least seven is refusal, anything else is invalid. */
  function CapsResponse(reply: seq<Octet>): (a: CapsAnswer)
    ensures a.Accepted? <==> |reply| >= 4 && reply[..3] == "OK\r"
    ensures a.Rejected? ==> |reply| >= 7 && reply[..6] == "ERROR\r"
    ensures a.Accepted? || a.Rejected? ==> a.ext == ExtReply(reply)
  {
    if |reply| >= 4 && reply[..3] == "OK\r" then Accepted(ExtReply(reply))
    else if |reply| >= 7 && reply[..6] == "ERROR\r" then Rejected(ExtReply(reply))
    else Invalid
  }

  /**
   * The extended reply: the text between the first and the second carriage
   * return of the reply, both searched for within the bytes received.
   */
  function ExtReply(reply: seq<Octet>): (r: Option<seq<Octet>>)
    ensures r.Some? ==> |r.value| + 2 <= |reply|
  {
    match Find(reply, "\r")
    case None => None
    case Some(t1) =>
      match FindFrom(reply, "\r", t1 + 1)
      case None => None
      case Some(t2) => Some(reply[t1 + 1..t2])
  }

  /** A reply "<status>\r<text>\r..." carries `text` as its extended reply. */
  lemma ExtReplyOf(status: seq<Octet>, text: seq<Octet>, rest: seq<Octet>)
    requires '\r' !in status && '\r' !in text
    ensures ExtReply(status + ("\r" + (text + ("\r" + rest)))) == Some(text)
  {
    var tail := text + ("\r" + rest);
    var reply := status + ("\r" + tail);
    FindCharFirst(status, '\r', tail);
    FindCharFirst(text, '\r', rest);
    FindInSuffix(status + "\r", tail, "\r", 0, |text|);
    assert reply == (status + "\r") + tail;
    assert reply[|status| + 1..|status| + 1 + |text|] == text;
  }

  /**
   * The end of the window the second `memchr` of `dl_sayhello` searches, as
   * written: it starts just past the first carriage return, at offset
   * `term1`, and its length is computed with the pointer difference the
   * wrong way round, `bytesread - (readbuf - term1) - 1`.
   */
  function ExtReplyWindowEndAsWritten(bytesread: int, term1: nat): (e: int)
    ensures e == bytesread + 2 * term1
  {
    var len := bytesread - (0 - term1) - 1;
    term1 + 1 + len
  }

  /** The window searched as written runs past the bytes received whenever the reply does not start with the carriage return, and past the 100-byte buffer for a full reply. */
  lemma ExtReplyWindowOverruns(bytesread: int, term1: nat)
    requires 0 < term1 < bytesread
    ensures ExtReplyWindowEndAsWritten(bytesread, term1) > bytesread
    ensures ExtReplyWindowEndAsWritten(100, 2) == 104 > 100
  {
  }

  /** The corrected search never reads past the reply: both carriage returns lie inside it and the text between holds none. */
  lemma ExtReplyWithinReply(reply: seq<Octet>)
    requires ExtReply(reply).Some?
    ensures exists t1, t2 ::
      0 <= t1 < t2 < |reply| && reply[t1] == '\r' && reply[t2] == '\r' && ExtReply(reply).value == reply[t1 + 1..t2]
    ensures '\r' !in ExtReply(reply).value
  {
    var t1 := Find(reply, "\r").value;
    FindCharFrom(reply, '\r', 0);
    FindCharFrom(reply, '\r', t1 + 1);
    var t2 := FindFrom(reply, "\r", t1 + 1).value;
    var text := reply[t1 + 1..t2];
    forall k | 0 <= k < |text| ensures text[k] != '\r' {
      assert text[k] == reply[t1 + 1 + k];
    }
  }

  /**
   * `dl_sayhello`, as a function of what the server sent and the version
   * held before. Both lines of the HELLO reply must arrive. The version is
   * scanned from the identification (cut at "::" when capability flags
   * follow; otherwise with a space appended), then overridden by an
   * SLPROTO flag. When the flags contain "CAP" the CAPABILITIES reply must
   * be an acceptance.
   */
  function Hello(ex: HelloExchange, prior: ProtocolVersion): (h: HelloOutcome)
    ensures h.rc == 0 || h.rc == -1
  {
    if ex.serverLine.None? || ex.siteLine.None? then HelloOutcome(-1, prior)
    else
      var line := IdLine(ex.serverLine.value);
      var sid := SplitServerId(line);
      match sid.caps
      case None => HelloOutcome(0, ScanVersion(line + " "))
      case Some(c) =>
        var flags := c + " ";
        var v := SlprotoVersion(flags, ScanVersion(sid.id));
        if !HasCap(flags) then HelloOutcome(0, v)
        else match ex.capsReply
          case None => HelloOutcome(-1, v)
          case Some(reply) => HelloOutcome(if CapsResponse(reply).Accepted? then 0 else -1, v)
  }

  /** Without both lines of the reply nothing is learned and HELLO fails. */
  lemma HelloNeedsBothLines(ex: HelloExchange, prior: ProtocolVersion)
    requires ex.serverLine.None? || ex.siteLine.None?
    ensures Hello(ex, prior) == HelloOutcome(-1, prior)
  {
  }

  /** A server without capability flags always succeeds and its version comes from its identification alone. */
  lemma HelloWithoutFlags(ex: HelloExchange, prior: ProtocolVersion)
    requires ex.serverLine.Some? && ex.siteLine.Some?
    requires Find(IdLine(ex.serverLine.value), "::").None?
    ensures Hello(ex, prior) == HelloOutcome(0, ScanVersion(IdLine(ex.serverLine.value) + " "))
  {
  }

  /** The site line only has to arrive; what it says changes nothing. */
  lemma HelloIgnoresSite(ex: HelloExchange, prior: ProtocolVersion, site: string)
    requires ex.siteLine.Some?
    ensures Hello(ex.(siteLine := Some(site)), prior) == Hello(ex, prior)
  {
  }

  /** The identifier check ignores letter case. */
  lemma DataLinkIdCases()
    ensures IsDataLinkId("DataLink") && IsDataLinkId("DATALINK") && IsDataLinkId("datalink")
    ensures IsDataLinkId("DataLink-3") && !IsDataLinkId("DataLin") && !IsDataLinkId("SeedLink")
  {
    assert ToLower("SeedLink"[0]) != "datalink"[0];
  }

  /** A SeedLink server is not a DataLink server: minimum functionality. */
  lemma ScanVersionSeedLink()
    ensures ScanVersion("SeedLink v3.1 ") == Minimum
  {
    var u := "SeedLink v3.1 ";
    assert !IsSpace(u[0]);
    assert SpaceSpan(u, 0) == 0;
    forall k | 0 <= k < 8 ensures !IsSpace(u[k]) {
    }
    TokenEndRun(u, 0, 8);
    assert u[0..8][0] == 'S';
    assert !IsDataLinkId(u[0..8]);
  }

  /** "SLPROTO:<m>.<f>" at the head of the flags sets the version to "<m>.<f>". */
  lemma SlprotoVersionOf(m: string, f: string, rest: string, v: ProtocolVersion)
    requires m != [] && AllDigits(m, 10) && AllDigits(f, 10)
    requires rest == [] || (!IsDigitIn(rest[0], 10) && rest[0] != 'e' && rest[0] != 'E')
    ensures SlprotoVersion("SLPROTO:" + (m + "." + f) + rest, v) == Parsed(m + "." + f)
  {
    var flags := "SLPROTO:" + (m + "." + f) + rest;
    assert flags[0..7] == "SLPROTO";
    assert flags[7] == ':';
    FloatTextOfDecimal(flags, 8, "SLPROTO:", m, f, rest);
  }

  /**
   * A server line "<id>::<spaces><flags>" ended by a carriage return: the
   * version is scanned from the identification and then overridden by an
   * SLPROTO flag, and HELLO succeeds exactly when the server does not offer
   * CAPABILITIES or accepts them.
   */
  lemma HelloWithFlags(id: string, gap: string, caps: string, rest: string, site: string,
                       reply: Option<seq<Octet>>, prior: ProtocolVersion)
    requires ':' !in id && (caps == [] || caps[0] != ' ')
    requires forall k :: 0 <= k < |gap| ==> gap[k] == ' '
    requires var line := id + "::" + gap + caps;
      |line| <= SERVER_ID_MAX && forall k :: 0 <= k < |line| ==> line[k] != '\r' && line[k] != '\0'
    ensures var h := Hello(HelloExchange(Some(id + "::" + gap + caps + "\r" + rest), Some(site), reply), prior);
      h.version == SlprotoVersion(caps + " ", ScanVersion(id))
      && (h.rc == 0 <==> !HasCap(caps + " ") || (reply.Some? && CapsResponse(reply.value).Accepted?))
  {
    IdLineOfTerminated(id + "::" + gap + caps, rest);
    SplitServerIdJoined(id, gap, caps);
  }

  // ---------------------------------------------------------------------
  // Opening the connection

  /**
   * `dl_sayhello` on a connection: the result and the new protocol version
   * are those of `Hello`; nothing else changes.
   */
  method SayHello(conn: Dlcp, ex: HelloExchange) returns (rc: int)
    modifies conn
    ensures HelloOutcome(rc, conn.protocolVer) == Hello(ex, old(conn.protocolVer))
    ensures conn.View() == old(conn.View()).(protocolVer := conn.protocolVer)
  {
    var h := Hello(ex, conn.protocolVer);
    conn.protocolVer := h.version;
    rc := h.rc;
  }

  /**
   * What the socket calls of `dl_connect` returned: whether the socket layer
   * started, whether the host resolved, the descriptor `socket` returned,
   * whether `connect` failed, what the 10-second readiness check returned,
   * and what the server said to HELLO; and whether `dl_terminate` ran (from
   * a signal handler, say) before `dl_connect` looked at the termination
   * flag after that check. One that runs after that look, during HELLO say,
   * is not seen by `dl_connect` at all.
   */
  datatype SocketEnv = SocketEnv(
    startupFails: bool, resolveFails: bool, sock: int, connectFails: bool,
    checkResult: int, hello: HelloExchange, stopRequested: bool)

  /** How far `dl_connect` gets before it looks at the termination flag. */
  datatype Dial = Refused | Failed | Connected(sock: int)

  /** The steps of `dl_connect` up to a connected socket, in the order it takes them. */
  function DialServer(addr: string, env: SocketEnv): (d: Dial)
    ensures d.Refused? <==> !env.startupFails && ParseAddress(addr).BadPort?
    ensures d.Connected? ==> d.sock == env.sock && d.sock >= 0 && env.checkResult > 0
  {
    if env.startupFails then Failed
    else if ParseAddress(addr).BadPort? then Refused
    else if env.resolveFails || env.sock < 0 || env.connectFails || env.checkResult <= 0 then Failed
    else Connected(env.sock)
  }

  /** What `dl_connect` leaves behind: the connection and the result. */
  datatype ConnectResult = ConnectResult(view: ConnView, rc: int)

  /**
   * `dl_connect`: open the socket to the server and, when asked, say HELLO.
   * A refused port sets the termination flag, and so does a `dl_terminate`
   * that runs during the call. The descriptor is returned and kept in
   * `link` once connected, unless termination was requested by then; a
   * failed HELLO then makes the result -1 but leaves the descriptor in
   * `link`. Nothing but `link`, the protocol version and the termination
   * flag changes.
   */
  function ConnectView(v: ConnView, sayhello: bool, env: SocketEnv): (r: ConnectResult)
    requires v.addr.Some?
    ensures r.rc == -1 || (r.rc >= 0 && r.rc == r.view.link)
    ensures r.view.(link := v.link, protocolVer := v.protocolVer, terminate := v.terminate) == v
    ensures r.view.stat == v.stat && r.view.addr == v.addr
    ensures r.view.terminate == (v.terminate || env.stopRequested || DialServer(v.addr.value, env).Refused?)
    ensures DialServer(v.addr.value, env).Refused? ==> r == ConnectResult(v.(terminate := true), -1)
    ensures DialServer(v.addr.value, env).Failed? ==>
      r == ConnectResult(v.(terminate := v.terminate || env.stopRequested), -1)
    ensures DialServer(v.addr.value, env).Connected? && (v.terminate || env.stopRequested) ==>
      r == ConnectResult(v.(terminate := true), -1)
    ensures DialServer(v.addr.value, env).Connected? && !v.terminate && !env.stopRequested ==>
      r.view.link == env.sock && !r.view.terminate
      && r.view.protocolVer == (if sayhello then Hello(env.hello, v.protocolVer).version else v.protocolVer)
      && (r.rc == -1 <==> sayhello && Hello(env.hello, v.protocolVer).rc == -1)
  {
    var u := if env.stopRequested then v.(terminate := true) else v;
    match DialServer(v.addr.value, env)
    case Refused => ConnectResult(v.(terminate := true), -1)
    case Failed => ConnectResult(u, -1)
    case Connected(sock) =>
      if u.terminate then ConnectResult(u, -1)
      else if !sayhello then ConnectResult(v.(link := sock), sock)
      else
        var h := Hello(env.hello, v.protocolVer);
        ConnectResult(v.(link := sock, protocolVer := h.version), if h.rc == -1 then -1 else sock)
  }

  /** `dl_connect` on a connection, as `ConnectView` describes it. */
  method Connect(conn: Dlcp, sayhello: bool, env: SocketEnv) returns (rc: int)
    requires conn.addr.Some?
    modifies conn
    ensures ConnectResult(conn.View(), rc) == ConnectView(old(conn.View()), sayhello, env)
  {
    if env.stopRequested {
      conn.terminate := true;
    }
    match DialServer(conn.addr.value, env)
    case Refused =>
      conn.terminate := true;
      return -1;
    case Failed =>
      return -1;
    case Connected(sock) =>
      if conn.terminate {
        return -1;
      }
      conn.link := sock;
      if sayhello {
        var h := SayHello(conn, env.hello);
        if h == -1 {
          return -1;
        }
      }
      return sock;
  }

  /**
   * An address with an unacceptable port is refused outright (so `Connect`
   * sets the termination flag), except ":" alone, which means the defaults.
   */
  lemma RefusedPort(host: string, port: string, env: SocketEnv)
    requires ':' !in host && !PortOk(port) && !env.startupFails
    ensures DialServer(host + ":" + port, env).Refused? <==> host != [] || port != []
  {
    ParseAddressRefused(host, port);
  }

  // ---------------------------------------------------------------------
  // Closing the connection

  /** The connection after `dl_disconnect`: no socket. */
  function AfterDisconnect(v: ConnView): (w: ConnView)
    ensures w.link == -1
    ensures w.(link := v.link) == v
  {
    v.(link := -1)
  }

  /** Closing twice is closing once. */
  lemma DisconnectIdempotent(v: ConnView)
    ensures AfterDisconnect(AfterDisconnect(v)) == AfterDisconnect(v)
  {
  }

  /**
   * `dl_disconnect`: close the socket if there is one. It always returns -1,
   * the value callers store back into `link`; `closed` says whether a socket
   * was closed.
   */
  method Disconnect(conn: Dlcp) returns (rc: int, closed: bool)
    modifies conn
    ensures rc == -1 && closed == (old(conn.link) != -1)
    ensures conn.View() == AfterDisconnect(old(conn.View()))
  {
    closed := conn.link != -1;
    if closed {
      conn.link := -1;
    }
    return -1, closed;
  }

  // ---------------------------------------------------------------------
  // Receiving

  /**
   * `dl_recvdata`: the result for a buffer that may be missing and what
   * `recv` returned; `wouldBlock` says whether a failed `recv` only found no
   * data on the non-blocking socket. -1 is an error or the peer's shutdown,
   * 0 is "no data yet", a positive value is the number of bytes received.
   */
  function RecvData(haveBuffer: bool, received: int, wouldBlock: bool): (r: int)
    ensures r >= -1
    ensures r > 0 <==> haveBuffer && received > 0
    ensures r > 0 ==> r == received
    ensures r == 0 <==> haveBuffer && received < 0 && wouldBlock
    ensures r == -1 <==> !haveBuffer || received == 0 || (received < 0 && !wouldBlock)
  {
    if !haveBuffer then -1
    else if received == 0 then -1
    else if received < 0 then (if wouldBlock then 0 else -1)
    else received
  }

  /** What the checks at the start of `dl_recvheader` decide. */
  datatype HeaderStart = HeaderFail | HeaderLength(len: nat)

  /**
   * The checks at the start of `dl_recvheader`: a buffer of at least 255
   * bytes, three bytes received, the two synchronization bytes, then the
   * header length from the third byte (read unsigned).
   */
  function RecvHeaderStart(haveBuffer: bool, maxlen: int, received: seq<Octet>): (r: HeaderStart)
    ensures r.HeaderLength? <==>
      haveBuffer && maxlen >= 255 && |received| == 3 && received[0] == 'R' && received[1] == 'S'
    ensures r.HeaderLength? ==> r.len == received[2] as int && r.len <= 255 <= maxlen
  {
    if !haveBuffer || maxlen < 255 then HeaderFail
    else if |received| != 3 then HeaderFail
    else if received[0] != 'R' || received[1] != 'S' then HeaderFail
    else HeaderLength(received[2] as int)
  }

  /** The header length is whatever the third byte says, for every byte value. */
  lemma HeaderLengthAnyByte(b: Octet)
    ensures RecvHeaderStart(true, 255, ['R', 'S', b]) == HeaderLength(b as int)
  {
  }

  /** A packet that starts with the "DL" bytes the function's comment describes is refused. */
  lemma DataLinkSyncRefused(b: Octet, maxlen: int)
    ensures RecvHeaderStart(true, maxlen, ['D', 'L', b]) == HeaderFail
  {
  }
}
