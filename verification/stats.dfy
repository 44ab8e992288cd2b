/**
 * Command statistics (private.c sdb_add_statistics,
 * sdb_update_size_stats with ESTIMATE_HTTP_OVERHEAD, and the HTTP
 * overhead estimates). The counters are C long long; the model uses
 * unbounded integers.
 */
module Stats {
  import opened Text
  import opened Numbers

  datatype Statistics = Statistics(
    bytesSent: int,
    bytesReceived: int,
    overheadSent: int,
    overheadReceived: int,
    numCommands: int,
    numPuts: int,
    numRetries: int)

  const Zero := Statistics(0, 0, 0, 0, 0, 0, 0)

  /** Every counter of a is at most the one of b. */
  predicate AtMost(a: Statistics, b: Statistics)
  {
    a.bytesSent <= b.bytesSent && a.bytesReceived <= b.bytesReceived
    && a.overheadSent <= b.overheadSent && a.overheadReceived <= b.overheadReceived
    && a.numCommands <= b.numCommands && a.numPuts <= b.numPuts && a.numRetries <= b.numRetries
  }

  /**
   * sdb_add_statistics: every counter of b is added to the one of a.
   * Adding nothing changes nothing; adding counts never lowers a counter.
   */
  function AddStatistics(a: Statistics, b: Statistics): (c: Statistics)
    ensures b == Zero ==> c == a
    ensures AtMost(Zero, b) <==> AtMost(a, c)
  {
    Statistics(
      a.bytesSent + b.bytesSent,
      a.bytesReceived + b.bytesReceived,
      a.overheadSent + b.overheadSent,
      a.overheadReceived + b.overheadReceived,
      a.numCommands + b.numCommands,
      a.numPuts + b.numPuts,
      a.numRetries + b.numRetries)
  }

  /** Adding statistics is a commutative monoid with Zero as identity. */
  lemma AddStatisticsMonoid(a: Statistics, b: Statistics, c: Statistics)
    ensures AddStatistics(a, Zero) == a && AddStatistics(Zero, a) == a
    ensures AddStatistics(a, b) == AddStatistics(b, a)
    ensures AddStatistics(AddStatistics(a, b), c) == AddStatistics(a, AddStatistics(b, c))
  {
  }

  const CONTENT_TYPE_HEADER := "Content-Type: application/x-www-form-urlencoded; charset=utf-8"
  const USER_AGENT_HEADER := "User-Agent: libsdb"
  /** The size the estimate allots to the request line and the other fixed headers. */
  const OTHER_HEADERS := 76
  /** Posts above this size are sent with "Expect: 100-continue". */
  const TINY_INITIAL_POST_SIZE := 1024

  /**
   * sdb_estimate_http_sent: the two configured headers with their line
   * breaks, the other headers, the Content-Length digits of the post size
   * (passed to util.c digits as a C int) and the blank line.
   */
  function EstimateSent(postSize: int): (e: int)
    ensures e >= 160
    ensures -0x8000_0000 <= postSize < 10 ==> e == 160
  {
    (|CONTENT_TYPE_HEADER| + |USER_AGENT_HEADER| + 2) + OTHER_HEADERS
      + DigitCount(ToInt32(postSize), 10) + 2 - 1
  }

  /**
   * The estimate is 159 bytes plus the number of decimal digits of the
   * post size: a post of d digits costs 159 + d.
   */
  lemma EstimateSentDigits(postSize: int)
    requires 0 <= postSize < 0x8000_0000
    ensures EstimateSent(postSize) >= 160
    ensures postSize < 10 ==> EstimateSent(postSize) == 160
    ensures postSize >= 1 ==>
      Pow(10, EstimateSent(postSize) - 160) <= postSize < Pow(10, EstimateSent(postSize) - 159)
  {
    assert |CONTENT_TYPE_HEADER| == 62 && |USER_AGENT_HEADER| == 18;
    if postSize >= 1 {
      DigitCountBounds(postSize, 10);
    }
  }

  /** sdb_estimate_http_received: the fixed headers and an average chunked-encoding overhead. */
  const ESTIMATE_RECEIVED := 127 + 6

  /**
   * sdb_update_size_stats: the payload sizes are added to the byte
   * counters and the estimates to the overhead counters; a post larger
   * than TINY_INITIAL_POST_SIZE also pays for the 100-continue exchange.
   */
  function UpdateSizeStats(s: Statistics, postSize: int, recSize: int): (t: Statistics)
    ensures t.numCommands == s.numCommands && t.numPuts == s.numPuts && t.numRetries == s.numRetries
    ensures t.bytesSent == s.bytesSent + postSize && t.bytesReceived == s.bytesReceived + recSize
    ensures t.overheadSent >= s.overheadSent + EstimateSent(postSize) && t.overheadReceived >= s.overheadReceived + ESTIMATE_RECEIVED
    ensures t.overheadSent > s.overheadSent + EstimateSent(postSize) <==> postSize > TINY_INITIAL_POST_SIZE
    ensures t.overheadReceived > s.overheadReceived + ESTIMATE_RECEIVED <==> postSize > TINY_INITIAL_POST_SIZE
  {
    var extraSent := if postSize > TINY_INITIAL_POST_SIZE then 22 else 0;
    var extraReceived := if postSize > TINY_INITIAL_POST_SIZE then 25 else 0;
    s.(bytesSent := s.bytesSent + postSize,
       overheadSent := s.overheadSent + EstimateSent(postSize) + extraSent,
       bytesReceived := s.bytesReceived + recSize,
       overheadReceived := s.overheadReceived + ESTIMATE_RECEIVED + extraReceived)
  }

  /** The counters one command adds: one command, one put when its name starts with "Put", and its sizes. */
  function CommandDelta(cmd: string, postSize: int, recSize: int): (d: Statistics)
    ensures d.numCommands == 1 && d.numRetries == 0
    ensures d.numPuts == 1 <==> StartsWith(cmd, "Put")
    ensures d.numPuts == 0 <==> !StartsWith(cmd, "Put")
    ensures d.bytesSent == postSize && d.bytesReceived == recSize
    ensures d.overheadSent >= EstimateSent(postSize) && d.overheadReceived >= ESTIMATE_RECEIVED
  {
    UpdateSizeStats(Zero, postSize, recSize).(numCommands := 1, numPuts := if StartsWith(cmd, "Put") then 1 else 0)
  }

  /** Counting a command: one more command, and one more put when its name starts with "Put". */
  function CountCommand(s: Statistics, cmd: string): (t: Statistics)
    ensures t.numCommands == s.numCommands + 1 && t.numRetries == s.numRetries
    ensures t.numPuts == s.numPuts + 1 <==> StartsWith(cmd, "Put")
    ensures t.numPuts == s.numPuts <==> !StartsWith(cmd, "Put")
    ensures t.bytesSent == s.bytesSent && t.bytesReceived == s.bytesReceived
    ensures t.overheadSent == s.overheadSent && t.overheadReceived == s.overheadReceived
  {
    s.(numCommands := s.numCommands + 1, numPuts := s.numPuts + if StartsWith(cmd, "Put") then 1 else 0)
  }

  /**
   * Recording a sent command (private.c lines 720-722): count it, then
   * update the sizes.
   */
  function RecordCommand(s: Statistics, cmd: string, postSize: int, recSize: int): (t: Statistics)
    ensures t.numCommands == s.numCommands + 1 && t.numRetries == s.numRetries
    ensures t.numPuts == s.numPuts + 1 <==> StartsWith(cmd, "Put")
    ensures t.numPuts == s.numPuts <==> !StartsWith(cmd, "Put")
    ensures t.bytesSent == s.bytesSent + postSize && t.bytesReceived == s.bytesReceived + recSize
  {
    UpdateSizeStats(CountCommand(s, cmd), postSize, recSize)
  }

  /**
   * Recording a command adds exactly that command's delta, so the order in
   * which commands are recorded does not matter.
   */
  lemma RecordCommandIsDelta(s: Statistics, cmd: string, postSize: int, recSize: int)
    ensures RecordCommand(s, cmd, postSize, recSize) == AddStatistics(s, CommandDelta(cmd, postSize, recSize))
    ensures RecordCommand(s, cmd, postSize, recSize).numRetries == s.numRetries
  {
  }

  lemma RecordCommandsCommute(s: Statistics, c1: string, p1: int, r1: int, c2: string, p2: int, r2: int)
    ensures RecordCommand(RecordCommand(s, c1, p1, r1), c2, p2, r2)
      == RecordCommand(RecordCommand(s, c2, p2, r2), c1, p1, r1)
  {
    RecordCommandIsDelta(s, c1, p1, r1);
    RecordCommandIsDelta(s, c2, p2, r2);
    RecordCommandIsDelta(RecordCommand(s, c1, p1, r1), c2, p2, r2);
    RecordCommandIsDelta(RecordCommand(s, c2, p2, r2), c1, p1, r1);
    AddStatisticsMonoid(s, CommandDelta(c1, p1, r1), CommandDelta(c2, p2, r2));
    AddStatisticsMonoid(s, CommandDelta(c2, p2, r2), CommandDelta(c1, p1, r1));
    AddStatisticsMonoid(CommandDelta(c1, p1, r1), CommandDelta(c2, p2, r2), Zero);
  }
}
