/**
 * Single calls (private.c sdb_execute, sdb_execute_rs, sdb_parse_result;
 * sdb.c SDB_COMMAND_EXECUTE, SDB_COMMAND_EXECUTE_RS and sdb_next). The
 * network is a script of attempts: each one supplies the clock reading
 * that stamps the request and what the exchange produced.
 */
module Single {
  import opened Wrappers
  import opened Errors
  import opened Text
  import opened Params
  import opened Xml
  import opened Responses
  import opened Parser
  import opened Stats
  import opened Signer
  import opened FormBody
  import opened Commands

  const CURLE_OK: int := 0

  /**
   * One HTTP exchange: curl's result code, the body received and the
   * document libxml reads from it (None when the body is not XML).
   */
  datatype Transfer = Transfer(curlCode: nat, body: string, doc: Option<Node>)

  /** One attempt: the timestamp the request carries and the exchange that follows. */
  datatype Attempt = Attempt(timestamp: string, transfer: Transfer)

  /**
   * How a call ends: with a status, the result set left in the caller's
   * pointer and the statistics; by a failed C assert; in undefined
   * behaviour; or, for the looping calls, by running out of scripted
   * attempts while the C code would still go on.
   */
  datatype Exec =
    | Finished(code: int, response: Option<Response>, stats: Statistics)
    | AssertFailed
    | UndefinedBehaviour
    | Stalled

  // ---------------------------------------------------------------------
  // The request

  /** The request of one execution, exported: the assembled set, signed and rendered as a form body. */
  function Request(cfg: Config, cmd: string, base: ParamSet, token: Option<string>, timestamp: string): (x: Exported)
    ensures x.code == OK <==> x.body.Some?
    ensures x.code != OK ==> x.code in {INVALID_SIGNATURE_VER, OPEN_SSL_FAILED, URL_ENCODE_FAILED}
    ensures x.code == OK ==> |x.params.pairs| > 0 && Entries(x.params.pairs)[|x.params.pairs| - 1].0 == "Signature"
  {
    var asm := Assemble(cmd, timestamp, base, token, SignatureVersionText(cfg), cfg.accessKey, base.id + 1);
    ExportSignatureLast(cfg.signatureVersion, asm.params, cfg.crypto, cfg.esc);
    Export(cfg.signatureVersion, asm.params, cfg.crypto, cfg.esc)
  }

  // ---------------------------------------------------------------------
  // Classifying what came back

  /** The verdict on a received body: a status and the result set left behind, or a failed assert in the parser. */
  datatype Classified = Classified(code: int, response: Option<Response>) | ClassifyAborted

  /**
   * The common tail of sdb_execute_rs and sdb_parse_result: an HTML body
   * is an internal service error and leaves the result set alone;
   * otherwise the page is parsed into a fresh or appended response. A
   * parse failure frees the response; a service error frees it unless it
   * is ServiceUnavailable, which keeps it for a retry.
   */
  function Interpret(prior: Option<Response>, body: string, doc: Option<Node>): (c: Classified)
    ensures StartsWith(body, "<html") ==> c == Classified(AWS_INTERNAL_ERROR_2, prior)
    ensures !StartsWith(body, "<html") && doc.None? ==> c == Classified(INVALID_XML_RESPONSE, None)
    ensures c.Classified? && c.code == OK ==> c.response.Some? && c.response.value.error == 0
    ensures c.Classified? && !StartsWith(body, "<html") ==>
      (c.response.Some? <==> c.code == OK || c.code == SERVICE_UNAVAILABLE)
      && (c.code != OK && c.response.Some? ==> c.response.value.error == AwsIndex(c.code))
      && (c.code == OK || 1 <= AwsIndex(c.code) <= AWS_NUM_ERRORS
          || c.code in {INVALID_XML_RESPONSE, INVALID_ERR_RESPONSE, INVALID_META_RESPONSE})
    ensures c.Classified? && c.response.Some? ==> CallOf(c.response) == CallOf(prior)
  {
    if StartsWith(body, "<html") then Classified(AWS_INTERNAL_ERROR_2, prior)
    else
      var base := if prior.None? then Init() else PrepareAppend(prior.value);
      SectionsKeepCall(base, if doc.Some? then doc.value.children else []);
      var p := Parse(base, doc);
      if p.Rejected? then Classified(p.code, None)
      else if p.Parsed? then
        if p.r.error != 0 then
          var code := AwsError(p.r.error);
          Classified(code, if code == SERVICE_UNAVAILABLE then Some(p.r) else None)
        else Classified(OK, Some(p.r))
      else ClassifyAborted
  }

  /** The statuses a page's verdict can carry (apart from the HTML case) are told apart. */
  lemma InterpretStatuses(prior: Option<Response>, body: string, doc: Option<Node>)
    requires !StartsWith(body, "<html")
    ensures var c := Interpret(prior, body, doc);
      c.Classified? && c.response.None? ==> c.code != OK && c.code != SERVICE_UNAVAILABLE
  {
  }

  /** The token a continuation sends: the head block's (as written) or the last one recorded (corrected). */
  function ContinueToken(build: Build, r: Response): (t: Option<string>)
    ensures build == Corrected && Continuable(r) && r.hasMore ==> t.Some?
  {
    if build == AsWritten then HeadToken(r) else ContinuationToken(r)
  }

  /**
   * sdb_execute_rs: send the next page's request (continuing from the
   * result set when it says more pages exist) and classify the answer.
   * Statistics count a command only once curl reports a transfer.
   */
  function ExecuteRs(build: Build, cfg: Config, stats: Statistics, cmd: string, base: ParamSet,
                     prior: Option<Response>, a: Attempt): (e: Exec)
    ensures prior.Some? && prior.value.hasMore && ContinueToken(build, prior.value).None? ==> e == AssertFailed
    ensures e.UndefinedBehaviour? ==> build == AsWritten
    ensures !e.Stalled?
    ensures e.Finished? && a.transfer.curlCode != CURLE_OK ==>
      e.response == prior && e.stats == stats
      && (e.code == CurlError(a.transfer.curlCode) || e.code in {INVALID_SIGNATURE_VER, OPEN_SSL_FAILED, URL_ENCODE_FAILED})
    ensures e.Finished? && e.code == OK ==> e.response.Some? && e.response.value.error == 0
    ensures e.Finished? ==> e.stats.numRetries == stats.numRetries
    ensures e.Finished? ==> e.stats.numCommands == stats.numCommands || e.stats.numCommands == stats.numCommands + 1
    ensures e.Finished? && e.stats.numCommands == stats.numCommands + 1 ==> a.transfer.curlCode == CURLE_OK
    ensures e.AssertFailed? && a.transfer.curlCode != CURLE_OK ==>
      prior.Some? && prior.value.hasMore && ContinueToken(build, prior.value).None?
    ensures KeepsCall(e, prior)
  {
    var token := if prior.Some? && prior.value.hasMore then ContinueToken(build, prior.value) else None;
    if prior.Some? && prior.value.hasMore && token.None? then AssertFailed
    else
      var x := Request(cfg, cmd, base, token, a.timestamp);
      if x.body.None? then
        if build == AsWritten then UndefinedBehaviour else Finished(x.code, prior, stats)
      else
        var t := a.transfer;
        if t.curlCode != CURLE_OK then Finished(CurlError(t.curlCode), prior, stats)
        else
          var stats1 := RecordCommand(stats, cmd, |x.body.value|, |t.body|);
          match Interpret(prior, t.body, t.doc)
          case Classified(code, r) => Finished(code, r, stats1)
          case ClassifyAborted => AssertFailed
  }

  /** sdb_execute: the same exchange with a result set that lives only inside the call. */
  function Execute(build: Build, cfg: Config, stats: Statistics, cmd: string, base: ParamSet, a: Attempt): (e: Exec)
    ensures e.Finished? ==> e.response.None? && e.stats.numRetries == stats.numRetries
    ensures e.Finished? ==> stats.numCommands <= e.stats.numCommands <= stats.numCommands + 1
    ensures e.UndefinedBehaviour? ==> build == AsWritten
    ensures !e.Stalled?
  {
    var x := Request(cfg, cmd, base, None, a.timestamp);
    if x.body.None? then
      if build == AsWritten then UndefinedBehaviour else Finished(x.code, None, stats)
    else
      var t := a.transfer;
      if t.curlCode != CURLE_OK then Finished(CurlError(t.curlCode), None, stats)
      else
        var stats1 := RecordCommand(stats, cmd, |x.body.value|, |t.body|);
        match Verdict(t.body, t.doc)
        case Classified(code, _) => Finished(code, None, stats1)
        case ClassifyAborted => AssertFailed
  }

  /** sdb_execute's checks of a received body, parsed into a response on its own stack. */
  function Verdict(body: string, doc: Option<Node>): (c: Classified)
    ensures c.Classified? ==> c.response.None?
  {
    if StartsWith(body, "<html") then Classified(AWS_INTERNAL_ERROR_2, None)
    else
      var p := Parse(Init(), doc);
      if p.Rejected? then Classified(p.code, None)
      else if p.Parsed? then
        if p.r.error != 0 then Classified(AwsError(p.r.error), None)
        else Classified(OK, None)
      else ClassifyAborted
  }

  function DropResponse(c: Classified): Classified
  {
    if c.Classified? then Classified(c.code, None) else c
  }

  /** sdb_execute's checks agree with the result-set path on a first page. */
  lemma VerdictIsFirstPage(body: string, doc: Option<Node>)
    ensures Verdict(body, doc) == DropResponse(Interpret(None, body, doc))
  {
  }

  /** The result set dropped from an outcome. */
  function WithoutResponse(e: Exec): Exec
  {
    if e.Finished? then Finished(e.code, None, e.stats) else e
  }

  /**
   * sdb_execute classifies exactly as sdb_execute_rs does for a first
   * page; it only throws the result set away.
   */
  lemma ExecuteIsFirstPage(build: Build, cfg: Config, stats: Statistics, cmd: string, base: ParamSet, a: Attempt)
    ensures Execute(build, cfg, stats, cmd, base, a) == WithoutResponse(ExecuteRs(build, cfg, stats, cmd, base, None, a))
  {
    VerdictIsFirstPage(a.transfer.body, a.transfer.doc);
  }

  /** sdb_parse_result: the multi-call counterpart, which counts sizes (the command was counted when it was registered). */
  function ParseResult(stats: Statistics, postSize: int, body: string, doc: Option<Node>, prior: Option<Response>): (r: (Classified, Statistics))
    ensures r.0 == Interpret(prior, body, doc)
    ensures r.1 == UpdateSizeStats(stats, postSize, |body|)
    ensures r.1.numCommands == stats.numCommands && r.1.numRetries == stats.numRetries
  {
    (Interpret(prior, body, doc), UpdateSizeStats(stats, postSize, |body|))
  }

  // ---------------------------------------------------------------------
  // The retry loops. Each is written over the execution it repeats, so
  // that one loop serves every command, as the C macros do.

  /** What one execution promises the loops: it ends, counts no retry and at most one command. */
  predicate Counts(e: Exec, stats: Statistics)
  {
    !e.Stalled? && (e.Finished? ==> e.stats.numRetries == stats.numRetries && stats.numCommands <= e.stats.numCommands <= stats.numCommands + 1)
  }

  lemma ExecuteCounts(build: Build, cfg: Config, cmd: string, base: ParamSet)
    ensures forall s, a :: Counts(Execute(build, cfg, s, cmd, base, a), s)
    ensures forall s, a :: Execute(build, cfg, s, cmd, base, a).Finished? ==> Execute(build, cfg, s, cmd, base, a).response.None?
  {
    forall s, a ensures Counts(Execute(build, cfg, s, cmd, base, a), s) {
      var e := Execute(build, cfg, s, cmd, base, a);
    }
  }

  lemma ExecuteRsCounts(build: Build, cfg: Config, cmd: string, base: ParamSet)
    ensures forall s, r, a :: Counts(ExecuteRs(build, cfg, s, cmd, base, r, a), s)
  {
    forall s, r, a ensures Counts(ExecuteRs(build, cfg, s, cmd, base, r, a), s) {
      var e := ExecuteRs(build, cfg, s, cmd, base, r, a);
    }
  }

  /** A result set that comes back records the call the prior one recorded (none for no prior). */
  predicate KeepsCall(e: Exec, prior: Option<Response>)
  {
    e.Finished? && e.response.Some? ==> CallOf(e.response) == CallOf(prior)
  }

  lemma ExecuteRsKeepsCall(build: Build, cfg: Config, cmd: string, base: ParamSet)
    ensures forall s, r, a :: KeepsCall(ExecuteRs(build, cfg, s, cmd, base, r, a), r)
  {
    forall s, r, a ensures KeepsCall(ExecuteRs(build, cfg, s, cmd, base, r, a), r) {
      var e := ExecuteRs(build, cfg, s, cmd, base, r, a);
    }
  }

  /**
   * SDB_COMMAND_EXECUTE: run once, then again while the service is
   * unavailable and retries remain, counting each retry.
   */
  function RetryLoop(run: (Statistics, Attempt) -> Exec, stats: Statistics, retries: int, attempts: seq<Attempt>): (e: Exec)
    requires |attempts| >= 1
    ensures retries <= 0 ==> e == run(stats, attempts[0])
    ensures |attempts| > Budget(retries) && (forall s, a :: !run(s, a).Stalled?) ==> !e.Stalled?
    decreases |attempts|
  {
    var first := run(stats, attempts[0]);
    if first.Finished? && first.code == SERVICE_UNAVAILABLE && retries > 0 then
      if |attempts| == 1 then Stalled
      else RetryLoop(run, first.stats.(numRetries := first.stats.numRetries + 1), retries - 1, attempts[1..])
    else first
  }

  function Budget(retries: int): nat
  {
    if retries < 0 then 0 else retries
  }

  /**
   * The retry budget of SDB_COMMAND_EXECUTE: at most retries + 1
   * attempts, each retry counted once and each transfer counted at most
   * once; a final ServiceUnavailable means the budget is spent; any other
   * first result ends the loop at once.
   */
  lemma {:induction false} RetryLoopBudget(run: (Statistics, Attempt) -> Exec, stats: Statistics, retries: int, attempts: seq<Attempt>)
    requires |attempts| >= 1
    requires forall s, a :: Counts(run(s, a), s)
    ensures var e := RetryLoop(run, stats, retries, attempts);
      (e.Finished? ==>
        stats.numRetries <= e.stats.numRetries <= stats.numRetries + Budget(retries)
        && e.stats.numCommands <= stats.numCommands + (e.stats.numRetries - stats.numRetries) + 1
        && (e.code == SERVICE_UNAVAILABLE ==> e.stats.numRetries == stats.numRetries + Budget(retries)))
      && (|attempts| > Budget(retries) ==> !e.Stalled?)
    ensures var first := run(stats, attempts[0]);
      !(first.Finished? && first.code == SERVICE_UNAVAILABLE) ==> RetryLoop(run, stats, retries, attempts) == first
    decreases |attempts|
  {
    var first := run(stats, attempts[0]);
    assert Counts(first, stats);
    if first.Finished? && first.code == SERVICE_UNAVAILABLE && retries > 0 && |attempts| > 1 {
      RetryLoopBudget(run, first.stats.(numRetries := first.stats.numRetries + 1), retries - 1, attempts[1..]);
    }
  }

  /** A command executed with SDB_COMMAND_EXECUTE: its parameters prepared, then the retry loop. */
  function RunCommand(build: Build, cfg: Config, stats: Statistics, c: Command, id: nat, attempts: seq<Attempt>): (e: Exec)
    requires |attempts| >= 1
    ensures e.Finished? ==> e.response.None? && stats.numRetries <= e.stats.numRetries <= stats.numRetries + Budget(cfg.retryCount)
    ensures |attempts| > Budget(cfg.retryCount) ==> !e.Stalled?
  {
    var base := Prepare(c, id).params;
    var run := (s, a) => Execute(build, cfg, s, Action(c), base, a);
    ExecuteCounts(build, cfg, Action(c), base);
    RetryLoopBudget(run, stats, cfg.retryCount, attempts);
    RetryLoopNoResponse(run, stats, cfg.retryCount, attempts);
    RetryLoop(run, stats, cfg.retryCount, attempts)
  }

  lemma {:induction false} RetryLoopNoResponse(run: (Statistics, Attempt) -> Exec, stats: Statistics, retries: int, attempts: seq<Attempt>)
    requires |attempts| >= 1
    requires forall s, a :: run(s, a).Finished? ==> run(s, a).response.None?
    ensures RetryLoop(run, stats, retries, attempts).Finished? ==> RetryLoop(run, stats, retries, attempts).response.None?
    decreases |attempts|
  {
    var first := run(stats, attempts[0]);
    if first.Finished? && first.code == SERVICE_UNAVAILABLE && retries > 0 && |attempts| > 1 {
      RetryLoopNoResponse(run, first.stats.(numRetries := first.stats.numRetries + 1), retries - 1, attempts[1..]);
    }
  }

  /**
   * SDB_COMMAND_EXECUTE_RS and the loop of sdb_next: fetch pages while
   * the result set is missing or (more pages exist and continuation is
   * automatic), sharing one retry budget across all pages. again forces
   * the body to run (the first pass of a do-while, and, corrected, the
   * retry of a page that met ServiceUnavailable). On an exhausted budget
   * the result set is freed; any other failure ends the loop at once.
   */
  function RsLoop(run: (Statistics, Option<Response>, Attempt) -> Exec, corrected: bool, autoNext: bool,
                  stats: Statistics, resp: Option<Response>, code: int, retries: int, again: bool, attempts: seq<Attempt>): (e: Exec)
    ensures e.Finished? && e.code == OK ==> e.response.Some? && !(e.response.value.hasMore && autoNext)
    decreases |attempts|
  {
    if !(resp.None? || again || (resp.value.hasMore && autoNext)) then Finished(code, resp, stats)
    else if |attempts| == 0 then Stalled
    else
      match run(stats, resp, attempts[0])
      case Finished(c, r, s) =>
        if c == OK then RsLoop(run, corrected, autoNext, s, r, c, retries, false, attempts[1..])
        else if c == SERVICE_UNAVAILABLE then
          if retries <= 0 then Finished(c, None, s)
          else RsLoop(run, corrected, autoNext, s.(numRetries := s.numRetries + 1), r, c, retries - 1, corrected, attempts[1..])
        else Finished(c, r, s)
      case other => other
  }

  /** The page fetcher of a build: sdb_execute_rs for one command. */
  function PageRun(build: Build, cfg: Config, cmd: string, base: ParamSet): (p: (Statistics, Option<Response>, Attempt) -> Exec)
    ensures forall s, r, a :: Counts(p(s, r, a), s) && KeepsCall(p(s, r, a), r)
  {
    ExecuteRsCounts(build, cfg, cmd, base);
    ExecuteRsKeepsCall(build, cfg, cmd, base);
    (s, r, a) => ExecuteRs(build, cfg, s, cmd, base, r, a)
  }

  /**
   * A command executed with SDB_COMMAND_EXECUTE_RS. As written the
   * result set records no call, so it cannot be continued by hand;
   * corrected, one that says more pages exist records the command and
   * its parameters, as the multi-call path does.
   */
  function RunResultCommand(build: Build, cfg: Config, stats: Statistics, c: Command, id: nat, attempts: seq<Attempt>): (e: Exec)
    ensures e.Finished? && e.code == OK ==> e.response.Some? && !(e.response.value.hasMore && cfg.autoNext)
    ensures e.Finished? ==> stats.numRetries <= e.stats.numRetries <= stats.numRetries + Budget(cfg.retryCount)
    ensures e.Finished? && e.code == SERVICE_UNAVAILABLE && build == Corrected ==> e.response.None?
    ensures build == AsWritten ==> KeepsCall(e, None)
    ensures build == Corrected && e.Finished? && e.response.Some? && e.response.value.hasMore ==>
      CallOf(e.response) == (Some(Prepare(c, id).params), Some(Action(c)))
  {
    var base := Prepare(c, id).params;
    ExecuteRsCounts(build, cfg, Action(c), base);
    ExecuteRsKeepsCall(build, cfg, Action(c), base);
    RsLoopContract(PageRun(build, cfg, Action(c), base), build == Corrected, cfg.autoNext, stats, None, OK, cfg.retryCount, false, attempts);
    RsLoopRecordsNoCall(PageRun(build, cfg, Action(c), base), build == Corrected, cfg.autoNext, stats, None, OK, cfg.retryCount, false, attempts);
    var e := RsLoop(PageRun(build, cfg, Action(c), base), build == Corrected, cfg.autoNext, stats, None, OK, cfg.retryCount, false, attempts);
    if build == Corrected && e.Finished? && e.response.Some? && e.response.value.hasMore then
      var r := e.response.value;
      Finished(e.code, Some(r.(head := r.head.(params := Some(base), command := Some(Action(c))))), e.stats)
    else e
  }

  /**
   * The paging loop, started from no result set with a fetcher that
   * keeps the call a result set records, ends with a result set that
   * records no call.
   */
  lemma {:induction false} RsLoopRecordsNoCall(run: (Statistics, Option<Response>, Attempt) -> Exec, corrected: bool, autoNext: bool,
                                               stats: Statistics, resp: Option<Response>, code: int, retries: int, again: bool, attempts: seq<Attempt>)
    requires forall s, r, a :: KeepsCall(run(s, r, a), r)
    requires CallOf(resp) == CallOf(None)
    ensures KeepsCall(RsLoop(run, corrected, autoNext, stats, resp, code, retries, again, attempts), None)
    decreases |attempts|
  {
    if (resp.None? || again || (resp.value.hasMore && autoNext)) && |attempts| > 0 {
      var first := run(stats, resp, attempts[0]);
      assert KeepsCall(first, resp);
      match first
      case Finished(c, r, s) =>
        if c == OK {
          RsLoopRecordsNoCall(run, corrected, autoNext, s, r, c, retries, false, attempts[1..]);
        } else if c == SERVICE_UNAVAILABLE && retries > 0 {
          RsLoopRecordsNoCall(run, corrected, autoNext, s.(numRetries := s.numRetries + 1), r, c, retries - 1, corrected, attempts[1..]);
        }
      case _ =>
    }
  }

  /**
   * What the paging loop promises: success leaves a result set with no
   * page left to fetch automatically; the retry budget is shared by all
   * pages; and, corrected, a final ServiceUnavailable means the budget is
   * spent and the result set freed.
   */
  lemma {:induction false} RsLoopContract(run: (Statistics, Option<Response>, Attempt) -> Exec, corrected: bool, autoNext: bool,
                                          stats: Statistics, resp: Option<Response>, code: int, retries: int, again: bool, attempts: seq<Attempt>)
    requires forall s, r, a :: Counts(run(s, r, a), s)
    requires code == SERVICE_UNAVAILABLE && corrected ==> again
    ensures var e := RsLoop(run, corrected, autoNext, stats, resp, code, retries, again, attempts);
      (e.Finished? && e.code == OK ==> e.response.Some? && !(e.response.value.hasMore && autoNext))
      && (e.Finished? ==> stats.numRetries <= e.stats.numRetries <= stats.numRetries + Budget(retries))
      && (e.Finished? && e.code == SERVICE_UNAVAILABLE && corrected ==>
            e.response.None? && e.stats.numRetries == stats.numRetries + Budget(retries))
    decreases |attempts|
  {
    if (resp.None? || again || (resp.value.hasMore && autoNext)) && |attempts| > 0 {
      var first := run(stats, resp, attempts[0]);
      assert Counts(first, stats);
      match first
      case Finished(c, r, s) =>
        if c == OK {
          RsLoopContract(run, corrected, autoNext, s, r, c, retries, false, attempts[1..]);
        } else if c == SERVICE_UNAVAILABLE && retries > 0 {
          RsLoopContract(run, corrected, autoNext, s.(numRetries := s.numRetries + 1), r, c, retries - 1, corrected, attempts[1..]);
        }
      case _ =>
    }
  }

  // ---------------------------------------------------------------------
  // sdb_next

  /**
   * sdb_next: fetch the next page of a result set, or every remaining
   * page when continuation is automatic. Without more pages it succeeds
   * at once, leaving the set (appending) or an empty one. Otherwise the
   * set is replaced, unless appending, by a fresh one that keeps only the
   * token, the command and a copy (id) of the parameters; copying a
   * missing token or command reads through NULL. The pages are fetched
   * with the shared retry budget, at least once.
   */
  function Next(build: Build, cfg: Config, stats: Statistics, resp: Response, append: bool, id: nat, attempts: seq<Attempt>): (e: Exec)
    ensures !resp.hasMore ==> e == Finished(OK, Some(if append then resp else Init()), stats)
    ensures resp.hasMore && !append && resp.head.command.None? ==> e == UndefinedBehaviour
    ensures resp.hasMore && append && resp.head.command.None? ==> e == AssertFailed
    ensures e.Finished? && e.code == OK ==> e.response.Some? && !(e.response.value.hasMore && cfg.autoNext)
    ensures e.Finished? ==> stats.numRetries <= e.stats.numRetries <= stats.numRetries + Budget(cfg.retryCount)
    ensures e.Finished? && e.code == SERVICE_UNAVAILABLE && build == Corrected ==> e.response.None?
  {
    if !resp.hasMore then Finished(OK, Some(if append then resp else Init()), stats)
    else
      var token := ContinueToken(build, resp);
      if !append && (token.None? || resp.head.command.None?) then UndefinedBehaviour
      else
        var start :=
          if append then resp
          else Init().(hasMore := true, head := Page(token, DeepCopy(resp.head.params, id), resp.head.command));
        match (start.head.params, start.head.command)
        case (Some(base), Some(cmd)) =>
          ExecuteRsCounts(build, cfg, cmd, base);
          RsLoopContract(PageRun(build, cfg, cmd, base), build == Corrected, cfg.autoNext, stats, Some(start), OK, cfg.retryCount, true, attempts);
          RsLoop(PageRun(build, cfg, cmd, base), build == Corrected, cfg.autoNext, stats, Some(start), OK, cfg.retryCount, true, attempts)
        case _ => AssertFailed
  }

  /**
   * A result set that records its token, command and parameters is
   * continued by sdb_next: neither the NULL reads nor the asserts are
   * reached, and the first request carries the token.
   */
  lemma NextContinues(build: Build, cfg: Config, stats: Statistics, resp: Response, append: bool, id: nat, a: Attempt, rest: seq<Attempt>)
    requires resp.hasMore && resp.head.nextToken.Some?
    requires resp.head.command.Some? && resp.head.params.Some?
    ensures var e := Next(build, cfg, stats, resp, append, id, [a] + rest);
      var start := if append then resp else Init().(hasMore := true, head := Page(resp.head.nextToken, DeepCopy(resp.head.params, id), resp.head.command));
      var first := ExecuteRs(build, cfg, stats, resp.head.command.value, start.head.params.value, Some(start), a);
      e == RsLoop(PageRun(build, cfg, resp.head.command.value, start.head.params.value), build == Corrected, cfg.autoNext,
                  stats, Some(start), OK, cfg.retryCount, true, [a] + rest)
      && (first.AssertFailed? ==> a.transfer.curlCode == CURLE_OK)
  {
    var start := if append then resp else Init().(hasMore := true, head := Page(resp.head.nextToken, DeepCopy(resp.head.params, id), resp.head.command));
    assert ContinueToken(build, resp) == resp.head.nextToken;
    assert ContinueToken(build, start) == resp.head.nextToken;
  }

  // ---------------------------------------------------------------------
  // Findings in the single-call paths

  /**
   * Finding: a result set fetched by one SDB_COMMAND_EXECUTE_RS call
   * records neither its command nor its parameters, so continuing it by
   * hand with sdb_next measures a NULL command (replacing) or fails the
   * assertion on the parameters (appending), whatever follows.
   */
  lemma SingleCallNextFails(cfg: Config, stats: Statistics, c: Command, id: nat, attempts: seq<Attempt>,
                            build: Build, later: Statistics, append: bool, copy: nat, more: seq<Attempt>)
    requires var e := RunResultCommand(AsWritten, cfg, stats, c, id, attempts);
      e.Finished? && e.response.Some? && e.response.value.hasMore
    ensures var r := RunResultCommand(AsWritten, cfg, stats, c, id, attempts).response.value;
      Next(build, cfg, later, r, append, copy, more) == (if append then AssertFailed else UndefinedBehaviour)
  {
  }

  /**
   * Corrected, the result set of one SDB_COMMAND_EXECUTE_RS call that
   * says more pages exist is continued by sdb_next: the next pages are
   * requested with the call's own command and parameters (a copy when
   * replacing), starting from the recorded token.
   */
  lemma SingleCallNextContinues(cfg: Config, stats: Statistics, c: Command, id: nat, attempts: seq<Attempt>,
                                later: Statistics, append: bool, copy: nat, a: Attempt, rest: seq<Attempt>)
    requires var e := RunResultCommand(Corrected, cfg, stats, c, id, attempts);
      e.Finished? && e.response.Some? && e.response.value.hasMore && e.response.value.head.nextToken.Some?
    ensures var r := RunResultCommand(Corrected, cfg, stats, c, id, attempts).response.value;
      var params := if append then Prepare(c, id).params else DeepCopy(Some(Prepare(c, id).params), copy).value;
      var start := if append then r else Init().(hasMore := true, head := Page(r.head.nextToken, Some(params), Some(Action(c))));
      Next(Corrected, cfg, later, r, append, copy, [a] + rest)
        == RsLoop(PageRun(Corrected, cfg, Action(c), params), true, cfg.autoNext, later, Some(start), OK, cfg.retryCount, true, [a] + rest)
  {
    var r := RunResultCommand(Corrected, cfg, stats, c, id, attempts).response.value;
    NextContinues(Corrected, cfg, later, r, append, copy, a, rest);
  }

  /** A document whose only section reports ServiceUnavailable. */
  const UnavailableDoc: Node := Element("Response", [Element("Errors", [Element("Error", [CodeNode("ServiceUnavailable")])])])

  /** The index of ServiceUnavailable in the error-name table. */
  const UNAVAILABLE_INDEX: int := 35

  lemma ParseUnavailable(r: Response)
    requires r.error == 0
    ensures Parse(r, Some(UnavailableDoc)) == Parsed(r.(numErrors := r.numErrors + 1, error := UNAVAILABLE_INDEX))
  {
    SingleErrorCode(r, "ServiceUnavailable");
    CodeIndexExamples();
    var errs := Element("Errors", [Element("Error", [CodeNode("ServiceUnavailable")])]);
    var r1 := r.(numErrors := r.numErrors + 1, error := UNAVAILABLE_INDEX);
    assert Section(r, errs) == Parsed(r1);
    assert Sections(r1, []) == Parsed(r1);
  }

  /** The response a page reporting ServiceUnavailable leaves: kept, with the error recorded. */
  function UnavailablePage(prior: Option<Response>): Response
  {
    var base := if prior.None? then Init() else PrepareAppend(prior.value);
    base.(numErrors := base.numErrors + 1, error := UNAVAILABLE_INDEX)
  }

  lemma InterpretUnavailable(prior: Option<Response>, body: string)
    requires !StartsWith(body, "<html")
    ensures Interpret(prior, body, Some(UnavailableDoc)) == Classified(SERVICE_UNAVAILABLE, Some(UnavailablePage(prior)))
  {
    ParseUnavailable(if prior.None? then Init() else PrepareAppend(prior.value));
  }

  /**
   * Finding: after a page that met ServiceUnavailable is appended to a
   * result set with more pages, the set still says more pages exist but
   * its head block holds no token. Continuing it as written fails the
   * assert on the token; corrected, the last recorded token is sent.
   */
  lemma UnavailableAppendLosesToken(cfg: Config, stats: Statistics, cmd: string, base: ParamSet, prior: Response, body: string, a: Attempt)
    requires prior.hasMore && prior.head.nextToken.Some?
    requires !StartsWith(body, "<html")
    ensures var r := UnavailablePage(Some(prior));
      r.hasMore && HeadToken(r).None?
      && ExecuteRs(AsWritten, cfg, stats, cmd, base, Some(r), a) == AssertFailed
      && ContinueToken(Corrected, r) == prior.head.nextToken
      && (a.transfer.curlCode != CURLE_OK ==> !ExecuteRs(Corrected, cfg, stats, cmd, base, Some(r), a).AssertFailed?)
  {
    PrepareAppendKeepsToken(prior);
    var r := UnavailablePage(Some(prior));
    assert Pages(r) == Pages(PrepareAppend(prior));
    assert ContinueToken(Corrected, r) == prior.head.nextToken;
    MissingTokenFails(AsWritten, cfg, stats, cmd, base, r, a);
    if a.transfer.curlCode != CURLE_OK {
      FailedTransferNoAssert(Corrected, cfg, stats, cmd, base, Some(r), a);
    }
  }

  /** Continuing a result set that says more pages exist but has no token to send fails the assert. */
  lemma MissingTokenFails(build: Build, cfg: Config, stats: Statistics, cmd: string, base: ParamSet, r: Response, a: Attempt)
    requires r.hasMore && ContinueToken(build, r).None?
    ensures ExecuteRs(build, cfg, stats, cmd, base, Some(r), a) == AssertFailed
  {
  }

  /**
   * A transfer that curl reports as failed never reaches the parser, so
   * the call can only fail an assert when the token is missing.
   */
  lemma FailedTransferNoAssert(build: Build, cfg: Config, stats: Statistics, cmd: string, base: ParamSet,
                               prior: Option<Response>, a: Attempt)
    requires a.transfer.curlCode != CURLE_OK
    ensures ExecuteRs(build, cfg, stats, cmd, base, prior, a).AssertFailed?
      <==> prior.Some? && prior.value.hasMore && ContinueToken(build, prior.value).None?
  {
  }

  /**
   * Finding: SDB_COMMAND_EXECUTE_RS does not retry a first page that met
   * ServiceUnavailable. The kept result set has no more pages, so the loop
   * ends after one attempt with the error, a result set and one retry
   * counted, whatever budget is left. Corrected, the call never ends in
   * ServiceUnavailable with a result set.
   */
  lemma FirstPageUnavailable(cfg: Config, stats: Statistics, c: Command, id: nat, a: Attempt, rest: seq<Attempt>)
    requires cfg.retryCount >= 1
    requires Request(cfg, Action(c), Prepare(c, id).params, None, a.timestamp).body.Some?
    requires a.transfer.curlCode == CURLE_OK && !StartsWith(a.transfer.body, "<html") && a.transfer.doc == Some(UnavailableDoc)
    ensures var e := RunResultCommand(AsWritten, cfg, stats, c, id, [a] + rest);
      e.Finished? && e.code == SERVICE_UNAVAILABLE && e.response == Some(UnavailablePage(None))
      && e.stats.numRetries == stats.numRetries + 1
    ensures var e := RunResultCommand(Corrected, cfg, stats, c, id, [a] + rest);
      !(e.Finished? && e.code == SERVICE_UNAVAILABLE && e.response.Some?)
  {
    var base := Prepare(c, id).params;
    var e := RunResultCommand(AsWritten, cfg, stats, c, id, [a] + rest);
    assert e == RsLoop(PageRun(AsWritten, cfg, Action(c), base), false, cfg.autoNext, stats, None, OK, cfg.retryCount, false, [a] + rest);
    var run := PageRun(AsWritten, cfg, Action(c), base);
    var first := FirstAttemptUnavailable(AsWritten, cfg, stats, Action(c), base, a);
    RsLoopStopsAfterFirstPage(run, cfg.autoNext, stats, cfg.retryCount, a, rest, first);
  }

  /** A first page that meets ServiceUnavailable is kept with the error recorded. */
  lemma FirstAttemptUnavailable(build: Build, cfg: Config, stats: Statistics, cmd: string, base: ParamSet, a: Attempt) returns (s: Statistics)
    requires Request(cfg, cmd, base, None, a.timestamp).body.Some?
    requires a.transfer.curlCode == CURLE_OK && !StartsWith(a.transfer.body, "<html") && a.transfer.doc == Some(UnavailableDoc)
    ensures ExecuteRs(build, cfg, stats, cmd, base, None, a) == Finished(SERVICE_UNAVAILABLE, Some(UnavailablePage(None)), s)
    ensures s.numRetries == stats.numRetries
  {
    InterpretUnavailable(None, a.transfer.body);
    s := ExecuteRs(build, cfg, stats, cmd, base, None, a).stats;
  }

  /**
   * The loop as written, from no result set: a first page that meets
   * ServiceUnavailable and says no more pages exist ends the loop with
   * one retry counted.
   */
  lemma RsLoopStopsAfterFirstPage(run: (Statistics, Option<Response>, Attempt) -> Exec, autoNext: bool,
                                  stats: Statistics, retries: int, a: Attempt, rest: seq<Attempt>, s: Statistics)
    requires retries >= 1
    requires run(stats, None, a) == Finished(SERVICE_UNAVAILABLE, Some(UnavailablePage(None)), s)
    ensures RsLoop(run, false, autoNext, stats, None, OK, retries, false, [a] + rest)
      == Finished(SERVICE_UNAVAILABLE, Some(UnavailablePage(None)), s.(numRetries := s.numRetries + 1))
  {
    assert ([a] + rest)[0] == a;
    assert !UnavailablePage(None).hasMore;
  }

  /**
   * Finding: when the request cannot be exported the post body is NULL,
   * and the call goes on to measure it. Corrected, the export's status is
   * returned. Under signature version 0, the one the library sets, an
   * HMAC whose base64 text comes back empty is such a case: signing
   * fails with OPEN_SSL_FAILED.
   */
  lemma ExportFailureUndefined(cfg: Config, stats: Statistics, cmd: string, base: ParamSet, a: Attempt)
    requires cfg.signatureVersion == 0
    requires cfg.crypto.encode(cfg.crypto.mac(cmd + a.timestamp)) == ""
    ensures Execute(AsWritten, cfg, stats, cmd, base, a) == UndefinedBehaviour
    ensures Execute(Corrected, cfg, stats, cmd, base, a) == Finished(OPEN_SSL_FAILED, None, stats)
    ensures ExecuteRs(AsWritten, cfg, stats, cmd, base, None, a) == UndefinedBehaviour
  {
    var asm := Assemble(cmd, a.timestamp, base, None, SignatureVersionText(cfg), cfg.accessKey, base.id + 1);
    assert Entries(asm.params.pairs)[0] == ("Action", cmd) && Entries(asm.params.pairs)[1] == ("Timestamp", a.timestamp);
    assert Canonical0(asm.params.pairs) == cmd + a.timestamp;
    assert Request(cfg, cmd, base, None, a.timestamp).code == OPEN_SSL_FAILED;
  }
}
