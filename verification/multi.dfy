/**
 * Deferred calls run together (private.c sdb_execute_multi; sdb.c
 * sdb_multi_run and sdb_multi_count_errors). Registering a call signs and
 * renders its request and parks it on a pooled handle; running the batch
 * waits for every transfer, reads curl's completion messages, parses each
 * answer into the result slot of its call, and re-registers the calls
 * that must be retried or continued, round after round. What the network
 * does is a script: each registration meets a clock reading and curl's
 * verdict on adding the handle; each round meets the status of the wait
 * and the queue of completion messages.
 */
module Multi {
  import opened Wrappers
  import opened Errors
  import opened Text
  import opened Params
  import opened Xml
  import opened Responses
  import opened Parser
  import opened Stats
  import opened Commands
  import opened Single
  import Pool

  const CURLM_OK: int := 0

  /** The command kept with a deferred call fits a 32-byte buffer: 31 characters and a NUL. */
  const COMMAND_CHARS: nat := 31

  /** strncpy of a command into the buffer of a deferred call. */
  function Truncate(cmd: string): (t: string)
    ensures |t| <= |cmd| && |t| <= COMMAND_CHARS && t == cmd[..|t|]
    ensures |cmd| <= COMMAND_CHARS ==> t == cmd
    ensures |cmd| > COMMAND_CHARS ==> |t| == COMMAND_CHARS
  {
    if |cmd| <= COMMAND_CHARS then cmd else cmd[..COMMAND_CHARS]
  }

  /** sdb_params_deep_copy into a set owned by a fresh owner. */
  function CopyOf(p: Option<ParamSet>): (r: Option<ParamSet>)
    ensures p.None? <==> r.None?
    ensures p.Some? ==> r.value.id != p.value.id && r.value.capacity == p.value.capacity
    ensures p.Some? && p.value.Valid() ==> Entries(r.value.pairs) == Entries(p.value.pairs)
  {
    match p
    case None => None
    case Some(ps) =>
      if ps.Valid() then DeepCopyFaithful(ps, ps.id + 1); DeepCopy(p, ps.id + 1)
      else DeepCopy(p, ps.id + 1)
  }

  // ---------------------------------------------------------------------
  // Registering a call

  /** What one registration meets: the clock reading, and curl_multi_add_handle's status. */
  datatype Registration = Registration(timestamp: string, added: int)

  /** The multi-call side of a handle: the pool of deferred calls and the statistics. */
  datatype State = State(pool: Pool.Pool, stats: Statistics)

  /**
   * How a registration ends: deferred under a curl handle; refused
   * (SDB_MULTI_ERROR); or, as written, measuring a post body that was
   * never produced.
   */
  datatype Deferral = Deferred(handle: nat, st: State) | Refused(st: State) | RegisterUndefined

  /** Parking an accepted request on a handle from the pool, counted as a command. */
  function Park(st: State, cmd: string, base: ParamSet, target: Option<nat>, origin: Option<nat>, post: string): (d: Deferral)
    requires st.pool.Valid()
    ensures d.Deferred?
    ensures |d.st.pool.chain| == |st.pool.chain| + 1
    ensures var m := d.st.pool.chain[0];
      d.st.pool.Valid() && d.st.pool.chain[1..] == st.pool.chain
      && m.handle == d.handle && d.handle !in Pool.Handles(st.pool.chain)
      && m.command == Truncate(cmd) && m.params == CopyOf(Some(base))
      && m.target == target && m.origin == origin && m.post == Some(post) && m.postSize == |post|
      && d.st.stats == CountCommand(st.stats, cmd)
  {
    var (p1, m) := Pool.Alloc(st.pool);
    var slot := m.(post := Some(post), command := Truncate(cmd), params := CopyOf(Some(base)),
                   target := target, origin := origin, postSize := |post|);
    Deferred(m.handle, State(Pool.Fill(p1, slot), CountCommand(st.stats, cmd)))
  }

  /**
   * sdb_execute_multi: assemble, sign and render the request, then park
   * it on a handle from the pool together with what a retry needs: the
   * command (truncated), a copy of the parameters, the result slot it
   * fills and the handle first issued for it. A handle curl refuses is
   * freed again (as written without unlinking it, corrected unlinked
   * first). Only an accepted call is counted.
   */
  function ExecuteMulti(build: Build, cfg: Config, st: State, cmd: string, base: ParamSet, token: Option<string>,
                        target: Option<nat>, origin: Option<nat>, reg: Registration): (d: Deferral)
    requires st.pool.Valid()
    ensures d.Deferred? <==> Request(cfg, cmd, base, token, reg.timestamp).body.Some? && reg.added == CURLM_OK
    ensures d.Deferred? ==> |d.st.pool.chain| == |st.pool.chain| + 1
    ensures d.Deferred? ==>
      var m := d.st.pool.chain[0];
      d.st.pool.Valid() && d.st.pool.chain[1..] == st.pool.chain
      && m.handle == d.handle && d.handle !in Pool.Handles(st.pool.chain)
      && m.command == Truncate(cmd) && m.params == CopyOf(Some(base))
      && m.target == target && m.origin == origin
      && m.post == Request(cfg, cmd, base, token, reg.timestamp).body && m.postSize == |m.post.value|
      && d.st.stats == CountCommand(st.stats, cmd)
    ensures d.Refused? ==> d.st.stats == st.stats
    ensures d.Refused? && build == Corrected ==> d.st.pool.Valid() && d.st.pool.chain == st.pool.chain
    ensures d.Refused? && build == AsWritten && reg.added != CURLM_OK ==> d.st.pool == Pool.AbandonAsWritten(st.pool)
    ensures d.RegisterUndefined? ==> build == AsWritten
  {
    var x := Request(cfg, cmd, base, token, reg.timestamp);
    if x.body.None? then
      if build == AsWritten then RegisterUndefined else Refused(st)
    else if reg.added != CURLM_OK then
      Refused(st.(pool := if build == AsWritten then Pool.AbandonAsWritten(st.pool) else Pool.Abandon(st.pool)))
    else Park(st, cmd, base, target, origin, x.body.value)
  }

  /** The commands that have a deferred form: every command except the batch puts. */
  predicate Deferrable(c: Command)
  {
    !c.PutBatch? && !c.ReplaceBatch?
  }

  /**
   * The sdb_multi_* command functions: the same parameters as the
   * single call, registered without a token or a result slot.
   */
  function RegisterCommand(build: Build, cfg: Config, st: State, c: Command, id: nat, reg: Registration): (d: Deferral)
    requires st.pool.Valid() && Deferrable(c)
    ensures d.Deferred? ==> |d.st.pool.chain| > 0
    ensures d.Deferred? ==>
      d.st.pool.chain[0].params.Some? && Entries(d.st.pool.chain[0].params.value.pairs) == Fields(c)
      && d.st.pool.chain[0].target.None? && d.st.stats.numCommands == st.stats.numCommands + 1
  {
    ExecuteMulti(build, cfg, st, Action(c), Prepare(c, id).params, None, None, None, reg)
  }

  // ---------------------------------------------------------------------
  // Handling one completion message

  /** A scheduled retry (sdb_retry_data): command, parameters, result slot and first-issued handle. */
  datatype RetryRec = RetryRec(command: string, params: Option<ParamSet>, target: nat, origin: nat)

  /**
   * What a round has gathered so far: the result slots, the retries
   * scheduled (newest first), whether some result asks for its next page,
   * the statistics, and the ServiceUnavailable answers not yet counted.
   */
  datatype Progress = Progress(results: seq<Option<Response>>, retries: seq<RetryRec>, hasMore: bool,
                               stats: Statistics, unavailable: nat)

  /**
   * The block that keeps a result set continuable by hand when pages are
   * not fetched automatically: a result set with more pages and no
   * parameters gets the call's command and a copy of its parameters, or,
   * as written, when it has older blocks, takes them over from the block
   * before it and asserts that they were there (None: the assert fails).
   * Corrected, it always copies the call's own.
   */
  function SaveParams(build: Build, autoNext: bool, s: Response, m: Pool.Slot): (r: Option<Response>)
    ensures r.Some? ==>
      r.value.hasMore == s.hasMore && r.value.payload == s.payload
      && r.value.returnCode == s.returnCode && r.value.multiHandle == s.multiHandle && r.value.error == s.error
      && r.value.head.nextToken == s.head.nextToken
    ensures !(s.hasMore && !autoNext && s.head.params.None?) ==> r == Some(s)
    ensures build == Corrected ==> r.Some?
    ensures r.Some? && s.hasMore && !autoNext && m.params.Some? ==> r.value.head.params.Some?
  {
    if s.hasMore && !autoNext && s.head.params.None? then
      if s.older == [] || build == Corrected then
        Some(s.(head := s.head.(params := CopyOf(m.params), command := Some(m.command))))
      else
        var o := s.older[0];
        if o.params.None? || o.command.None? then None
        else Some(s.(head := s.head.(params := o.params, command := o.command),
                     older := [o.(params := None, command := None)] + s.older[1..]))
    else Some(s)
  }

  /** How handling a message ends: with the updated progress, or in a failed assert. */
  datatype Handled = Handled(p: Progress, unavailable: bool) | HandleAborted

  /**
   * One successful transfer, parsed into its result slot. A parse that
   * leaves no result set (other than on ServiceUnavailable) leaves a
   * zeroed one whose error is the status. The slot records the status
   * and the handle first issued for the call. A retry is scheduled when
   * the slot asks for its next page and pages are fetched automatically,
   * or when the service was unavailable.
   */
  function Handle(build: Build, cfg: Config, pr: Progress, target: nat, origin: nat, m: Pool.Slot, t: Transfer): (h: Handled)
    requires target < |pr.results|
    ensures h.Handled? ==> |h.p.results| == |pr.results|
    ensures h.Handled? ==>
      var s := h.p.results[target];
      var retry := s.Some? && ((s.value.hasMore && cfg.autoNext) || s.value.returnCode == SERVICE_UNAVAILABLE);
      |h.p.results| == |pr.results|
      && (forall i :: 0 <= i < |pr.results| && i != target ==> h.p.results[i] == pr.results[i])
      && s.Some? && s.value.multiHandle == Some(origin)
      && h.unavailable == (s.value.returnCode == SERVICE_UNAVAILABLE)
      && h.p.retries == (if retry then [RetryRec(Truncate(m.command), m.params, target, origin)] else []) + pr.retries
      && h.p.hasMore == (pr.hasMore || (s.value.hasMore && cfg.autoNext))
      && h.p.stats.numRetries == pr.stats.numRetries && h.p.stats.numCommands == pr.stats.numCommands
      && h.p.unavailable == pr.unavailable
  {
    var (c, stats1) := ParseResult(pr.stats, m.postSize, t.body, t.doc, pr.results[target]);
    match c
    case ClassifyAborted => HandleAborted
    case Classified(r, resp) =>
      if resp.None? && r == SERVICE_UNAVAILABLE then
        assert false;
        HandleAborted
      else
      var kept := if resp.None? then Init().(error := r) else resp.value;
      match SaveParams(build, cfg.autoNext, kept.(multiHandle := Some(origin), returnCode := r), m)
      case None => HandleAborted
      case Some(s) =>
        var retry := (s.hasMore && cfg.autoNext) || r == SERVICE_UNAVAILABLE;
        var retries := if retry then [RetryRec(Truncate(m.command), m.params, target, origin)] + pr.retries else pr.retries;
        Handled(Progress(pr.results[target := Some(s)], retries, pr.hasMore || (s.hasMore && cfg.autoNext), stats1, pr.unavailable),
                r == SERVICE_UNAVAILABLE)
  }

  // ---------------------------------------------------------------------
  // Rounds

  /** A completion message of curl's multi interface: the transfer's handle and what it produced. */
  datatype Message = Message(handle: nat, transfer: Transfer)

  /** One round as the network plays it: the status of the wait for all transfers, then the queued messages. */
  datatype Round = Round(drain: int, messages: seq<Message>)

  /** A retry round: the registrations of the retried calls, then the round itself. */
  datatype RetryRound = RetryRound(registrations: seq<Registration>, round: Round)

  /** How reading a round's messages ends. */
  datatype RoundEnd =
    | RoundDone(p: Progress)
    | RoundFailed(code: int, p: Progress)
    | RoundAborted
    | RoundUndefined

  /**
   * Where a message's answer goes. In the first round the i-th message
   * fills slot i and its own handle is the one first issued; in a retry
   * round both come from the deferred call (None: its user pointers are
   * NULL, which a retry round dereferences).
   */
  function Destination(first: bool, i: nat, msg: Message, m: Pool.Slot): (d: Option<(nat, nat)>)
    ensures first ==> d == Some((i, msg.handle))
    ensures !first && m.target.Some? && m.origin.Some? ==> d == Some((m.target.value, m.origin.value))
  {
    if first then Some((i, msg.handle))
    else if m.target.Some? && m.origin.Some? then Some((m.target.value, m.origin.value))
    else None
  }

  /** How reading one message ends: the round goes on with the updated progress, or ends. */
  datatype Stepped = Continue(p: Progress) | Stop(e: RoundEnd)

  /**
   * What reading one message promises the message loop: a failed transfer
   * changes nothing; a round ends in failure only on a handle that is not
   * pending, with the progress so far; the slots stay as many; commands
   * are not counted again and retries, set-aside answers and the
   * more-pages flag only grow. Retries are counted at once only in the
   * first round and only when retries are allowed, answers are set aside
   * only in later rounds, and the more-pages flag is raised only with
   * automatic paging.
   */
  predicate StepKeeps(cfg: Config, first: bool, s: Stepped, pr: Progress, msg: Message)
  {
    (msg.transfer.curlCode != CURLE_OK ==> s == Continue(pr))
    && (s.Stop? ==> !s.e.RoundDone? && (s.e.RoundFailed? ==> s.e == RoundFailed(INTERNAL_ERROR, pr)))
    && (s.Continue? ==>
          |s.p.results| == |pr.results|
          && pr.stats.numRetries <= s.p.stats.numRetries && s.p.stats.numCommands == pr.stats.numCommands
          && pr.unavailable <= s.p.unavailable && (pr.hasMore ==> s.p.hasMore)
          && ((!first || cfg.retryCount <= 0) ==> s.p.stats.numRetries == pr.stats.numRetries)
          && (first ==> s.p.unavailable == pr.unavailable)
          && (!cfg.autoNext ==> s.p.hasMore == pr.hasMore))
  }

  /**
   * One message of a round: a failed transfer is skipped (its slot stays
   * as it is), a handle not pending in the chain ends the round with
   * INTERNAL_ERROR, and every other answer is handled. A
   * ServiceUnavailable answer is counted as a retry at once in the first
   * round (when retries are allowed) and set aside in later rounds.
   */
  function Step(build: Build, cfg: Config, chain: seq<Pool.Slot>, first: bool, pr: Progress, msg: Message, i: nat): (s: Stepped)
    ensures StepKeeps(cfg, first, s, pr, msg)
  {
    if msg.transfer.curlCode != CURLE_OK then Continue(pr)
    else
      match Pool.Find(chain, msg.handle)
      case None => Stop(RoundFailed(INTERNAL_ERROR, pr))
      case Some(k) =>
        match Destination(first, i, msg, chain[k])
        case None => Stop(RoundUndefined)
        case Some((target, origin)) =>
          if target >= |pr.results| then Stop(RoundUndefined)
          else
            match Handle(build, cfg, pr, target, origin, chain[k], msg.transfer)
            case HandleAborted => Stop(RoundAborted)
            case Handled(p, unavailable) =>
              Continue(
                if !unavailable then p
                else if first then
                  if cfg.retryCount > 0 then p.(stats := p.stats.(numRetries := p.stats.numRetries + 1)) else p
                else p.(unavailable := p.unavailable + 1))
  }

  /** The step of a round whose pending calls are chain. */
  function StepOf(build: Build, cfg: Config, chain: seq<Pool.Slot>, first: bool): (Progress, Message, nat) -> Stepped
  {
    (pr: Progress, msg: Message, i: nat) => Step(build, cfg, chain, first, pr, msg, i)
  }

  lemma StepOfKeeps(build: Build, cfg: Config, chain: seq<Pool.Slot>, first: bool)
    ensures forall pr: Progress, msg: Message, i: nat :: StepKeeps(cfg, first, StepOf(build, cfg, chain, first)(pr, msg, i), pr, msg)
  {
    forall pr: Progress, msg: Message, i: nat
      ensures StepKeeps(cfg, first, StepOf(build, cfg, chain, first)(pr, msg, i), pr, msg)
    {
      var s := Step(build, cfg, chain, first, pr, msg, i);
    }
  }

  /**
   * The message loop of a round, from message i on, written over the step
   * it repeats: the round ends at the first step that stops it, or with
   * what all the steps gathered.
   */
  function Messages(cfg: Config, first: bool, step: (Progress, Message, nat) -> Stepped,
                    pr: Progress, msgs: seq<Message>, i: nat): (e: RoundEnd)
    requires i <= |msgs|
    requires forall p: Progress, msg: Message, j: nat :: StepKeeps(cfg, first, step(p, msg, j), p, msg)
    ensures (e.RoundDone? || e.RoundFailed?) ==> |e.p.results| == |pr.results|
    ensures e.RoundFailed? ==> e.code == INTERNAL_ERROR
    ensures (e.RoundDone? || e.RoundFailed?) ==>
      pr.stats.numRetries <= e.p.stats.numRetries && e.p.stats.numCommands == pr.stats.numCommands
      && pr.unavailable <= e.p.unavailable && (pr.hasMore ==> e.p.hasMore)
    ensures (e.RoundDone? || e.RoundFailed?) && (!first || cfg.retryCount <= 0) ==> e.p.stats.numRetries == pr.stats.numRetries
    ensures (e.RoundDone? || e.RoundFailed?) && first ==> e.p.unavailable == pr.unavailable
    ensures (e.RoundDone? || e.RoundFailed?) && !cfg.autoNext ==> e.p.hasMore == pr.hasMore
    decreases |msgs| - i
  {
    if i == |msgs| then RoundDone(pr)
    else
      assert StepKeeps(cfg, first, step(pr, msgs[i], i), pr, msgs[i]);
      if step(pr, msgs[i], i).Stop? then step(pr, msgs[i], i).e
    else Messages(cfg, first, step, step(pr, msgs[i], i).p, msgs, i + 1)
  }

  /**
   * An invariant of the progress that every step keeps holds when the
   * round is read to the end, and at some message when a handle was not
   * pending.
   */
  lemma {:induction false} MessagesKeep(cfg: Config, first: bool, step: (Progress, Message, nat) -> Stepped,
                                        inv: (Progress, nat) -> bool, pr: Progress, msgs: seq<Message>, i: nat)
    requires i <= |msgs|
    requires forall p: Progress, msg: Message, j: nat :: StepKeeps(cfg, first, step(p, msg, j), p, msg)
    requires inv(pr, i)
    requires forall p: Progress, j: nat :: i <= j < |msgs| && inv(p, j) && step(p, msgs[j], j).Continue? ==>
      inv(step(p, msgs[j], j).p, j + 1)
    ensures var e := Messages(cfg, first, step, pr, msgs, i);
      (e.RoundDone? ==> inv(e.p, |msgs|)) && (e.RoundFailed? ==> exists j :: i <= j < |msgs| && inv(e.p, j))
    decreases |msgs| - i
  {
    if i < |msgs| {
      var s := step(pr, msgs[i], i);
      if s.Continue? {
        MessagesKeep(cfg, first, step, inv, s.p, msgs, i + 1);
      } else {
        assert inv(pr, i);
      }
    }
  }

  /** How sdb_multi_run ends: a status, the result slots (None: no result array) and the state; or as a single call can. */
  datatype RunOutcome =
    | RunFinished(code: int, results: Option<seq<Option<Response>>>, st: State)
    | RunAssertFailed
    | RunUndefined
    | RunStalled

  /** The chain torn down: every pending call freed into the pool. */
  function TearDown(st: State): (s: State)
    ensures s.pool.chain == [] && s.stats == st.stats
    ensures st.pool.Valid() ==> s.pool.Valid()
  {
    if st.pool.Valid() then
      Pool.ReleasedValid(st.pool);
      State(Pool.Released(st.pool), st.stats)
    else State(Pool.Released(st.pool), st.stats)
  }

  /**
   * Registering one scheduled retry again, with the token its result set
   * continues from (none when its slot is empty), its slot and
   * first-issued handle.
   */
  function Reissue(build: Build, cfg: Config, st: State, results: seq<Option<Response>>, rec: RetryRec, reg: Registration): (d: Deferral)
    requires st.pool.Valid()
    ensures d.Deferred? ==>
      |d.st.pool.chain| == |st.pool.chain| + 1 && d.st.pool.Valid() && d.st.pool.chain[1..] == st.pool.chain
      && d.st.pool.chain[0].target == Some(rec.target) && d.st.pool.chain[0].origin == Some(rec.origin)
      && d.st.stats.numRetries == st.stats.numRetries && d.st.stats.numCommands == st.stats.numCommands + 1
    ensures d.Refused? ==> d.st.stats == st.stats && (build == Corrected ==> d.st.pool.Valid())
  {
    if rec.params.None? || rec.target >= |results| then RegisterUndefined
    else
      var token := if results[rec.target].Some? then ContinueToken(build, results[rec.target].value) else None;
      ExecuteMulti(build, cfg, st, rec.command, rec.params.value, token, Some(rec.target), Some(rec.origin), reg)
  }

  /** How re-registering the scheduled retries ends. */
  datatype Reregistered = Reregistered(st: State) | RetryRefused(st: State) | ReregisterUndefined | ReregisterStalled

  /**
   * The shape of a rebuilt chain: with the newest retry re-registered on
   * top of chain and the rest on top of that, the calls for the retries
   * lie in reverse order above the chain.
   */
  lemma ReregisteredShape(c: seq<Pool.Slot>, c1: seq<Pool.Slot>, chain: seq<Pool.Slot>, retries: seq<RetryRec>)
    requires |retries| > 0 && |c| >= |retries[1..]| && c[|retries[1..]|..] == c1
    requires |c1| == |chain| + 1 && c1[1..] == chain
    requires c1[0].target == Some(retries[0].target) && c1[0].origin == Some(retries[0].origin)
    requires forall k :: 0 <= k < |retries[1..]| ==>
      c[|retries[1..]| - 1 - k].target == Some(retries[1..][k].target) && c[|retries[1..]| - 1 - k].origin == Some(retries[1..][k].origin)
    ensures c[|retries|..] == chain
    ensures forall k :: 0 <= k < |retries| ==>
      c[|retries| - 1 - k].target == Some(retries[k].target) && c[|retries| - 1 - k].origin == Some(retries[k].origin)
  {
    var n := |retries|;
    assert |retries[1..]| == n - 1;
    assert c[n..] == c1[1..];
    assert c[n - 1] == c1[0];
    forall k | 1 <= k < n
      ensures c[n - 1 - k].target == Some(retries[k].target) && c[n - 1 - k].origin == Some(retries[k].origin)
    {
      assert retries[k] == retries[1..][k - 1];
    }
  }

  /** What one re-registration promises the rebuild loop. */
  predicate Reissues(build: Build, d: Deferral, st: State, rec: RetryRec)
  {
    (d.Deferred? ==>
      |d.st.pool.chain| == |st.pool.chain| + 1 && d.st.pool.Valid() && d.st.pool.chain[1..] == st.pool.chain
      && d.st.pool.chain[0].target == Some(rec.target) && d.st.pool.chain[0].origin == Some(rec.origin)
      && d.st.stats.numRetries == st.stats.numRetries && d.st.stats.numCommands == st.stats.numCommands + 1)
    && (d.Refused? ==> d.st.stats == st.stats && (build == Corrected ==> d.st.pool.Valid()))
  }

  /** Re-registration as the rebuild loop sees it, for the result slots of one multi-call run. */
  function IssueOf(build: Build, cfg: Config, results: seq<Option<Response>>): (State, RetryRec, Registration) -> Deferral
  {
    (s: State, rec: RetryRec, reg: Registration) =>
      if s.pool.Valid() then Reissue(build, cfg, s, results, rec, reg) else RegisterUndefined
  }

  lemma IssueOfReissues(build: Build, cfg: Config, results: seq<Option<Response>>)
    ensures forall s: State, rec: RetryRec, reg: Registration :: s.pool.Valid() ==> Reissues(build, IssueOf(build, cfg, results)(s, rec, reg), s, rec)
  {
  }

  /**
   * The rebuild loop of a retry round: every scheduled retry registered
   * again, newest first. Written over the re-registration it repeats.
   */
  function Rebuild(build: Build, issue: (State, RetryRec, Registration) -> Deferral, st: State,
                   retries: seq<RetryRec>, regs: seq<Registration>): (r: Reregistered)
    requires st.pool.Valid()
    requires forall s: State, rec: RetryRec, reg: Registration :: s.pool.Valid() ==> Reissues(build, issue(s, rec, reg), s, rec)
    ensures r.Reregistered? ==> r.st.pool.Valid() && |r.st.pool.chain| == |st.pool.chain| + |retries|
    ensures r.Reregistered? ==>
      r.st.stats.numRetries == st.stats.numRetries && r.st.stats.numCommands == st.stats.numCommands + |retries|
    ensures r.RetryRefused? ==> r.st.stats.numRetries == st.stats.numRetries
    ensures r.RetryRefused? && build == Corrected ==> r.st.pool.Valid()
    ensures r.ReregisterStalled? ==> |regs| < |retries|
    ensures r.Reregistered? ==>
      r.st.pool.chain[|retries|..] == st.pool.chain
      && forall k :: 0 <= k < |retries| ==>
           r.st.pool.chain[|retries| - 1 - k].target == Some(retries[k].target)
           && r.st.pool.chain[|retries| - 1 - k].origin == Some(retries[k].origin)
    decreases |retries|
  {
    if |retries| == 0 then Reregistered(st)
    else if |regs| == 0 then ReregisterStalled
    else
      var d := issue(st, retries[0], regs[0]);
      assert Reissues(build, d, st, retries[0]);
      match d
      case Deferred(_, st1) =>
        var rest := Rebuild(build, issue, st1, retries[1..], regs[1..]);
        if rest.Reregistered? then
          ReregisteredShape(rest.st.pool.chain, st1.pool.chain, st.pool.chain, retries);
          rest
        else rest
      case Refused(st1) => RetryRefused(st1)
      case RegisterUndefined => ReregisterUndefined
  }

  /** The rebuild loop of sdb_multi_run's retry rounds. */
  function Reregister(build: Build, cfg: Config, st: State, results: seq<Option<Response>>,
                      retries: seq<RetryRec>, regs: seq<Registration>): (r: Reregistered)
    requires st.pool.Valid()
    ensures r == Rebuild(build, IssueOf(build, cfg, results), st, retries, regs)
  {
    IssueOfReissues(build, cfg, results);
    Rebuild(build, IssueOf(build, cfg, results), st, retries, regs)
  }

  /** How one retry round ends: with what its messages gathered on the rebuilt chain, or with the run's outcome. */
  datatype Rounded = Gathered(st: State, p: Progress) | Ended(o: RunOutcome)

  /**
   * What a retry round promises the retry loop: what it gathered sits on
   * a valid pool, keeps the slots and counts no retry away; without
   * automatic paging nothing asks for a next page; a run it ends has its
   * result array, its chain torn down and, corrected, a valid pool.
   */
  predicate PlayKeeps(build: Build, cfg: Config, r: Rounded, st: State, results: seq<Option<Response>>)
  {
    (r.Gathered? ==>
      r.st.pool.Valid() && |r.p.results| == |results| && st.stats.numRetries <= r.p.stats.numRetries
      && (!cfg.autoNext ==> !r.p.hasMore))
    && (r.Ended? && r.o.RunFinished? ==>
      r.o.results.Some? && |r.o.results.value| == |results| && r.o.st.pool.chain == []
      && st.stats.numRetries <= r.o.st.stats.numRetries && (build == Corrected ==> r.o.st.pool.Valid()))
  }

  /**
   * One retry round: re-register the scheduled calls (a refusal ends the
   * run with RETRY_FAILED), wait for them and read their answers.
   */
  function PlayRetry(build: Build, cfg: Config, st: State, results: seq<Option<Response>>, retries: seq<RetryRec>,
                     rr: RetryRound): (r: Rounded)
    requires st.pool.Valid()
    ensures PlayKeeps(build, cfg, r, st, results)
  {
    match Reregister(build, cfg, st, results, retries, rr.registrations)
    case ReregisterStalled => Ended(RunStalled)
    case ReregisterUndefined => Ended(RunUndefined)
    case RetryRefused(st1) => Ended(RunFinished(RETRY_FAILED, Some(results), TearDown(st1)))
    case Reregistered(st1) =>
      if Failed(rr.round.drain) then Ended(RunFinished(rr.round.drain, Some(results), TearDown(st1)))
      else if |rr.round.messages| == 0 then Ended(RunFinished(CURL_INTERNAL_ERROR, Some(results), TearDown(st1)))
      else
        StepOfKeeps(build, cfg, st1.pool.chain, false);
        match Messages(cfg, false, StepOf(build, cfg, st1.pool.chain, false), Progress(results, [], false, st1.stats, 0), rr.round.messages, 0)
        case RoundAborted => Ended(RunAssertFailed)
        case RoundUndefined => Ended(RunUndefined)
        case RoundFailed(code, p) => Ended(RunFinished(code, Some(p.results), TearDown(st1.(stats := p.stats))))
        case RoundDone(p) => Gathered(st1, p)
  }

  /** The retry rounds of one multi-call run. */
  function PlayOf(build: Build, cfg: Config): (State, seq<Option<Response>>, seq<RetryRec>, RetryRound) -> Rounded
  {
    (st: State, results: seq<Option<Response>>, retries: seq<RetryRec>, rr: RetryRound) =>
      if st.pool.Valid() then PlayRetry(build, cfg, st, results, retries, rr) else Ended(RunUndefined)
  }

  lemma PlayOfKeeps(build: Build, cfg: Config)
    ensures forall st: State, results: seq<Option<Response>>, retries: seq<RetryRec>, rr: RetryRound ::
      PlayKeeps(build, cfg, PlayOf(build, cfg)(st, results, retries, rr), st, results)
  {
  }

  /**
   * The statistics after retry round ri: the ServiceUnavailable answers it
   * met count as retries only when another round may follow.
   */
  function Carried(p: Progress, ri: int, retryCount: int): (s: Statistics)
    ensures s.numCommands == p.stats.numCommands && p.stats.numRetries <= s.numRetries <= p.stats.numRetries + p.unavailable
    ensures !p.hasMore && ri + 1 >= retryCount ==> s == p.stats
  {
    if p.hasMore || ri + 1 < retryCount then p.stats.(numRetries := p.stats.numRetries + p.unavailable) else p.stats
  }

  /**
   * The retry loop of sdb_multi_run, at iteration ri, written over the
   * round it repeats: while some result asks for its next page, or
   * retries remain, and something is scheduled, play a retry round. A
   * round in which a result asked for its next page does not use up a
   * retry.
   */
  function Retry(build: Build, cfg: Config, play: (State, seq<Option<Response>>, seq<RetryRec>, RetryRound) -> Rounded,
                 st: State, results: seq<Option<Response>>, retries: seq<RetryRec>,
                 hasMore: bool, ri: int, rounds: seq<RetryRound>): (o: RunOutcome)
    requires st.pool.Valid() && st.pool.chain == []
    requires forall s: State, res: seq<Option<Response>>, rets: seq<RetryRec>, rr: RetryRound ::
      PlayKeeps(build, cfg, play(s, res, rets, rr), s, res)
    ensures o.RunFinished? ==> o.results.Some? && |o.results.value| == |results| && o.st.pool.chain == []
    ensures o.RunFinished? ==> st.stats.numRetries <= o.st.stats.numRetries
    ensures o.RunFinished? && build == Corrected ==> o.st.pool.Valid()
    decreases |rounds|
  {
    if !(hasMore || ri < cfg.retryCount) || |retries| == 0 then RunFinished(OK, Some(results), st)
    else if |rounds| == 0 then RunStalled
    else
      assert PlayKeeps(build, cfg, play(st, results, retries, rounds[0]), st, results);
      if play(st, results, retries, rounds[0]).Ended? then play(st, results, retries, rounds[0]).o
    else
      Retry(build, cfg, play,
            TearDown(State(play(st, results, retries, rounds[0]).st.pool,
                           Carried(play(st, results, retries, rounds[0]).p, ri, cfg.retryCount))),
            play(st, results, retries, rounds[0]).p.results, play(st, results, retries, rounds[0]).p.retries,
            play(st, results, retries, rounds[0]).p.hasMore,
            if play(st, results, retries, rounds[0]).p.hasMore then ri else ri + 1, rounds[1..])
  }

  /**
   * sdb_multi_run: nothing registered gives OK and no result array; a
   * failed wait gives its status and no result array; otherwise one slot
   * per queued message, filled in completion order, then the retry loop.
   * The chain of pending calls is always torn down.
   */
  function Run(build: Build, cfg: Config, st: State, first: Round, rounds: seq<RetryRound>): (o: RunOutcome)
    requires st.pool.Valid()
    ensures |st.pool.chain| == 0 ==> o == RunFinished(OK, None, st)
    ensures |st.pool.chain| > 0 && Failed(first.drain) ==> o == RunFinished(first.drain, None, TearDown(st))
    ensures o.RunFinished? && o.results.Some? ==> |o.results.value| == |first.messages|
    ensures o.RunFinished? ==> o.st.pool.chain == [] && st.stats.numRetries <= o.st.stats.numRetries
    ensures o.RunFinished? && build == Corrected ==> o.st.pool.Valid()
  {
    if |st.pool.chain| == 0 then RunFinished(OK, None, st)
    else if Failed(first.drain) then RunFinished(first.drain, None, TearDown(st))
    else if |first.messages| == 0 then RunFinished(CURL_INTERNAL_ERROR, None, TearDown(st))
    else
      StepOfKeeps(build, cfg, st.pool.chain, true);
      AfterFirst(build, cfg, st, Messages(cfg, true, StepOf(build, cfg, st.pool.chain, true), FirstProgress(st, first), first.messages, 0),
                 rounds)
  }

  /**
   * The run after its first round: a round that failed ends it with the
   * results gathered so far, a round read to the end goes on into the
   * retry loop.
   */
  function AfterFirst(build: Build, cfg: Config, st: State, e: RoundEnd, rounds: seq<RetryRound>): (o: RunOutcome)
    requires st.pool.Valid()
    ensures (e.RoundAborted? || e.RoundUndefined?) ==> !o.RunFinished?
    ensures e.RoundFailed? ==> o == RunFinished(e.code, Some(e.p.results), TearDown(st.(stats := e.p.stats)))
    ensures o.RunFinished? ==>
      o.results.Some? && |o.results.value| == |e.p.results| && o.st.pool.chain == []
      && e.p.stats.numRetries <= o.st.stats.numRetries
    ensures o.RunFinished? && build == Corrected ==> o.st.pool.Valid()
  {
    PlayOfKeeps(build, cfg);
    match e
    case RoundAborted => RunAssertFailed
    case RoundUndefined => RunUndefined
    case RoundFailed(code, p) => RunFinished(code, Some(p.results), TearDown(st.(stats := p.stats)))
    case RoundDone(p) =>
      Retry(build, cfg, PlayOf(build, cfg), TearDown(st.(stats := p.stats)), p.results, p.retries,
            p.hasMore && cfg.autoNext, 0, rounds)
  }

  /** The progress a run starts from: one empty slot per queued message. */
  function FirstProgress(st: State, first: Round): (pr: Progress)
    ensures |pr.results| == |first.messages| && pr.retries == [] && !pr.hasMore && pr.unavailable == 0
    ensures pr.stats == st.stats && forall i :: 0 <= i < |pr.results| ==> pr.results[i].None?
  {
    Progress(seq(|first.messages|, _ => None), [], false, st.stats, 0)
  }

  // ---------------------------------------------------------------------
  // What the result array holds

  /**
   * Every result in the array sits in the slot of a first-round transfer
   * that succeeded and names the handle of that transfer.
   */
  predicate Partial(results: seq<Option<Response>>, first: seq<Message>)
  {
    |results| == |first|
    && forall i :: 0 <= i < |results| && results[i].Some? ==>
         first[i].transfer.curlCode == CURLE_OK && results[i].value.multiHandle == Some(first[i].handle)
  }

  /** Partial, and every first-round transfer that succeeded has its result. */
  predicate Filled(results: seq<Option<Response>>, first: seq<Message>)
  {
    Partial(results, first)
    && forall i :: 0 <= i < |results| && first[i].transfer.curlCode == CURLE_OK ==> results[i].Some?
  }

  /** A call aimed at slot t under handle o is the retry of the first-round transfer t. */
  predicate Aimed(first: seq<Message>, t: nat, o: nat)
  {
    t < |first| && first[t].transfer.curlCode == CURLE_OK && first[t].handle == o
  }

  predicate RetriesAimed(retries: seq<RetryRec>, first: seq<Message>)
  {
    forall k :: 0 <= k < |retries| ==> Aimed(first, retries[k].target, retries[k].origin)
  }

  predicate ChainAimed(chain: seq<Pool.Slot>, first: seq<Message>)
  {
    forall k :: 0 <= k < |chain| ==>
      chain[k].target.Some? && chain[k].origin.Some? && Aimed(first, chain[k].target.value, chain[k].origin.value)
  }

  /**
   * A message that is read and handled fills the slot its destination
   * names, with a result naming the handle it names, and changes no other
   * slot; a retry it schedules is aimed at that slot and handle.
   */
  lemma StepFills(build: Build, cfg: Config, chain: seq<Pool.Slot>, first: bool, pr: Progress, msg: Message, i: nat)
    returns (t: nat, o: nat)
    requires msg.transfer.curlCode == CURLE_OK && Step(build, cfg, chain, first, pr, msg, i).Continue?
    ensures Pool.Find(chain, msg.handle).Some?
    ensures Destination(first, i, msg, chain[Pool.Find(chain, msg.handle).value]) == Some((t, o))
    ensures var p := Step(build, cfg, chain, first, pr, msg, i).p;
      t < |pr.results| && |p.results| == |pr.results|
      && p.results[t].Some? && p.results[t].value.multiHandle == Some(o)
      && (forall j :: 0 <= j < |pr.results| && j != t ==> p.results[j] == pr.results[j])
      && (p.retries == pr.retries || (|p.retries| > 0 && p.retries[1..] == pr.retries && p.retries[0].target == t && p.retries[0].origin == o))
  {
    var k := Pool.Find(chain, msg.handle).value;
    var d := Destination(first, i, msg, chain[k]).value;
    t, o := d.0, d.1;
    var h := Handle(build, cfg, pr, t, o, chain[k], msg.transfer);
    assert h.Handled?;
  }

  /** Retries stay aimed when an aimed one is scheduled on top of them. */
  lemma RetriesCons(rs: seq<RetryRec>, rest: seq<RetryRec>, first: seq<Message>)
    requires |rs| > 0 && rs[1..] == rest && RetriesAimed(rest, first) && Aimed(first, rs[0].target, rs[0].origin)
    ensures RetriesAimed(rs, first)
  {
    forall k | 0 <= k < |rs| ensures Aimed(first, rs[k].target, rs[k].origin) {
      if k > 0 {
        assert rs[k] == rest[k - 1];
      }
    }
  }

  /**
   * The first round at message j: every result so far is partial, every
   * earlier transfer that succeeded has its result, the later slots are
   * still empty and the retries scheduled are aimed.
   */
  predicate FirstInv(p: Progress, msgs: seq<Message>, j: nat)
  {
    j <= |msgs| && |p.results| == |msgs| && Partial(p.results, msgs) && RetriesAimed(p.retries, msgs)
    && (forall k :: 0 <= k < j && msgs[k].transfer.curlCode == CURLE_OK ==> p.results[k].Some?)
    && (forall k :: j <= k < |msgs| ==> p.results[k].None?)
  }

  lemma FirstStepKeeps(build: Build, cfg: Config, chain: seq<Pool.Slot>, p: Progress, msgs: seq<Message>, j: nat)
    requires j < |msgs| && FirstInv(p, msgs, j)
    ensures var s := Step(build, cfg, chain, true, p, msgs[j], j);
      s.Continue? ==> FirstInv(s.p, msgs, j + 1)
  {
    var s := Step(build, cfg, chain, true, p, msgs[j], j);
    if s.Continue? && msgs[j].transfer.curlCode == CURLE_OK {
      var t, o := StepFills(build, cfg, chain, true, p, msgs[j], j);
      assert t == j && o == msgs[j].handle;
      if s.p.retries != p.retries {
        RetriesCons(s.p.retries, p.retries, msgs);
      }
    }
  }

  /**
   * The first round fills slot i from the i-th message: when the round
   * is read to the end, exactly the transfers that succeeded have results,
   * each naming its own handle, and every retry it schedules is the
   * retry of one of them.
   */
  lemma FirstRoundFills(build: Build, cfg: Config, chain: seq<Pool.Slot>, pr: Progress, msgs: seq<Message>)
    requires FirstInv(pr, msgs, 0)
    ensures var e := Messages(cfg, true, StepOf(build, cfg, chain, true), pr, msgs, 0);
      (e.RoundDone? ==> Filled(e.p.results, msgs) && RetriesAimed(e.p.retries, msgs))
      && (e.RoundFailed? ==> Partial(e.p.results, msgs))
  {
    StepOfKeeps(build, cfg, chain, true);
    var step := StepOf(build, cfg, chain, true);
    var inv := (p: Progress, j: nat) => FirstInv(p, msgs, j);
    forall p: Progress, j: nat | 0 <= j < |msgs| && inv(p, j) && step(p, msgs[j], j).Continue?
      ensures inv(step(p, msgs[j], j).p, j + 1)
    {
      FirstStepKeeps(build, cfg, chain, p, msgs, j);
    }
    MessagesKeep(cfg, true, step, inv, pr, msgs, 0);
  }

  lemma RetryStepKeeps(build: Build, cfg: Config, chain: seq<Pool.Slot>, p: Progress, first: seq<Message>, msg: Message, j: nat)
    requires Filled(p.results, first) && RetriesAimed(p.retries, first) && ChainAimed(chain, first)
    ensures var s := Step(build, cfg, chain, false, p, msg, j);
      s.Continue? ==> Filled(s.p.results, first) && RetriesAimed(s.p.retries, first)
  {
    var s := Step(build, cfg, chain, false, p, msg, j);
    if s.Continue? && msg.transfer.curlCode == CURLE_OK {
      var t, o := StepFills(build, cfg, chain, false, p, msg, j);
      var m := chain[Pool.Find(chain, msg.handle).value];
      assert Aimed(first, m.target.value, m.origin.value);
      assert t == m.target.value && o == m.origin.value;
      if s.p.retries != p.retries {
        RetriesCons(s.p.retries, p.retries, first);
      }
    }
  }

  /**
   * A retry round only refills slots its calls are aimed at, so a filled
   * array stays filled and the retries it schedules stay aimed.
   */
  lemma RetryRoundFills(build: Build, cfg: Config, chain: seq<Pool.Slot>, pr: Progress, first: seq<Message>, msgs: seq<Message>)
    requires Filled(pr.results, first) && RetriesAimed(pr.retries, first) && ChainAimed(chain, first)
    ensures var e := Messages(cfg, false, StepOf(build, cfg, chain, false), pr, msgs, 0);
      (e.RoundDone? ==> Filled(e.p.results, first) && RetriesAimed(e.p.retries, first))
      && (e.RoundFailed? ==> Filled(e.p.results, first))
  {
    StepOfKeeps(build, cfg, chain, false);
    var step := StepOf(build, cfg, chain, false);
    var inv := (p: Progress, j: nat) => Filled(p.results, first) && RetriesAimed(p.retries, first);
    forall p: Progress, j: nat | 0 <= j < |msgs| && inv(p, j) && step(p, msgs[j], j).Continue?
      ensures inv(step(p, msgs[j], j).p, j + 1)
    {
      RetryStepKeeps(build, cfg, chain, p, first, msgs[j], j);
    }
    MessagesKeep(cfg, false, step, inv, pr, msgs, 0);
  }

  /** Re-registering aimed retries leaves a chain of aimed calls. */
  lemma RebuildAimed(build: Build, issue: (State, RetryRec, Registration) -> Deferral, st: State,
                     retries: seq<RetryRec>, regs: seq<Registration>, first: seq<Message>)
    requires st.pool.Valid() && ChainAimed(st.pool.chain, first) && RetriesAimed(retries, first)
    requires forall s: State, rec: RetryRec, reg: Registration :: s.pool.Valid() ==> Reissues(build, issue(s, rec, reg), s, rec)
    ensures var r := Rebuild(build, issue, st, retries, regs);
      r.Reregistered? ==> ChainAimed(r.st.pool.chain, first)
  {
    var r := Rebuild(build, issue, st, retries, regs);
    if r.Reregistered? {
      var c, n := r.st.pool.chain, |retries|;
      forall j | 0 <= j < |c|
        ensures c[j].target.Some? && c[j].origin.Some? && Aimed(first, c[j].target.value, c[j].origin.value)
      {
        if j < n {
          var k := n - 1 - j;
          assert c[n - 1 - k].target == Some(retries[k].target);
        } else {
          assert c[j] == c[n..][j - n];
        }
      }
    }
  }

  /** What a retry round promises about the result array: it stays filled and its retries aimed. */
  predicate PlayFills(r: Rounded, first: seq<Message>)
  {
    (r.Gathered? ==> Filled(r.p.results, first) && RetriesAimed(r.p.retries, first))
    && (r.Ended? && r.o.RunFinished? && r.o.results.Some? ==> Filled(r.o.results.value, first))
  }

  /** A retry round keeps the result array filled and the retries it schedules aimed. */
  lemma PlayRetryFills(build: Build, cfg: Config, st: State, results: seq<Option<Response>>, retries: seq<RetryRec>,
                       rr: RetryRound, first: seq<Message>)
    requires st.pool.Valid() && st.pool.chain == []
    requires Filled(results, first) && RetriesAimed(retries, first)
    ensures PlayFills(PlayRetry(build, cfg, st, results, retries, rr), first)
  {
    IssueOfReissues(build, cfg, results);
    RebuildAimed(build, IssueOf(build, cfg, results), st, retries, rr.registrations, first);
    var r := Reregister(build, cfg, st, results, retries, rr.registrations);
    if r.Reregistered? && !Failed(rr.round.drain) && |rr.round.messages| > 0 {
      RetryRoundFills(build, cfg, r.st.pool.chain, Progress(results, [], false, r.st.stats, 0), first, rr.round.messages);
    }
  }

  /** The retry loop keeps the result array filled. */
  lemma {:induction false} RetryFills(build: Build, cfg: Config, play: (State, seq<Option<Response>>, seq<RetryRec>, RetryRound) -> Rounded,
                                      st: State, results: seq<Option<Response>>, retries: seq<RetryRec>,
                                      hasMore: bool, ri: int, rounds: seq<RetryRound>, first: seq<Message>)
    requires st.pool.Valid() && st.pool.chain == []
    requires forall s: State, res: seq<Option<Response>>, rets: seq<RetryRec>, rr: RetryRound ::
      PlayKeeps(build, cfg, play(s, res, rets, rr), s, res)
    requires forall s: State, res: seq<Option<Response>>, rets: seq<RetryRec>, rr: RetryRound ::
      s.pool.Valid() && s.pool.chain == [] && Filled(res, first) && RetriesAimed(rets, first) ==> PlayFills(play(s, res, rets, rr), first)
    requires Filled(results, first) && RetriesAimed(retries, first)
    ensures var o := Retry(build, cfg, play, st, results, retries, hasMore, ri, rounds);
      o.RunFinished? ==> Filled(o.results.value, first)
    decreases |rounds|
  {
    if (hasMore || ri < cfg.retryCount) && |retries| > 0 && |rounds| > 0 {
      var r := play(st, results, retries, rounds[0]);
      if r.Gathered? {
        RetryFills(build, cfg, play, TearDown(State(r.st.pool, Carried(r.p, ri, cfg.retryCount))), r.p.results, r.p.retries,
                   r.p.hasMore, if r.p.hasMore then ri else ri + 1, rounds[1..], first);
      }
    }
  }

  /**
   * The result array of sdb_multi_run has one slot per transfer of the
   * first round; every result in it is in the slot of a transfer that
   * succeeded and names the handle the registration returned. Unless a
   * first-round message names no pending call, every transfer that
   * succeeded has its result.
   */
  lemma RunFills(build: Build, cfg: Config, st: State, first: Round, rounds: seq<RetryRound>)
    requires st.pool.Valid()
    ensures var o := Run(build, cfg, st, first, rounds);
      o.RunFinished? && o.results.Some? ==>
        Partial(o.results.value, first.messages)
        && (o.code != INTERNAL_ERROR ==> Filled(o.results.value, first.messages))
  {
    if |st.pool.chain| > 0 && !Failed(first.drain) && |first.messages| > 0 {
      var pr := FirstProgress(st, first);
      FirstRoundFills(build, cfg, st.pool.chain, pr, first.messages);
      StepOfKeeps(build, cfg, st.pool.chain, true);
      var e := Messages(cfg, true, StepOf(build, cfg, st.pool.chain, true), pr, first.messages, 0);
      if e.RoundDone? {
        PlayOfKeeps(build, cfg);
        forall s: State, res: seq<Option<Response>>, rets: seq<RetryRec>, rr: RetryRound
          | s.pool.Valid() && s.pool.chain == [] && Filled(res, first.messages) && RetriesAimed(rets, first.messages)
          ensures PlayFills(PlayOf(build, cfg)(s, res, rets, rr), first.messages)
        {
          PlayRetryFills(build, cfg, s, res, rets, rr, first.messages);
        }
        RetryFills(build, cfg, PlayOf(build, cfg), TearDown(st.(stats := e.p.stats)), e.p.results, e.p.retries,
                   e.p.hasMore && cfg.autoNext, 0, rounds, first.messages);
      }
    }
  }

  // ---------------------------------------------------------------------
  // How many rounds a run plays

  /**
   * Without automatic paging no round asks for a next page, so the retry
   * loop from iteration ri plays at most retry_count - ri rounds: the
   * rounds after those are never read.
   */
  lemma {:induction false} RetryBudget(build: Build, cfg: Config, play: (State, seq<Option<Response>>, seq<RetryRec>, RetryRound) -> Rounded,
                                       st: State, results: seq<Option<Response>>,
                                       retries: seq<RetryRec>, ri: int, rounds: seq<RetryRound>)
    requires st.pool.Valid() && st.pool.chain == [] && !cfg.autoNext
    requires forall s: State, res: seq<Option<Response>>, rets: seq<RetryRec>, rr: RetryRound ::
      PlayKeeps(build, cfg, play(s, res, rets, rr), s, res)
    requires |rounds| >= Budget(cfg.retryCount - ri)
    ensures Retry(build, cfg, play, st, results, retries, false, ri, rounds)
         == Retry(build, cfg, play, st, results, retries, false, ri, rounds[..Budget(cfg.retryCount - ri)])
    decreases |rounds|
  {
    var k := Budget(cfg.retryCount - ri);
    if ri < cfg.retryCount && |retries| > 0 {
      var short := rounds[..k];
      assert short[0] == rounds[0];
      var r := play(st, results, retries, rounds[0]);
      if r.Gathered? {
        assert short[1..] == rounds[1..][..k - 1];
        RetryBudget(build, cfg, play, TearDown(State(r.st.pool, Carried(r.p, ri, cfg.retryCount))), r.p.results, r.p.retries,
                    ri + 1, rounds[1..]);
      }
    }
  }

  /**
   * How many of the rounds the retry loop from iteration ri plays use up a
   * retry: a round that ends with no result asking for its next page
   * advances ri, a round that ends asking for one does not, and a round
   * that ends the run counts once.
   */
  function Spent(build: Build, cfg: Config, play: (State, seq<Option<Response>>, seq<RetryRec>, RetryRound) -> Rounded,
                 st: State, results: seq<Option<Response>>, retries: seq<RetryRec>,
                 hasMore: bool, ri: int, rounds: seq<RetryRound>): (n: nat)
    requires st.pool.Valid() && st.pool.chain == []
    requires forall s: State, res: seq<Option<Response>>, rets: seq<RetryRec>, rr: RetryRound ::
      PlayKeeps(build, cfg, play(s, res, rets, rr), s, res)
    ensures n <= |rounds|
    ensures n > 0 ==> hasMore || ri < cfg.retryCount
    decreases |rounds|
  {
    if !(hasMore || ri < cfg.retryCount) || |retries| == 0 || |rounds| == 0 then 0
    else
      assert PlayKeeps(build, cfg, play(st, results, retries, rounds[0]), st, results);
      if play(st, results, retries, rounds[0]).Ended? then 1
    else
      (if play(st, results, retries, rounds[0]).p.hasMore then 0 else 1)
      + Spent(build, cfg, play,
              TearDown(State(play(st, results, retries, rounds[0]).st.pool,
                             Carried(play(st, results, retries, rounds[0]).p, ri, cfg.retryCount))),
              play(st, results, retries, rounds[0]).p.results, play(st, results, retries, rounds[0]).p.retries,
              play(st, results, retries, rounds[0]).p.hasMore,
              if play(st, results, retries, rounds[0]).p.hasMore then ri else ri + 1, rounds[1..])
  }

  /**
   * With or without automatic paging, the retry loop from iteration ri
   * uses up at most retry_count - ri retries; when a page is pending it
   * may in addition fetch one last page after the budget is spent. The
   * rounds that fetch a page and leave another pending are not bounded
   * by the budget at all.
   */
  lemma {:induction false} SpentWithinBudget(build: Build, cfg: Config, play: (State, seq<Option<Response>>, seq<RetryRec>, RetryRound) -> Rounded,
                                             st: State, results: seq<Option<Response>>,
                                             retries: seq<RetryRec>, hasMore: bool, ri: int, rounds: seq<RetryRound>)
    requires st.pool.Valid() && st.pool.chain == []
    requires forall s: State, res: seq<Option<Response>>, rets: seq<RetryRec>, rr: RetryRound ::
      PlayKeeps(build, cfg, play(s, res, rets, rr), s, res)
    ensures !hasMore ==> Spent(build, cfg, play, st, results, retries, hasMore, ri, rounds) <= Budget(cfg.retryCount - ri)
    ensures hasMore ==> Spent(build, cfg, play, st, results, retries, hasMore, ri, rounds) <= Budget(cfg.retryCount - ri - 1) + 1
    decreases |rounds|
  {
    if (hasMore || ri < cfg.retryCount) && |retries| > 0 && |rounds| > 0 {
      var r := play(st, results, retries, rounds[0]);
      assert PlayKeeps(build, cfg, r, st, results);
      if r.Gathered? {
        SpentWithinBudget(build, cfg, play, TearDown(State(r.st.pool, Carried(r.p, ri, cfg.retryCount))), r.p.results, r.p.retries,
                          r.p.hasMore, if r.p.hasMore then ri else ri + 1, rounds[1..]);
      }
    }
  }

  /** The retries used up by what follows a completed first round of sdb_multi_run. */
  function SpentAfterFirst(build: Build, cfg: Config, st: State, p: Progress, rounds: seq<RetryRound>): (n: nat)
    requires st.pool.Valid()
    ensures n <= |rounds|
  {
    PlayOfKeeps(build, cfg);
    Spent(build, cfg, PlayOf(build, cfg), TearDown(st.(stats := p.stats)), p.results, p.retries, p.hasMore && cfg.autoNext, 0, rounds)
  }

  /**
   * What follows the first round of sdb_multi_run uses up at most
   * retry_count retries whether or not automatic paging is on, plus one
   * last page when retry_count is not positive and the first round left
   * a page pending.
   */
  lemma AfterFirstSpent(build: Build, cfg: Config, st: State, p: Progress, rounds: seq<RetryRound>)
    requires st.pool.Valid()
    ensures !(p.hasMore && cfg.autoNext) ==> SpentAfterFirst(build, cfg, st, p, rounds) <= Budget(cfg.retryCount)
    ensures SpentAfterFirst(build, cfg, st, p, rounds) <= Budget(cfg.retryCount - 1) + 1
  {
    PlayOfKeeps(build, cfg);
    SpentWithinBudget(build, cfg, PlayOf(build, cfg), TearDown(st.(stats := p.stats)), p.results, p.retries,
                      p.hasMore && cfg.autoNext, 0, rounds);
  }

  /** Without automatic paging, what follows the first round reads at most retry_count retry rounds. */
  lemma AfterFirstBudget(build: Build, cfg: Config, st: State, e: RoundEnd, rounds: seq<RetryRound>)
    requires st.pool.Valid() && !cfg.autoNext && |rounds| >= Budget(cfg.retryCount)
    ensures AfterFirst(build, cfg, st, e, rounds) == AfterFirst(build, cfg, st, e, rounds[..Budget(cfg.retryCount)])
  {
    if e.RoundDone? {
      PlayOfKeeps(build, cfg);
      var s := TearDown(st.(stats := e.p.stats));
      var short := rounds[..Budget(cfg.retryCount)];
      RetryBudget(build, cfg, PlayOf(build, cfg), s, e.p.results, e.p.retries, 0, rounds);
      assert AfterFirst(build, cfg, st, e, rounds) == Retry(build, cfg, PlayOf(build, cfg), s, e.p.results, e.p.retries, false, 0, rounds);
      assert AfterFirst(build, cfg, st, e, short) == Retry(build, cfg, PlayOf(build, cfg), s, e.p.results, e.p.retries, false, 0, short);
    }
  }

  /**
   * Without automatic paging sdb_multi_run plays at most retry_count
   * retry rounds after the first.
   */
  lemma RunBudget(build: Build, cfg: Config, st: State, first: Round, rounds: seq<RetryRound>)
    requires st.pool.Valid() && !cfg.autoNext && |rounds| >= Budget(cfg.retryCount)
    ensures Run(build, cfg, st, first, rounds) == Run(build, cfg, st, first, rounds[..Budget(cfg.retryCount)])
  {
    if |st.pool.chain| > 0 && !Failed(first.drain) && |first.messages| > 0 {
      StepOfKeeps(build, cfg, st.pool.chain, true);
      AfterFirstBudget(build, cfg, st, Messages(cfg, true, StepOf(build, cfg, st.pool.chain, true), FirstProgress(st, first), first.messages, 0),
                       rounds);
    }
  }

  /**
   * With no retries allowed and no automatic paging, sdb_multi_run plays
   * the first round only and counts no retry, whatever the service
   * answers.
   */
  lemma RunWithoutRetries(build: Build, cfg: Config, st: State, first: Round, rounds: seq<RetryRound>)
    requires st.pool.Valid() && !cfg.autoNext && cfg.retryCount <= 0
    ensures Run(build, cfg, st, first, rounds) == Run(build, cfg, st, first, [])
    ensures var o := Run(build, cfg, st, first, rounds);
      o.RunFinished? ==> o.st.stats.numRetries == st.stats.numRetries
  {
    RunBudget(build, cfg, st, first, rounds);
    if |st.pool.chain| > 0 && !Failed(first.drain) && |first.messages| > 0 {
      StepOfKeeps(build, cfg, st.pool.chain, true);
    }
  }

  // ---------------------------------------------------------------------
  // Counting the failed calls

  /** A slot counts as failed when it holds no result or a result with a failed status. */
  predicate SlotFailed(s: Option<Response>)
  {
    s.None? || Failed(s.value.returnCode)
  }

  /** The number of failed slots. */
  function FailedSlots(results: seq<Option<Response>>): (n: nat)
    ensures n <= |results|
    ensures n == 0 <==> forall i :: 0 <= i < |results| ==> !SlotFailed(results[i])
    ensures n == |results| <==> forall i :: 0 <= i < |results| ==> SlotFailed(results[i])
  {
    if |results| == 0 then 0
    else
      var init := results[..|results| - 1];
      assert forall i :: 0 <= i < |init| ==> init[i] == results[i];
      FailedSlots(init) + if SlotFailed(results[|results| - 1]) then 1 else 0
  }

  /** Failed slots add up over a split of the array. */
  lemma {:induction false} FailedSlotsAppend(a: seq<Option<Response>>, b: seq<Option<Response>>)
    ensures FailedSlots(a + b) == FailedSlots(a) + FailedSlots(b)
    decreases |b|
  {
    if |b| > 0 {
      var b' := b[..|b| - 1];
      assert (a + b)[..|a + b| - 1] == a + b';
      assert (a + b)[|a + b| - 1] == b[|b| - 1];
      FailedSlotsAppend(a, b');
    } else {
      assert a + b == a;
    }
  }

  /**
   * sdb_multi_count_errors: no result array counts nothing; otherwise
   * every slot without a result and every result with a failed status
   * counts once.
   */
  method CountErrors(response: Option<seq<Option<Response>>>) returns (count: int)
    ensures response.None? ==> count == 0
    ensures response.Some? ==> count == FailedSlots(response.value)
    ensures response.Some? ==> 0 <= count <= |response.value|
  {
    count := 0;
    if response.None? {
      return;
    }
    var results := response.value;
    var i := 0;
    while i < |results|
      invariant 0 <= i <= |results|
      invariant count == FailedSlots(results[..i])
    {
      var r := results[i];
      if r.None? {
        count := count + 1;
      } else if Failed(r.value.returnCode) {
        count := count + 1;
      }
      assert results[..i + 1][..i] == results[..i];
      i := i + 1;
    }
    assert results[..i] == results;
  }

  // ---------------------------------------------------------------------
  // Saving the parameters of a retried page

  /**
   * A slot whose first answer was ServiceUnavailable is retried into a
   * response that sdb_response_prepare_append extended. When that page
   * has more pages and pages are not fetched automatically, sdb_multi_run
   * as written looks for the parameters in the block below the head, but
   * sdb_response_prepare_append cleared them there, so the assert fails
   * on every such page. The corrected build copies the parameters of the
   * call, as the first round does.
   */
  lemma SaveParamsAfterAppend(r: Response, s: Response, m: Pool.Slot)
    requires s.hasMore && s.head.params.None? && s.older == PrepareAppend(r).older
    ensures SaveParams(AsWritten, false, s, m).None?
    ensures var c := SaveParams(Corrected, false, s, m);
      c.Some? && c.value.head.params == CopyOf(m.params) && c.value.head.command == Some(m.command)
      && c.value.older == s.older && c.value.hasMore
  {
  }
}
