/**
 * The batch loop of `main` in process_imap_emails.py: like the loop of
 * flag.py, but without the date filter and routing with
 * `process_email_action`, so every visited id ends in `processed` or in
 * `errors`.
 */
module ProcessImapEmails {
  import opened Wrappers
  import IC = ImapConnector
  import opened Routing
  import opened Tally
  import Flag

  /** How one iteration ends: an escaped fetch or a failed decision is an
      error, an empty fetch is a fetch error, anything else is routed by
      `process_email_action` and counts as processed. */
  ghost predicate ActionFits(o: Outcome, id: string, fetch: Flag.Fetcher, ask: Flag.Advisor,
                             mover: Mover, dryRun: bool)
  {
    match fetch(id)
    case Escaped => o == Errored
    case Normal(m) =>
      if !IC.Present(m) then o == FetchFailed
      else
        match ask(m.value)
        case None => o == Errored
        case Some(decision) =>
          var t := ActionFolder(decision);
          o == Routed(if t.Some? && !dryRun && !mover(id, t.value.Name()) then None else t)
  }

  /** The calls of `move_email` one iteration makes: one, to the folder of the
      decision, for a message that reaches `process_email_action` with a
      decision naming a folder, unless it is a dry run; none otherwise. */
  ghost function ActionCalls(id: string, fetch: Flag.Fetcher, ask: Flag.Advisor, dryRun: bool): seq<MoveCall>
  {
    match fetch(id)
    case Escaped => []
    case Normal(m) =>
      if !IC.Present(m) || dryRun then []
      else
        match ask(m.value)
        case None => []
        case Some(decision) =>
          if ActionFolder(decision).Some? then [MoveCall(id, ActionFolder(decision).value.Name())] else []
  }

  /** One iteration makes at most one call, none in a dry run, and only for
      its own id. */
  lemma ActionCallsMeaning(id: string, fetch: Flag.Fetcher, ask: Flag.Advisor, dryRun: bool)
    ensures |ActionCalls(id, fetch, ask, dryRun)| <= 1
    ensures dryRun ==> ActionCalls(id, fetch, ask, dryRun) == []
    ensures forall call <- ActionCalls(id, fetch, ask, dryRun) :: call.emailId == id
  {
  }

  /** The move log and the outcome of one iteration agree: a call is made only
      for a routed message, and the message counts as moved exactly when that
      call succeeded; every message counted as moved outside a dry run had its
      call, to the folder it is counted under. */
  lemma CallsMatchOutcome(o: Outcome, id: string, fetch: Flag.Fetcher, ask: Flag.Advisor, mover: Mover, dryRun: bool)
    requires ActionFits(o, id, fetch, ask, mover, dryRun)
    ensures ActionCalls(id, fetch, ask, dryRun) != [] ==>
              o.Routed? && (o.target.Some? <==> mover(id, ActionCalls(id, fetch, ask, dryRun)[0].folder))
    ensures !dryRun && o.Routed? && o.target.Some? ==>
              ActionCalls(id, fetch, ask, dryRun) == [MoveCall(id, o.target.value.Name())]
  {
  }

  /** `ActionCalls` as the step of the batch loop. */
  ghost function ActionStep(fetch: Flag.Fetcher, ask: Flag.Advisor, dryRun: bool): string -> seq<MoveCall>
  {
    id => ActionCalls(id, fetch, ask, dryRun)
  }

  /** The batch loop makes no call in a dry run and at most one per id, each
      for one of the ids. */
  lemma ActionLoopCalls(ids: seq<string>, fetch: Flag.Fetcher, ask: Flag.Advisor, dryRun: bool)
    ensures dryRun ==> LoopCalls(ids, ActionStep(fetch, ask, dryRun)) == []
    ensures |LoopCalls(ids, ActionStep(fetch, ask, dryRun))| <= |ids|
    ensures forall call <- LoopCalls(ids, ActionStep(fetch, ask, dryRun)) :: call.emailId in ids
  {
    var step := ActionStep(fetch, ask, dryRun);
    forall k | 0 <= k < |ids|
      ensures |step(ids[k])| <= 1 && (dryRun ==> step(ids[k]) == [])
      ensures forall call <- step(ids[k]) :: call.emailId == ids[k]
    {
      ActionCallsMeaning(ids[k], fetch, ask, dryRun);
    }
    LoopCallsMeaning(ids, step);
  }

  /** One more iteration keeps every outcome fitting its id, and none skipped. */
  lemma FitsExtend(outcomes: seq<Outcome>, outcome: Outcome, batch: seq<string>, fetch: Flag.Fetcher,
                   ask: Flag.Advisor, mover: Mover, dryRun: bool)
    requires |outcomes| < |batch|
    requires forall k :: 0 <= k < |outcomes| ==> ActionFits(outcomes[k], batch[k], fetch, ask, mover, dryRun)
    requires forall k :: 0 <= k < |outcomes| ==> outcomes[k] != Skipped
    requires ActionFits(outcome, batch[|outcomes|], fetch, ask, mover, dryRun) && outcome != Skipped
    ensures forall k :: 0 <= k < |outcomes| + 1 ==>
              ActionFits((outcomes + [outcome])[k], batch[k], fetch, ask, mover, dryRun)
    ensures forall k :: 0 <= k < |outcomes| + 1 ==> (outcomes + [outcome])[k] != Skipped
  {
    assert forall k :: 0 <= k < |outcomes| ==> (outcomes + [outcome])[k] == outcomes[k];
  }

  /** The body of the loop for one id; `outcome` says which counter it moves. */
  method ProcessOne(id: string, fetch: Flag.Fetcher, ask: Flag.Advisor, mover: Mover, dryRun: bool)
    returns (outcome: Outcome, ghost calls: seq<MoveCall>)
    ensures ActionFits(outcome, id, fetch, ask, mover, dryRun)
    ensures outcome != Skipped
    ensures dryRun ==> calls == []
    ensures |calls| <= 1
    ensures calls == ActionCalls(id, fetch, ask, dryRun)
  {
    calls := [];
    var msg := fetch(id);
    if msg.Escaped? {
      outcome := Errored;
    } else if !IC.Present(msg.value) {
      outcome := FetchFailed;
    } else {
      var decision := ask(msg.value.value);
      if decision.None? {
        outcome := Errored;
      } else {
        var target;
        target, calls := ProcessEmailAction(decision.value, id, mover, dryRun);
        outcome := Routed(target);
      }
    }
  }

  /** The loop of `main`, from the searched ids on. `results` is `None` when
      the cut batch is empty ("No emails to process"). */
  method ProcessBatch(ids: seq<string>, limit: int, dryRun: bool,
                      fetch: Flag.Fetcher, ask: Flag.Advisor, mover: Mover)
    returns (results: Option<Results>, ghost outcomes: seq<Outcome>, ghost moves: seq<MoveCall>)
    ensures Flag.Batch(ids, limit) == [] <==> results.None?
    ensures |outcomes| == |Flag.Batch(ids, limit)|
    ensures results.Some? ==> results.value == TallyOf(outcomes)
    ensures forall k :: 0 <= k < |outcomes| ==>
              ActionFits(outcomes[k], Flag.Batch(ids, limit)[k], fetch, ask, mover, dryRun)
    ensures dryRun ==> moves == []
    ensures |moves| <= |outcomes|
    ensures moves == LoopCalls(Flag.Batch(ids, limit), ActionStep(fetch, ask, dryRun))
    ensures results.Some? ==> results.value.processed + results.value.errors == |Flag.Batch(ids, limit)|
    ensures results.Some? ==> results.value.moved == Total(results.value.byFolder) <= results.value.processed
  {
    var batch := Flag.Batch(ids, limit);
    outcomes, moves := [], [];
    if batch == [] {
      return None, outcomes, moves;
    }
    var tally := Fresh;
    ghost var step := ActionStep(fetch, ask, dryRun);
    TallyOfEmpty();
    for i := 0 to |batch|
      invariant |outcomes| == i
      invariant tally == TallyOf(outcomes)
      invariant forall k :: 0 <= k < i ==> ActionFits(outcomes[k], batch[k], fetch, ask, mover, dryRun)
      invariant forall k :: 0 <= k < i ==> outcomes[k] != Skipped
      invariant moves == LoopCalls(batch[..i], step)
    {
      var outcome, calls := ProcessOne(batch[i], fetch, ask, mover, dryRun);
      LoopCallsStep(batch, i, step);
      assert step(batch[i]) == calls;
      moves := moves + calls;
      TallyStep(outcomes, outcome);
      FitsExtend(outcomes, outcome, batch, fetch, ask, mover, dryRun);
      tally := Advance(tally, outcome);
      outcomes := outcomes + [outcome];
    }
    assert batch[..|batch|] == batch;
    ActionLoopCalls(batch, fetch, ask, dryRun);
    results := Some(tally);
    SummaryWithoutSkips(outcomes);
  }
}
