/**
 * The batch loop of `process_imap_emails` in flag.py: the searched ids are cut
 * to `limit`, each message is fetched, optionally filtered by date, sent to
 * the model for a decision and routed by `process_email_decision`, and the
 * `results` counters are updated in place.
 */
module Flag {
  import opened Wrappers
  import opened PyText
  import IC = ImapConnector
  import opened Routing
  import opened Tally

  /** `imap.get_email(id)`. */
  type Fetcher = string -> IC.Completion<Option<IC.Message>>

  /** `parse_email` followed by `query_ollama`: the decision text, or `None`
      when producing it raised. */
  type Advisor = IC.Message -> Option<string>

  /** The ids the loop visits: `email_ids[:limit]`. */
  function Batch(ids: seq<string>, limit: int): (b: seq<string>)
    ensures |b| <= |ids| && b == ids[..|b|]
    ensures 0 <= limit ==> |b| <= limit
    ensures 0 <= limit <= |ids| ==> |b| == limit
    ensures 0 <= limit ==> |b| == if limit < |ids| then limit else |ids|
  {
    SliceTo(ids, limit)
  }

  /** How one iteration ends, given its collaborators: an escaped fetch or a
      failed decision is an error, an empty fetch is a fetch error, a message
      the date filter rejects is skipped, anything else is routed by
      `process_email_decision` and counts as processed. `isToday` stands for
      the whole date check: a missing `Date` header, an unparsable one and a
      date other than today all reject. */
  ghost predicate DecisionFits(o: Outcome, id: string, fetch: Fetcher, todayOnly: bool,
                               isToday: IC.Message -> bool, ask: Advisor, mover: Mover, dryRun: bool)
  {
    match fetch(id)
    case Escaped => o == Errored
    case Normal(m) =>
      if !IC.Present(m) then o == FetchFailed
      else if todayOnly && !isToday(m.value) then o == Skipped
      else
        match ask(m.value)
        case None => o == Errored
        case Some(decision) =>
          var t := DecisionFolder(decision);
          o == Routed(if t.Some? && !dryRun && !mover(id, t.value.Name()) then None else t)
  }

  /** The calls of `move_email` one iteration makes: one, to the folder of the
      decision, for a message that reaches `process_email_decision` with a
      decision naming a folder, unless it is a dry run; none otherwise. */
  ghost function DecisionCalls(id: string, fetch: Fetcher, todayOnly: bool, isToday: IC.Message -> bool,
                               ask: Advisor, dryRun: bool): seq<MoveCall>
  {
    match fetch(id)
    case Escaped => []
    case Normal(m) =>
      if !IC.Present(m) || (todayOnly && !isToday(m.value)) || dryRun then []
      else
        match ask(m.value)
        case None => []
        case Some(decision) =>
          if DecisionFolder(decision).Some? then [MoveCall(id, DecisionFolder(decision).value.Name())] else []
  }

  /** One iteration makes at most one call, none in a dry run, and only for
      its own id. */
  lemma DecisionCallsMeaning(id: string, fetch: Fetcher, todayOnly: bool, isToday: IC.Message -> bool,
                             ask: Advisor, dryRun: bool)
    ensures |DecisionCalls(id, fetch, todayOnly, isToday, ask, dryRun)| <= 1
    ensures dryRun ==> DecisionCalls(id, fetch, todayOnly, isToday, ask, dryRun) == []
    ensures forall call <- DecisionCalls(id, fetch, todayOnly, isToday, ask, dryRun) :: call.emailId == id
  {
  }

  /** The move log and the outcome of one iteration agree: a call is made only
      for a routed message, and the message counts as moved exactly when that
      call succeeded; every message counted as moved outside a dry run had its
      call, to the folder it is counted under. */
  lemma CallsMatchOutcome(o: Outcome, id: string, fetch: Fetcher, todayOnly: bool,
                          isToday: IC.Message -> bool, ask: Advisor, mover: Mover, dryRun: bool)
    requires DecisionFits(o, id, fetch, todayOnly, isToday, ask, mover, dryRun)
    ensures DecisionCalls(id, fetch, todayOnly, isToday, ask, dryRun) != [] ==>
              o.Routed? && (o.target.Some? <==> mover(id, DecisionCalls(id, fetch, todayOnly, isToday, ask, dryRun)[0].folder))
    ensures !dryRun && o.Routed? && o.target.Some? ==>
              DecisionCalls(id, fetch, todayOnly, isToday, ask, dryRun) == [MoveCall(id, o.target.value.Name())]
  {
  }

  /** `DecisionCalls` as the step of the batch loop. */
  ghost function DecisionStep(fetch: Fetcher, todayOnly: bool, isToday: IC.Message -> bool,
                              ask: Advisor, dryRun: bool): string -> seq<MoveCall>
  {
    id => DecisionCalls(id, fetch, todayOnly, isToday, ask, dryRun)
  }

  /** The batch loop makes no call in a dry run and at most one per id, each
      for one of the ids. */
  lemma DecisionLoopCalls(ids: seq<string>, fetch: Fetcher, todayOnly: bool, isToday: IC.Message -> bool,
                          ask: Advisor, dryRun: bool)
    ensures dryRun ==> LoopCalls(ids, DecisionStep(fetch, todayOnly, isToday, ask, dryRun)) == []
    ensures |LoopCalls(ids, DecisionStep(fetch, todayOnly, isToday, ask, dryRun))| <= |ids|
    ensures forall call <- LoopCalls(ids, DecisionStep(fetch, todayOnly, isToday, ask, dryRun)) :: call.emailId in ids
  {
    var step := DecisionStep(fetch, todayOnly, isToday, ask, dryRun);
    forall k | 0 <= k < |ids|
      ensures |step(ids[k])| <= 1 && (dryRun ==> step(ids[k]) == [])
      ensures forall call <- step(ids[k]) :: call.emailId == ids[k]
    {
      DecisionCallsMeaning(ids[k], fetch, todayOnly, isToday, ask, dryRun);
    }
    LoopCallsMeaning(ids, step);
  }

  /** One more iteration keeps every outcome fitting its id. */
  lemma FitsExtend(outcomes: seq<Outcome>, outcome: Outcome, batch: seq<string>, fetch: Fetcher, todayOnly: bool,
                   isToday: IC.Message -> bool, ask: Advisor, mover: Mover, dryRun: bool)
    requires |outcomes| < |batch|
    requires forall k :: 0 <= k < |outcomes| ==>
               DecisionFits(outcomes[k], batch[k], fetch, todayOnly, isToday, ask, mover, dryRun)
    requires DecisionFits(outcome, batch[|outcomes|], fetch, todayOnly, isToday, ask, mover, dryRun)
    ensures forall k :: 0 <= k < |outcomes| + 1 ==>
              DecisionFits((outcomes + [outcome])[k], batch[k], fetch, todayOnly, isToday, ask, mover, dryRun)
  {
    assert forall k :: 0 <= k < |outcomes| ==> (outcomes + [outcome])[k] == outcomes[k];
  }

  /** The body of the loop for one id; `outcome` says which counter it moves. */
  method ProcessOne(id: string, fetch: Fetcher, todayOnly: bool, isToday: IC.Message -> bool,
                    ask: Advisor, mover: Mover, dryRun: bool)
    returns (outcome: Outcome, ghost calls: seq<MoveCall>)
    ensures DecisionFits(outcome, id, fetch, todayOnly, isToday, ask, mover, dryRun)
    ensures dryRun ==> calls == []
    ensures |calls| <= 1
    ensures calls == DecisionCalls(id, fetch, todayOnly, isToday, ask, dryRun)
  {
    calls := [];
    var msg := fetch(id);
    if msg.Escaped? {
      outcome := Errored;
    } else if !IC.Present(msg.value) {
      outcome := FetchFailed;
    } else if todayOnly && !isToday(msg.value.value) {
      outcome := Skipped;
    } else {
      var decision := ask(msg.value.value);
      if decision.None? {
        outcome := Errored;
      } else {
        var target;
        target, calls := ProcessEmailDecision(decision.value, id, mover, dryRun);
        outcome := Routed(target);
      }
    }
  }

  /** The loop of `process_imap_emails`, from the searched ids on. `results`
      is `None` when the cut batch is empty ("No emails to process"). */
  method ProcessImapEmails(ids: seq<string>, limit: int, todayOnly: bool, dryRun: bool,
                           fetch: Fetcher, isToday: IC.Message -> bool, ask: Advisor, mover: Mover)
    returns (results: Option<Results>, ghost outcomes: seq<Outcome>, ghost moves: seq<MoveCall>)
    ensures Batch(ids, limit) == [] <==> results.None?
    ensures |outcomes| == |Batch(ids, limit)|
    ensures results.Some? ==> results.value == TallyOf(outcomes)
    ensures forall k :: 0 <= k < |outcomes| ==>
              DecisionFits(outcomes[k], Batch(ids, limit)[k], fetch, todayOnly, isToday, ask, mover, dryRun)
    ensures dryRun ==> moves == []
    ensures |moves| <= |outcomes|
    ensures moves == LoopCalls(Batch(ids, limit), DecisionStep(fetch, todayOnly, isToday, ask, dryRun))
    ensures results.Some? ==> results.value.processed + results.value.errors <= |Batch(ids, limit)|
    ensures results.Some? && 0 <= limit ==> results.value.processed <= limit
    ensures results.Some? ==> results.value.moved == Total(results.value.byFolder) <= results.value.processed
  {
    var batch := Batch(ids, limit);
    outcomes, moves := [], [];
    if batch == [] {
      return None, outcomes, moves;
    }
    var tally := Fresh;
    ghost var step := DecisionStep(fetch, todayOnly, isToday, ask, dryRun);
    TallyOfEmpty();
    for i := 0 to |batch|
      invariant |outcomes| == i
      invariant tally == TallyOf(outcomes)
      invariant forall k :: 0 <= k < i ==>
                  DecisionFits(outcomes[k], batch[k], fetch, todayOnly, isToday, ask, mover, dryRun)
      invariant moves == LoopCalls(batch[..i], step)
    {
      var outcome, calls := ProcessOne(batch[i], fetch, todayOnly, isToday, ask, mover, dryRun);
      LoopCallsStep(batch, i, step);
      assert step(batch[i]) == calls;
      moves := moves + calls;
      TallyStep(outcomes, outcome);
      FitsExtend(outcomes, outcome, batch, fetch, todayOnly, isToday, ask, mover, dryRun);
      tally := Advance(tally, outcome);
      outcomes := outcomes + [outcome];
    }
    assert batch[..|batch|] == batch;
    DecisionLoopCalls(batch, fetch, todayOnly, isToday, ask, dryRun);
    results := Some(tally);
    Summary(outcomes);
  }
}
