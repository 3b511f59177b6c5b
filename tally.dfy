/**
 * The summary both batch loops keep: `processed`, `moved`, `errors` and the
 * per-folder counts `by_folder`. Each message of a batch ends in one
 * outcome, and the summary is defined here by counting outcomes, so that the
 * loops, which update the counters in place, can be proved against it.
 */
module Tally {
  import opened Wrappers
  import opened Routing

  /** How the processing of one message ended. */
  datatype Outcome =
    | FetchFailed                    // `get_email` gave nothing: one error
    | Skipped                        // the date filter skipped it: no counter moves
    | Errored                        // an exception inside the loop body: one error
    | Routed(target: Option<Folder>) // processed; moved when a folder came back

  /** The `results` dictionary. */
  datatype Results = Results(processed: nat, moved: nat, errors: nat, byFolder: map<Folder, nat>)

  const Fresh: Results := Results(0, 0, 0, map[])

  /** `by_folder.get(folder, 0)`. */
  function Get(m: map<Folder, nat>, f: Folder): nat {
    if f in m then m[f] else 0
  }

  /** The sum of the per-folder counts. */
  function Total(m: map<Folder, nat>): nat {
    Get(m, Archives) + Get(m, Important) + Get(m, Newsletters) + Get(m, Spam) + Get(m, Trash)
  }

  /** The number of outcomes satisfying `p`. */
  function CountWhere(os: seq<Outcome>, p: Outcome -> bool): (n: nat)
    ensures n <= |os|
  {
    if os == [] then 0 else CountWhere(os[..|os| - 1], p) + (if p(os[|os| - 1]) then 1 else 0)
  }

  predicate IsProcessed(o: Outcome) { o.Routed? }
  predicate IsMoved(o: Outcome) { o.Routed? && o.target.Some? }
  predicate IsError(o: Outcome) { o == FetchFailed || o == Errored }
  predicate IsSkipped(o: Outcome) { o == Skipped }

  function MovedTo(f: Folder): Outcome -> bool {
    o => o == Routed(Some(f))
  }

  /** The counter updates of one loop iteration ending in `o`. */
  function Advance(r: Results, o: Outcome): Results {
    match o
    case Routed(Some(f)) =>
      r.(processed := r.processed + 1, moved := r.moved + 1, byFolder := r.byFolder[f := Get(r.byFolder, f) + 1])
    case Routed(None) => r.(processed := r.processed + 1)
    case Skipped => r
    case _ => r.(errors := r.errors + 1)
  }

  /** What one iteration does to the counters: `processed`, `moved` and
      `errors` each grow by one exactly for their kind of outcome, and the
      count of folder `f` grows by one exactly when the message was moved
      there, the key appearing with it. */
  lemma AdvanceMeaning(r: Results, o: Outcome, f: Folder)
    ensures Advance(r, o).processed == r.processed + (if IsProcessed(o) then 1 else 0)
    ensures Advance(r, o).moved == r.moved + (if IsMoved(o) then 1 else 0)
    ensures Advance(r, o).errors == r.errors + (if IsError(o) then 1 else 0)
    ensures Get(Advance(r, o).byFolder, f) == Get(r.byFolder, f) + (if o == Routed(Some(f)) then 1 else 0)
    ensures f in Advance(r, o).byFolder <==> f in r.byFolder || o == Routed(Some(f))
  {
  }

  /** The summary after a sequence of outcomes, starting from zero counters. */
  function TallyOf(os: seq<Outcome>): Results {
    if os == [] then Fresh else Advance(TallyOf(os[..|os| - 1]), os[|os| - 1])
  }

  lemma CountWhereAppend(os: seq<Outcome>, o: Outcome, p: Outcome -> bool)
    ensures CountWhere(os + [o], p) == CountWhere(os, p) + (if p(o) then 1 else 0)
  {
    assert (os + [o])[..|os|] == os;
  }

  /** One more outcome moves the counters the way the loop bodies do. */
  lemma TallyStep(os: seq<Outcome>, o: Outcome)
    ensures TallyOf(os + [o]) == Advance(TallyOf(os), o)
  {
    assert (os + [o])[..|os|] == os;
  }

  lemma TallyOfEmpty()
    ensures TallyOf([]) == Fresh
  {
  }

  /** `processed`, `moved` and `errors` count the routed, the moved and the
      failed messages. */
  lemma {:induction false} TallyCounts(os: seq<Outcome>)
    ensures TallyOf(os).processed == CountWhere(os, IsProcessed)
    ensures TallyOf(os).moved == CountWhere(os, IsMoved)
    ensures TallyOf(os).errors == CountWhere(os, IsError)
  {
    if os != [] {
      TallyCounts(os[..|os| - 1]);
    }
  }

  /** `by_folder` counts exactly the messages moved to each folder, and has
      no key for a folder nothing was moved to. */
  lemma {:induction false} FolderCountsMeaning(os: seq<Outcome>, f: Folder)
    ensures Get(TallyOf(os).byFolder, f) == CountWhere(os, MovedTo(f))
    ensures f in TallyOf(os).byFolder <==> CountWhere(os, MovedTo(f)) > 0
  {
    if os != [] {
      FolderCountsMeaning(os[..|os| - 1], f);
      AdvanceMeaning(TallyOf(os[..|os| - 1]), os[|os| - 1], f);
    }
  }

  /** Counting one more message under a folder adds one to the total. */
  lemma TotalIncrement(m: map<Folder, nat>, g: Folder)
    ensures Total(m[g := Get(m, g) + 1]) == Total(m) + 1
  {
    match g
    case Archives =>
    case Important =>
    case Newsletters =>
    case Spam =>
    case Trash =>
  }

  /** Every moved message is counted under exactly one folder: the sum of
      `by_folder` is `moved`. */
  lemma {:induction false} MovedIsFolderTotal(os: seq<Outcome>)
    ensures Total(TallyOf(os).byFolder) == TallyOf(os).moved
  {
    if os != [] {
      var front, o := os[..|os| - 1], os[|os| - 1];
      MovedIsFolderTotal(front);
      if IsMoved(o) {
        TotalIncrement(TallyOf(front).byFolder, o.target.value);
      }
    }
  }

  lemma {:induction false} MovedAtMostProcessed(os: seq<Outcome>)
    ensures TallyOf(os).moved <= TallyOf(os).processed
  {
    if os != [] {
      MovedAtMostProcessed(os[..|os| - 1]);
    }
  }

  /** Every outcome moves exactly one of `processed`, `errors` or the
      (uncounted) skips. */
  lemma {:induction false} OutcomesPartition(os: seq<Outcome>)
    ensures TallyOf(os).processed + TallyOf(os).errors + CountWhere(os, IsSkipped) == |os|
  {
    if os != [] {
      OutcomesPartition(os[..|os| - 1]);
    }
  }
  /** The facts the summary lines rest on, for a loop that skips nothing. */
  lemma SummaryWithoutSkips(os: seq<Outcome>)
    requires forall k :: 0 <= k < |os| ==> os[k] != Skipped
    ensures TallyOf(os).processed + TallyOf(os).errors == |os|
    ensures TallyOf(os).moved == Total(TallyOf(os).byFolder) <= TallyOf(os).processed
  {
    OutcomesPartition(os);
    NoSkips(os);
    MovedIsFolderTotal(os);
    MovedAtMostProcessed(os);
  }

  lemma {:induction false} NoSkips(os: seq<Outcome>)
    requires forall k :: 0 <= k < |os| ==> os[k] != Skipped
    ensures CountWhere(os, IsSkipped) == 0
  {
    if os != [] {
      NoSkips(os[..|os| - 1]);
    }
  }

  /** The summary facts for any loop. */
  lemma Summary(os: seq<Outcome>)
    ensures TallyOf(os).processed + TallyOf(os).errors <= |os|
    ensures TallyOf(os).moved == Total(TallyOf(os).byFolder) <= TallyOf(os).processed
  {
    OutcomesPartition(os);
    MovedIsFolderTotal(os);
    MovedAtMostProcessed(os);
  }
}
