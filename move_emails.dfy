/**
 * The selection and move loops of move_emails.py. `filter_emails_by_content`
 * walks the searched ids in order, fetching each message and keeping the ids
 * whose subject and sender match the given patterns, until `limit` ids are
 * kept; `main` then moves the kept ids one by one and counts the successes.
 * Regular-expression matching is a parameter.
 */
module MoveEmails {
  import opened Wrappers
  import opened PyText
  import IC = ImapConnector
  import opened Routing
  import Flag

  /** `pattern.search(text)` succeeds. */
  type Matcher = (string, string) -> bool

  /** A pattern takes part only when it is set and not empty (`if subject_pattern`). */
  predicate PatternGiven(pattern: Option<string>) {
    pattern.Some? && pattern.value != ""
  }

  /** What examining one id gives. */
  datatype Verdict = Escapes | Rejected | Accepted

  /** One iteration of the filter loop: an escaped fetch propagates, an empty
      fetch is skipped, and a message is kept when every given pattern
      matches its header (a missing header reads as ""). */
  function VerdictOf(id: string, fetch: Flag.Fetcher, subjectPattern: Option<string>,
                     senderPattern: Option<string>, matches: Matcher): (v: Verdict)
    ensures v == Escapes <==> fetch(id).Escaped?
    ensures v == Accepted ==> fetch(id).Normal? && IC.Present(fetch(id).value)
    ensures v == Accepted && PatternGiven(subjectPattern) ==>
              matches(subjectPattern.value, IC.HeaderValue(fetch(id).value.value.headers, "Subject", ""))
    ensures v == Accepted && PatternGiven(senderPattern) ==>
              matches(senderPattern.value, IC.HeaderValue(fetch(id).value.value.headers, "From", ""))
    ensures && fetch(id).Normal? && IC.Present(fetch(id).value)
            && (PatternGiven(subjectPattern) ==>
                  matches(subjectPattern.value, IC.HeaderValue(fetch(id).value.value.headers, "Subject", "")))
            && (PatternGiven(senderPattern) ==>
                  matches(senderPattern.value, IC.HeaderValue(fetch(id).value.value.headers, "From", "")))
            ==> v == Accepted
  {
    match fetch(id)
    case Escaped => Escapes
    case Normal(m) =>
      if !IC.Present(m) then Rejected
      else
        var subject := IC.HeaderValue(m.value.headers, "Subject", "");
        var sender := IC.HeaderValue(m.value.headers, "From", "");
        var subjectOk := !PatternGiven(subjectPattern) || matches(subjectPattern.value, subject);
        var senderOk := !PatternGiven(senderPattern) || matches(senderPattern.value, sender);
        if subjectOk && senderOk then Accepted else Rejected
  }

  /** `VerdictOf` for every id. */
  function Judge(fetch: Flag.Fetcher, subjectPattern: Option<string>, senderPattern: Option<string>,
                 matches: Matcher): string -> Verdict
  {
    id => VerdictOf(id, fetch, subjectPattern, senderPattern, matches)
  }

  /** The outcome of the filter loop and the number of ids it fetched. */
  datatype Scan = Scan(result: IC.Completion<seq<string>>, examined: nat)

  /** The filter loop as a recursion: stop when `room` ids have been kept or
      the ids run out; otherwise examine the next id. */
  function Select(ids: seq<string>, room: int, verdict: string -> Verdict): (s: Scan)
    ensures s.examined <= |ids|
    decreases |ids|
  {
    if room <= 0 || ids == [] then Scan(IC.Normal([]), 0)
    else
      match verdict(ids[0])
      case Escapes => Scan(IC.Escaped, 1)
      case Rejected =>
        var rest := Select(ids[1..], room, verdict);
        Scan(rest.result, rest.examined + 1)
      case Accepted =>
        var rest := Select(ids[1..], room - 1, verdict);
        Scan(if rest.result.Normal? then IC.Normal([ids[0]] + rest.result.value) else IC.Escaped,
             rest.examined + 1)
  }

  lemma ResumeNothing(s: Scan)
    ensures Resume([], 0, s) == s
  {
    if s.result.Normal? {
      assert [] + s.result.value == s.result.value;
    }
  }

  /** `kept` followed by what the scan of the remaining ids gives. */
  function Resume(kept: seq<string>, done: nat, rest: Scan): Scan {
    Scan(if rest.result.Normal? then IC.Normal(kept + rest.result.value) else IC.Escaped, done + rest.examined)
  }

  /** The state of the filter loop after `i` ids, `kept` of them kept:
      finishing the scan from there gives what the whole scan gives. */
  ghost predicate ScanFrom(ids: seq<string>, limit: int, verdict: string -> Verdict, kept: seq<string>, i: nat)
    requires i <= |ids|
  {
    Select(ids, limit, verdict) == Resume(kept, i, Select(ids[i..], limit - |kept|, verdict))
  }

  /** One iteration of the filter loop that does not stop it. */
  lemma ResumeStep(kept: seq<string>, kept': seq<string>, ids: seq<string>, i: nat, limit: int,
                    verdict: string -> Verdict)
    requires i < |ids| && |kept| < limit && verdict(ids[i]) != Escapes
    requires kept' == if verdict(ids[i]) == Accepted then kept + [ids[i]] else kept
    ensures ScanFrom(ids, limit, verdict, kept, i) ==> ScanFrom(ids, limit, verdict, kept', i + 1)
  {
    assert ids[i..][0] == ids[i] && ids[i..][1..] == ids[i + 1..];
    if verdict(ids[i]) == Accepted {
      var rest := Select(ids[i + 1..], limit - |kept| - 1, verdict);
      if rest.result.Normal? {
        assert kept + ([ids[i]] + rest.result.value) == kept + [ids[i]] + rest.result.value;
      }
    }
  }

  /** The ids of `s` that `verdict` accepts, in order. */
  function Kept(s: seq<string>, verdict: string -> Verdict): (r: seq<string>)
    ensures |r| <= |s|
    ensures forall k :: 0 <= k < |r| ==> verdict(r[k]) == Accepted
  {
    if s == [] then [] else (if verdict(s[0]) == Accepted then [s[0]] else []) + Kept(s[1..], verdict)
  }

  /** `a` is `b` with some elements left out. */
  predicate Subsequence(a: seq<string>, b: seq<string>)
    decreases |b|
  {
    if a == [] then true
    else if b == [] then false
    else if a[0] == b[0] then Subsequence(a[1..], b[1..])
    else Subsequence(a, b[1..])
  }

  lemma {:induction false} KeptIsSubsequence(s: seq<string>, verdict: string -> Verdict)
    ensures Subsequence(Kept(s, verdict), s)
  {
    if s != [] {
      var rest := Kept(s[1..], verdict);
      KeptIsSubsequence(s[1..], verdict);
      if verdict(s[0]) == Accepted {
        assert Kept(s, verdict) == [s[0]] + rest && ([s[0]] + rest)[1..] == rest;
      } else {
        assert Kept(s, verdict) == rest;
        SubsequenceOfTail(rest, s);
      }
    }
  }

  lemma {:induction false} SubsequenceOfTail(a: seq<string>, b: seq<string>)
    requires b != [] && Subsequence(a, b[1..])
    ensures Subsequence(a, b)
    decreases |b|, 0
  {
    if a != [] && a[0] == b[0] {
      SubsequenceDropFirst(a, b[1..]);
    }
  }

  /** Dropping the first element keeps a subsequence a subsequence. */
  lemma {:induction false} SubsequenceDropFirst(a: seq<string>, b: seq<string>)
    requires a != [] && Subsequence(a, b)
    ensures Subsequence(a[1..], b)
    decreases |b|, 1
  {
    if a[0] == b[0] {
      if a[1..] != [] {
        SubsequenceOfTail(a[1..], b);
      }
    } else {
      SubsequenceDropFirst(a, b[1..]);
      if a[1..] != [] {
        SubsequenceOfTail(a[1..], b);
      }
    }
  }

  lemma {:induction false} SubsequenceOfPrefix(a: seq<string>, b: seq<string>, n: nat)
    requires n <= |b| && Subsequence(a, b[..n])
    ensures Subsequence(a, b)
    decreases n
  {
    if a != [] {
      assert b[..n] != [];
      if a[0] == b[0] {
        assert b[..n][1..] == b[1..][..n - 1];
        SubsequenceOfPrefix(a[1..], b[1..], n - 1);
      } else {
        assert b[..n][1..] == b[1..][..n - 1];
        SubsequenceOfPrefix(a, b[1..], n - 1);
      }
    }
  }

  /** What the scan keeps are exactly the accepted ids among those it
      fetched, and at most `room` of them. */
  lemma {:induction false} SelectMeaning(ids: seq<string>, room: int, verdict: string -> Verdict)
    ensures var s := Select(ids, room, verdict);
            && (s.result.Normal? ==> s.result.value == Kept(ids[..s.examined], verdict))
            && (s.result.Normal? ==> |s.result.value| <= (if room <= 0 then 0 else room))
    decreases |ids|
  {
    var s := Select(ids, room, verdict);
    if room <= 0 || ids == [] {
      assert ids[..0] == [];
    } else {
      var tail := ids[1..];
      assert ids[..s.examined][1..] == tail[..s.examined - 1];
      match verdict(ids[0])
      case Escapes =>
      case Rejected =>
        SelectMeaning(tail, room, verdict);
      case Accepted =>
        SelectMeaning(tail, room - 1, verdict);
    }
  }

  /** The scan fetches no id it does not need: before the last fetch fewer
      than `room` ids were kept, and it stops before the end only because
      `room` ids were kept or the last fetch escaped. */
  lemma {:induction false} SelectStops(ids: seq<string>, room: int, verdict: string -> Verdict)
    ensures var s := Select(ids, room, verdict);
            && (s.examined > 0 ==> |Kept(ids[..s.examined - 1], verdict)| < room)
            && (s.result.Normal? && s.examined < |ids| ==> |s.result.value| >= room)
            && (s.result.Escaped? ==> s.examined > 0 && verdict(ids[s.examined - 1]) == Escapes)
    decreases |ids|
  {
    var s := Select(ids, room, verdict);
    if room > 0 && ids != [] {
      var tail := ids[1..];
      if s.examined > 1 {
        assert ids[..s.examined - 1][1..] == tail[..s.examined - 2];
      } else {
        assert ids[..0] == [];
      }
      match verdict(ids[0])
      case Escapes =>
      case Rejected =>
        SelectStops(tail, room, verdict);
      case Accepted =>
        SelectStops(tail, room - 1, verdict);
    }
  }

  /** The kept ids come from `ids`, in order, and each of them was accepted. */
  lemma SelectKeepsOrder(ids: seq<string>, room: int, verdict: string -> Verdict)
    requires Select(ids, room, verdict).result.Normal?
    ensures Subsequence(Select(ids, room, verdict).result.value, ids)
    ensures forall k :: 0 <= k < |Select(ids, room, verdict).result.value| ==>
              verdict(Select(ids, room, verdict).result.value[k]) == Accepted
  {
    var s := Select(ids, room, verdict);
    SelectMeaning(ids, room, verdict);
    KeptIsSubsequence(ids[..s.examined], verdict);
    SubsequenceOfPrefix(s.result.value, ids, s.examined);
  }

  /** When no fetch escapes, the filter is greedy: it keeps the first `room`
      accepted ids. */
  lemma {:induction false} SelectIsGreedy(ids: seq<string>, room: int, verdict: string -> Verdict)
    requires forall k :: 0 <= k < |ids| ==> verdict(ids[k]) != Escapes
    ensures Select(ids, room, verdict).result ==
              IC.Normal(if room <= 0 then [] else SliceTo(Kept(ids, verdict), room))
    decreases |ids|
  {
    if room > 0 && ids != [] {
      var tail := ids[1..];
      assert forall k :: 0 <= k < |tail| ==> tail[k] == ids[k + 1];
      var rest := Kept(tail, verdict);
      if verdict(ids[0]) == Accepted {
        SelectIsGreedy(tail, room - 1, verdict);
        assert Kept(ids, verdict) == [ids[0]] + rest;
        SliceToCons(ids[0], rest, room);
        if room == 1 {
          assert SliceTo(rest, 0) == [] && [ids[0]] + [] == [ids[0]];
        }
      } else {
        assert verdict(ids[0]) == Rejected && Kept(ids, verdict) == rest;
        SelectIsGreedy(tail, room, verdict);
      }
    }
  }

  /** `filter_emails_by_content`. `fetched` lists the ids whose message was
      fetched, in order. */
  method FilterEmailsByContent(ids: seq<string>, subjectPattern: Option<string>, senderPattern: Option<string>,
                               limit: int, fetch: Flag.Fetcher, matches: Matcher)
    returns (filtered: IC.Completion<seq<string>>, ghost fetched: seq<string>)
    ensures !PatternGiven(subjectPattern) && !PatternGiven(senderPattern) ==> filtered == IC.Normal(SliceTo(ids, limit))
    ensures !PatternGiven(subjectPattern) && !PatternGiven(senderPattern) ==> fetched == []
    ensures PatternGiven(subjectPattern) || PatternGiven(senderPattern) ==>
              filtered == Select(ids, limit, Judge(fetch, subjectPattern, senderPattern, matches)).result
    ensures PatternGiven(subjectPattern) || PatternGiven(senderPattern) ==>
              fetched == ids[..Select(ids, limit, Judge(fetch, subjectPattern, senderPattern, matches)).examined]
  {
    if !PatternGiven(subjectPattern) && !PatternGiven(senderPattern) {
      return IC.Normal(SliceTo(ids, limit)), [];
    }
    ghost var verdict := Judge(fetch, subjectPattern, senderPattern, matches);
    var kept: seq<string> := [];
    fetched := [];
    var i := 0;
    assert ids[i..] == ids;
    ResumeNothing(Select(ids, limit, verdict));
    while i < |ids|
      invariant 0 <= i <= |ids| && fetched == ids[..i]
      invariant ScanFrom(ids, limit, verdict, kept, i)
    {
      if |kept| >= limit {
        break;
      }
      var id := ids[i];
      var msg := fetch(id);
      fetched := fetched + [id];
      assert ids[..i + 1] == fetched;
      assert verdict(id) == VerdictOf(id, fetch, subjectPattern, senderPattern, matches);
      if msg.Escaped? {
        assert ScanFrom(ids, limit, verdict, kept, i);
        assert ids[i..][0] == id;
        return IC.Escaped, fetched;
      }
      if !IC.Present(msg.value) {
        assert verdict(id) == Rejected;
        ResumeStep(kept, kept, ids, i, limit, verdict);
        i := i + 1;
        continue;
      }
      var subject := IC.HeaderValue(msg.value.value.headers, "Subject", "");
      var sender := IC.HeaderValue(msg.value.value.headers, "From", "");
      var subjectMatch := true;
      var senderMatch := true;
      if PatternGiven(subjectPattern) {
        subjectMatch := matches(subjectPattern.value, subject);
      }
      if PatternGiven(senderPattern) {
        senderMatch := matches(senderPattern.value, sender);
      }
      assert verdict(id) == (if subjectMatch && senderMatch then Accepted else Rejected);
      ghost var before := kept;
      if subjectMatch && senderMatch {
        kept := kept + [id];
      }
      ResumeStep(before, kept, ids, i, limit, verdict);
      i := i + 1;
    }
    if i == |ids| {
      assert ids[i..] == [];
    }
    assert ScanFrom(ids, limit, verdict, kept, i);
    assert Select(ids[i..], limit - |kept|, verdict) == Scan(IC.Normal([]), 0);
    assert kept + [] == kept;
    filtered := IC.Normal(kept);
  }

  /** The move loop of `main`: the number of kept ids whose message could be
      fetched and whose move succeeded, or `Escaped` when a fetch escaped. */
  function MoveCount(filtered: seq<string>, destination: string, fetch: Flag.Fetcher, mover: Mover)
    : (r: IC.Completion<nat>)
    ensures r.Normal? ==> r.value <= |filtered|
    ensures r.Escaped? <==> exists k :: 0 <= k < |filtered| && fetch(filtered[k]).Escaped?
  {
    if filtered == [] then IC.Normal(0)
    else
      var step := if fetch(filtered[0]).Escaped? then IC.Escaped
                  else if IC.Present(fetch(filtered[0]).value) && mover(filtered[0], destination) then IC.Normal(1)
                  else IC.Normal(0);
      var rest := MoveCount(filtered[1..], destination, fetch, mover);
      assert forall k :: 1 <= k < |filtered| ==> filtered[k] == filtered[1..][k - 1];
      if step.Escaped? then IC.Escaped
      else if rest.Escaped? then IC.Escaped
      else IC.Normal(step.value + rest.value)
  }

  /** The calls of `move_email` the move loop makes: one to `destination` for
      each id whose message was fetched and present, in order, up to the first
      fetch that escapes. */
  ghost function MoveCallsOf(filtered: seq<string>, destination: string, fetch: Flag.Fetcher)
    : seq<MoveCall>
  {
    if filtered == [] || fetch(filtered[0]).Escaped? then []
    else
      (if IC.Present(fetch(filtered[0]).value) then [MoveCall(filtered[0], destination)] else [])
      + MoveCallsOf(filtered[1..], destination, fetch)
  }

  /** At most one call per filtered id, each to `destination`, and each for an
      id among the filtered ones whose message was fetched and present. */
  lemma {:induction false} MoveCallsMeaning(filtered: seq<string>, destination: string, fetch: Flag.Fetcher)
    ensures |MoveCallsOf(filtered, destination, fetch)| <= |filtered|
    ensures forall call <- MoveCallsOf(filtered, destination, fetch) :: call.folder == destination
    ensures forall call <- MoveCallsOf(filtered, destination, fetch) ::
              call.emailId in filtered && fetch(call.emailId).Normal? && IC.Present(fetch(call.emailId).value)
  {
    if filtered != [] && fetch(filtered[0]).Normal? {
      MoveCallsMeaning(filtered[1..], destination, fetch);
      assert forall id <- filtered[1..] :: id in filtered;
    }
  }

  /** Every success of the move loop is one of its calls; and when every
      filtered message is fetched and present, there is exactly one call per
      filtered id, in the order of the ids. */
  lemma {:induction false} MoveCallsCover(filtered: seq<string>, destination: string, fetch: Flag.Fetcher, mover: Mover)
    ensures MoveCount(filtered, destination, fetch, mover).Normal? ==>
              MoveCount(filtered, destination, fetch, mover).value <= |MoveCallsOf(filtered, destination, fetch)|
    ensures (forall k :: 0 <= k < |filtered| ==> fetch(filtered[k]).Normal? && IC.Present(fetch(filtered[k]).value)) ==>
              |MoveCallsOf(filtered, destination, fetch)| == |filtered|
              && forall k :: 0 <= k < |filtered| ==>
                   MoveCallsOf(filtered, destination, fetch)[k] == MoveCall(filtered[k], destination)
  {
    if filtered != [] {
      MoveCallsCover(filtered[1..], destination, fetch, mover);
      assert forall k :: 1 <= k < |filtered| ==> filtered[k] == filtered[1..][k - 1];
    }
  }

  /** The `success_count` loop of `main`; `moves` records the calls of
      `move_email`, as `MoveCallsOf` lists them. */
  method CountMoves(filtered: seq<string>, folder: Folder, fetch: Flag.Fetcher, mover: Mover)
    returns (successCount: IC.Completion<nat>, ghost moves: seq<MoveCall>)
    ensures successCount == MoveCount(filtered, folder.Name(), fetch, mover)
    ensures successCount.Normal? ==> successCount.value <= |filtered|
    ensures |moves| <= |filtered|
    ensures forall call <- moves :: call.folder == folder.Name()
    ensures moves == MoveCallsOf(filtered, folder.Name(), fetch)
  {
    var destination := folder.Name();
    var count: nat := 0;
    moves := [];
    var i := 0;
    assert filtered[i..] == filtered;
    while i < |filtered|
      invariant 0 <= i <= |filtered|
      invariant CountFrom(filtered, destination, fetch, mover, count, i)
      invariant CallsFrom(filtered, destination, fetch, moves, i)
    {
      var id := filtered[i];
      var msg := fetch(id);
      if msg.Escaped? {
        CountStep(filtered, destination, fetch, mover, count, i);
        CallsStep(filtered, destination, fetch, moves, i);
        MoveCallsMeaning(filtered, destination, fetch);
        return IC.Escaped, moves;
      }
      CountStep(filtered, destination, fetch, mover, count, i);
      CallsStep(filtered, destination, fetch, moves, i);
      if IC.Present(msg.value) {
        var ok := mover(id, destination);
        moves := moves + [MoveCall(id, destination)];
        if ok {
          count := count + 1;
        }
      }
      i := i + 1;
    }
    assert filtered[i..] == [];
    assert moves + [] == moves;
    MoveCallsMeaning(filtered, destination, fetch);
    successCount := IC.Normal(count);
  }

  /** The state of the move loop after `i` ids with `count` successes:
      finishing the loop from there gives what the whole loop gives. */
  ghost predicate CountFrom(filtered: seq<string>, destination: string, fetch: Flag.Fetcher, mover: Mover,
                            count: nat, i: nat)
    requires i <= |filtered|
  {
    MoveCount(filtered, destination, fetch, mover) == AddCount(count, MoveCount(filtered[i..], destination, fetch, mover))
  }

  /** One iteration of the move loop. */
  lemma CountStep(filtered: seq<string>, destination: string, fetch: Flag.Fetcher, mover: Mover,
                  count: nat, i: nat)
    requires i < |filtered| && CountFrom(filtered, destination, fetch, mover, count, i)
    ensures fetch(filtered[i]).Escaped? ==> MoveCount(filtered, destination, fetch, mover) == IC.Escaped
    ensures fetch(filtered[i]).Normal? ==>
              var id := filtered[i];
              CountFrom(filtered, destination, fetch, mover,
                        count + (if IC.Present(fetch(id).value) && mover(id, destination) then 1 else 0), i + 1)
  {
    assert filtered[i..][0] == filtered[i] && filtered[i..][1..] == filtered[i + 1..];
  }

  /** The call log of the move loop after `i` ids: the calls still to come
      complete it to the calls of the whole loop. */
  ghost predicate CallsFrom(filtered: seq<string>, destination: string, fetch: Flag.Fetcher,
                            moves: seq<MoveCall>, i: nat)
    requires i <= |filtered|
  {
    MoveCallsOf(filtered, destination, fetch) == moves + MoveCallsOf(filtered[i..], destination, fetch)
  }

  /** One iteration of the move loop, as seen by the call log. */
  lemma CallsStep(filtered: seq<string>, destination: string, fetch: Flag.Fetcher, moves: seq<MoveCall>, i: nat)
    requires i < |filtered| && CallsFrom(filtered, destination, fetch, moves, i)
    ensures fetch(filtered[i]).Escaped? ==> MoveCallsOf(filtered, destination, fetch) == moves
    ensures fetch(filtered[i]).Normal? && IC.Present(fetch(filtered[i]).value) ==>
              CallsFrom(filtered, destination, fetch, moves + [MoveCall(filtered[i], destination)], i + 1)
    ensures fetch(filtered[i]).Normal? && !IC.Present(fetch(filtered[i]).value) ==>
              CallsFrom(filtered, destination, fetch, moves, i + 1)
  {
    assert filtered[i..][0] == filtered[i] && filtered[i..][1..] == filtered[i + 1..];
    assert moves + [] == moves;
  }

  /** `count` plus what the remaining iterations add. */
  function AddCount(count: nat, rest: IC.Completion<nat>): IC.Completion<nat> {
    if rest.Normal? then IC.Normal(count + rest.value) else IC.Escaped
  }
}
