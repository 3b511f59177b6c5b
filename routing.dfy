/**
 * Routing a model's decision text to a destination folder. The decision is
 * free text such as `Action: archive. Reason: ...`; the action token is the
 * group of the first match of `Action:\s*(\w+)`, lower-cased, and a table of
 * rules picks the folder. Two variants of the table exist, one in
 * `process_email_decision` and one in `process_email_action`.
 */
module Routing {
  import opened Wrappers
  import opened PyText

  // ---------------------------------------------------------------------------
  // Folders
  // ---------------------------------------------------------------------------

  /** The five destination folders. */
  datatype Folder = Archives | Important | Newsletters | Spam | Trash {
    /** The mailbox name the folder is moved to. */
    function Name(): string {
      match this
      case Archives => "Archives"
      case Important => "INBOX/Important"
      case Newsletters => "Newsletters"
      case Spam => "Spam"
      case Trash => "Trash"
    }
  }

  /** The destinations `move_emails` accepts, in its order. */
  const AvailableFolders: seq<string> := ["INBOX/Important", "Archives", "Newsletters", "Spam", "Trash"]

  /** The destinations `move_emails` accepts are exactly the names of the
      five folders, and each name belongs to one folder only. */
  lemma FoldersAreDestinations()
    ensures forall f: Folder :: f.Name() in AvailableFolders
    ensures forall f: Folder, g: Folder :: f.Name() == g.Name() ==> f == g
    ensures forall k :: 0 <= k < |AvailableFolders| ==> exists f: Folder :: f.Name() == AvailableFolders[k]
  {
    assert Important.Name() == AvailableFolders[0];
    assert Archives.Name() == AvailableFolders[1];
    assert Newsletters.Name() == AvailableFolders[2];
    assert Spam.Name() == AvailableFolders[3];
    assert Trash.Name() == AvailableFolders[4];
  }

  // ---------------------------------------------------------------------------
  // The action token: `re.search(r"Action:\s*(\w+)", decision)`
  // ---------------------------------------------------------------------------

  const Label: string := "Action:"

  /** The pattern matches at `start` and its group is `s[groupStart..groupEnd]`:
      the label, a (possibly empty) run of whitespace, then a maximal non-empty
      run of word characters (both quantifiers are greedy). */
  ghost predicate MatchSpan(s: string, start: int, groupStart: int, groupEnd: int) {
    && OccursAt(s, Label, start)
    && start + |Label| <= groupStart < groupEnd <= |s|
    && (forall m :: start + |Label| <= m < groupStart ==> IsSpace(s[m]))
    && (forall m :: groupStart <= m < groupEnd ==> IsWordChar(s[m]))
    && (groupEnd == |s| || !IsWordChar(s[groupEnd]))
  }

  /** No match starts before `i`. */
  ghost predicate NoMatchBefore(s: string, i: int) {
    forall start, j, k :: 0 <= start < i ==> !MatchSpan(s, start, j, k)
  }

  datatype Span = Span(start: nat, groupStart: nat, groupEnd: nat)

  /** The match at position `i`, if the pattern matches there. */
  function MatchAt(s: string, i: nat): (r: Option<Span>)
    ensures r.Some? ==> r.value.start == i && MatchSpan(s, i, r.value.groupStart, r.value.groupEnd)
    ensures forall j, k :: MatchSpan(s, i, j, k) ==> r == Some(Span(i, j, k))
  {
    if !OccursAt(s, Label, i) then None
    else
      var j := RunEnd(s, i + |Label|, IsSpace);
      var k := RunEnd(s, j, IsWordChar);
      MatchSpanDetermined(s, i, j, k);
      if j == k then None else Some(Span(i, j, k))
  }

  /** Greedy matching leaves no choice: the group starts where the whitespace
      run ends and stops where the word run ends. */
  lemma MatchSpanDetermined(s: string, i: nat, j: nat, k: nat)
    requires OccursAt(s, Label, i)
    requires j == RunEnd(s, i + |Label|, IsSpace) && k == RunEnd(s, j, IsWordChar)
    ensures forall j', k' :: MatchSpan(s, i, j', k') ==> j' == j && k' == k
  {
    forall j', k' | MatchSpan(s, i, j', k')
      ensures j' == j && k' == k
    {
      assert IsWordChar(s[j']);
      RunEndUnique(s, i + |Label|, IsSpace, j');
      RunEndUnique(s, j', IsWordChar, k');
    }
  }

  /** `re.search` from position `from`: the leftmost match at or after it. */
  function FindAction(s: string, from: nat): (r: Option<Span>)
    ensures r.Some? ==> from <= r.value.start
                        && MatchSpan(s, r.value.start, r.value.groupStart, r.value.groupEnd)
    ensures r.Some? ==> forall i, j, k :: from <= i < r.value.start ==> !MatchSpan(s, i, j, k)
    ensures r.None? ==> forall i, j, k :: from <= i ==> !MatchSpan(s, i, j, k)
    decreases |s| - from
  {
    if from + |Label| > |s| then None
    else
      match MatchAt(s, from)
      case Some(m) => Some(m)
      case None => FindAction(s, from + 1)
  }

  /** `action_match.group(1).lower()`, or `None` when the pattern does not
      occur. */
  function ActionToken(decision: string): (r: Option<string>)
    ensures r.None? <==> forall i, j, k :: !MatchSpan(decision, i, j, k)
    ensures r.Some? ==> exists i, j, k :: NoMatchBefore(decision, i) && MatchSpan(decision, i, j, k)
                                          && r.value == Lower(decision[j..k])
    ensures r.Some? ==> r.value != []
  {
    match FindAction(decision, 0)
    case None => None
    case Some(m) =>
      assert NoMatchBefore(decision, m.start);
      Some(Lower(decision[m.groupStart..m.groupEnd]))
  }

  /** A decision that starts with `Action: <word>` yields that word, lower-cased. */
  lemma {:induction false} ActionTokenAtStart(word: string, rest: string)
    requires word != [] && forall m :: 0 <= m < |word| ==> IsWordChar(word[m])
    requires rest == [] || !IsWordChar(rest[0])
    ensures ActionToken("Action: " + word + rest) == Some(Lower(word))
  {
    var s := "Action: " + word + rest;
    assert s[..|Label|] == Label;
    assert s[|Label|] == ' ';
    var j := RunEnd(s, |Label|, IsSpace);
    assert j == |Label| + 1 by {
      assert !IsSpace(s[|Label| + 1]) by {
        assert s[|Label| + 1] == word[0];
      }
      assert RunEnd(s, |Label| + 1, IsSpace) == |Label| + 1;
    }
    var k := |Label| + 1 + |word|;
    assert s[j..k] == word;
    assert MatchSpan(s, 0, j, k) by {
      forall m | j <= m < k
        ensures IsWordChar(s[m])
      {
        assert s[m] == word[m - j];
      }
      if k < |s| {
        assert s[k] == rest[0];
      }
    }
    assert NoMatchBefore(s, 0);
  }

  // ---------------------------------------------------------------------------
  // The two routing tables, as written
  // ---------------------------------------------------------------------------

  /** The if/elif chain of `process_email_decision`; `text` is the
      lower-cased decision. It is the first-match table `DecisionRules`. */
  function RouteDecision(action: string, text: string): (f: Option<Folder>)
    ensures f == FirstMatch(DecisionRules, action, text)
  {
    var rs := DecisionRules;
    FiresOne(rs[0], action, text);
    FiresTwo(rs[1], action, text);
    FiresTwo(rs[2], action, text);
    FiresTwo(rs[3], action, text);
    FiresTwo(rs[4], action, text);
    TableUnfold(rs, action, text);
    if action == "archive" then Some(Archives)
    else if action == "important" || (action == "flag" && Contains(text, "important")) then Some(Important)
    else if action == "newsletter" || (action == "flag" && Contains(text, "newsletter")) then Some(Newsletters)
    else if action == "spam" || Contains(text, "spam") then Some(Spam)
    else if action == "trash" || Contains(text, "trash") then Some(Trash)
    else None
  }

  /** The if/elif chain of `process_email_action`, where a `flag` token
      never falls through. It is the first-match table `ActionRules`. */
  function RouteAction(action: string, text: string): (f: Option<Folder>)
    ensures f == FirstMatch(ActionRules, action, text)
  {
    var rs := ActionRules;
    FiresOne(rs[0], action, text);
    FiresOne(rs[1], action, text);
    FiresOne(rs[2], action, text);
    FiresTwo(rs[3], action, text);
    FiresTwo(rs[4], action, text);
    TableUnfold(rs, action, text);
    if action == "archive" then Some(Archives)
    else if action == "flag" then
      if Contains(text, "newsletter") then Some(Newsletters) else Some(Important)
    else if action == "spam" || Contains(text, "spam") then Some(Spam)
    else if action == "trash" || Contains(text, "trash") then Some(Trash)
    else None
  }

  /** The folder `process_email_decision` picks for a decision text. */
  function DecisionFolder(decision: string): (f: Option<Folder>)
    ensures (forall i, j, k :: !MatchSpan(decision, i, j, k)) ==> f.None?
    ensures f.Some? ==> exists i, j, k :: MatchSpan(decision, i, j, k)
    ensures ActionToken(decision).Some? ==> f == FirstMatch(DecisionRules, ActionToken(decision).value, Lower(decision))
  {
    match ActionToken(decision)
    case None => None
    case Some(action) => RouteDecision(action, Lower(decision))
  }

  /** The folder `process_email_action` picks for a decision text. */
  function ActionFolder(decision: string): (f: Option<Folder>)
    ensures (forall i, j, k :: !MatchSpan(decision, i, j, k)) ==> f.None?
    ensures f.Some? ==> exists i, j, k :: MatchSpan(decision, i, j, k)
    ensures ActionToken(decision).Some? ==> f == FirstMatch(ActionRules, ActionToken(decision).value, Lower(decision))
  {
    match ActionToken(decision)
    case None => None
    case Some(action) => RouteAction(action, Lower(decision))
  }

  // ---------------------------------------------------------------------------
  // The tables as data: ordered rules, first match wins
  // ---------------------------------------------------------------------------

  /** One condition of a rule: the token equals a word; the token is `flag`
      and the text mentions a keyword; or the text mentions a keyword. */
  datatype Guard = Token(word: string) | FlagWith(keyword: string) | Mentions(keyword: string)

  /** A rule fires when any of its guards holds. */
  datatype Rule = Rule(guards: seq<Guard>, folder: Folder)

  predicate Holds(g: Guard, action: string, text: string) {
    match g
    case Token(w) => action == w
    case FlagWith(kw) => action == "flag" && Contains(text, kw)
    case Mentions(kw) => Contains(text, kw)
  }

  predicate Fires(r: Rule, action: string, text: string) {
    exists m :: 0 <= m < |r.guards| && Holds(r.guards[m], action, text)
  }

  /** The folder of the first rule that fires. */
  function FirstMatch(rules: seq<Rule>, action: string, text: string): Option<Folder>
  {
    if rules == [] then None
    else if Fires(rules[0], action, text) then Some(rules[0].folder)
    else FirstMatch(rules[1..], action, text)
  }

  /** `FirstMatch` gives none exactly when no rule fires, and otherwise the
      folder of a rule that fires with no rule before it firing. */
  lemma {:induction false} FirstMatchMeaning(rules: seq<Rule>, action: string, text: string)
    ensures FirstMatch(rules, action, text).None? <==> forall n :: 0 <= n < |rules| ==> !Fires(rules[n], action, text)
    ensures FirstMatch(rules, action, text).Some? ==>
              exists n :: 0 <= n < |rules| && Fires(rules[n], action, text)
                          && rules[n].folder == FirstMatch(rules, action, text).value
                          && forall m :: 0 <= m < n ==> !Fires(rules[m], action, text)
  {
    if rules != [] && !Fires(rules[0], action, text) {
      FirstMatchMeaning(rules[1..], action, text);
      assert forall n :: 1 <= n < |rules| ==> rules[n] == rules[1..][n - 1];
      var f := FirstMatch(rules[1..], action, text);
      if f.Some? {
        var n :| 0 <= n < |rules[1..]| && Fires(rules[1..][n], action, text)
                 && rules[1..][n].folder == f.value
                 && forall m :: 0 <= m < n ==> !Fires(rules[1..][m], action, text);
        assert Fires(rules[n + 1], action, text) && rules[n + 1].folder == f.value;
        assert forall m :: 0 <= m < n + 1 ==> !Fires(rules[m], action, text);
      }
    }
  }

  /** The table of `process_email_decision`, in its order. */
  const DecisionRules: seq<Rule> := [
    Rule([Token("archive")], Archives),
    Rule([Token("important"), FlagWith("important")], Important),
    Rule([Token("newsletter"), FlagWith("newsletter")], Newsletters),
    Rule([Token("spam"), Mentions("spam")], Spam),
    Rule([Token("trash"), Mentions("trash")], Trash)
  ]

  /** The table of `process_email_action`, in its order. */
  const ActionRules: seq<Rule> := [
    Rule([Token("archive")], Archives),
    Rule([FlagWith("newsletter")], Newsletters),
    Rule([Token("flag")], Important),
    Rule([Token("spam"), Mentions("spam")], Spam),
    Rule([Token("trash"), Mentions("trash")], Trash)
  ]

  lemma FiresTwo(r: Rule, action: string, text: string)
    requires |r.guards| == 2
    ensures Fires(r, action, text) <==> Holds(r.guards[0], action, text) || Holds(r.guards[1], action, text)
  {
    if Holds(r.guards[0], action, text) {
      assert Fires(r, action, text);
    } else if Holds(r.guards[1], action, text) {
      assert Fires(r, action, text);
    }
  }

  lemma FiresOne(r: Rule, action: string, text: string)
    requires |r.guards| == 1
    ensures Fires(r, action, text) <==> Holds(r.guards[0], action, text)
  {
    if Holds(r.guards[0], action, text) {
      assert Fires(r, action, text);
    }
  }

  /** A five-rule table, unfolded. */
  lemma TableUnfold(rs: seq<Rule>, action: string, text: string)
    requires |rs| == 5
    ensures FirstMatch(rs, action, text) ==
              if Fires(rs[0], action, text) then Some(rs[0].folder)
              else if Fires(rs[1], action, text) then Some(rs[1].folder)
              else if Fires(rs[2], action, text) then Some(rs[2].folder)
              else if Fires(rs[3], action, text) then Some(rs[3].folder)
              else if Fires(rs[4], action, text) then Some(rs[4].folder)
              else None
  {
    var r1 := rs[1..];
    var r2 := r1[1..];
    var r3 := r2[1..];
    var r4 := r3[1..];
    assert r1[0] == rs[1] && r2[0] == rs[2] && r3[0] == rs[3] && r4[0] == rs[4];
    assert r4[1..] == [];
    var m4 := if Fires(rs[4], action, text) then Some(rs[4].folder) else None;
    assert FirstMatch(r4, action, text) == m4;
    var m3 := if Fires(rs[3], action, text) then Some(rs[3].folder) else m4;
    assert FirstMatch(r3, action, text) == m3;
    var m2 := if Fires(rs[2], action, text) then Some(rs[2].folder) else m3;
    assert FirstMatch(r2, action, text) == m2;
    var m1 := if Fires(rs[1], action, text) then Some(rs[1].folder) else m2;
    assert FirstMatch(r1, action, text) == m1;
  }

  // ---------------------------------------------------------------------------
  // What the tables promise
  // ---------------------------------------------------------------------------

  /** Without a match of the pattern neither variant routes anywhere. */
  lemma NoActionNoFolder(decision: string)
    requires forall i, j, k :: !MatchSpan(decision, i, j, k)
    ensures DecisionFolder(decision).None? && ActionFolder(decision).None?
  {
  }

  /** Token `archive` routes to Archives in both variants, whatever the text mentions. */
  lemma ArchiveWins(text: string)
    ensures RouteDecision("archive", text) == Some(Archives)
    ensures RouteAction("archive", text) == Some(Archives)
  {
  }

  /** First match wins: `flag` with both keywords goes to INBOX/Important in
      `process_email_decision`, but to Newsletters in `process_email_action`. */
  lemma FlagWithBothKeywords(text: string)
    requires Contains(text, "important") && Contains(text, "newsletter")
    ensures RouteDecision("flag", text) == Some(Important)
    ensures RouteAction("flag", text) == Some(Newsletters)
  {
  }

  /** Any token not caught by the first three rules goes to Spam when the text
      mentions spam, else to Trash when it mentions trash, else nowhere. */
  lemma DecisionKeywordFallback(action: string, text: string)
    requires action != "archive" && action != "important" && action != "newsletter"
    requires action == "flag" ==> !Contains(text, "important") && !Contains(text, "newsletter")
    ensures RouteDecision(action, text) ==
              if action == "spam" || Contains(text, "spam") then Some(Spam)
              else if action == "trash" || Contains(text, "trash") then Some(Trash)
              else None
  {
  }

  /** `flag` with none of the four keywords: no folder in `process_email_decision`,
      INBOX/Important in `process_email_action`. */
  lemma FlagWithoutKeywords(text: string)
    requires !Contains(text, "important") && !Contains(text, "newsletter")
    requires !Contains(text, "spam") && !Contains(text, "trash")
    ensures RouteDecision("flag", text).None?
    ensures RouteAction("flag", text) == Some(Important)
  {
    assert "flag"[0] != "archive"[0] && "flag"[0] != "important"[0] && "flag"[0] != "newsletter"[0];
    assert "flag"[0] != "spam"[0] && "flag"[0] != "trash"[0];
  }

  /** In `process_email_action` a `flag` token always yields Newsletters or
      INBOX/Important, according to whether the text mentions newsletter. */
  lemma ActionFlagNeverFallsThrough(text: string)
    ensures RouteAction("flag", text) == (if Contains(text, "newsletter") then Some(Newsletters) else Some(Important))
    ensures RouteAction("flag", text) != None && RouteAction("flag", text) != Some(Spam)
            && RouteAction("flag", text) != Some(Trash)
  {
  }

  /** Tokens `important` and `newsletter` have no rule of their own in
      `process_email_action`: they reach Spam or Trash only through the
      keyword checks, and otherwise nowhere; `process_email_decision` routes
      them to their own folders. */
  lemma ActionIgnoresOwnTokens(action: string, text: string)
    requires action == "important" || action == "newsletter"
    ensures RouteAction(action, text) ==
              if Contains(text, "spam") then Some(Spam)
              else if Contains(text, "trash") then Some(Trash)
              else None
    ensures RouteDecision(action, text) == (if action == "important" then Some(Important) else Some(Newsletters))
  {
  }

  /** The variants agree on every token other than `flag`, `important` and
      `newsletter`. */
  lemma VariantsAgreeElsewhere(action: string, text: string)
    requires action != "flag" && action != "important" && action != "newsletter"
    ensures RouteDecision(action, text) == RouteAction(action, text)
  {
  }

  /** The variants can disagree only on `flag`, `important` and `newsletter`. */
  lemma VariantsDisagreeOnlyOnThreeTokens(decision: string)
    requires DecisionFolder(decision) != ActionFolder(decision)
    ensures ActionToken(decision).Some?
    ensures ActionToken(decision).value in {"flag", "important", "newsletter"}
  {
    if ActionToken(decision).Some? {
      var action := ActionToken(decision).value;
      if action != "flag" && action != "important" && action != "newsletter" {
        VariantsAgreeElsewhere(action, Lower(decision));
        assert false;
      }
    }
  }

  /** A spam mention outranks the trash token: `trash` whose text mentions spam
      goes to Spam in both variants. */
  lemma SpamMentionBeatsTrashToken(text: string)
    requires Contains(text, "spam")
    ensures RouteDecision("trash", text) == Some(Spam)
    ensures RouteAction("trash", text) == Some(Spam)
  {
  }

  // ---------------------------------------------------------------------------
  // Dispatch: dry run, or one call of `move_email`
  // ---------------------------------------------------------------------------

  /** `imap_connector.move_email(email_id, folder)`: whether the move succeeded. */
  type Mover = (string, string) -> bool

  datatype MoveCall = MoveCall(emailId: string, folder: string)

  /** The calls of `move_email` of a loop over `ids` whose iteration for `id`
      makes the calls `step(id)`, in the order of the ids. */
  ghost function LoopCalls(ids: seq<string>, step: string -> seq<MoveCall>): seq<MoveCall>
  {
    if ids == [] then [] else LoopCalls(ids[..|ids| - 1], step) + step(ids[|ids| - 1])
  }

  /** One more iteration adds its calls at the end. */
  lemma LoopCallsStep(ids: seq<string>, i: nat, step: string -> seq<MoveCall>)
    requires i < |ids|
    ensures LoopCalls(ids[..i + 1], step) == LoopCalls(ids[..i], step) + step(ids[i])
  {
    assert ids[..i + 1][..i] == ids[..i];
  }

  /** When each iteration makes at most one call, for its own id, the loop
      makes at most one call per id, each for one of the ids, and none when
      no iteration calls. */
  lemma {:induction false} LoopCallsMeaning(ids: seq<string>, step: string -> seq<MoveCall>)
    requires forall k :: 0 <= k < |ids| ==> |step(ids[k])| <= 1
    requires forall k :: 0 <= k < |ids| ==> forall call <- step(ids[k]) :: call.emailId == ids[k]
    ensures |LoopCalls(ids, step)| <= |ids|
    ensures forall call <- LoopCalls(ids, step) :: call.emailId in ids
    ensures (forall k :: 0 <= k < |ids| ==> step(ids[k]) == []) ==> LoopCalls(ids, step) == []
  {
    if ids != [] {
      var n := |ids| - 1;
      var init := ids[..n];
      assert forall k :: 0 <= k < n ==> init[k] == ids[k];
      LoopCallsMeaning(init, step);
      assert forall id <- init :: id in ids;
    }
  }

  /** When every iteration makes exactly one call, the loop makes one per id,
      the `k`-th being the call of the `k`-th iteration. */
  lemma {:induction false} LoopCallsInOrder(ids: seq<string>, step: string -> seq<MoveCall>)
    requires forall k :: 0 <= k < |ids| ==> |step(ids[k])| == 1
    ensures |LoopCalls(ids, step)| == |ids|
    ensures forall k :: 0 <= k < |ids| ==> LoopCalls(ids, step)[k] == step(ids[k])[0]
  {
    if ids != [] {
      var n := |ids| - 1;
      var init := ids[..n];
      assert forall k :: 0 <= k < n ==> init[k] == ids[k];
      LoopCallsInOrder(init, step);
      var before := LoopCalls(init, step);
      var last := step(ids[n]);
      assert LoopCalls(ids, step) == before + last;
      assert forall k :: 0 <= k < n ==> (before + last)[k] == before[k];
    }
  }

  /** The tail of both routing functions: nothing for no target; in a dry run
      the target without moving; otherwise one move, and the target only if
      it succeeded. `calls` records the calls of `move_email`. */
  method Dispatch(emailId: string, target: Option<Folder>, dryRun: bool, mover: Mover)
    returns (moved: Option<Folder>, ghost calls: seq<MoveCall>)
    ensures |calls| == (if target.Some? && !dryRun then 1 else 0)
    ensures target.Some? && !dryRun ==> calls == [MoveCall(emailId, target.value.Name())]
    ensures target.None? ==> moved.None?
    ensures dryRun ==> moved == target
    ensures !dryRun && target.Some? ==> (moved == target <==> mover(emailId, target.value.Name()))
    ensures moved.None? || moved == target
  {
    calls := [];
    if target.None? {
      return None, calls;
    }
    if dryRun {
      return target, calls;
    }
    var ok := mover(emailId, target.value.Name());
    calls := calls + [MoveCall(emailId, target.value.Name())];
    if ok {
      moved := target;
    } else {
      moved := None;
    }
  }

  /** `process_email_decision`. */
  method ProcessEmailDecision(decision: string, emailId: string, mover: Mover, dryRun: bool)
    returns (moved: Option<Folder>, ghost calls: seq<MoveCall>)
    ensures dryRun ==> moved == DecisionFolder(decision)
    ensures DecisionFolder(decision).None? ==> moved.None?
    ensures !dryRun && DecisionFolder(decision).Some? ==>
              (moved == DecisionFolder(decision) <==> mover(emailId, DecisionFolder(decision).value.Name()))
    ensures moved.None? || moved == DecisionFolder(decision)
    ensures dryRun || DecisionFolder(decision).None? ==> calls == []
    ensures !dryRun && DecisionFolder(decision).Some? ==> calls == [MoveCall(emailId, DecisionFolder(decision).value.Name())]
  {
    var target := DecisionFolder(decision);
    moved, calls := Dispatch(emailId, target, dryRun, mover);
  }

  /** `process_email_action`. */
  method ProcessEmailAction(decision: string, emailId: string, mover: Mover, dryRun: bool)
    returns (moved: Option<Folder>, ghost calls: seq<MoveCall>)
    ensures dryRun ==> moved == ActionFolder(decision)
    ensures ActionFolder(decision).None? ==> moved.None?
    ensures !dryRun && ActionFolder(decision).Some? ==>
              (moved == ActionFolder(decision) <==> mover(emailId, ActionFolder(decision).value.Name()))
    ensures moved.None? || moved == ActionFolder(decision)
    ensures dryRun || ActionFolder(decision).None? ==> calls == []
    ensures !dryRun && ActionFolder(decision).Some? ==> calls == [MoveCall(emailId, ActionFolder(decision).value.Name())]
  {
    var target := ActionFolder(decision);
    moved, calls := Dispatch(emailId, target, dryRun, mover);
  }
}
