# flag_mail, modelled in Dafny

flag_mail sorts an IMAP mailbox. `IMAPConnector` wraps one IMAP session:
- a credential check at construction;
- `connect` / `disconnect`;
- the `LIST`, `SELECT`, `SEARCH` and `FETCH` calls;
- a three-step move (COPY, STORE `+FLAGS (\Deleted)`, EXPUNGE, sections
  6.4.7, 6.4.6 and 6.4.3 of RFC 3501).

Two batch scripts, `flag.py` and `process_imap_emails.py`, do the rest:
- fetch each unread message;
- ask a language model for a decision such as `Action: archive. Reason: ...`;
- route the decision through a table of rules to one of five folders;
- tally what they did.

`move_emails.py` selects messages whose subject and sender match regular
expressions, then moves them.

The project models these parts:

- `wrappers.dfy`: `Option` and `Result`.
- `pytext.dfy` (module `PyText`): the Python string operations the code relies on:
  - `in` and `find`;
  - `str.split(sep)` and `bytes.split()`;
  - `str.strip(chars)`;
  - the slice `s[:n]`, including negative `n`;
  - `int(text)`;
  - `str.lower()`, over ASCII.
- `imap_connector.dfy` (module `ImapConnector`):
  - the server is an oracle that answers each request with `(status, data)` or an `IMAP4.error`;
  - the `Connector` class keeps the fields `conn` and `loggedIn` and a ghost log `Issued` of every request sent;
  - the configuration check, the LIST line parser, the SEARCH id split, the FETCH result and the move saga are functions, and each method is proved against them.
- `routing.dfy` (module `Routing`):
  - the search for `Action:\s*(\w+)`;
  - the two routing tables, `process_email_decision` in flag.py and `process_email_action` in process_imap_emails.py, both as if/elif chains and as ordered rule lists;
  - the lemmas that say where the two tables agree and where they differ;
  - the dry-run/move dispatch.
- `tally.dfy` (module `Tally`): each message of a batch ends in one `Outcome`. The `results` dictionary is the left fold `TallyOf` of the per-message counter update `Advance`; the lemmas state what the counters mean.
- `flag.dfy` and `process_imap_emails.dfy`: the two batch loops. Each updates the counters in place and is proved to equal `TallyOf` of the outcomes it produced.
- `move_emails.dfy` (module `MoveEmails`):
  - `filter_emails_by_content` as a loop with `break`/`continue`, proved against the recursive specification `Select`;
  - the `success_count` loop of `main`, proved against `MoveCount`.

Collaborators the code calls but that are not part of the model become function parameters:
- the server (`Oracle`);
- `get_email` as seen by the loops (`Fetcher`);
- `parse_email` plus `query_ollama` (`Advisor`);
- the date filter (`isToday`);
- `move_email` as seen by the routing code (`Mover`);
- `pattern.search` (`Matcher`).

## Model

| member | source | states |
|---|---|---|
| PyText.IndexOf | imap_connector.py:103 | the result is the leftmost occurrence at or after `from`; `None` exactly when there is none |
| PyText.Split | imap_connector.py:104 | `str.split(sep)` gives at least one piece, and more than one exactly when `sep` occurs |
| PyText.SplitJoin | imap_connector.py:104 | joining the pieces with `sep` gives the string back |
| PyText.SplitPiecesAvoidSeparator | imap_connector.py:104 | no piece of the split contains the separator |
| PyText.SplitLastPiece | imap_connector.py:104-106 | when `sep` occurs, the string ends with `sep` followed by the last piece |
| PyText.Strip | imap_connector.py:106 | `strip('"')` leaves an infix with no removable character at either end, and every character removed around it is removable |
| PyText.SplitWhitespace | imap_connector.py:161 | the ids of the SEARCH line are non-empty and contain no whitespace |
| PyText.SplitWhitespaceUnwords | imap_connector.py:161-162 | splitting space-joined ids gives the same ids in the same order |
| PyText.SplitWhitespaceKeepsText | imap_connector.py:161 | the split loses only whitespace: the ids concatenated are the line without its whitespace |
| PyText.SliceTo | flag.py:183 | `email_ids[:limit]` is a prefix of length `min(limit, len)` for `limit >= 0`, and drops `-limit` ids from the end otherwise |
| PyText.ParseInt | imap_connector.py:35 | `int(text)` fails on blank text, and a run of ASCII digits reads as its decimal value |
| PyText.StripPadded | imap_connector.py:106 | stripping text made of droppable padding around a core whose two ends are kept leaves exactly the core |
| PyText.ParseIntSigned | imap_connector.py:35 | `int(text)` of an optional `+` or `-` and a run of digits with whitespace around it is the digits' value, negated after `-` (so `" 993 "` reads as 993) |
| PyText.ParseIntDecimal | imap_connector.py:35 | `int` of the decimal text of a port gives that port back |
| ImapConnector.HeaderValue | move_emails.py:120-121 | `msg.get(name, default)`: the value of the first header whose name matches case-insensitively, the default when none does |
| ImapConnector.LoadConfig | imap_connector.py:34-40 | an unparsable `IMAP_PORT` is an error; otherwise success exactly when server, username and password are set and non-empty, with the port 993 when unset |
| ImapConnector.ConfigFromEnvironment | imap_connector.py:34-40 | an environment setting the server, the credentials and `IMAP_PORT` to `str(port)` yields exactly those settings, covering the connector test's environment (port "993") |
| ImapConnector.ParseListLine | imap_connector.py:103-107 | a line yields a name exactly when it contains the chosen split token; the name is the segment after the token's last occurrence with its outer `"` stripped |
| ImapConnector.FolderNames | imap_connector.py:98-107 | the folder list is never longer than the data list |
| ImapConnector.FolderNamesAppend | imap_connector.py:99-107 | names come out in the order of the lines: the list of two concatenated replies is the concatenation of their lists |
| ImapConnector.CollectFolderNames | imap_connector.py:98-109 | the `append` loop over the data items builds exactly the folder list of the reply, skipping items that are not lines and lines without the token |
| ImapConnector.ListResult | imap_connector.py:95-112 | a reply that is not `OK` gives `[]`; an `OK` reply gives at most one name per data item |
| ImapConnector.UniqueLastSegment | imap_connector.py:104-106 | for either split token, the segment after the last occurrence is unique, so the last piece is well defined |
| ImapConnector.ListLineKeepsQuote | imap_connector.py:103-106 | on a `"/"`-separated line `(<flags>) "/" "<name>"` the code yields ` "<name>`, with the inner quote left in |
| ImapConnector.TestListLinesAsWritten | imap_connector.py:99-107 | the test's lines for INBOX, Archives and Newsletters yield the names with ` "` in front, not the names |
| ImapConnector.ParseListLineFixed | imap_connector.py:103-107 | the corrected parser yields a name exactly when the line contains ` "` |
| ImapConnector.ListLineFixedRoundTrip | imap_connector.py:103-107 | the corrected parser returns the name of every well-formed LIST line, for any flags and separator |
| ImapConnector.TestListLinesFixed | imap_connector.py:99-107 | the corrected parser yields exactly INBOX, Archives and Newsletters for the test's lines |
| ImapConnector.SearchResult | imap_connector.py:158-165 | not `OK`: `[]`; `OK` with a first data line: its whitespace-separated ids; `OK` without one: the call raises past its handler |
| ImapConnector.FetchResult | imap_connector.py:185-192 | not `OK`: `None`; a message comes only from an `OK` reply's first literal, and an `OK` reply whose first item is a literal gives exactly that message; an `OK` reply without one raises past the handler |
| ImapConnector.MoveSaga | imap_connector.py:213-244 | the commands issued are a 1-3 step prefix of COPY, STORE, EXPUNGE; every issued step but the last got `OK`; the move fails at the first step without `OK` (an `IMAP4.error` counts as that), so later steps are never issued; success exactly when all three got `OK` |
| ImapConnector.Connector.constructor | imap_connector.py:23-43 | construction takes the settings `LoadConfig` accepts, and starts with no connection, not logged in, nothing sent |
| ImapConnector.Connector.Connect | imap_connector.py:45-67 | returns true and sets `loggedIn` exactly when the connection opens and `login` does not raise `IMAP4.error`; the status `login` returns is not looked at; once opened, `conn` stays set even if login fails; sends Open, then Login only after a successful Open |
| ImapConnector.Connector.Disconnect | imap_connector.py:69-81 | when connected and logged in: LOGOUT is sent once, and `loggedIn` and `conn` are cleared whatever the reply; otherwise nothing is sent and `conn` is left as it was |
| ImapConnector.DisconnectTwice | imap_connector.py:73-81 | a second disconnect sends nothing more: one LOGOUT in all, session cleared |
| ImapConnector.Connector.ListFolders | imap_connector.py:83-115 | not logged in: `[]` and no command sent; otherwise one LIST and its `ListResult` |
| ImapConnector.Connector.SelectFolder | imap_connector.py:117-141 | true exactly when logged in and SELECT got `OK`; no command when not logged in |
| ImapConnector.Connector.SearchEmails | imap_connector.py:143-168 | not logged in: `[]` and no command; otherwise one SEARCH and its `SearchResult` |
| ImapConnector.Connector.GetEmail | imap_connector.py:170-195 | not logged in: `None` and no command; otherwise one FETCH of `(RFC822)` and its `FetchResult` |
| ImapConnector.Connector.MoveEmail | imap_connector.py:197-244 | not logged in: false and nothing sent; otherwise exactly the commands of `MoveSaga` are sent, in order, and the result is its outcome |
| ImapConnector.Connector.Enter | imap_connector.py:246-251 | `__enter__` connects and returns the connector itself, logged in exactly when the connection opened and login did not raise; `conn` is the new session once the connection opened and unchanged otherwise |
| ImapConnector.Connector.Exit | imap_connector.py:253-257 | `__exit__` has the effect of `disconnect` |
| Routing.FoldersAreDestinations | move_emails.py:17-23 | the folder names are exactly the five destinations `move_emails` offers, and each name belongs to one folder |
| Routing.MatchAt | flag.py:80 | the pattern matches at a position exactly when this returns that span, and the greedy quantifiers leave one span |
| Routing.FindAction | flag.py:80 | `re.search` gives the leftmost matching position at or after `from`, or none when nothing matches there |
| Routing.ActionToken | flag.py:80-85 | no token exactly when `Action:\s*(\w+)` matches nowhere; otherwise the non-empty lower-cased group of the leftmost match |
| Routing.ActionTokenAtStart | flag.py:80-85 | a decision starting `Action: <word>` followed by a non-word character yields the word, lower-cased |
| Routing.DecisionFolder | flag.py:80-105 | no folder when `Action:\s*(\w+)` matches nowhere, and a folder only after a match; after a match, the folder of the first rule of flag.py's table that fires for the token and the lower-cased decision |
| Routing.ActionFolder | process_imap_emails.py:67-91 | the same, with the first rule of the variant table that fires |
| Routing.FirstMatchMeaning | flag.py:90-101 | none exactly when no rule fires; otherwise the folder of a rule that fires, with no earlier rule firing |
| Routing.RouteDecision | flag.py:90-101 | flag.py's if/elif chain picks the folder of the first rule that fires in the table archive, important, newsletter, spam, trash |
| Routing.RouteAction | process_imap_emails.py:77-87 | the variant's chain picks the folder of the first rule that fires in the table archive, flag+newsletter, flag, spam, trash |
| Routing.NoActionNoFolder | flag.py:80-83 | without a match of the pattern neither variant routes anywhere |
| Routing.ArchiveWins | flag.py:90-91 | token `archive` goes to Archives in both variants, whatever the text mentions |
| Routing.FlagWithBothKeywords | flag.py:92-97 | `flag` with both "important" and "newsletter" goes to INBOX/Important in flag.py, but to Newsletters in the variant |
| Routing.DecisionKeywordFallback | flag.py:98-101 | any token the first three rules miss goes to Spam on a spam token or mention, else to Trash on a trash token or mention, else nowhere |
| Routing.FlagWithoutKeywords | flag.py:92-105 | `flag` with none of the four keywords: no folder in flag.py, INBOX/Important in the variant |
| Routing.ActionFlagNeverFallsThrough | process_imap_emails.py:79-83 | in the variant `flag` yields Newsletters or INBOX/Important, according to whether "newsletter" occurs; never none, Spam or Trash |
| Routing.ActionIgnoresOwnTokens | process_imap_emails.py:77-87 | in the variant the tokens `important` and `newsletter` reach Spam or Trash only through the keyword checks, and otherwise no folder; flag.py sends them to their own folders |
| Routing.VariantsAgreeElsewhere | process_imap_emails.py:77-87 | the two tables agree on every token other than `flag`, `important` and `newsletter` |
| Routing.VariantsDisagreeOnlyOnThreeTokens | process_imap_emails.py:67-91 | when the two variants route a decision differently, its token is `flag`, `important` or `newsletter` |
| Routing.SpamMentionBeatsTrashToken | flag.py:98-101 | token `trash` in a text that mentions spam goes to Spam in both variants |
| Routing.LoopCallsMeaning | flag.py:197-260 | when each iteration calls `move_email` at most once and only for its own id, the loop makes at most one call per id, none for an id not visited, and none at all when no iteration calls |
| Routing.LoopCallsInOrder | flag.py:197-260 | when each iteration calls `move_email` exactly once, the `k`-th call is the one of the `k`-th id |
| Routing.Dispatch | flag.py:103-117 | no target: nothing moved, no call; dry run: the target, no call; otherwise exactly one `move_email(id, target)`, and the target is returned exactly when it succeeded |
| Routing.ProcessEmailDecision | flag.py:66-117 | `process_email_decision` returns `DecisionFolder` in a dry run with no move; otherwise it calls `move_email` once exactly when there is a folder, and returns the folder exactly when the move succeeded |
| Routing.ProcessEmailAction | process_imap_emails.py:54-103 | the same contract over `ActionFolder` |
| Tally.AdvanceMeaning | flag.py:251-256 | one iteration adds one to `processed` for a routed message, to `moved` and to `by_folder[f]` for a message moved to `f`, to `errors` for a failed one, and adds `f` as a key only when a message is moved to it |
| Tally.TallyCounts | flag.py:189-260 | `processed`, `moved` and `errors` count the routed, the moved and the failed messages |
| Tally.FolderCountsMeaning | flag.py:252-256 | `by_folder[f]` is the number of messages moved to `f`, and `f` is a key exactly when that number is positive |
| Tally.MovedIsFolderTotal | flag.py:251-256 | the `by_folder` counts sum to `moved` |
| Tally.MovedAtMostProcessed | flag.py:251-256 | `moved <= processed` |
| Tally.OutcomesPartition | flag.py:197-260 | every message counts once in `processed`, `errors` or the uncounted date skips |
| Tally.Summary | flag.py:197-260 | `processed + errors` is at most the number of messages; `moved` is the `by_folder` total and at most `processed` |
| Tally.SummaryWithoutSkips | process_imap_emails.py:143-174 | in a loop without skips, `processed + errors` equals the number of messages |
| Flag.Batch | flag.py:183 | the visited ids are a prefix of the searched ids; for `limit >= 0` there are exactly `min(limit, len(email_ids))` of them |
| Flag.DecisionCallsMeaning | flag.py:198-248 | one iteration calls `move_email` at most once, never in a dry run, and only for its own id |
| Flag.CallsMatchOutcome | flag.py:247-256 | an iteration that calls `move_email` is routed, and counts as moved exactly when that call succeeded; a routed, moved message outside a dry run made exactly the one call to its folder |
| Flag.ProcessOne | flag.py:198-260 | one iteration: an escaped exception or a failed decision is an error, an empty fetch is a fetch error, a date-rejected message is skipped, anything else is routed and counted processed; its `move_email` calls are exactly `DecisionCalls`: one `(id, folder)` call for a fetched, kept message whose decision routes to a folder outside a dry run, none otherwise |
| Flag.DecisionLoopCalls | flag.py:197-260 | the batch's `move_email` calls: none in a dry run, at most one per id, each for a visited id |
| Flag.ProcessImapEmails | flag.py:183-260 | the in-place counters equal the fold of the visited messages' outcomes; no summary when the cut batch is empty; at most `limit` processed; `processed + errors` at most the batch size; `moved` is the `by_folder` total and at most `processed`; the `move_email` calls are exactly those of the visited ids' iterations, concatenated in batch order, so none in a dry run |
| ProcessImapEmails.ActionCallsMeaning | process_imap_emails.py:143-160 | one iteration of the variant calls `move_email` at most once, never in a dry run, and only for its own id |
| ProcessImapEmails.CallsMatchOutcome | process_imap_emails.py:158-167 | an iteration that calls `move_email` is routed, and counts as moved exactly when that call succeeded; a routed, moved message outside a dry run made exactly the one call to its folder |
| ProcessImapEmails.ProcessOne | process_imap_emails.py:144-174 | one iteration of the variant loop, which never skips; its `move_email` calls are exactly `ActionCalls`: one `(id, folder)` call for a fetched message whose decision routes to a folder outside a dry run, none otherwise |
| ProcessImapEmails.ActionLoopCalls | process_imap_emails.py:143-171 | the batch's `move_email` calls: none in a dry run, at most one per id, each for a visited id |
| ProcessImapEmails.ProcessBatch | process_imap_emails.py:129-174 | the in-place counters equal the fold of the outcomes; every visited id moves exactly one of `processed` and `errors`, so their sum is the batch size; `moved` is the `by_folder` total and at most `processed`; the `move_email` calls are exactly those of the iterations, concatenated in batch order |
| MoveEmails.VerdictOf | move_emails.py:116-133 | an id is kept exactly when it was fetched and present and its headers match every given pattern (a missing header reads ""); an escaped fetch stops the loop |
| MoveEmails.Select | move_emails.py:112-135 | the filter fetches at most all the ids |
| MoveEmails.Kept | move_emails.py:126-133 | the ids a verdict accepts, in order; every one of them was accepted |
| MoveEmails.KeptIsSubsequence | move_emails.py:132-133 | the accepted ids form a subsequence of the ids examined |
| MoveEmails.SelectMeaning | move_emails.py:110-135 | the result is exactly the accepted ids among those fetched, and at most `limit` of them |
| MoveEmails.SelectStops | move_emails.py:112-118 | no fetch after `limit` ids were kept: before the last fetch fewer than `limit` were kept; the loop ends early only with `limit` ids kept or on an escaped fetch |
| MoveEmails.SelectKeepsOrder | move_emails.py:110-135 | the result is an order-preserving subsequence of the ids, and every id in it was accepted |
| MoveEmails.SelectIsGreedy | move_emails.py:112-114 | without escaping fetches the result is exactly the first `limit` qualifying ids |
| MoveEmails.FilterEmailsByContent | move_emails.py:89-135 | with no non-empty pattern: `email_ids[:limit]` and nothing fetched; otherwise the outcome of `Select`, having fetched exactly the ids it examined, in order |
| MoveEmails.MoveCount | move_emails.py:192-207 | the success count never exceeds the number of filtered ids; the loop escapes exactly when some fetch escapes |
| MoveEmails.MoveCallsMeaning | move_emails.py:192-205 | the loop makes no more `move_email` calls than there are filtered ids, each with the chosen destination and for a filtered id whose message was fetched and present |
| MoveEmails.MoveCallsCover | move_emails.py:192-206 | every success is one of the calls; when every message is fetched and present, there is exactly one call per filtered id, in the order of the ids |
| MoveEmails.CountMoves | move_emails.py:192-207 | the `success_count` loop computes `MoveCount`; the calls of `move_email` it makes are exactly `MoveCallsOf`: one to the chosen folder's name for each fetched, present id, in order, up to the first fetch that escapes |

## Left out

- Networking, TLS and imaplib are not modelled: the server is an oracle of replies. imaplib's `login` raises `IMAP4.error` on a reply that is not `OK`; the oracle's `Raised` answer stands for that. A socket error (`OSError`) when opening the connection propagates out of `connect` in the code. The model treats only `IMAP4.error` as a failure there.
- Mailbox state on the server is not modelled: each oracle is a fixed function, so a COPY does not change what a later FETCH sees.
- `email.message_from_bytes` and `parse_email`: a message is reduced to its header list. `parse_email`'s MIME walking and decoding, and `query_ollama` (an HTTP call), are the `Advisor` parameter. `None` from it stands for an exception in those calls.
- `--today-only` parses the `Date` header against the clock. It is the `isToday` parameter, and a rejected message is a `Skipped` outcome.
- The regular expressions given to `move_emails.py` are the `Matcher` parameter. An invalid pattern makes `re.compile` raise, and that is not modelled.
- Whitespace is the six ASCII characters space, tab, newline, carriage return, vertical tab and form feed. That is exactly what `bytes.split()` splits on. The `\s` of `re` and the stripping in `int()` also accept `\x1c`-`\x1f` and non-ASCII whitespace, which the model does not. `\w` is letters, digits and `_`, and `str.lower()` maps `A`-`Z` to `a`-`z`, both over ASCII only. `int()` accepts only ASCII digits, with surrounding whitespace and a sign; digit underscores and non-ASCII digits are not modelled.
- `bytes.decode()` in `list_folders` and `search_emails` is the identity on model strings, so a `UnicodeDecodeError` is not modelled.
- Some exceptions escape the handlers: `data[0]` on an empty list and `data[0][1]` on a line both raise past `except IMAP4.error`. `Escaped` models them in `search_emails`, `get_email`, the filter loop and the move loop. An exception escaping `move_email` inside a batch loop is not modelled separately: `Mover` returns a boolean.
- Not modelled: `load_dotenv` and reading the real environment (`LoadConfig` takes the environment as a map), argparse, logging, exit codes and the `__main__` blocks.
- Also not modelled: the prefix of each `main` before its loop (the `with` block, the `logged_in` and `select_folder` checks, the search). The connector methods it calls are modelled.
- The dry-run listing loop of `move_emails.py` main (lines 178-189) only logs, and is not modelled.
- ImapConnector.Connector.constructor: an environment that `LoadConfig` rejects raises `ValueError` in `__init__`. The precondition requires an accepted one, and `LoadConfig` itself states which environments fail and why.
- ImapConnector.Connector.Disconnect: the reply to LOGOUT, including an `IMAP4.error`, is ignored in the code. The model leaves it out, since the state is cleared in every case.
- The concrete decision strings of the routing tests are not stated one by one. The general lemmas of `Routing` cover them, together with `ActionTokenAtStart` for decisions that start with `Action: <word>`.

## Findings

| source | as written | input that shows it | evidently intended | confidence | as-written member | corrected member |
|---|---|---|---|---|---|---|
| imap_connector.py:103-107 | On a line that contains `"/`, the LIST parser splits on ` "/`. The last piece `" "<name>"` keeps its inner ` "` after `strip('"')`. | `(\HasNoChildren) "/" "INBOX"` yields ` "INBOX`, so `assertIn('INBOX', folders)` at test_imap_connector.py:85 cannot hold | the mailbox name `INBOX`, as the test expects: split on ` "` and strip the quotes | not executed | ImapConnector.ListLineKeepsQuote, ImapConnector.TestListLinesAsWritten | ImapConnector.ParseListLineFixed, ImapConnector.ListLineFixedRoundTrip, ImapConnector.TestListLinesFixed |

`Connector.ListFolders` keeps the parser as written, because that is what the code does. The corrected parser stands beside it, with its round trip proved.

Where the code and its documentation differ, the model follows the code:
- `Action:` is matched case-sensitively.
- A `trash` token in a decision that mentions spam goes to Spam (`SpamMentionBeatsTrashToken`).
