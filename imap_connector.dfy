/**
 * The IMAP session wrapper. The mail server is an oracle: every request the
 * connector sends is answered with a reply (a status word and a data list,
 * or an `imaplib.IMAP4.error`), and the connector keeps a ghost log of the
 * requests it has sent, so that "no command is issued" and "commands are
 * issued in this order" can be stated.
 */
module ImapConnector {
  import opened Wrappers
  import opened PyText

  // ---------------------------------------------------------------------------
  // Requests, replies and messages
  // ---------------------------------------------------------------------------

  /** A request sent to the server. `Open` is the TLS connection made by
      `IMAP4_SSL(host, port)`; the others are IMAP commands (RFC 3501). */
  datatype Request =
    | Open(host: string, port: int)
    | Login(user: string, password: string)
    | Logout
    | List
    | Select(folder: string)
    | Search(criteria: string)
    | Fetch(id: string, parts: string)
    | Copy(id: string, destination: string)
    | Store(id: string, command: string, flags: string)
    | Expunge

  /** One element of a reply's data list: a bytes line, a (header, literal)
      pair whose literal has already been parsed as a message, or `None`. */
  datatype Datum = Line(text: string) | Literal(header: string, message: Message) | NoItem

  /** A reply: `(status, data)`, or `Raised` for an `imaplib.IMAP4.error`. */
  datatype Reply = Answer(status: string, data: seq<Datum>) | Raised

  /** The server, as the reply it gives to each request. */
  type Oracle = Request -> Reply

  predicate Accepted(r: Reply) {
    r.Answer? && r.status == "OK"
  }

  datatype Header = Header(name: string, value: string)

  /** A parsed message, reduced to its header list. */
  datatype Message = Message(headers: seq<Header>)

  predicate SameName(a: string, b: string) {
    Lower(a) == Lower(b)
  }

  /** `msg.get(name, default)`: the value of the first header whose name
      matches case-insensitively, else `default`. */
  function HeaderValue(headers: seq<Header>, name: string, default: string): (v: string)
    ensures (forall k :: 0 <= k < |headers| ==> !SameName(headers[k].name, name)) ==> v == default
    ensures forall k :: 0 <= k < |headers| && SameName(headers[k].name, name)
                        && (forall j :: 0 <= j < k ==> !SameName(headers[j].name, name))
                        ==> v == headers[k].value
  {
    if headers == [] then default
    else if SameName(headers[0].name, name) then headers[0].value
    else
      var v := HeaderValue(headers[1..], name, default);
      assert forall k :: 1 <= k < |headers| ==> headers[k] == headers[1..][k - 1];
      v
  }

  /** `if msg:` on what `get_email` returned: `None` is false, and so is a
      message without headers (a `Message` has the length of its header list). */
  predicate Present(m: Option<Message>) {
    m.Some? && |m.value.headers| > 0
  }

  /** What `get_email` and `search_emails` hand back: a value, or `Escaped`
      when a malformed `OK` reply makes them raise something other than
      `IMAP4.error` (an `IndexError` or `TypeError` that reaches the caller). */
  datatype Completion<T> = Normal(value: T) | Escaped

  // ---------------------------------------------------------------------------
  // Configuration read by the constructor
  // ---------------------------------------------------------------------------

  datatype Config = Config(server: string, port: int, username: string, password: string)

  datatype ConfigError = InvalidPort | MissingCredentials

  const DefaultPort := 993

  /** A variable that is set and not empty (the truthiness `all([...])` tests). */
  predicate Given(env: map<string, string>, key: string) {
    key in env && env[key] != ""
  }

  /** `int(os.getenv('IMAP_PORT', 993))`. */
  function PortSetting(env: map<string, string>): Option<int> {
    if "IMAP_PORT" in env then ParseInt(env["IMAP_PORT"]) else Some(DefaultPort)
  }

  /** The settings `__init__` reads; an unparsable port or a missing or empty
      server, username or password raises `ValueError` (here `Failure`). */
  function LoadConfig(env: map<string, string>): (r: Result<Config, ConfigError>)
    ensures r.Failure? && r.error == InvalidPort <==> PortSetting(env).None?
    ensures r.Success? <==>
              PortSetting(env).Some? && Given(env, "IMAP_SERVER")
              && Given(env, "IMAP_USERNAME") && Given(env, "IMAP_PASSWORD")
    ensures r.Success? ==>
              && r.value.server == env["IMAP_SERVER"]
              && r.value.username == env["IMAP_USERNAME"]
              && r.value.password == env["IMAP_PASSWORD"]
              && r.value.port == (if "IMAP_PORT" in env then ParseInt(env["IMAP_PORT"]).value else 993)
  {
    var port := PortSetting(env);
    if port.None? then Failure(InvalidPort)
    else if !(Given(env, "IMAP_SERVER") && Given(env, "IMAP_USERNAME") && Given(env, "IMAP_PASSWORD")) then
      Failure(MissingCredentials)
    else
      Success(Config(env["IMAP_SERVER"], port.value, env["IMAP_USERNAME"], env["IMAP_PASSWORD"]))
  }

  /** An environment that sets the server, the credentials and the port
      written as `str(port)` (as the connector tests do with "993") gives
      exactly those settings. */
  lemma ConfigFromEnvironment(server: string, username: string, password: string, port: nat)
    requires server != "" && username != "" && password != ""
    ensures LoadConfig(map["IMAP_SERVER" := server, "IMAP_PORT" := Decimal(port),
                           "IMAP_USERNAME" := username, "IMAP_PASSWORD" := password])
            == Success(Config(server, port, username, password))
  {
    var env := map["IMAP_SERVER" := server, "IMAP_PORT" := Decimal(port),
                    "IMAP_USERNAME" := username, "IMAP_PASSWORD" := password];
    assert "IMAP_PORT" in env && env["IMAP_PORT"] == Decimal(port);
    ParseIntDecimal(port);
    assert PortSetting(env) == Some(port);
    assert Given(env, "IMAP_SERVER") && Given(env, "IMAP_USERNAME") && Given(env, "IMAP_PASSWORD");
  }

  // ---------------------------------------------------------------------------
  // Parsing LIST replies (RFC 3501 section 7.2.2)
  // ---------------------------------------------------------------------------

  /** The separator `list_folders` splits a LIST line on. */
  function SplitToken(line: string): string {
    if Contains(line, "\"/") then " \"/" else " \""
  }

  /** `line` ends with `sep + tail`. */
  ghost predicate EndsWithSegment(line: string, sep: string, tail: string) {
    |tail| + |sep| <= |line| && line[|line| - |tail| - |sep|..] == sep + tail
  }

  /** `line` ends with `sep + tail`, and `tail` does not contain `sep`. */
  ghost predicate LastSegment(line: string, sep: string, tail: string) {
    EndsWithSegment(line, sep, tail) && !Contains(tail, sep)
  }

  /** One LIST line as `list_folders` parses it: split on the chosen token;
      when there is more than one piece, the last piece with its leading and
      trailing `"` removed. */
  function ParseListLine(line: string): (name: Option<string>)
    ensures name.Some? <==> Contains(line, SplitToken(line))
    ensures name.Some? ==> exists tail :: LastSegment(line, SplitToken(line), tail) && name.value == Strip(tail, IsQuote)
  {
    var sep := SplitToken(line);
    var parts := Split(line, sep);
    if |parts| > 1 then
      SplitLastPiece(line, sep);
      SplitPiecesAvoidSeparator(line, sep, |parts| - 1);
      assert LastSegment(line, sep, Last(parts));
      Some(Strip(Last(parts), IsQuote))
    else None
  }

  /** How one LIST line becomes a folder name, or `None` when it is skipped. */
  type LineParser = string -> Option<string>

  /** The names one data item contributes: only bytes lines are parsed. */
  function ItemNames(item: Datum, parse: LineParser): seq<string> {
    if item.Line? then
      match parse(item.text)
      case Some(name) => [name]
      case None => []
    else []
  }

  /** The folder list built from a LIST reply's data, item by item. */
  function FolderNames(data: seq<Datum>, parse: LineParser): (names: seq<string>)
    ensures |names| <= |data|
  {
    if data == [] then [] else FolderNames(data[..|data| - 1], parse) + ItemNames(data[|data| - 1], parse)
  }

  /** The names follow the order of the lines: the list of a concatenation is
      the concatenation of the lists. */
  lemma {:induction false} FolderNamesAppend(a: seq<Datum>, b: seq<Datum>, parse: LineParser)
    ensures FolderNames(a + b, parse) == FolderNames(a, parse) + FolderNames(b, parse)
    decreases |b|
  {
    var ab := a + b;
    if b == [] {
      assert ab == a;
    } else {
      var b', d := b[..|b| - 1], b[|b| - 1];
      assert ab[..|ab| - 1] == a + b' && ab[|ab| - 1] == d;
      var x, y, z := FolderNames(a, parse), FolderNames(b', parse), ItemNames(d, parse);
      calc {
        FolderNames(ab, parse);
        FolderNames(ab[..|ab| - 1], parse) + ItemNames(ab[|ab| - 1], parse);
        FolderNames(a + b', parse) + z;
        { FolderNamesAppend(a, b', parse); }
        (x + y) + z;
        x + (y + z);
        x + FolderNames(b, parse);
      }
    }
  }

  lemma FolderNamesStep(data: seq<Datum>, i: nat, parse: LineParser)
    requires i < |data|
    ensures FolderNames(data[..i + 1], parse) == FolderNames(data[..i], parse) + ItemNames(data[i], parse)
  {
    assert data[..i + 1][..i] == data[..i];
  }

  /** The loop of `list_folders` over the data items of an `OK` reply. */
  method CollectFolderNames(data: seq<Datum>) returns (folders: seq<string>)
    ensures folders == FolderNames(data, ParseListLine)
  {
    var parse: LineParser := ParseListLine;
    folders := [];
    var i := 0;
    while i < |data|
      invariant 0 <= i <= |data|
      invariant folders == FolderNames(data[..i], parse)
    {
      var item := data[i];
      FolderNamesStep(data, i, parse);
      if item.Line? {
        var name := parse(item.text);
        if name.Some? {
          folders := folders + [name.value];
        }
      }
      i := i + 1;
    }
    assert data[..i] == data;
  }

  /** What `list_folders` returns for a reply, once the command was sent. */
  function ListResult(reply: Reply): (names: seq<string>)
    ensures !Accepted(reply) ==> names == []
    ensures Accepted(reply) ==> |names| <= |reply.data|
  {
    if Accepted(reply) then FolderNames(reply.data, ParseListLine) else []
  }

  /** The LIST line shape `(<flags>) "<separator>" "<name>"`. */
  function ListLine(flags: string, separator: string, name: string): string {
    "(" + flags + ") \"" + separator + "\" \"" + name + "\""
  }

  predicate NoQuote(s: string) {
    forall k :: 0 <= k < |s| ==> s[k] != '"'
  }

  /** `sep` never overlaps itself: no proper suffix of it is also a prefix. */
  predicate SelfDisjoint(sep: string) {
    forall d :: 0 < d < |sep| ==> sep[d..] != sep[..|sep| - d]
  }

  /** The two tokens `list_folders` splits on cannot overlap themselves. */
  lemma TokensSelfDisjoint()
    ensures SelfDisjoint(" \"") && SelfDisjoint(" \"/")
  {
    var two, three := " \"", " \"/";
    assert two[1..][0] != two[..1][0];
    assert three[1..][0] != three[..2][0];
    assert three[2..][0] != three[..1][0];
    forall d | 0 < d < |three|
      ensures three[d..] != three[..|three| - d]
    {
      assert three[d..][0] != three[..|three| - d][0];
    }
  }

  /** For a separator that cannot overlap itself, the segment after the last
      occurrence is unique. */
  lemma UniqueLastSegment(line: string, sep: string, t: string, u: string)
    requires sep != [] && SelfDisjoint(sep)
    requires LastSegment(line, sep, t) && LastSegment(line, sep, u)
    ensures t == u
  {
    if |t| < |u| {
      LongerSegmentContains(line, sep, t, u);
      assert false;
    } else if |u| < |t| {
      LongerSegmentContains(line, sep, u, t);
      assert false;
    } else {
      assert t == line[|line| - |t|..] == u;
    }
  }

  /** Of two segments that both end `line` after `sep`, the longer one holds
      an occurrence of `sep`, unless `sep` overlaps itself. */
  lemma LongerSegmentContains(line: string, sep: string, t: string, u: string)
    requires sep != [] && EndsWithSegment(line, sep, t) && EndsWithSegment(line, sep, u)
    requires |t| < |u|
    ensures Contains(u, sep) || !SelfDisjoint(sep)
  {
    var n := |line|;
    var d := |u| - |t|;
    assert u == line[n - |u|..];
    if d >= |sep| {
      var j := d - |sep|;
      assert u[j..j + |sep|] == line[n - |t| - |sep|..n - |t|] == sep;
      ContainsWitness(u, sep, j);
    } else {
      assert (sep + u)[d..] == line[n - |t| - |sep|..] == sep + t;
      assert sep[d..] == (sep + u)[d..|sep|];
      assert sep[..|sep| - d] == (sep + t)[..|sep| - d];
    }
  }

  /** `name + "\""` holds no ` "` when `name` has no quote and does not end in a space. */
  lemma QuotedNameAvoidsToken(name: string)
    requires NoQuote(name) && (name == [] || name[|name| - 1] != ' ')
    ensures !Contains(name + "\"", " \"")
  {
    var u := name + "\"";
    forall j | 0 <= j
      ensures !OccursAt(u, " \"", j)
    {
      if j + 2 <= |u| {
        if j + 1 < |name| {
          assert u[j + 1] == name[j + 1];
        } else {
          assert u[j] == name[|name| - 1];
        }
      }
    }
    NotContains(u, " \"");
  }

  /** The corrected parser: always split on ` "` (the token the code already
      falls back to), then strip the quotes. */
  function ParseListLineFixed(line: string): (name: Option<string>)
    ensures name.Some? <==> Contains(line, " \"")
  {
    var parts := Split(line, " \"");
    if |parts| > 1 then Some(Strip(Last(parts), IsQuote)) else None
  }

  /** The corrected parser returns the folder name of every well-formed LIST
      line, whatever the flags and the hierarchy separator. */
  lemma ListLineFixedRoundTrip(flags: string, separator: string, name: string)
    requires NoQuote(name) && (name == [] || name[|name| - 1] != ' ')
    ensures ParseListLineFixed(ListLine(flags, separator, name)) == Some(name)
  {
    var line := ListLine(flags, separator, name);
    var sep := " \"";
    var u := name + "\"";
    var n := |line|;
    assert line[n - |u| - 2..] == sep + u;
    QuotedNameAvoidsToken(name);
    assert LastSegment(line, sep, u);
    ContainsWitness(line, sep, n - |u| - 2);
    var parts := Split(line, sep);
    SplitLastPiece(line, sep);
    SplitPiecesAvoidSeparator(line, sep, |parts| - 1);
    assert LastSegment(line, sep, Last(parts));
    TokensSelfDisjoint();
    UniqueLastSegment(line, sep, Last(parts), u);
    StripClosingQuote(name);
  }

  lemma StripClosingQuote(name: string)
    requires NoQuote(name)
    ensures Strip(name + "\"", IsQuote) == name
  {
    var u := name + "\"";
    if name == [] {
      assert StripLeading(u, IsQuote) == StripLeading(u[1..], IsQuote);
      assert u[1..] == [];
    } else {
      assert !IsQuote(u[0]);
      assert StripLeading(u, IsQuote) == u;
      if |name| >= 1 {
        assert u[|u| - 2] == name[|name| - 1];
        StripTrailingOne(u, IsQuote);
        assert u[..|u| - 1] == name;
      }
    }
  }

  /** The parser as written: on a `"/"`-separated line it keeps ` "` in front
      of the name, because it splits on ` "/` and the piece after that token
      is `" "<name>"`, whose inner quote `strip('"')` does not reach. */
  lemma ListLineKeepsQuote(flags: string, name: string)
    requires NoQuote(name) && name != [] && name[0] != '/'
    ensures ParseListLine(ListLine(flags, "/", name)) == Some(" \"" + name)
  {
    var line := ListLine(flags, "/", name);
    var n := |line|;
    var u := "\" \"" + name + "\"";
    assert line[n - |u| - 3..] == " \"/" + u;
    assert line[n - |u| - 2..n - |u|] == "\"/";
    ContainsWitness(line, "\"/", n - |u| - 2);
    assert SplitToken(line) == " \"/";
    SlashTokenAvoided(name);
    ParseAtLastSegment(line, u);
    StripInnerQuote(name);
  }

  /** The parser gives the stripped piece after the last split token. */
  lemma ParseAtLastSegment(line: string, u: string)
    requires LastSegment(line, SplitToken(line), u)
    ensures ParseListLine(line) == Some(Strip(u, IsQuote))
  {
    var sep := SplitToken(line);
    ContainsWitness(line, sep, |line| - |u| - |sep|);
    TokensSelfDisjoint();
    var t :| LastSegment(line, sep, t) && ParseListLine(line).value == Strip(t, IsQuote);
    UniqueLastSegment(line, sep, t, u);
  }

  /** `strip('"')` of `" "<name>"` removes only the outer quotes. */
  lemma StripInnerQuote(name: string)
    requires NoQuote(name) && name != []
    ensures Strip("\" \"" + name + "\"", IsQuote) == " \"" + name
  {
    var v := " \"" + name;
    var w := v + "\"";
    var u := "\"" + w;
    assert u == "\" \"" + name + "\"";
    StripLeadingOne(u, IsQuote);
    assert u[1..] == w;
    StripTrailingOne(w, IsQuote);
    assert w[..|w| - 1] == v;
  }

  lemma SlashTokenAvoided(name: string)
    requires NoQuote(name) && name != [] && name[0] != '/'
    ensures !Contains("\" \"" + name + "\"", " \"/")
  {
    var u := "\" \"" + name + "\"";
    forall j | 0 <= j
      ensures !OccursAt(u, " \"/", j)
    {
      if j + 3 <= |u| {
        if j == 0 {
          assert u[1] == ' ';
        } else if j == 1 {
          assert u[3] == name[0];
        } else {
          assert u[j + 1] == name[j - 2];
        }
      }
    }
    NotContains(u, " \"/");
  }

  /** The LIST lines of the connector test, `(\HasNoChildren) "/" "INBOX"`
      and its siblings: each name comes out with ` "` in front, so
      `'INBOX' in folders` does not hold. */
  lemma TestListLinesAsWritten(name: string)
    requires name == "INBOX" || name == "Archives" || name == "Newsletters"
    ensures ParseListLine(ListLine("\\HasNoChildren", "/", name)) == Some(" \"" + name)
    ensures ParseListLine(ListLine("\\HasNoChildren", "/", name)) != Some(name)
  {
    assert NoQuote(name) && name[0] != '/';
    ListLineKeepsQuote("\\HasNoChildren", name);
    assert |" \"" + name| != |name|;
  }

  /** The corrected parser gives the names the test expects. */
  lemma TestListLinesFixed(name: string)
    requires name == "INBOX" || name == "Archives" || name == "Newsletters"
    ensures ParseListLineFixed(ListLine("\\HasNoChildren", "/", name)) == Some(name)
  {
    assert NoQuote(name) && name[|name| - 1] != ' ';
    ListLineFixedRoundTrip("\\HasNoChildren", "/", name);
  }

  // ---------------------------------------------------------------------------
  // SEARCH, FETCH and the move saga
  // ---------------------------------------------------------------------------

  /** What `search_emails` returns for a reply: the whitespace-separated ids
      of the first data item on `OK`, else `[]`. */
  function SearchResult(reply: Reply): (r: Completion<seq<string>>)
    ensures !Accepted(reply) ==> r == Normal([])
    ensures Accepted(reply) && |reply.data| > 0 && reply.data[0].Line? ==>
              r == Normal(SplitWhitespace(reply.data[0].text))
    ensures r.Escaped? <==> Accepted(reply) && (|reply.data| == 0 || !reply.data[0].Line?)
  {
    if !Accepted(reply) then Normal([])
    else if |reply.data| == 0 || !reply.data[0].Line? then Escaped
    else Normal(SplitWhitespace(reply.data[0].text))
  }

  /** What `get_email` returns for a reply: the message of the first data
      item on `OK`, else `None`. */
  function FetchResult(reply: Reply): (r: Completion<Option<Message>>)
    ensures !Accepted(reply) ==> r == Normal(None)
    ensures r.Normal? && r.value.Some? ==>
              Accepted(reply) && |reply.data| > 0 && reply.data[0].Literal? && reply.data[0].message == r.value.value
    ensures Accepted(reply) && |reply.data| > 0 && reply.data[0].Literal? ==>
              r == Normal(Some(reply.data[0].message))
    ensures r.Escaped? <==> Accepted(reply) && (|reply.data| == 0 || !reply.data[0].Literal?)
  {
    if !Accepted(reply) then Normal(None)
    else if |reply.data| == 0 || !reply.data[0].Literal? then Escaped
    else Normal(Some(reply.data[0].message))
  }

  const DeletedFlag := "(\\Deleted)"

  /** The three commands of a move, in the order they must be sent. */
  function MoveSteps(id: string, destination: string): seq<Request> {
    [Copy(id, destination), Store(id, "+FLAGS", DeletedFlag), Expunge]
  }

  datatype Saga = Saga(moved: bool, issued: seq<Request>)

  /** The move saga (RFC 3501 sections 6.4.7, 6.4.6 and 6.4.3): COPY, then
      STORE +FLAGS (\Deleted), then EXPUNGE, stopping at the first reply
      that is not `OK` (an `IMAP4.error` counts as not `OK`). */
  function MoveSaga(id: string, destination: string, oracle: Oracle): (s: Saga)
    ensures 1 <= |s.issued| <= 3 && s.issued == MoveSteps(id, destination)[..|s.issued|]
    ensures s.moved <==> forall k :: 0 <= k < 3 ==> Accepted(oracle(MoveSteps(id, destination)[k]))
    ensures forall k :: 0 <= k < |s.issued| - 1 ==> Accepted(oracle(s.issued[k]))
    ensures |s.issued| < 3 ==> !Accepted(oracle(Last(s.issued)))
  {
    var steps := MoveSteps(id, destination);
    if !Accepted(oracle(steps[0])) then Saga(false, steps[..1])
    else if !Accepted(oracle(steps[1])) then Saga(false, steps[..2])
    else Saga(Accepted(oracle(steps[2])), steps)
  }

  // ---------------------------------------------------------------------------
  // The connector
  // ---------------------------------------------------------------------------

  /** The connection handle `IMAP4_SSL(host, port)` returns. */
  datatype Session = Session(host: string, port: int)

  class Connector {
    const server: string
    const port: int
    const username: string
    const password: string
    var conn: Option<Session>
    var loggedIn: bool
    /** Every request sent to the server so far, oldest first. */
    ghost var Issued: seq<Request>

    /** A logged-in connector always holds a connection. */
    ghost predicate Valid()
      reads this
    {
      loggedIn ==> conn.Some?
    }

    /** `__init__`: only an environment that `LoadConfig` accepts builds a connector. */
    constructor (env: map<string, string>)
      requires LoadConfig(env).Success?
      ensures Valid()
      ensures var c := LoadConfig(env).value;
              server == c.server && port == c.port && username == c.username && password == c.password
      ensures conn == None && !loggedIn && Issued == []
    {
      var c := LoadConfig(env).value;
      server, port, username, password := c.server, c.port, c.username, c.password;
      conn, loggedIn := None, false;
      Issued := [];
    }

    /** `connect`: open the TLS connection, then log in. Only an
        `IMAP4.error` fails it: the status `login` returns is not looked at. */
    method Connect(oracle: Oracle) returns (ok: bool)
      requires Valid()
      modifies this
      ensures Valid() && loggedIn == ok
      ensures ok <==> oracle(Open(server, port)).Answer? && oracle(Login(username, password)).Answer?
      ensures oracle(Open(server, port)).Raised? ==>
                conn == old(conn) && Issued == old(Issued) + [Open(server, port)]
      ensures oracle(Open(server, port)).Answer? ==>
                conn == Some(Session(server, port))
                && Issued == old(Issued) + [Open(server, port), Login(username, password)]
    {
      var handle := oracle(Open(server, port));
      Issued := Issued + [Open(server, port)];
      if handle.Raised? {
        loggedIn := false;
        return false;
      }
      conn := Some(Session(server, port));
      var login := oracle(Login(username, password));
      Issued := Issued + [Login(username, password)];
      if login.Raised? {
        loggedIn := false;
        return false;
      }
      loggedIn := true;
      return true;
    }

    /** `disconnect`: log out when connected and logged in; the state is
        cleared whatever the server answers. */
    method Disconnect(oracle: Oracle)
      requires Valid()
      modifies this
      ensures Valid() && !loggedIn
      ensures old(conn.Some? && loggedIn) ==> conn == None && Issued == old(Issued) + [Logout]
      ensures !old(conn.Some? && loggedIn) ==> conn == old(conn) && Issued == old(Issued)
    {
      if conn.Some? && loggedIn {
        var _ := oracle(Logout);
        Issued := Issued + [Logout];
        loggedIn := false;
        conn := None;
      }
    }

    /** `list_folders`. */
    method ListFolders(oracle: Oracle) returns (folders: seq<string>)
      requires Valid()
      modifies this`Issued
      ensures Issued == old(Issued) + (if loggedIn then [List] else [])
      ensures folders == (if loggedIn then ListResult(oracle(List)) else [])
    {
      if !loggedIn {
        return [];
      }
      var reply := oracle(List);
      Issued := Issued + [List];
      if !Accepted(reply) {
        return [];
      }
      folders := CollectFolderNames(reply.data);
    }

    /** `select_folder`. */
    method SelectFolder(folder: string, oracle: Oracle) returns (ok: bool)
      requires Valid()
      modifies this`Issued
      ensures Issued == old(Issued) + (if loggedIn then [Select(folder)] else [])
      ensures ok <==> loggedIn && Accepted(oracle(Select(folder)))
    {
      if !loggedIn {
        return false;
      }
      var reply := oracle(Select(folder));
      Issued := Issued + [Select(folder)];
      ok := Accepted(reply);
    }

    /** `search_emails`. */
    method SearchEmails(criteria: string, oracle: Oracle) returns (ids: Completion<seq<string>>)
      requires Valid()
      modifies this`Issued
      ensures Issued == old(Issued) + (if loggedIn then [Search(criteria)] else [])
      ensures ids == (if loggedIn then SearchResult(oracle(Search(criteria))) else Normal([]))
    {
      if !loggedIn {
        return Normal([]);
      }
      var reply := oracle(Search(criteria));
      Issued := Issued + [Search(criteria)];
      if !Accepted(reply) {
        return Normal([]);
      }
      if |reply.data| == 0 || !reply.data[0].Line? {
        return Escaped;
      }
      ids := Normal(SplitWhitespace(reply.data[0].text));
    }

    /** `get_email`. */
    method GetEmail(id: string, oracle: Oracle) returns (msg: Completion<Option<Message>>)
      requires Valid()
      modifies this`Issued
      ensures Issued == old(Issued) + (if loggedIn then [Fetch(id, "(RFC822)")] else [])
      ensures msg == (if loggedIn then FetchResult(oracle(Fetch(id, "(RFC822)"))) else Normal(None))
    {
      if !loggedIn {
        return Normal(None);
      }
      var reply := oracle(Fetch(id, "(RFC822)"));
      Issued := Issued + [Fetch(id, "(RFC822)")];
      if !Accepted(reply) {
        return Normal(None);
      }
      if |reply.data| == 0 || !reply.data[0].Literal? {
        return Escaped;
      }
      msg := Normal(Some(reply.data[0].message));
    }

    /** `move_email`: the saga, sent only when logged in. */
    method MoveEmail(id: string, destination: string, oracle: Oracle) returns (moved: bool)
      requires Valid()
      modifies this`Issued
      ensures moved <==> loggedIn && MoveSaga(id, destination, oracle).moved
      ensures Issued == old(Issued) + (if loggedIn then MoveSaga(id, destination, oracle).issued else [])
    {
      if !loggedIn {
        return false;
      }
      var copy := oracle(Copy(id, destination));
      Issued := Issued + [Copy(id, destination)];
      if !Accepted(copy) {
        return false;
      }
      var store := oracle(Store(id, "+FLAGS", DeletedFlag));
      Issued := Issued + [Store(id, "+FLAGS", DeletedFlag)];
      if !Accepted(store) {
        return false;
      }
      var expunge := oracle(Expunge);
      Issued := Issued + [Expunge];
      if !Accepted(expunge) {
        return false;
      }
      return true;
    }

    /** `__enter__`: connect, whatever the outcome, and hand back the connector. */
    method Enter(oracle: Oracle) returns (self: Connector)
      requires Valid()
      modifies this
      ensures self == this && Valid()
      ensures loggedIn <==> oracle(Open(server, port)).Answer? && oracle(Login(username, password)).Answer?
      ensures oracle(Open(server, port)).Raised? ==> conn == old(conn)
      ensures oracle(Open(server, port)).Answer? ==> conn == Some(Session(server, port))
      ensures Issued == old(Issued) + [Open(server, port)]
                        + (if oracle(Open(server, port)).Answer? then [Login(username, password)] else [])
    {
      var _ := Connect(oracle);
      self := this;
    }

    /** `__exit__`: disconnect. */
    method Exit(oracle: Oracle)
      requires Valid()
      modifies this
      ensures Valid() && !loggedIn
      ensures old(conn.Some? && loggedIn) ==> conn == None && Issued == old(Issued) + [Logout]
      ensures !old(conn.Some? && loggedIn) ==> conn == old(conn) && Issued == old(Issued)
    {
      Disconnect(oracle);
    }
  }

  /** Disconnecting twice: the first call logs out once and clears the
      session, the second sends nothing and changes nothing. */
  method DisconnectTwice(c: Connector, first: Oracle, second: Oracle)
    requires c.Valid() && c.conn.Some? && c.loggedIn
    modifies c
    ensures c.Valid() && !c.loggedIn && c.conn == None
    ensures c.Issued == old(c.Issued) + [Logout]
  {
    c.Disconnect(first);
    c.Disconnect(second);
  }
}
