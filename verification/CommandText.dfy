/** Commands as text: the lines that nodes log and send, and how a request line is taken apart again
    (Convention.h, DataNode.cpp, SQSMaster.cpp; query parsing as described in event2/http.h). */
module CommandText {
  import opened Basics
  import opened Commands
  import Decimal
  import DN = DataNode

  const QUEUE_NAME := "queueName"
  const MSG := "message"
  const MSG_ID := "mId"
  const NODE_NAME := "nodeName"
  const NODE_PORT := "nodePort"

  datatype Param = Param(key: string, value: string)

  /** The first place of c, or the length. */
  function Cut(s: string, c: char): (k: nat)
    ensures k <= |s| && c !in s[..k]
    ensures k < |s| ==> s[k] == c
  {
    if s == [] || s[0] == c then 0
    else
      var k := Cut(s[1..], c);
      assert s[..k + 1] == [s[0]] + s[1..][..k];
      k + 1
  }

  predicate IsHex(c: char) { '0' <= c <= '9' || 'a' <= c <= 'f' || 'A' <= c <= 'F' }

  function HexValue(c: char): (n: nat)
    requires IsHex(c)
    ensures n < 16
  {
    if c <= '9' then c as int - '0' as int else if c <= 'F' then 10 + c as int - 'A' as int
         else 10 + c as int - 'a' as int
  }

  /** A query value decoded: plus is a space, and percent with two hex digits one character. */
  function Decoded(s: string): (d: string)
    ensures |d| <= |s|
  {
    if s == [] then []
    else if s[0] == '+' then [' '] + Decoded(s[1..])
    else if s[0] == '%' && |s| >= 3 && IsHex(s[1]) && IsHex(s[2]) then
      [(16 * HexValue(s[1]) + HexValue(s[2])) as char] + Decoded(s[3..])
    else [s[0]] + Decoded(s[1..])
  }

  /** evhttp_parse_query_str : pieces between ampersands, each a key, an equals sign and a value. One piece
      without a key or an equals sign spoils the whole query. */
  function ParseQuery(q: string): Option<seq<Param>>
    decreases |q|
  {
    if q == [] then Some([])
    else
      var k := Cut(q, '&');
      var e := Cut(q[..k], '=');
      if e == 0 || e == k then None
      else
        match ParseQuery(if k == |q| then [] else q[k + 1..])
        case None => None
        case Some(ps) => Some([Param(q[..e], Decoded(q[e + 1..k]))] + ps)
  }

  /** evhttp_find_header : the first value of the key. */
  function FindParam(ps: seq<Param>, key: string): Option<string> {
    if ps == [] then None else if ps[0].key == key then Some(ps[0].value) else FindParam(ps[1..], key)
  }

  /** A character that ends the request line or the query: it cannot travel in a value. */
  predicate Breaks(c: char) { c == ' ' || c == '\n' || c == '\r' || c == '\0' || c == '#' }

  predicate Travels(s: string) {
    s == [] || (!Breaks(s[0]) && Travels(s[1..]))
  }

  /** What a handler sees of a request: its path and its parameters, if the request line holds together. */
  function Received(uri: string): Option<(string, seq<Param>)> {
    if !Travels(uri) then None
    else
      var k := Cut(uri, '?');
      match ParseQuery(if k == |uri| then [] else uri[k + 1..])
      case None => Some((uri[..k], []))
      case Some(ps) => Some((uri[..k], ps))
  }

  function Query(ps: seq<Param>): string {
    if ps == [] then []
    else ps[0].key + "=" + ps[0].value + (if |ps| == 1 then [] else "&" + Query(ps[1..]))
  }

  /** A command as it is written in a line. The id is text: the node that numbers a message prints its id,
      but the id of a delete is whatever its client wrote, passed on without a look. */
  datatype Written =
    | CreateLine(queue: string)
    | DropLine(queue: string)
    | PutLine(queue: string, text: string, idText: string)
    | EraseLine(queue: string, idText: string)

  /** The command that is meant: every id is read with atoi. */
  function Meaning(c: Written): Command {
    match c
    case CreateLine(q) => CreateQueue(q)
    case DropLine(q) => DeleteQueue(q)
    case PutLine(q, text, t) => PutMessage(q, text, Decimal.Atoi(t))
    case EraseLine(q, t) => DeleteMessage(q, Decimal.Atoi(t))
  }

  /** A command written with its id in plain decimal. */
  function Printed(c: Command): Written {
    match c
    case CreateQueue(q) => CreateLine(q)
    case DeleteQueue(q) => DropLine(q)
    case PutMessage(q, text, id) => PutLine(q, text, Decimal.IntText(id))
    case DeleteMessage(q, id) => EraseLine(q, Decimal.IntText(id))
  }

  lemma PrintedMeans(c: Command)
    ensures Meaning(Printed(c)) == c
  {
    if c.PutMessage? || c.DeleteMessage? { Decimal.IntRoundTrip(c.id); }
  }

  function PathOf(c: Written): string {
    match c
    case CreateLine(_) => DN.CREATE_QUEUE
    case DropLine(_) => DN.DEL_QUEUE
    case PutLine(_, _, _) => DN.PUT_MSG
    case EraseLine(_, _) => DN.DELETE_MSG
  }

  function Fields(c: Written): seq<Param> {
    match c
    case CreateLine(q) => [Param(QUEUE_NAME, q)]
    case DropLine(q) => [Param(QUEUE_NAME, q)]
    case PutLine(q, text, t) => [Param(QUEUE_NAME, q), Param(MSG, text), Param(MSG_ID, t)]
    case EraseLine(q, t) => [Param(QUEUE_NAME, q), Param(MSG_ID, t)]
  }

  /** The line a node logs for a command. */
  function Line(c: Written): string {
    PathOf(c) + "?" + Query(Fields(c))
  }

  /** The request with which the origin tells the master. */
  function ToMaster(node: string, port: int, c: Written): string {
    PathOf(c) + "?" + Query([Param(NODE_NAME, node), Param(NODE_PORT, Decimal.IntText(port))] + Fields(c))
  }

  /** The parameters a path needs, in the order in which they are printed. */
  function KeysOf(path: string): Option<seq<string>> {
    if path == DN.CREATE_QUEUE || path == DN.DEL_QUEUE then Some([QUEUE_NAME])
    else if path == DN.PUT_MSG then Some([QUEUE_NAME, MSG, MSG_ID])
    else if path == DN.DELETE_MSG then Some([QUEUE_NAME, MSG_ID])
    else None
  }

  function Picked(ps: seq<Param>, keys: seq<string>): Option<seq<Param>> {
    if keys == [] then Some([])
    else
      match (FindParam(ps, keys[0]), Picked(ps, keys[1..]))
      case (Some(v), Some(rest)) => Some([Param(keys[0], v)] + rest)
      case _ => None
  }

  /** The line that the master, or a replica, builds from a request it has received: the master queues and
      fans it out, the replica logs it. */
  function Rebuilt(uri: string): Option<string> {
    match Received(uri)
    case None => None
    case Some((path, ps)) =>
      match KeysOf(path)
      case None => None
      case Some(keys) =>
        match Picked(ps, keys)
        case None => None
        case Some(fields) => Some(path + "?" + Query(fields))
  }

  /** The request as DataNode's handlers see it, with atoi applied to the id. */
  function RequestOf(uri: string): Option<DN.Request> {
    match Received(uri)
    case None => None
    case Some((path, ps)) =>
      Some(DN.Request(path, FindParam(ps, QUEUE_NAME), FindParam(ps, MSG),
                      match FindParam(ps, MSG_ID) case None => None case Some(t) => Some(Decimal.Atoi(t))))
  }

  /** A value without reserved characters: none that breaks the line, no ampersand, and nothing in it to decode. */
  predicate Clean(v: string) {
    Travels(v) && Cut(v, '&') == |v| && Decoded(v) == v
  }

  /** A character that has no meaning of its own in a query. */
  predicate Plain(c: char) { !Breaks(c) && c != '&' && c != '+' && c != '%' && c != '=' && c != '?' }

  predicate AllPlain(s: string) {
    forall i :: 0 <= i < |s| ==> Plain(s[i])
  }

  predicate CleanParams(ps: seq<Param>) {
    forall i :: 0 <= i < |ps| ==> ps[i].key != [] && AllPlain(ps[i].key) && Clean(ps[i].value)
  }

  lemma {:induction false} PlainDecoded(s: string)
    requires AllPlain(s)
    ensures Decoded(s) == s && Clean(s)
  {
    if s != [] { PlainDecoded(s[1..]); }
  }

  lemma {:induction false} CutAt(a: string, c: char, b: string)
    requires c !in a
    ensures Cut(a + [c] + b, c) == |a| && Cut(a, c) == |a|
  {
    if a != [] {
      assert (a + [c] + b)[1..] == a[1..] + [c] + b;
      CutAt(a[1..], c, b);
    }
  }

  /** Where the cuts of one printed parameter fall. */
  lemma PieceCuts(key: string, value: string, more: string)
    requires key != [] && AllPlain(key) && '&' !in value && (more == [] || more[0] == '&')
    ensures var q, n := key + "=" + value + more, |key| + 1 + |value|;
            && Cut(q, '&') == n && Cut(q[..n], '=') == |key| && q[..|key|] == key && q[|key| + 1..n] == value
                 && q[n..] == more
  {
    var piece := key + "=" + value;
    var q := piece + more;
    CutAt(key, '=', value);
    assert '&' !in piece;
    assert q[..|piece|] == piece;
    if more == [] {
      CutAt(piece, '&', []);
      assert q == piece;
    } else {
      CutAt(piece, '&', more[1..]);
      assert q == piece + ['&'] + more[1..];
    }
  }

  /** One printed parameter is taken apart again, and what follows the ampersand is parsed on its own. */
  lemma ParsePiece(key: string, value: string, more: string)
    requires key != [] && AllPlain(key) && '&' !in value && (more == [] || more[0] == '&')
    ensures ParseQuery(key + "=" + value + more)
         == match ParseQuery(if more == [] then [] else more[1..])
            case None => None
            case Some(ps) => Some([Param(key, Decoded(value))] + ps)
  {
    hide AllPlain, Cut, Decoded;
    var q, n := key + "=" + value + more, |key| + 1 + |value|;
    PieceCuts(key, value, more);
    assert (if n == |q| then [] else q[n + 1..]) == if more == [] then [] else more[1..];
  }

  function DecodedParams(ps: seq<Param>): (ds: seq<Param>)
    ensures |ds| == |ps| && forall i :: 0 <= i < |ps| ==> ds[i] == Param(ps[i].key, Decoded(ps[i].value))
  {
    seq(|ps|, i requires 0 <= i < |ps| => Param(ps[i].key, Decoded(ps[i].value)))
  }

  /** The names are ones that a query can carry, and no value has an ampersand. */
  ghost predicate Separable(ps: seq<Param>) {
    forall i :: 0 <= i < |ps| ==> ps[i].key != [] && AllPlain(ps[i].key) && '&' !in ps[i].value
  }

  /** Printing and parsing a parameter list decodes its values. */
  lemma {:induction false} ParsePrinted(ps: seq<Param>)
    requires Separable(ps)
    ensures ParseQuery(Query(ps)) == Some(DecodedParams(ps))
    decreases |ps|
  {
    hide ParseQuery, AllPlain;
    if ps == [] {
      ParseEmpty();
    } else {
      var more := if |ps| == 1 then [] else "&" + Query(ps[1..]);
      ParsePiece(ps[0].key, ps[0].value, more);
      ParsePrinted(ps[1..]);
      assert |ps| > 1 ==> more[1..] == Query(ps[1..]);
      assert DecodedParams(ps) == [Param(ps[0].key, Decoded(ps[0].value))] + DecodedParams(ps[1..]);
    }
  }

  lemma ParseEmpty()
    ensures ParseQuery([]) == Some([])
  {
  }

  lemma {:induction false} TravelsConcat(a: string, b: string)
    ensures Travels(a + b) <==> Travels(a) && Travels(b)
  {
    if a == [] {
      assert a + b == b;
    } else {
      assert (a + b)[1..] == a[1..] + b;
      TravelsConcat(a[1..], b);
    }
  }

  /** A printed list travels if and only if all that is in it does. */
  lemma {:induction false} QueryTravels(ps: seq<Param>)
    requires forall i :: 0 <= i < |ps| ==> Travels(ps[i].key)
    ensures Travels(Query(ps)) <==> forall i :: 0 <= i < |ps| ==> Travels(ps[i].value)
    decreases |ps|
  {
    if ps != [] {
      var key, value, more := ps[0].key, ps[0].value, if |ps| == 1 then [] else "&" + Query(ps[1..]);
      QueryTravels(ps[1..]);
      SignsTravel();
      TravelsConcat(key + "=" + value, more);
      TravelsConcat(key + "=", value);
      TravelsConcat(key, "=");
      if |ps| > 1 { TravelsConcat("&", Query(ps[1..])); }
      assert Query(ps) == key + "=" + value + more;
      assert forall i :: 1 <= i < |ps| ==> ps[i] == ps[1..][i - 1];
    }
  }

  lemma SignsTravel()
    ensures Travels("=") && Travels("&") && Travels("?") && Travels([])
  {
    assert "="[1..] == [] && "&"[1..] == [] && "?"[1..] == [];
  }

  lemma DigitsClean(n: int)
    ensures Clean(Decimal.IntText(n))
  {
    assert AllPlain(Decimal.IntText(n));
    PlainDecoded(Decimal.IntText(n));
  }

  /** What a handler sees of a printed request. */
  lemma ReceivedPrinted(path: string, ps: seq<Param>)
    requires CleanParams(ps) && AllPlain(path)
    ensures Received(path + "?" + Query(ps)) == Some((path, ps))
  {
    var uri := path + "?" + Query(ps);
    hide ParseQuery, Query, Decoded;
    forall i | 0 <= i < |ps|
      ensures Travels(ps[i].key) && '&' !in ps[i].value
    {
      PlainDecoded(ps[i].key);
      assert ps[i].value[..Cut(ps[i].value, '&')] == ps[i].value;
    }
    QueryTravels(ps);
    PlainDecoded(path);
    SignsTravel();
    TravelsConcat(path, "?");
    TravelsConcat(path + "?", Query(ps));
    CutAt(path, '?', Query(ps));
    assert uri[|path| + 1..] == Query(ps) && uri[..|path|] == path;
    ParsePrinted(ps);
    assert DecodedParams(ps) == ps;
  }

  ghost predicate CleanLine(c: Written) {
    Clean(c.queue) && (c.PutLine? ==> Clean(c.text)) && (c.PutLine? || c.EraseLine? ==> Clean(c.idText))
  }

  lemma KeysPlain()
    ensures AllPlain(QUEUE_NAME) && AllPlain(MSG) && AllPlain(MSG_ID)
  {
  }

  lemma NodeKeysPlain()
    ensures AllPlain(NODE_NAME) && AllPlain(NODE_PORT)
  {
  }

  lemma FieldsClean(c: Written)
    requires CleanLine(c)
    ensures CleanParams(Fields(c))
  {
    hide AllPlain, Clean;
    KeysPlain();
  }

  lemma PathPlain(c: Written)
    ensures AllPlain(PathOf(c))
  {
  }

  lemma NamesDiffer()
    ensures QUEUE_NAME != MSG && QUEUE_NAME != MSG_ID && MSG != MSG_ID
    ensures NODE_NAME !in [QUEUE_NAME, MSG, MSG_ID] && NODE_PORT !in [QUEUE_NAME, MSG, MSG_ID]
  {
    assert |QUEUE_NAME| == 9 && |MSG| == 7 && |MSG_ID| == 3 && |NODE_NAME| == 8 && |NODE_PORT| == 8;
  }

  lemma PathsDiffer()
    ensures DN.CREATE_QUEUE != DN.DEL_QUEUE && DN.CREATE_QUEUE != DN.PUT_MSG && DN.CREATE_QUEUE != DN.DELETE_MSG
    ensures DN.DEL_QUEUE != DN.PUT_MSG && DN.DEL_QUEUE != DN.DELETE_MSG && DN.PUT_MSG != DN.DELETE_MSG
  {
    assert DN.CREATE_QUEUE[1] == 'c' && DN.DEL_QUEUE[1] == 'd' && DN.PUT_MSG[1] == 'p' && DN.DELETE_MSG[1] == 'd';
    assert DN.DEL_QUEUE[7] == 'Q' && DN.DELETE_MSG[7] == 'M';
  }

  function KeysOfCommand(c: Written): seq<string> {
    match c
    case PutLine(_, _, _) => [QUEUE_NAME, MSG, MSG_ID]
    case EraseLine(_, _) => [QUEUE_NAME, MSG_ID]
    case _ => [QUEUE_NAME]
  }

  lemma PathKeys(c: Written)
    ensures KeysOf(PathOf(c)) == Some(KeysOfCommand(c))
  {
    PathsDiffer();
  }

  lemma FindSkips(p: Param, ps: seq<Param>, key: string)
    ensures FindParam([p] + ps, key) == if p.key == key then Some(p.value) else FindParam(ps, key)
  {
    assert ([p] + ps)[1..] == ps;
  }

  /** Each field of a command is found by its name. */
  lemma FindsFields(c: Written)
    ensures FindParam(Fields(c), QUEUE_NAME) == Some(c.queue)
    ensures c.PutLine? ==> FindParam(Fields(c), MSG) == Some(c.text)
    ensures c.PutLine? || c.EraseLine? ==> FindParam(Fields(c), MSG_ID) == Some(c.idText)
  {
    NamesDiffer();
    match c
    case PutLine(q, text, t) =>
      var last := [Param(MSG_ID, t)];
      var rest := [Param(MSG, text)] + last;
      assert Fields(c) == [Param(QUEUE_NAME, q)] + rest;
      FindSkips(Param(QUEUE_NAME, q), rest, MSG);
      FindSkips(Param(QUEUE_NAME, q), rest, MSG_ID);
      FindSkips(Param(MSG, text), last, MSG_ID);
    case EraseLine(q, t) =>
      var last := [Param(MSG_ID, t)];
      assert Fields(c) == [Param(QUEUE_NAME, q)] + last;
      FindSkips(Param(QUEUE_NAME, q), last, MSG_ID);
    case _ =>
  }

  /** A parameter list in which the fields of c are found. */
  ghost predicate HasFields(ps: seq<Param>, c: Written) {
    && FindParam(ps, QUEUE_NAME) == Some(c.queue)
    && (c.PutLine? ==> FindParam(ps, MSG) == Some(c.text))
    && (c.PutLine? || c.EraseLine? ==> FindParam(ps, MSG_ID) == Some(c.idText))
  }

  function Names(ps: seq<Param>): (keys: seq<string>)
    ensures |keys| == |ps| && forall i :: 0 <= i < |ps| ==> keys[i] == ps[i].key
  {
    seq(|ps|, i requires 0 <= i < |ps| => ps[i].key)
  }

  lemma {:induction false} PicksFound(ps: seq<Param>, fs: seq<Param>)
    requires forall i :: 0 <= i < |fs| ==> FindParam(ps, fs[i].key) == Some(fs[i].value)
    ensures Picked(ps, Names(fs)) == Some(fs)
  {
    if fs != [] {
      PicksFound(ps, fs[1..]);
      assert Names(fs)[1..] == Names(fs[1..]) && fs == [Param(fs[0].key, fs[0].value)] + fs[1..];
    }
  }

  lemma PicksFields(c: Written, ps: seq<Param>)
    requires HasFields(ps, c)
    ensures Picked(ps, KeysOfCommand(c)) == Some(Fields(c))
  {
    hide FindParam, Picked;
    PicksFound(ps, Fields(c));
    assert Names(Fields(c)) == KeysOfCommand(c);
  }

  function NodeParams(node: string, port: int): seq<Param> {
    [Param(NODE_NAME, node), Param(NODE_PORT, Decimal.IntText(port))]
  }

  /** The node's own parameters in front do not hide the fields of the command. */
  lemma RequestHasFields(node: string, port: int, c: Written)
    ensures HasFields(Fields(c), c) && HasFields(NodeParams(node, port) + Fields(c), c)
  {
    FindsFields(c);
    NamesDiffer();
    var a, b, fs := Param(NODE_NAME, node), Param(NODE_PORT, Decimal.IntText(port)), Fields(c);
    assert NodeParams(node, port) + fs == [a] + ([b] + fs);
    forall key | key in [QUEUE_NAME, MSG, MSG_ID]
      ensures FindParam(NodeParams(node, port) + fs, key) == FindParam(fs, key)
    {
      FindSkips(b, fs, key);
      FindSkips(a, [b] + fs, key);
    }
    assert QUEUE_NAME in [QUEUE_NAME, MSG, MSG_ID] && MSG in [QUEUE_NAME, MSG, MSG_ID]
         && MSG_ID in [QUEUE_NAME, MSG, MSG_ID];
  }

  lemma RebuiltFrom(uri: string, c: Written, ps: seq<Param>)
    requires Received(uri) == Some((PathOf(c), ps)) && HasFields(ps, c)
    ensures Rebuilt(uri) == Some(Line(c))
  {
    hide HasFields, PathOf, KeysOf, Fields, Query, Picked, Received;
    PathKeys(c);
    PicksFields(c, ps);
  }

  lemma RequestFrom(uri: string, c: Written, ps: seq<Param>)
    requires Received(uri) == Some((PathOf(c), ps)) && HasFields(ps, c)
    ensures RequestOf(uri).Some? && DN.CommandOf(RequestOf(uri).value) == Some(Meaning(c))
  {
    hide Received;
    PathsDiffer();
  }

  lemma RequestClean(node: string, port: int, c: Written)
    requires CleanLine(c) && Clean(node)
    ensures CleanParams(NodeParams(node, port) + Fields(c))
  {
    hide AllPlain, Clean;
    FieldsClean(c);
    NodeKeysPlain();
    DigitsClean(port);
  }

  /** A replica receives from a clean line its path and fields. */
  lemma LineReceived(c: Written)
    requires CleanLine(c)
    ensures Received(Line(c)) == Some((PathOf(c), Fields(c))) && HasFields(Fields(c), c)
  {
    hide PathOf, Fields, Query, CleanParams, AllPlain, Clean, Received, HasFields, FindParam;
    FieldsClean(c);
    PathPlain(c);
    RequestHasFields([], 0, c);
    ReceivedPrinted(PathOf(c), Fields(c));
  }

  /** The master receives from a clean request its path and parameters, the fields of the command among them. */
  lemma RequestReceived(node: string, port: int, c: Written)
    requires CleanLine(c) && Clean(node)
    ensures var ps := NodeParams(node, port) + Fields(c);
            Received(ToMaster(node, port, c)) == Some((PathOf(c), ps)) && HasFields(ps, c)
  {
    hide PathOf, Fields, Query, CleanParams, AllPlain, Clean, Received, HasFields, FindParam;
    RequestClean(node, port, c);
    PathPlain(c);
    RequestHasFields(node, port, c);
    ReceivedPrinted(PathOf(c), NodeParams(node, port) + Fields(c));
  }

  /** For a command without reserved characters, a replica's parsing and rebuilding of its line is the identity. */
  lemma {:induction false} LineIsFixed(c: Written)
    requires CleanLine(c)
    ensures Rebuilt(Line(c)) == Some(Line(c))
  {
    hide Rebuilt, Line, CleanLine;
    LineReceived(c);
    RebuiltFrom(Line(c), c, Fields(c));
  }

  lemma ParseCons(p: Param, fs: seq<Param>)
    requires fs != [] && p.key != [] && AllPlain(p.key) && Clean(p.value)
    ensures ParseQuery(Query([p] + fs))
         == match ParseQuery(Query(fs))
            case None => None
            case Some(ps) => Some([p] + ps)
  {
    hide ParseQuery, Clean, AllPlain, Query;
    CleanParts(p.value);
    QueryCons(p, fs);
    ParsePiece(p.key, p.value, "&" + Query(fs));
    assert ("&" + Query(fs))[1..] == Query(fs);
  }

  lemma ParseTwo(a: Param, b: Param, fs: seq<Param>)
    requires fs != [] && a.key != [] && AllPlain(a.key) && Clean(a.value) && b.key != [] && AllPlain(b.key)
         && Clean(b.value)
    ensures ParseQuery(Query([a, b] + fs))
         == match ParseQuery(Query(fs))
            case None => None
            case Some(ps) => Some([a, b] + ps)
  {
    hide ParseQuery, Clean, AllPlain, Query;
    ParseCons(b, fs);
    ParseCons(a, [b] + fs);
    assert [a, b] + fs == [a] + ([b] + fs);
    if ParseQuery(Query(fs)).Some? {
      assert [a] + ([b] + ParseQuery(Query(fs)).value) == [a, b] + ParseQuery(Query(fs)).value;
    }
  }

  /** What the origin sends the master is parsed as the node's parameters and then those of the line. */
  lemma ParseBehindNode(node: string, port: int, fs: seq<Param>)
    requires Clean(node) && fs != []
    ensures ParseQuery(Query(NodeParams(node, port) + fs))
         == match ParseQuery(Query(fs))
            case None => None
            case Some(ps) => Some(NodeParams(node, port) + ps)
  {
    hide ParseQuery, Clean, AllPlain, Query;
    NodeKeysPlain();
    DigitsClean(port);
    ParseTwo(Param(NODE_NAME, node), Param(NODE_PORT, Decimal.IntText(port)), fs);
  }

  /** The text of the node's parameters. */
  function NodeText(node: string, port: int): string {
    NODE_NAME + "=" + node + "&" + (NODE_PORT + "=" + Decimal.IntText(port) + "&")
  }

  lemma RequestText(node: string, port: int, fs: seq<Param>)
    requires fs != []
    ensures Query(NodeParams(node, port) + fs) == NodeText(node, port) + Query(fs)
  {
    hide Query;
    var a, b := Param(NODE_NAME, node), Param(NODE_PORT, Decimal.IntText(port));
    QueryCons(b, fs);
    QueryCons(a, [b] + fs);
    assert NodeParams(node, port) + fs == [a] + ([b] + fs);
  }

  lemma NodeTextTravels(node: string, port: int)
    requires Clean(node)
    ensures Travels(NodeText(node, port))
  {
    hide Travels, Clean, AllPlain;
    NodeKeysPlain();
    DigitsClean(port);
    CleanParts(node);
    CleanParts(Decimal.IntText(port));
    PieceTravels(NODE_NAME, node);
    PieceTravels(NODE_PORT, Decimal.IntText(port));
    TravelsConcat(NODE_NAME + "=" + node + "&", NODE_PORT + "=" + Decimal.IntText(port) + "&");
  }

  /** And it breaks if and only if the line does. */
  lemma RequestTravels(node: string, port: int, c: Written)
    requires Clean(node)
    ensures Travels(ToMaster(node, port, c)) <==> Travels(Line(c))
  {
    hide Travels, Clean, PathOf, Fields, Query, NodeText, NodeParams;
    var q, path := Query(Fields(c)), PathOf(c) + "?";
    FieldsThere(c);
    RequestText(node, port, Fields(c));
    ToMasterText(node, port, c);
    NodeTextTravels(node, port);
    TravelsConcat(path, q);
    TravelsConcat(path, NodeText(node, port) + q);
    TravelsConcat(NodeText(node, port), q);
  }

  lemma ToMasterText(node: string, port: int, c: Written)
    ensures ToMaster(node, port, c) == PathOf(c) + "?" + Query(NodeParams(node, port) + Fields(c))
  {
  }

  lemma FieldsThere(c: Written)
    ensures Fields(c) != []
  {
  }

  lemma CleanParts(v: string)
    requires Clean(v)
    ensures Travels(v) && '&' !in v && Decoded(v) == v
  {
    assert v[..Cut(v, '&')] == v;
  }

  lemma QueryCons(p: Param, ps: seq<Param>)
    requires ps != []
    ensures Query([p] + ps) == p.key + "=" + p.value + ("&" + Query(ps))
  {
    assert ([p] + ps)[1..] == ps;
  }

  lemma PieceTravels(key: string, value: string)
    requires AllPlain(key) && Travels(value)
    ensures Travels(key + "=" + value + "&")
  {
    PlainDecoded(key);
    SignsTravel();
    TravelsConcat(key, "=");
    TravelsConcat(key + "=", value);
    TravelsConcat(key + "=" + value, "&");
  }

  /** The node's parameters in front hide nothing that is looked for. */
  lemma {:induction false} PickedBehindNode(node: string, port: int, ps: seq<Param>, keys: seq<string>)
    requires NODE_NAME !in keys && NODE_PORT !in keys
    ensures Picked(NodeParams(node, port) + ps, keys) == Picked(ps, keys)
    decreases |keys|
  {
    var a, b := Param(NODE_NAME, node), Param(NODE_PORT, Decimal.IntText(port));
    if keys != [] {
      assert NodeParams(node, port) + ps == [a] + ([b] + ps);
      FindSkips(b, ps, keys[0]);
      FindSkips(a, [b] + ps, keys[0]);
      PickedBehindNode(node, port, ps, keys[1..]);
    }
  }

  /** Whatever the command, clean or not: what the master builds from the origin's request is what a replica
      builds from the origin's line. */
  lemma {:induction false} MasterRebuildsAsReplica(node: string, port: int, c: Written)
    requires Clean(node)
    ensures Rebuilt(ToMaster(node, port, c)) == Rebuilt(Line(c))
  {
    hide Clean, ParseQuery, Query, Travels, PathOf, Fields, KeysOf, Picked, KeysOfCommand, AllPlain;
    FieldsThere(c);
    RequestTravels(node, port, c);
    ParseBehindNode(node, port, Fields(c));
    PathPlain(c);
    UriParts(PathOf(c), Query(Fields(c)));
    UriParts(PathOf(c), Query(NodeParams(node, port) + Fields(c)));
    PathKeys(c);
    KeysAreFields(c);
    if ParseQuery(Query(Fields(c))).Some? {
      PickedBehindNode(node, port, ParseQuery(Query(Fields(c))).value, KeysOfCommand(c));
    }
  }

  lemma KeysAreFields(c: Written)
    ensures NODE_NAME !in KeysOfCommand(c) && NODE_PORT !in KeysOfCommand(c)
  {
    NamesDiffer();
  }

  /** Where a request line of a known path is cut. */
  lemma UriParts(path: string, q: string)
    requires AllPlain(path)
    ensures var uri := path + "?" + q;
            Cut(uri, '?') == |path| && |path| < |uri| && uri[..|path|] == path && uri[|path| + 1..] == q
  {
    CutAt(path, '?', q);
  }

  /** So for a command without reserved characters it is the origin's own log line. */
  lemma {:induction false} MasterRebuildsLine(node: string, port: int, c: Written)
    requires CleanLine(c) && Clean(node)
    ensures Rebuilt(ToMaster(node, port, c)) == Some(Line(c))
  {
    hide Rebuilt, Line, ToMaster, CleanLine, Clean;
    LineIsFixed(c);
    MasterRebuildsAsReplica(node, port, c);
  }

  /** Line and request both carry exactly the command that is meant. */
  lemma {:induction false} TextCarriesCommand(node: string, port: int, c: Written)
    requires CleanLine(c) && Clean(node)
    ensures RequestOf(Line(c)).Some? && DN.CommandOf(RequestOf(Line(c)).value) == Some(Meaning(c))
    ensures var r := RequestOf(ToMaster(node, port, c)); r.Some? && DN.CommandOf(r.value) == Some(Meaning(c))
  {
    hide RequestOf, Line, ToMaster, CleanLine, Clean;
    LineReceived(c);
    RequestReceived(node, port, c);
    RequestFrom(Line(c), c, Fields(c));
    RequestFrom(ToMaster(node, port, c), c, NodeParams(node, port) + Fields(c));
  }

  /** Two commands without reserved characters that are written differently have different lines. */
  lemma {:induction false} LinesDiffer(c: Written, d: Written)
    requires CleanLine(c) && CleanLine(d) && Line(c) == Line(d)
    ensures c == d
  {
    hide CleanLine, Line, PathOf;
    LineReceived(c);
    LineReceived(d);
    if PathOf(c) == PathOf(d) { SamePath(c, d); }
  }

  lemma SamePath(c: Written, d: Written)
    requires PathOf(c) == PathOf(d) && Fields(c) == Fields(d)
    ensures c == d
  {
    PathsDiffer();
    assert Fields(c)[0].value == c.queue && Fields(d)[0].value == d.queue;
    if |Fields(c)| > 1 { assert Fields(c)[1].value == Fields(d)[1].value; }
    if |Fields(c)| > 2 { assert Fields(c)[2].value == Fields(d)[2].value; }
  }
}
