/** What the lines and requests are, letter for letter, and what a node reads from them: which change a
    client's request asks for, and which values can be sent at all. */
module RequestLines {
  import opened Basics
  import opened Commands
  import Decimal
  import DN = DataNode
  import opened CommandText

  lemma QueryOf(ps: seq<Param>)
    ensures |ps| == 1 ==> Query(ps) == ps[0].key + "=" + ps[0].value
    ensures |ps| > 1 ==> Query(ps) == ps[0].key + "=" + ps[0].value + "&" + Query(ps[1..])
  {
    if |ps| == 1 {
      QueryCons(ps[0], [ps[0]]);
      assert ps == [ps[0]];
      LastQuery(ps[0]);
    } else if |ps| > 1 {
      QueryCons(ps[0], ps[1..]);
      assert ps == [ps[0]] + ps[1..];
      Together(ps[0].key + "=" + ps[0].value, "&", Query(ps[1..]));
    }
  }

  lemma LastQuery(p: Param)
    ensures Query([p]) == p.key + "=" + p.value
  {
    assert p.key + "=" + p.value + [] == p.key + "=" + p.value;
  }

  lemma Together(a: string, b: string, c: string)
    ensures a + (b + c) == a + b + c
  {
  }

  /** Text put together piece by piece is the pieces put together. */
  lemma Joins(path: string, k: string, q: string, k': string, v: string, k'': string, w: string)
    ensures path + "?" + (k + "=" + q) == path + "?" + k + "=" + q
    ensures path + "?" + (k + "=" + q + "&" + (k' + "=" + v)) == path + "?" + k + "=" + q + "&" + k' + "=" + v
    ensures path + "?" + (k + "=" + q + "&" + (k' + "=" + v + "&" + (k'' + "=" + w)))
         == path + "?" + k + "=" + q + "&" + k' + "=" + v + "&" + k'' + "=" + w
  {
  }

  /** The line of each command. */
  lemma LineIs(c: Written)
    ensures Line(c)
         == match c
            case CreateLine(q) => "/createQueue" + "?" + "queueName" + "=" + q
            case DropLine(q) => "/deleteQueue" + "?" + "queueName" + "=" + q
            case PutLine(q, text, t) =>
              "/putMessage" + "?" + "queueName" + "=" + q + "&" + "message" + "=" + text + "&" + "mId" + "=" + t
            case EraseLine(q, t) => "/deleteMessage" + "?" + "queueName" + "=" + q + "&" + "mId" + "=" + t
  {
    var fs, p := Fields(c), PathOf(c);
    QueryOf(fs);
    if |fs| > 1 { QueryOf(fs[1..]); }
    if |fs| > 2 { QueryOf(fs[2..]); }
    match c
    case PutLine(q, text, t) => hide Query; Joins(p, QUEUE_NAME, q, MSG, text, MSG_ID, t);
    case EraseLine(q, t) => hide Query; Joins(p, QUEUE_NAME, q, MSG_ID, t, "", "");
    case _ => hide Query; Joins(p, QUEUE_NAME, c.queue, "", "", "", "");
  }

  /** The request with which the origin tells the master: as the line, with its own name and port in front. */
  lemma RequestIs(node: string, port: int, c: Written)
    ensures ToMaster(node, port, c)
         == PathOf(c) + "?" + "nodeName" + "=" + node + "&" + "nodePort" + "=" + Decimal.IntText(port)
            + "&" + Line(c)[|PathOf(c)| + 1..]
  {
    var p, ps := PathOf(c), NodeParams(node, port) + Fields(c);
    hide PathOf, Fields, Query, Decimal.IntText;
    FieldsThere(c);
    NodeQuery(node, port, Fields(c));
    JoinTwo(p, NODE_NAME, node, NODE_PORT, Decimal.IntText(port), Query(Fields(c)));
    assert Line(c)[|p| + 1..] == Query(Fields(c));
    assert ToMaster(node, port, c) == p + "?" + Query(ps);
  }

  lemma NodeQuery(node: string, port: int, fs: seq<Param>)
    requires fs != []
    ensures Query(NodeParams(node, port) + fs)
         == NODE_NAME + "=" + node + "&" + (NODE_PORT + "=" + Decimal.IntText(port) + "&" + Query(fs))
  {
    var a, b := Param(NODE_NAME, node), Param(NODE_PORT, Decimal.IntText(port));
    hide Query, Decimal.IntText;
    QueryOf([a] + ([b] + fs));
    QueryOf([b] + fs);
    assert ([a] + ([b] + fs))[1..] == [b] + fs && ([b] + fs)[1..] == fs;
    assert NodeParams(node, port) + fs == [a] + ([b] + fs);
  }

  lemma JoinTwo(path: string, k: string, v: string, k': string, w: string, q: string)
    ensures path + "?" + (k + "=" + v + "&" + (k' + "=" + w + "&" + q))
         == path + "?" + k + "=" + v + "&" + k' + "=" + w + "&" + q
  {
  }

  lemma FieldsAbsent(c: Written)
    ensures !c.PutLine? ==> FindParam(Fields(c), MSG) == None
    ensures c.CreateLine? || c.DropLine? ==> FindParam(Fields(c), MSG_ID) == None
  {
    NamesDiffer();
    if c.EraseLine? { FindSkips(Param(QUEUE_NAME, c.queue), [Param(MSG_ID, c.idText)], MSG); }
  }

  /** What the handlers find in a clean line. */
  lemma {:induction false} LineRequest(c: Written)
    requires CleanLine(c)
    ensures RequestOf(Line(c))
         == match c
            case CreateLine(q) => Some(DN.Request("/createQueue", Some(q), None, None))
            case DropLine(q) => Some(DN.Request("/deleteQueue", Some(q), None, None))
            case PutLine(q, text, t) => Some(DN.Request("/putMessage", Some(q), Some(text), Some(Decimal.Atoi(t))))
            case EraseLine(q, t) => Some(DN.Request("/deleteMessage", Some(q), None, Some(Decimal.Atoi(t))))
  {
    hide CleanLine, Line, Fields, FindParam, Received;
    LineReceived(c);
    FindsFields(c);
    FieldsAbsent(c);
  }

  /** A client's request in this form asks for just the change it names. */
  lemma {:induction false} LineAsks(c: Written)
    requires CleanLine(c)
    ensures RequestOf(Line(c)).Some?
    ensures DN.ChangeOf(RequestOf(Line(c)).value)
         == match c
            case CreateLine(q) => Some(Create(q))
            case DropLine(q) => Some(Drop(q))
            case PutLine(q, text, _) => Some(Post(q, text))
            case EraseLine(q, t) => Some(Erase(q, Decimal.Atoi(t)))
    ensures match DN.ChangeOf(RequestOf(Line(c)).value).value
            case Create(q) => Meaning(c) == CreateQueue(q)
            case Drop(q) => Meaning(c) == DeleteQueue(q)
            case Post(q, text) => Meaning(c).PutMessage? && Meaning(c).queue == q && Meaning(c).text == text
            case Erase(q, id) => Meaning(c) == DeleteMessage(q, id)
  {
    hide CleanLine, Line, RequestOf;
    LineRequest(c);
    PathsDiffer();
  }

  /** The value looked up under a key is the first one given for it. */
  lemma {:induction false} FindsFirst(ps: seq<Param>, key: string, i: nat)
    requires i < |ps| && ps[i].key == key && forall j :: 0 <= j < i ==> ps[j].key != key
    ensures FindParam(ps, key) == Some(ps[i].value)
  {
    if i > 0 { FindsFirst(ps[1..], key, i - 1); }
  }

  lemma {:induction false} FindsNone(ps: seq<Param>, key: string)
    ensures FindParam(ps, key).None? <==> forall j :: 0 <= j < |ps| ==> ps[j].key != key
  {
    if ps != [] {
      FindsNone(ps[1..], key);
      if forall j :: 0 <= j < |ps| ==> ps[j].key != key {
        assert forall j :: 0 <= j < |ps[1..]| ==> ps[1..][j] == ps[j + 1];
      }
      if ps[0].key != key && forall j :: 0 <= j < |ps[1..]| ==> ps[1..][j].key != key {
        assert forall j :: 1 <= j < |ps| ==> ps[j] == ps[1..][j - 1];
      }
    }
  }

  /** Which text can travel in a request line. */
  lemma {:induction false} TravelsExactly(s: string)
    ensures Travels(s) <==> forall i :: 0 <= i < |s| ==> s[i] !in {' ', '\n', '\r', '\0', '#'}
  {
    if s != [] {
      TravelsExactly(s[1..]);
      assert s == [s[0]] + s[1..];
    }
  }

  /** The sixteen digits, in either case. */
  lemma HexDigits(i: nat)
    requires i < 16
    ensures IsHex("0123456789ABCDEF"[i]) && HexValue("0123456789ABCDEF"[i]) == i
    ensures IsHex("0123456789abcdef"[i]) && HexValue("0123456789abcdef"[i]) == i
  {
  }

  lemma HexExactly(c: char)
    ensures IsHex(c) <==> c in "0123456789ABCDEFabcdef"
  {
    if IsHex(c) {
      var i := HexValue(c);
      HexDigits(i);
      var s := "0123456789ABCDEFabcdef";
      assert c == s[if c <= 'F' then i else i + 6];
    }
  }

  /** A percent sign and two hex digits stand for the character with that code. */
  lemma PercentIs(i: nat, j: nat, rest: string)
    requires i < 16 && j < 16
    ensures var d := [(16 * i + j) as char] + Decoded(rest);
            && Decoded(['%', "0123456789ABCDEF"[i], "0123456789ABCDEF"[j]] + rest) == d
            && Decoded(['%', "0123456789abcdef"[i], "0123456789abcdef"[j]] + rest) == d
  {
    HexDigits(i);
    HexDigits(j);
    PercentOf("0123456789ABCDEF"[i], "0123456789ABCDEF"[j], rest);
    PercentOf("0123456789abcdef"[i], "0123456789abcdef"[j], rest);
  }

  lemma PercentOf(h: char, l: char, rest: string)
    requires IsHex(h) && IsHex(l)
    ensures Decoded(['%', h, l] + rest) == [(16 * HexValue(h) + HexValue(l)) as char] + Decoded(rest)
  {
    var s := ['%', h, l] + rest;
    assert s[0] == '%' && s[1] == h && s[2] == l && s[3..] == rest;
  }

  /** A plus is a space; a percent sign that two hex digits do not follow stays, as does every other character. */
  lemma OthersDecode(c: char, rest: string)
    ensures c == '+' ==> Decoded([c] + rest) == [' '] + Decoded(rest)
    ensures c != '+' && c != '%' ==> Decoded([c] + rest) == [c] + Decoded(rest)
    ensures c == '%' && (|rest| < 2 || !IsHex(rest[0]) || !IsHex(rest[1])) ==>
              Decoded([c] + rest) == [c] + Decoded(rest)
  {
    assert ([c] + rest)[1..] == rest;
  }

  /** The usual escaping of a value: letters and digits as they are, all else as a percent sign and two digits. */
  function Escaped(s: string): string
    requires forall i :: 0 <= i < |s| ==> s[i] < 256 as char
  {
    if s == [] then []
    else if 'a' <= s[0] <= 'z' || 'A' <= s[0] <= 'Z' || '0' <= s[0] <= '9' then [s[0]] + Escaped(s[1..])
    else
      ['%', "0123456789ABCDEF"[s[0] as int / 16], "0123456789ABCDEF"[s[0] as int % 16]] + Escaped(s[1..])
  }

  lemma PercentTravels(h: char, l: char, rest: string)
    requires IsHex(h) && IsHex(l) && Travels(rest) && '&' !in rest
    ensures Travels(['%', h, l] + rest) && '&' !in ['%', h, l] + rest
  {
    var s := ['%', h, l] + rest;
    assert s[1..] == [h, l] + rest && s[1..][1..] == [l] + rest && s[1..][1..][1..] == rest;
  }

  lemma PercentCode(c: char, rest: string)
    requires c < 256 as char && Travels(rest) && '&' !in rest
    ensures var s := ['%', "0123456789ABCDEF"[c as int / 16], "0123456789ABCDEF"[c as int % 16]] + rest;
            Decoded(s) == [c] + Decoded(rest) && Travels(s) && '&' !in s
  {
    hide Decoded, Travels;
    var i, j := c as int / 16, c as int % 16;
    PercentIs(i, j, rest);
    HexDigits(i);
    HexDigits(j);
    PercentTravels("0123456789ABCDEF"[i], "0123456789ABCDEF"[j], rest);
  }

  /** Decoding undoes escaping, and an escaped value can travel. */
  lemma {:induction false} EscapedDecodes(s: string)
    requires forall i :: 0 <= i < |s| ==> s[i] < 256 as char
    ensures Decoded(Escaped(s)) == s && Travels(Escaped(s)) && '&' !in Escaped(s)
  {
    if s != [] {
      EscapedDecodes(s[1..]);
      var c, rest := s[0], Escaped(s[1..]);
      hide Decoded;
      assert s == [c] + s[1..];
      if 'a' <= c <= 'z' || 'A' <= c <= 'Z' || '0' <= c <= '9' {
        OthersDecode(c, rest);
        assert ([c] + rest)[1..] == rest;
      } else {
        PercentCode(c, rest);
      }
    }
  }

  /** So any value at all arrives, if its sender escapes it. */
  lemma EscapedArrives(key: string, v: string, more: string)
    requires forall i :: 0 <= i < |v| ==> v[i] < 256 as char
    requires key != [] && AllPlain(key)
    ensures ParseQuery(key + "=" + Escaped(v)) == Some([Param(key, v)])
    ensures ParseQuery(key + "=" + Escaped(v) + "&" + more)
         == match ParseQuery(more) case None => None case Some(ps) => Some([Param(key, v)] + ps)
  {
    EscapedDecodes(v);
    ParsePiece(key, Escaped(v), []);
    ParsePiece(key, Escaped(v), "&" + more);
    assert ("&" + more)[1..] == more;
    assert key + "=" + Escaped(v) + [] == key + "=" + Escaped(v);
    assert key + "=" + Escaped(v) + "&" + more == key + "=" + Escaped(v) + ("&" + more);
    assert [Param(key, v)] + [] == [Param(key, v)];
  }

  /** A piece without an equals sign, or without a key before it, spoils the whole query, whatever follows: the
      handlers then see no parameters. */
  lemma SpoiltQuery(path: string, piece: string, more: string)
    requires piece != [] && '&' !in piece && ('=' !in piece || piece[0] == '=')
    requires '?' !in path && Travels(path + "?" + piece + "&" + more) && Travels(path + "?" + piece)
    ensures Received(path + "?" + piece) == Some((path, []))
    ensures Received(path + "?" + piece + "&" + more) == Some((path, []))
  {
    CutAt(path, '?', piece);
    CutAt(path, '?', piece + "&" + more);
    CutAt(piece, '&', more);
    CutAt(piece, '&', []);
    var q := piece + "&" + more;
    assert path + "?" + piece + "&" + more == path + "?" + q;
    assert (path + "?" + q)[|path| + 1..] == q && (path + "?" + piece)[|path| + 1..] == piece;
    assert q == piece + ['&'] + more && q[..|piece|] == piece && piece[..|piece|] == piece;
    if piece[0] == '=' { assert Cut(piece, '=') == 0; } else { CutAt(piece, '=', []); }
    assert ParseQuery(q) == None && ParseQuery(piece) == None;
    assert (path + "?" + piece)[..|path|] == path && (path + "?" + q)[..|path|] == path;
  }
}
