/** Exactly which commands keep their text when a replica takes their line apart and builds it again. */
module CommandLoss {
  import opened Basics
  import opened Commands
  import opened CommandText

  function Cost(p: Param): nat { |p.key| + |p.value| + 2 }

  function Total(ps: seq<Param>): nat {
    if ps == [] then 0 else Cost(ps[0]) + Total(ps[1..])
  }

  function Ampersands(s: string): nat {
    if s == [] then 0 else (if s[0] == '&' then 1 else 0) + Ampersands(s[1..])
  }

  lemma {:induction false} AmpersandsConcat(a: string, b: string)
    ensures Ampersands(a + b) == Ampersands(a) + Ampersands(b)
  {
    if a == [] {
      assert a + b == b;
    } else {
      assert (a + b)[1..] == a[1..] + b;
      AmpersandsConcat(a[1..], b);
    }
  }

  lemma {:induction false} NoAmpersand(s: string)
    ensures Ampersands(s) == 0 <==> '&' !in s
  {
    if s != [] {
      NoAmpersand(s[1..]);
      assert s == [s[0]] + s[1..];
    }
  }

  lemma {:induction false} QueryTotal(ps: seq<Param>)
    requires ps != []
    ensures |Query(ps)| + 1 == Total(ps)
    decreases |ps|
  {
    if |ps| > 1 {
      QueryTotal(ps[1..]);
    } else {
      assert Total(ps[1..]) == 0;
    }
  }

  lemma AmpersandsSplit(a: string, b: string)
    requires '&' !in a && b != [] && b[0] == '&'
    ensures Ampersands(a + b) == 1 + Ampersands(b[1..])
  {
    NoAmpersand(a);
    AmpersandsConcat(a, b);
  }

  lemma AmpersandsAt(q: string, k: nat)
    requires k == Cut(q, '&') && k < |q|
    ensures Ampersands(q) == 1 + Ampersands(q[k + 1..])
  {
    hide Ampersands;
    AmpersandsSplit(q[..k], q[k..]);
    assert q[..k] + q[k..] == q;
    assert q[k..][1..] == q[k + 1..];
  }

  /** The first piece of a query that parses. */
  lemma ParseHead(q: string, ps: seq<Param>)
    requires ParseQuery(q) == Some(ps) && q != []
    ensures var k := Cut(q, '&');
            ps != [] && Cost(ps[0]) <= k + 1 && ParseQuery(if k == |q| then [] else q[k + 1..]) == Some(ps[1..])
  {
    var k := Cut(q, '&');
    var rest := if k == |q| then [] else q[k + 1..];
    assert ParseQuery(rest).Some? && ps == [ps[0]] + ParseQuery(rest).value;
    hide Decoded, ParseQuery, Cut;
  }

  lemma ParseLast(q: string, ps: seq<Param>)
    requires ParseQuery(q) == Some(ps) && q != [] && Cut(q, '&') == |q|
    ensures Total(ps) <= |q| + 1 && |ps| == 1 && Ampersands(q) == 0
  {
    ParseHead(q, ps);
    ParseNothing(ps[1..]);
    assert q[..|q|] == q;
    NoAmpersand(q);
  }

  lemma TotalStep(ps: seq<Param>)
    requires ps != []
    ensures Total(ps) == Cost(ps[0]) + Total(ps[1..])
  {
  }

  /** Parsing never makes the parameters longer, and keeps their length only if every ampersand separates
      two of them. */
  lemma {:induction false} ParseTotal(q: string, ps: seq<Param>)
    requires ParseQuery(q) == Some(ps)
    ensures Total(ps) <= |q| + 1
    ensures Total(ps) == |q| + 1 ==> |ps| == Ampersands(q) + 1
    decreases |q|
  {
    hide *;
    var k := Cut(q, '&');
    if q == [] {
      ParseNothing(ps);
      TotalNothing();
    } else if k == |q| {
      ParseLast(q, ps);
    } else {
      ParseHead(q, ps);
      AmpersandsAt(q, k);
      ParseTotal(q[k + 1..], ps[1..]);
      TotalStep(ps);
    }
  }

  lemma TotalNothing()
    ensures Total([]) == 0
  {
  }

  lemma ParseNothing(ps: seq<Param>)
    requires ParseQuery([]) == Some(ps)
    ensures ps == []
  {
  }

  lemma {:induction false} PickedNames(ps: seq<Param>, keys: seq<string>, fs: seq<Param>)
    requires Picked(ps, keys) == Some(fs)
    ensures |fs| == |keys|
    ensures forall i :: 0 <= i < |fs| ==> fs[i].key == keys[i] && FindParam(ps, keys[i]) == Some(fs[i].value)
    decreases |keys|
  {
    if keys != [] {
      PickedNames(ps, keys[1..], fs[1..]);
      assert forall i :: 1 <= i < |keys| ==> keys[i] == keys[1..][i - 1] && fs[i] == fs[1..][i - 1];
    }
  }

  lemma {:induction false} TotalRemove(fs: seq<Param>, i: nat)
    requires i < |fs|
    ensures Total(fs) == Total(RemoveAt(fs, i)) + Cost(fs[i])
  {
    if i == 0 {
      assert RemoveAt(fs, 0) == fs[1..];
    } else {
      TotalRemove(fs[1..], i - 1);
      assert RemoveAt(fs, i)[1..] == RemoveAt(fs[1..], i - 1);
    }
  }

  /** Each name is found in the list, with the value beside it. */
  ghost predicate AllFound(ps: seq<Param>, fs: seq<Param>) {
    forall i :: 0 <= i < |fs| ==> FindParam(ps, fs[i].key) == Some(fs[i].value)
  }

  predicate IsHead(ps: seq<Param>, key: string) {
    ps != [] && ps[0].key == key
  }

  /** Parameters picked under distinct names are together no longer than the list they are picked from,
      and as long only if that is all there was. */
  lemma {:induction false} PickedTotal(ps: seq<Param>, fs: seq<Param>)
    requires NoDup(Names(fs)) && AllFound(ps, fs)
    ensures Total(fs) <= Total(ps)
    ensures Total(fs) == Total(ps) ==> |fs| == |ps|
    decreases |ps|
  {
    if fs == [] {
      assert Total(fs) == 0;
    } else if i: nat :| i < |fs| && IsHead(ps, fs[i].key) {
      var gs := RemoveAt(fs, i);
      assert FindParam(ps, fs[i].key) == Some(fs[i].value);
      TotalRemove(fs, i);
      forall j | 0 <= j < |gs|
        ensures FindParam(ps[1..], gs[j].key) == Some(gs[j].value)
      {
        assert Names(fs)[if j < i then j else j + 1] == gs[j].key && Names(fs)[i] == ps[0].key;
      }
      RemoveAtMembers(Names(fs), i);
      assert Names(gs) == RemoveAt(Names(fs), i);
      PickedTotal(ps[1..], gs);
    } else {
      assert FindParam(ps, fs[0].key) == Some(fs[0].value);
      forall j | 0 <= j < |fs|
        ensures FindParam(ps[1..], fs[j].key) == Some(fs[j].value)
      {
        assert !IsHead(ps, fs[j].key) && FindParam(ps, fs[j].key) == Some(fs[j].value);
      }
      PickedTotal(ps[1..], fs);
    }
  }

  /** The names are ones that a query can carry. */
  ghost predicate Named(fs: seq<Param>) {
    forall i :: 0 <= i < |fs| ==> fs[i].key != [] && AllPlain(fs[i].key)
  }

  lemma PieceAmpersands(p: Param)
    requires AllPlain(p.key)
    ensures Ampersands(p.key + "=" + p.value) == Ampersands(p.value)
  {
    NoAmpersand(p.key + "=");
    AmpersandsConcat(p.key + "=", p.value);
  }

  /** A printed list has one ampersand between every two parameters, and those of the values. */
  lemma {:induction false} QueryAmpersands(fs: seq<Param>)
    requires Named(fs) && fs != []
    ensures |fs| <= Ampersands(Query(fs)) + 1
    ensures |fs| == Ampersands(Query(fs)) + 1 ==> forall i :: 0 <= i < |fs| ==> '&' !in fs[i].value
    decreases |fs|
  {
    var piece := fs[0].key + "=" + fs[0].value;
    PieceAmpersands(fs[0]);
    NoAmpersand(fs[0].value);
    if |fs| == 1 {
      assert Query(fs) == piece;
    } else {
      var rest := Query(fs[1..]);
      QueryAmpersands(fs[1..]);
      assert Query(fs) == piece + ("&" + rest) && ("&" + rest)[1..] == rest;
      AmpersandsConcat(piece, "&" + rest);
      assert forall i :: 1 <= i < |fs| ==> fs[i] == fs[1..][i - 1];
    }
  }

  ghost predicate NoLonger(fs: seq<Param>, gs: seq<Param>) {
    |fs| == |gs| && forall i :: 0 <= i < |fs| ==> fs[i].key == gs[i].key && |gs[i].value| <= |fs[i].value|
  }

  /** Where the first value, and what follows it, stand in a printed list. */
  lemma FirstIn(fs: seq<Param>, q: string)
    requires fs != [] && q == Query(fs)
    ensures var n, m := |fs[0].key| + 1, |fs[0].key| + 1 + |fs[0].value|;
            && m <= |q| && fs[0].value == q[n..m]
            && (|fs| > 1 ==> m < |q| && Query(fs[1..]) == q[m + 1..])
  {
    if |fs| > 1 {
      assert q == fs[0].key + "=" + fs[0].value + ("&" + Query(fs[1..]));
    }
  }

  /** The first value takes the same room in both texts, or the second would be shorter. */
  lemma SameFirst(fs: seq<Param>, gs: seq<Param>)
    requires fs != [] && NoLonger(fs, gs) && Query(fs) == Query(gs)
    ensures fs[0] == gs[0] && (|fs| > 1 ==> Query(fs[1..]) == Query(gs[1..]))
  {
    hide Query;
    QueryTotal(fs);
    QueryTotal(gs);
    TotalsLess(fs[1..], gs[1..]);
    FirstIn(fs, Query(fs));
    FirstIn(gs, Query(gs));
  }

  /** Equal texts of lists with the same names, one with values no longer than the other's, are of equal lists. */
  lemma {:induction false} SameQuery(fs: seq<Param>, gs: seq<Param>)
    requires NoLonger(fs, gs) && Query(fs) == Query(gs)
    ensures fs == gs
    decreases |fs|
  {
    hide Query;
    if fs != [] {
      SameFirst(fs, gs);
      if |fs| > 1 { SameQuery(fs[1..], gs[1..]); }
      assert fs == [fs[0]] + fs[1..] && gs == [gs[0]] + gs[1..];
    }
  }

  lemma {:induction false} TotalsLess(fs: seq<Param>, gs: seq<Param>)
    requires NoLonger(fs, gs)
    ensures Total(gs) <= Total(fs)
  {
    if fs != [] { TotalsLess(fs[1..], gs[1..]); }
  }

  lemma {:induction false} FindsItself(ps: seq<Param>, i: nat)
    requires NoDup(Names(ps)) && i < |ps|
    ensures FindParam(ps, ps[i].key) == Some(ps[i].value)
  {
    if i > 0 {
      assert Names(ps)[0] != Names(ps)[i] && Names(ps[1..]) == Names(ps)[1..];
      FindsItself(ps[1..], i - 1);
    }
  }

  lemma FieldNames(c: Written)
    ensures Named(Fields(c)) && NoDup(Names(Fields(c))) && Names(Fields(c)) == KeysOfCommand(c)
  {
    hide AllPlain;
    KeysPlain();
    NamesDiffer();
  }

  /** What is received of a line, if anything: its path, and its parameters or none. */
  lemma ReceivedLine(c: Written)
    requires Received(Line(c)).Some?
    ensures var q := Query(Fields(c));
            && Travels(q)
            && Received(Line(c)).value == (PathOf(c), if ParseQuery(q).Some? then ParseQuery(q).value else [])
  {
    hide ParseQuery, Fields, Query, PathOf;
    var q, path := Query(Fields(c)), PathOf(c);
    PathPlain(c);
    TravelsConcat(path + "?", q);
    CutAt(path, '?', q);
    assert Line(c)[|path| + 1..] == q && Line(c)[..|path|] == path;
  }

  /** A line that comes back whole was printed from the parameters that were picked. */
  lemma RebuiltLine(c: Written, fs: seq<Param>)
    requires ParseQuery(Query(Fields(c))).Some?
    requires Picked(ParseQuery(Query(Fields(c))).value, KeysOfCommand(c)) == Some(fs) && Query(fs) == Query(Fields(c))
    ensures fs == Fields(c) && CleanFields(Fields(c))
  {
    hide ParseQuery, Query, Picked, FindParam, Decoded, AllPlain, Fields, KeysOfCommand;
    var F := Fields(c);
    var q := Query(F);
    var ps := ParseQuery(q).value;
    FieldNames(c);
    FieldsThere(c);
    PickedNames(ps, KeysOfCommand(c), fs);
    assert Names(fs) == KeysOfCommand(c);
    PickedTotal(ps, fs);
    ParseTotal(q, ps);
    QueryTotal(fs);
    assert |ps| == Ampersands(q) + 1;
    QueryAmpersands(F);
    ParsePrinted(F);
    assert ps == DecodedParams(F);
    assert Names(ps) == Names(F);
    forall i | 0 <= i < |fs|
      ensures fs[i] == ps[i]
    {
      FindsItself(ps, i);
    }
    assert fs == DecodedParams(F);
    SameQuery(F, fs);
  }

  /** No value has an ampersand or anything to decode. */
  ghost predicate CleanFields(fs: seq<Param>) {
    forall i :: 0 <= i < |fs| ==> '&' !in fs[i].value && Decoded(fs[i].value) == fs[i].value
  }

  /** Exactly which commands a replica logs as the master sent them: those whose values have no reserved
      characters. */
  lemma {:induction false} LineIsFixedExactly(c: Written)
    ensures Rebuilt(Line(c)) == Some(Line(c)) <==> CleanLine(c)
  {
    if CleanLine(c) {
      LineIsFixed(c);
    } else if Rebuilt(Line(c)) == Some(Line(c)) {
      FixedIsClean(c);
    }
  }

  /** And exactly which ones the master accepts from their origin as the origin logged them: the same. */
  lemma {:induction false} MasterRebuildsExactly(node: string, port: int, c: Written)
    requires Clean(node)
    ensures Rebuilt(ToMaster(node, port, c)) == Some(Line(c)) <==> CleanLine(c)
  {
    hide Clean, CleanLine, Rebuilt, Line, ToMaster;
    MasterRebuildsAsReplica(node, port, c);
    LineIsFixedExactly(c);
  }

  /** A plus sign behind the digits of a delete's id does not change what is deleted, but the line does not
      survive: the master hands on another one than the origin logged. */
  lemma RawIdBreaksLine(node: string, port: int, q: string)
    requires Clean(node)
    ensures var c := EraseLine(q, "5+");
            Meaning(c) == DeleteMessage(q, 5) && Rebuilt(ToMaster(node, port, c)) != Some(Line(c))
  {
    FivePlus();
    MasterRebuildsExactly(node, port, EraseLine(q, "5+"));
  }

  lemma FivePlus()
    ensures Decimal.Atoi("5+") == 5 && !Clean("5+")
  {
    assert "5+"[1..] == "+" && Decoded("5+")[1..] == Decoded("+");
    assert Decoded("+")[0] == ' ';
  }

  lemma NothingPicked(c: Written)
    ensures Picked([], KeysOfCommand(c)).None?
  {
  }

  lemma FieldsTravel(c: Written)
    requires Travels(Query(Fields(c)))
    ensures forall i :: 0 <= i < |Fields(c)| ==> Travels(Fields(c)[i].value)
  {
    hide AllPlain, Query, Travels, Fields;
    FieldNames(c);
    forall i | 0 <= i < |Fields(c)|
      ensures Travels(Fields(c)[i].key)
    {
      PlainTravels(Fields(c)[i].key);
    }
    QueryTravels(Fields(c));
  }

  lemma PlainTravels(s: string)
    requires AllPlain(s)
    ensures Travels(s)
  {
    PlainDecoded(s);
  }

  lemma CleanOne(v: string)
    requires Travels(v) && '&' !in v && Decoded(v) == v
    ensures Clean(v)
  {
    hide Travels, Decoded;
    CutAt(v, '&', []);
  }

  lemma CleanValues(c: Written)
    requires CleanFields(Fields(c)) && forall i :: 0 <= i < |Fields(c)| ==> Travels(Fields(c)[i].value)
    ensures CleanLine(c)
  {
    hide Decoded, Clean, Travels;
    assert Fields(c)[0].value == c.queue;
    CleanOne(c.queue);
    if c.PutLine? {
      assert Fields(c)[1].value == c.text && Fields(c)[2].value == c.idText;
      CleanOne(c.text);
      CleanOne(c.idText);
    } else if c.EraseLine? {
      assert Fields(c)[1].value == c.idText;
      CleanOne(c.idText);
    }
  }

  lemma FixedIsClean(c: Written)
    requires Rebuilt(Line(c)) == Some(Line(c))
    ensures CleanLine(c)
  {
    var q := Query(Fields(c));
    PathKeys(c);
    ReceivedLine(c);
    hide ParseQuery, Query, FindParam, Decoded, AllPlain, KeysOfCommand, PathOf, KeysOf;
    var ps := Received(Line(c)).value.1;
    NothingPicked(c);
    var fs := Picked(ps, KeysOfCommand(c)).value;
    var n := |PathOf(c)| + 1;
    assert Query(fs) == q by { assert (PathOf(c) + "?" + Query(fs))[n..] == (PathOf(c) + "?" + q)[n..]; }
    RebuiltLine(c, fs);
    FieldsTravel(c);
    CleanValues(c);
  }
}
