/** The marshalling code that event_rpcgen.py generates, with the schema as data
    (libevent-2.0.19/bin/event_rpcgen.py). A stream is a sequence of (tag, payload) records. */
module Rpc {
  import opened Basics

  newtype byte = b: int | 0 <= b < 256

  datatype Kind = Bytes(length: nat) | VarBytes | Int | Int64 | String | Struct(ref: nat)
  datatype Mode = Required | Optional | Array
  datatype Entry = Entry(tag: nat, kind: Kind, mode: Mode)

  /** The structs of one file; a struct entry refers to a struct by its index, possibly its own. */
  type Schema = seq<seq<Entry>>

  datatype Value = VInt(n: int) | VBytes(b: seq<byte>) | VStruct(m: Msg)

  /** The values of one entry: none when it is not set, several only for an array. */
  datatype Field = Field(vals: seq<Value>)

  datatype Msg = Msg(fields: seq<Field>)

  datatype Payload = PInt(n: int) | PBytes(b: seq<byte>) | PRecs(recs: seq<Rec>)
  datatype Rec = Rec(tag: nat, payload: Payload)

  ghost predicate DistinctTags(es: seq<Entry>) {
    forall i, j :: 0 <= i < j < |es| ==> es[i].tag != es[j].tag
  }

  ghost predicate SchemaOk(sc: Schema) {
    forall k :: 0 <= k < |sc| ==> DistinctTags(sc[k])
  }

  const INT_LIMIT := 0x1_0000_0000
  const INT64_LIMIT := 0x1_0000_0000_0000_0000

  /** What the C type of a field can hold. A string ends at its first NUL byte. */
  ghost predicate ValueOk(sc: Schema, kind: Kind, v: Value)
    decreases v
  {
    match kind
    case Int => v.VInt? && 0 <= v.n < INT_LIMIT
    case Int64 => v.VInt? && 0 <= v.n < INT64_LIMIT
    case Bytes(length) => v.VBytes? && |v.b| == length
    case VarBytes => v.VBytes?
    case String => v.VBytes? && 0 !in v.b
    case Struct(ref) => v.VStruct? && MsgOk(sc, ref, v.m)
  }

  ghost predicate MsgOk(sc: Schema, k: nat, m: Msg)
    decreases m
  {
    && k < |sc| && |m.fields| == |sc[k]|
    && forall i :: 0 <= i < |m.fields| ==>
         && (sc[k][i].mode.Array? || |m.fields[i].vals| <= 1)
         && forall j :: 0 <= j < |m.fields[i].vals| ==> ValueOk(sc, sc[k][i].kind, m.fields[i].vals[j])
  }

  /** The generated complete(): every required field is set, and so in every struct below. */
  predicate Complete(sc: Schema, k: nat, m: Msg)
    decreases m
  {
    && k < |sc| && |m.fields| == |sc[k]|
    && forall i :: 0 <= i < |m.fields| ==>
         && (sc[k][i].mode.Required? ==> m.fields[i].vals != [])
         && forall j :: 0 <= j < |m.fields[i].vals| ==> ValueComplete(sc, sc[k][i].kind, m.fields[i].vals[j])
  }

  predicate ValueComplete(sc: Schema, kind: Kind, v: Value)
    decreases v
  {
    kind.Struct? && v.VStruct? ==> Complete(sc, kind.ref, v.m)
  }

  /** Marshal dereferences NULL for a required string or struct that is not set. */
  ghost predicate Marshallable(sc: Schema, k: nat, m: Msg)
    decreases m
  {
    && k < |sc| && |m.fields| == |sc[k]|
    && forall i :: 0 <= i < |m.fields| ==>
         && (sc[k][i].mode.Required? && (sc[k][i].kind.String? || sc[k][i].kind.Struct?) ==> m.fields[i].vals != [])
         && forall j :: 0 <= j < |m.fields[i].vals| ==> ValueMarshallable(sc, sc[k][i].kind, m.fields[i].vals[j])
  }

  ghost predicate ValueMarshallable(sc: Schema, kind: Kind, v: Value)
    decreases v
  {
    kind.Struct? && v.VStruct? ==> Marshallable(sc, kind.ref, v.m)
  }

  /** What a field that is not set holds. */
  function Initial(kind: Kind): Value {
    match kind
    case Bytes(length) => VBytes(seq(length, _ => 0))
    case VarBytes => VBytes([])
    case String => VBytes([])
    case _ => VInt(0)
  }

  function InitialPayload(kind: Kind): Payload {
    match Initial(kind)
    case VInt(n) => PInt(n)
    case VBytes(b) => PBytes(b)
    case VStruct(_) => PRecs([])
  }

  function EncodeValue(sc: Schema, kind: Kind, v: Value): Payload
    requires ValueOk(sc, kind, v)
    decreases v
  {
    match v
    case VInt(n) => PInt(n)
    case VBytes(b) => PBytes(b)
    case VStruct(m) => PRecs(Marshal(sc, kind.ref, m))
  }

  /** The records of the i-th entry. A required one is written even when it is not set. */
  function EncodeField(sc: Schema, k: nat, m: Msg, i: nat): (rs: seq<Rec>)
    requires MsgOk(sc, k, m) && i < |m.fields|
    decreases m, 0
  {
    var e, vs := sc[k][i], m.fields[i].vals;
    if vs == [] && e.mode.Required? then [Rec(e.tag, InitialPayload(e.kind))]
    else seq(|vs|, j requires 0 <= j < |vs| => Rec(e.tag, EncodeValue(sc, e.kind, vs[j])))
  }

  function MarshalUpTo(sc: Schema, k: nat, m: Msg, n: nat): seq<Rec>
    requires MsgOk(sc, k, m) && n <= |m.fields|
    decreases m, n
  {
    if n == 0 then [] else MarshalUpTo(sc, k, m, n - 1) + EncodeField(sc, k, m, n - 1)
  }

  /** The generated marshal(): the entries in schema order. */
  function Marshal(sc: Schema, k: nat, m: Msg): seq<Rec>
    requires MsgOk(sc, k, m)
    decreases m, |m.fields| + 1
  {
    MarshalUpTo(sc, k, m, |m.fields|)
  }

  function CString(b: seq<byte>): (s: seq<byte>)
    ensures 0 !in s
    ensures 0 !in b ==> s == b
  {
    if b == [] || b[0] == 0 then [] else [b[0]] + CString(b[1..])
  }

  /** The entry a tag selects, or the number of entries. */
  function EntryOf(es: seq<Entry>, tag: nat): (i: nat)
    ensures i <= |es| && (i < |es| ==> es[i].tag == tag)
    ensures forall j :: 0 <= j < i ==> es[j].tag != tag
  {
    if es == [] || es[0].tag == tag then 0 else 1 + EntryOf(es[1..], tag)
  }

  function DecodeValue(sc: Schema, kind: Kind, p: Payload): Option<Value>
    decreases p
  {
    match kind
    case Int => if p.PInt? && 0 <= p.n < INT_LIMIT then Some(VInt(p.n)) else None
    case Int64 => if p.PInt? && 0 <= p.n < INT64_LIMIT then Some(VInt(p.n)) else None
    case Bytes(length) => if p.PBytes? && |p.b| == length then Some(VBytes(p.b)) else None
    case VarBytes => if p.PBytes? then Some(VBytes(p.b)) else None
    case String => if p.PBytes? then Some(VBytes(CString(p.b))) else None
    case Struct(ref) =>
      if p.PRecs? && ref < |sc| then
        match Unmarshal(sc, ref, p.recs)
        case None => None
        case Some(m) => Some(VStruct(m))
      else None
  }

  /** The case of one record: an unknown tag, a second value for a field that is no array and a payload
      that does not decode all end the unmarshalling. */
  function DecodeStep(sc: Schema, k: nat, m: Msg, r: Rec): (t: Option<Msg>)
    requires k < |sc| && |m.fields| == |sc[k]|
    ensures t.Some? ==> |t.value.fields| == |sc[k]|
    decreases r
  {
    var i := EntryOf(sc[k], r.tag);
    if i == |sc[k]| || (!sc[k][i].mode.Array? && m.fields[i].vals != []) then None
    else
      match DecodeValue(sc, sc[k][i].kind, r.payload)
      case None => None
      case Some(v) => Some(Msg(m.fields[i := Field(m.fields[i].vals + [v])]))
  }

  function UnmarshalFrom(sc: Schema, k: nat, m: Msg, rs: seq<Rec>): (t: Option<Msg>)
    requires k < |sc| && |m.fields| == |sc[k]|
    ensures t.Some? ==> |t.value.fields| == |sc[k]|
    decreases rs, 0
  {
    if rs == [] then Some(m)
    else
      match DecodeStep(sc, k, m, rs[0])
      case None => None
      case Some(t) => UnmarshalFrom(sc, k, t, rs[1..])
  }

  /** A message with no field set. */
  function Fresh(es: seq<Entry>): Msg {
    Msg(seq(|es|, _ => Field([])))
  }

  /** The generated unmarshal(), into a fresh message. */
  function Unmarshal(sc: Schema, k: nat, rs: seq<Rec>): Option<Msg>
    requires k < |sc|
    decreases rs, 1
  {
    match UnmarshalFrom(sc, k, Fresh(sc[k]), rs)
    case None => None
    case Some(m) => if Complete(sc, k, m) then Some(m) else None
  }

  /** The payloads of one tag, in stream order. */
  function Sub(rs: seq<Rec>, tag: nat): seq<Payload> {
    if rs == [] then [] else (if rs[0].tag == tag then [rs[0].payload] else []) + Sub(rs[1..], tag)
  }

  ghost predicate Known(es: seq<Entry>, rs: seq<Rec>) {
    forall j :: 0 <= j < |rs| ==> EntryOf(es, rs[j].tag) < |es|
  }

  ghost predicate DecodesTo(sc: Schema, kind: Kind, ps: seq<Payload>, vs: seq<Value>) {
    |vs| == |ps| && forall i :: 0 <= i < |ps| ==> DecodeValue(sc, kind, ps[i]) == Some(vs[i])
  }

  /** Values have and then those of the payloads ps make want. */
  ghost predicate Ahead(sc: Schema, e: Entry, have: seq<Value>, ps: seq<Payload>, want: seq<Value>) {
    && |want| == |have| + |ps| && (forall i :: 0 <= i < |have| ==> want[i] == have[i])
    && (forall i :: 0 <= i < |ps| ==> DecodeValue(sc, e.kind, ps[i]) == Some(want[|have| + i]))
    && (e.mode.Array? || |want| <= 1)
  }

  ghost predicate Reaches(sc: Schema, k: nat, m: Msg, rs: seq<Rec>, t: Msg)
    requires k < |sc| && |m.fields| == |sc[k]|
  {
    && |t.fields| == |sc[k]| && Known(sc[k], rs)
    && forall i :: 0 <= i < |sc[k]| ==> Ahead(sc, sc[k][i], m.fields[i].vals, Sub(rs, sc[k][i].tag), t.fields[i].vals)
  }

  /** No field has more values than it can. */
  ghost predicate Narrow(sc: Schema, k: nat, m: Msg)
    requires k < |sc| && |m.fields| == |sc[k]|
  {
    forall i :: 0 <= i < |sc[k]| ==> sc[k][i].mode.Array? || |m.fields[i].vals| <= 1
  }

  lemma {:induction false} AheadStep(sc: Schema, e: Entry, have: seq<Value>, p: Payload, ps: seq<Payload>,
          want: seq<Value>)
    ensures match DecodeValue(sc, e.kind, p)
            case None => !Ahead(sc, e, have, [p] + ps, want)
            case Some(v) => Ahead(sc, e, have, [p] + ps, want) <==> Ahead(sc, e, have + [v], ps, want)
  {
    hide DecodeValue;
    var all := [p] + ps;
    assert all[0] == p && forall i :: 0 <= i < |ps| ==> all[i + 1] == ps[i];
    if DecodeValue(sc, e.kind, p).Some? {
      var more := have + [DecodeValue(sc, e.kind, p).value];
      if Ahead(sc, e, have, all, want) {
        assert want[|have| + 0] == more[|have|];
      }
      if Ahead(sc, e, more, ps, want) {
        assert forall i :: 0 <= i < |all| ==> i == 0 || all[i] == ps[i - 1];
      }
    } else if Ahead(sc, e, have, all, want) {
      assert false;
    }
  }

  lemma EntryOfTag(es: seq<Entry>, i: nat)
    requires DistinctTags(es) && i < |es|
    ensures EntryOf(es, es[i].tag) == i
  {
  }

  /** What one record does to the i-th field. */
  lemma {:induction false} StepAhead(sc: Schema, k: nat, m: Msg, rs: seq<Rec>, t: Msg, m2: Msg, i: nat)
    requires SchemaOk(sc) && k < |sc| && |m.fields| == |sc[k]| == |t.fields| && rs != [] && i < |sc[k]|
    requires DecodeStep(sc, k, m, rs[0]) == Some(m2)
    ensures Ahead(sc, sc[k][i], m.fields[i].vals, Sub(rs, sc[k][i].tag), t.fields[i].vals)
       <==> Ahead(sc, sc[k][i], m2.fields[i].vals, Sub(rs[1..], sc[k][i].tag), t.fields[i].vals)
  {
    var e := sc[k][i];
    hide DecodeValue, Ahead;
    EntryOfTag(sc[k], i);
    if rs[0].tag == e.tag {
      AheadStep(sc, e, m.fields[i].vals, rs[0].payload, Sub(rs[1..], e.tag), t.fields[i].vals);
    } else {
      assert Sub(rs, e.tag) == Sub(rs[1..], e.tag);
    }
  }

  lemma StepReaches(sc: Schema, k: nat, m: Msg, rs: seq<Rec>, t: Msg, m2: Msg)
    requires SchemaOk(sc) && k < |sc| && |m.fields| == |sc[k]| && rs != [] && Narrow(sc, k, m)
    requires DecodeStep(sc, k, m, rs[0]) == Some(m2)
    ensures Narrow(sc, k, m2) && (Reaches(sc, k, m, rs, t) <==> Reaches(sc, k, m2, rs[1..], t))
  {
    if |t.fields| == |sc[k]| {
      forall i | 0 <= i < |sc[k]|
        ensures Ahead(sc, sc[k][i], m.fields[i].vals, Sub(rs, sc[k][i].tag), t.fields[i].vals)
           <==> Ahead(sc, sc[k][i], m2.fields[i].vals, Sub(rs[1..], sc[k][i].tag), t.fields[i].vals)
      {
        StepAhead(sc, k, m, rs, t, m2, i);
      }
      KnownStep(sc[k], rs);
    }
    hide Ahead, Known, Sub;
  }

  lemma KnownStep(es: seq<Entry>, rs: seq<Rec>)
    requires rs != []
    ensures Known(es, rs) <==> EntryOf(es, rs[0].tag) < |es| && Known(es, rs[1..])
  {
    hide EntryOf;
    if EntryOf(es, rs[0].tag) < |es| && Known(es, rs[1..]) {
      assert forall j :: 0 <= j < |rs| ==> j == 0 || rs[j] == rs[1..][j - 1];
    }
    assert forall j :: 0 <= j < |rs[1..]| ==> rs[1..][j] == rs[j + 1];
  }

  /** A record that stops the unmarshalling rules every message out. */
  lemma StopReaches(sc: Schema, k: nat, m: Msg, rs: seq<Rec>, t: Msg)
    requires SchemaOk(sc) && k < |sc| && |m.fields| == |sc[k]| && rs != []
    requires DecodeStep(sc, k, m, rs[0]).None?
    ensures !Reaches(sc, k, m, rs, t)
  {
    var i := EntryOf(sc[k], rs[0].tag);
    if i < |sc[k]| && |t.fields| == |sc[k]| {
      var e := sc[k][i];
      AheadStep(sc, e, m.fields[i].vals, rs[0].payload, Sub(rs[1..], e.tag), t.fields[i].vals);
      assert Sub(rs, e.tag) == [rs[0].payload] + Sub(rs[1..], e.tag);
      assert !Ahead(sc, e, m.fields[i].vals, Sub(rs, e.tag), t.fields[i].vals);
    } else {
      KnownStep(sc[k], rs);
    }
  }

  lemma {:induction false} UnmarshalFromExactly(sc: Schema, k: nat, m: Msg, rs: seq<Rec>, t: Msg)
    requires SchemaOk(sc) && k < |sc| && |m.fields| == |sc[k]| && Narrow(sc, k, m)
    ensures UnmarshalFrom(sc, k, m, rs) == Some(t) <==> Reaches(sc, k, m, rs, t)
    decreases |rs|
  {
    hide DecodeStep, Reaches, Narrow, SchemaOk;
    if rs == [] {
      NothingReaches(sc, k, m, t);
    } else if DecodeStep(sc, k, m, rs[0]).None? {
      StopReaches(sc, k, m, rs, t);
    } else {
      var m2 := DecodeStep(sc, k, m, rs[0]).value;
      StepReaches(sc, k, m, rs, t, m2);
      UnmarshalFromExactly(sc, k, m2, rs[1..], t);
    }
  }

  lemma NothingReaches(sc: Schema, k: nat, m: Msg, t: Msg)
    requires k < |sc| && |m.fields| == |sc[k]| && Narrow(sc, k, m)
    ensures Reaches(sc, k, m, [], t) <==> m == t
  {
    if Reaches(sc, k, m, [], t) {
      forall i | 0 <= i < |sc[k]|
        ensures m.fields[i] == t.fields[i]
      {
        assert Ahead(sc, sc[k][i], m.fields[i].vals, [], t.fields[i].vals);
        assert m.fields[i].vals == t.fields[i].vals;
      }
      assert m.fields == t.fields;
    }
  }

  /** What a stream means for one entry: the values of the entry's own records, in order. */
  ghost predicate FieldIs(sc: Schema, e: Entry, ps: seq<Payload>, vs: seq<Value>) {
    && DecodesTo(sc, e.kind, ps, vs)
    && (e.mode.Array? || |ps| <= 1) && (e.mode.Required? ==> 1 <= |ps|)
  }

  /** What a stream means: every tag is known, and every field is what its entry's records say. */
  ghost predicate Means(sc: Schema, k: nat, rs: seq<Rec>, m: Msg)
    requires k < |sc|
  {
    && |m.fields| == |sc[k]| && Known(sc[k], rs)
    && forall i :: 0 <= i < |sc[k]| ==> FieldIs(sc, sc[k][i], Sub(rs, sc[k][i].tag), m.fields[i].vals)
  }

  lemma DecodedComplete(sc: Schema, kind: Kind, p: Payload, v: Value)
    requires DecodeValue(sc, kind, p) == Some(v)
    ensures ValueComplete(sc, kind, v)
  {
  }

  lemma FreshAhead(sc: Schema, e: Entry, ps: seq<Payload>, vs: seq<Value>)
    ensures Ahead(sc, e, [], ps, vs) && (e.mode.Required? ==> vs != []) <==> FieldIs(sc, e, ps, vs)
    ensures FieldIs(sc, e, ps, vs) ==> forall j :: 0 <= j < |vs| ==> ValueComplete(sc, e.kind, vs[j])
  {
    hide DecodeValue, ValueComplete;
    forall j | 0 <= j < |vs| && FieldIs(sc, e, ps, vs)
      ensures ValueComplete(sc, e.kind, vs[j])
    {
      DecodedComplete(sc, e.kind, ps[j], vs[j]);
    }
  }

  /** The record-by-record unmarshalling, into a fresh message and with its check for completeness,
      gives a message exactly if that is what the stream means. */
  lemma UnmarshalExactly(sc: Schema, k: nat, rs: seq<Rec>, m: Msg)
    requires SchemaOk(sc) && k < |sc|
    ensures Unmarshal(sc, k, rs) == Some(m) <==> Means(sc, k, rs, m)
  {
    UnmarshalFromExactly(sc, k, Fresh(sc[k]), rs, m);
    if |m.fields| == |sc[k]| {
      forall i | 0 <= i < |sc[k]|
        ensures Ahead(sc, sc[k][i], Fresh(sc[k]).fields[i].vals, Sub(rs, sc[k][i].tag), m.fields[i].vals)
             && (sc[k][i].mode.Required? ==> m.fields[i].vals != [])
           <==> FieldIs(sc, sc[k][i], Sub(rs, sc[k][i].tag), m.fields[i].vals)
        ensures FieldIs(sc, sc[k][i], Sub(rs, sc[k][i].tag), m.fields[i].vals) ==>
          forall j :: 0 <= j < |m.fields[i].vals| ==> ValueComplete(sc, sc[k][i].kind, m.fields[i].vals[j])
      {
        FreshAhead(sc, sc[k][i], Sub(rs, sc[k][i].tag), m.fields[i].vals);
      }
    }
    hide Ahead, FieldIs, Known, ValueComplete, UnmarshalFrom, Sub;
  }

  /** Neither acceptance nor the result depends on anything but each tag's own records. */
  lemma OrderIndependent(sc: Schema, k: nat, rs: seq<Rec>, rs2: seq<Rec>)
    requires SchemaOk(sc) && k < |sc|
    requires forall tag :: Sub(rs, tag) == Sub(rs2, tag)
    ensures Unmarshal(sc, k, rs) == Unmarshal(sc, k, rs2)
  {
    hide Unmarshal, Sub;
    SameKnown(sc[k], rs, rs2);
    SameKnown(sc[k], rs2, rs);
    forall m
      ensures Unmarshal(sc, k, rs) == Some(m) <==> Unmarshal(sc, k, rs2) == Some(m)
    {
      UnmarshalExactly(sc, k, rs, m);
      UnmarshalExactly(sc, k, rs2, m);
    }
    var a, b := Unmarshal(sc, k, rs), Unmarshal(sc, k, rs2);
    if a.Some? { assert a == Some(a.value); }
    if b.Some? { assert b == Some(b.value); }
  }

  lemma {:induction false} SubMembers(rs: seq<Rec>, tag: nat)
    ensures forall i :: 0 <= i < |Sub(rs, tag)| ==> Rec(tag, Sub(rs, tag)[i]) in rs
    ensures forall r :: r in rs && r.tag == tag ==> r.payload in Sub(rs, tag)
  {
    if rs != [] {
      SubMembers(rs[1..], tag);
      assert rs == [rs[0]] + rs[1..];
      forall i | 0 <= i < |Sub(rs, tag)|
        ensures Rec(tag, Sub(rs, tag)[i]) in rs
      {
        if rs[0].tag == tag && i > 0 { assert Sub(rs, tag)[i] == Sub(rs[1..], tag)[i - 1]; }
      }
    }
  }

  lemma SameKnown(es: seq<Entry>, rs: seq<Rec>, rs2: seq<Rec>)
    requires forall tag :: Sub(rs, tag) == Sub(rs2, tag)
    ensures Known(es, rs) ==> Known(es, rs2)
  {
    hide Sub, EntryOf;
    if Known(es, rs) {
      forall j | 0 <= j < |rs2|
        ensures EntryOf(es, rs2[j].tag) < |es|
      {
        var tag := rs2[j].tag;
        SubMembers(rs2, tag);
        SubMembers(rs, tag);
        assert rs2[j] in rs2;
        assert rs2[j].payload in Sub(rs, tag);
        var i :| 0 <= i < |Sub(rs, tag)| && Sub(rs, tag)[i] == rs2[j].payload;
        assert Rec(tag, Sub(rs, tag)[i]) in rs;
      }
    }
  }

  /** What unmarshalling accepts fits the schema, at every depth. */
  lemma {:induction false} DecodedOk(sc: Schema, kind: Kind, p: Payload, v: Value)
    requires SchemaOk(sc) && DecodeValue(sc, kind, p) == Some(v)
    ensures ValueOk(sc, kind, v)
    decreases p
  {
    hide Unmarshal, MsgOk, SchemaOk;
    if kind.Struct? {
      UnmarshalledOk(sc, kind.ref, p.recs, v.m);
    }
  }

  lemma {:induction false} FieldDecodedOk(sc: Schema, kind: Kind, rs: seq<Rec>, tag: nat, vs: seq<Value>, j: nat)
    requires SchemaOk(sc) && DecodesTo(sc, kind, Sub(rs, tag), vs) && j < |vs|
    ensures ValueOk(sc, kind, vs[j])
    decreases rs, 0
  {
    SubMembers(rs, tag);
    var x :| 0 <= x < |rs| && rs[x] == Rec(tag, Sub(rs, tag)[j]);
    assert rs[x].payload < rs[x];
    DecodedOk(sc, kind, rs[x].payload, vs[j]);
  }

  lemma {:induction false} UnmarshalledOk(sc: Schema, k: nat, rs: seq<Rec>, m: Msg)
    requires SchemaOk(sc) && k < |sc| && Unmarshal(sc, k, rs) == Some(m)
    ensures MsgOk(sc, k, m) && Complete(sc, k, m)
    decreases rs, 1
  {
    UnmarshalExactly(sc, k, rs, m);
    forall i, j | 0 <= i < |m.fields| && 0 <= j < |m.fields[i].vals|
      ensures ValueOk(sc, sc[k][i].kind, m.fields[i].vals[j])
    {
      assert FieldIs(sc, sc[k][i], Sub(rs, sc[k][i].tag), m.fields[i].vals);
      FieldDecodedOk(sc, sc[k][i].kind, rs, sc[k][i].tag, m.fields[i].vals, j);
    }
    hide ValueOk, Sub, DecodesTo, Known;
    assert forall i :: 0 <= i < |m.fields| ==> FieldIs(sc, sc[k][i], Sub(rs, sc[k][i].tag), m.fields[i].vals);
  }

  /** The message with every required field that is not set holding what it was initialised to. */
  function Filled(sc: Schema, k: nat, m: Msg): (f: Msg)
    requires MsgOk(sc, k, m)
    ensures |f.fields| == |m.fields|
    decreases m, 1
  {
    Msg(seq(|m.fields|, i requires 0 <= i < |m.fields| => Field(FilledField(sc, k, m, i))))
  }

  function FilledField(sc: Schema, k: nat, m: Msg, i: nat): (vs: seq<Value>)
    requires MsgOk(sc, k, m) && i < |m.fields|
    decreases m, 0
  {
    var e, vs := sc[k][i], m.fields[i].vals;
    if vs == [] && e.mode.Required? then [Initial(e.kind)]
    else seq(|vs|, j requires 0 <= j < |vs| => FilledValue(sc, e.kind, vs[j]))
  }

  function FilledValue(sc: Schema, kind: Kind, v: Value): Value
    requires ValueOk(sc, kind, v)
    decreases v
  {
    if v.VStruct? then VStruct(Filled(sc, kind.ref, v.m)) else v
  }

  lemma {:induction false} SubConcat(a: seq<Rec>, b: seq<Rec>, tag: nat)
    ensures Sub(a + b, tag) == Sub(a, tag) + Sub(b, tag)
  {
    if a == [] {
      assert a + b == b;
    } else {
      var h := if a[0].tag == tag then [a[0].payload] else [];
      SubConcat(a[1..], b, tag);
      assert (a + b)[0] == a[0] && (a + b)[1..] == a[1..] + b;
      assert h + (Sub(a[1..], tag) + Sub(b, tag)) == h + Sub(a[1..], tag) + Sub(b, tag);
    }
  }

  lemma {:induction false} SubUniform(rs: seq<Rec>, own: nat, tag: nat)
    requires forall j :: 0 <= j < |rs| ==> rs[j].tag == own
    ensures |Sub(rs, tag)| == if own == tag then |rs| else 0
    ensures own == tag ==> forall j :: 0 <= j < |rs| ==> Sub(rs, tag)[j] == rs[j].payload
  {
    if rs != [] {
      SubUniform(rs[1..], own, tag);
      assert forall j :: 1 <= j < |rs| ==> rs[j] == rs[1..][j - 1];
    }
  }

  lemma FieldTags(sc: Schema, k: nat, m: Msg, i: nat)
    requires MsgOk(sc, k, m) && i < |m.fields|
    ensures k < |sc| && |m.fields| == |sc[k]|
    ensures var rs := EncodeField(sc, k, m, i); forall j :: 0 <= j < |rs| ==> rs[j].tag == sc[k][i].tag
  {
    hide EncodeValue, ValueOk;
  }

  /** The records of one entry in a marshalled message are that entry's own. */
  lemma {:induction false} SubMarshal(sc: Schema, k: nat, m: Msg, n: nat, i: nat)
    requires SchemaOk(sc) && MsgOk(sc, k, m) && n <= |m.fields| && i < |m.fields|
    ensures k < |sc| && |m.fields| == |sc[k]|
    ensures Sub(MarshalUpTo(sc, k, m, n), sc[k][i].tag) == if i < n
         then Sub(EncodeField(sc, k, m, i), sc[k][i].tag) else []
    decreases n
  {
    assert k < |sc| && |m.fields| == |sc[k]| && DistinctTags(sc[k]);
    hide EncodeField, MsgOk, SchemaOk;
    if n > 0 {
      var tag, rs := sc[k][i].tag, EncodeField(sc, k, m, n - 1);
      SubMarshal(sc, k, m, n - 1, i);
      SubConcat(MarshalUpTo(sc, k, m, n - 1), rs, tag);
      FieldTags(sc, k, m, n - 1);
      if i != n - 1 { SubUniform(rs, sc[k][n - 1].tag, tag); }
    }
  }

  lemma {:induction false} MarshalKnown(sc: Schema, k: nat, m: Msg, n: nat)
    requires MsgOk(sc, k, m) && n <= |m.fields|
    ensures Known(sc[k], MarshalUpTo(sc, k, m, n))
    decreases n
  {
    hide EncodeValue;
    if n > 0 {
      MarshalKnown(sc, k, m, n - 1);
      var rs := EncodeField(sc, k, m, n - 1);
      assert forall j :: 0 <= j < |rs| ==> rs[j].tag == sc[k][n - 1].tag;
      assert EntryOf(sc[k], sc[k][n - 1].tag) < |sc[k]|;
    }
  }

  lemma InitialTrip(sc: Schema, kind: Kind)
    requires !kind.String? && !kind.Struct?
    ensures DecodeValue(sc, kind, InitialPayload(kind)) == Some(Initial(kind))
  {
  }

  lemma {:induction false} ValueTrip(sc: Schema, kind: Kind, v: Value)
    requires SchemaOk(sc) && ValueOk(sc, kind, v) && ValueMarshallable(sc, kind, v)
    ensures DecodeValue(sc, kind, EncodeValue(sc, kind, v)) == Some(FilledValue(sc, kind, v))
    decreases v
  {
    assert kind.Struct? ==> kind.ref < |sc|;
    hide Unmarshal, Marshal, MsgOk, Filled, Marshallable, SchemaOk;
    if v.VStruct? { MsgTrip(sc, kind.ref, v.m); }
  }

  lemma {:induction false} FieldTrip(sc: Schema, k: nat, m: Msg, i: nat)
    requires SchemaOk(sc) && MsgOk(sc, k, m) && Marshallable(sc, k, m) && i < |m.fields|
    ensures FieldIs(sc, sc[k][i], Sub(Marshal(sc, k, m), sc[k][i].tag), FilledField(sc, k, m, i))
    decreases m, 0
  {
    var e, vs, rs := sc[k][i], m.fields[i].vals, EncodeField(sc, k, m, i);
    SubMarshal(sc, k, m, |m.fields|, i);
    SubUniform(rs, e.tag, e.tag);
    if vs == [] && e.mode.Required? {
      InitialTrip(sc, e.kind);
    } else {
      forall j | 0 <= j < |vs|
        ensures DecodeValue(sc, e.kind, EncodeValue(sc, e.kind, vs[j])) == Some(FilledValue(sc, e.kind, vs[j]))
      {
        ValueTrip(sc, e.kind, vs[j]);
      }
    }
  }

  /** The round trip, on every message marshal can be called on. Unmarshalling what was marshalled always
      succeeds: marshal writes a required field that is not set with the value it was initialised to, and so
      an incomplete message arrives complete. */
  lemma {:induction false} MsgTrip(sc: Schema, k: nat, m: Msg)
    requires SchemaOk(sc) && MsgOk(sc, k, m) && Marshallable(sc, k, m)
    ensures Unmarshal(sc, k, Marshal(sc, k, m)) == Some(Filled(sc, k, m))
    decreases m, 1
  {
    assert k < |sc| && |m.fields| == |sc[k]|;
    hide FieldIs, FilledField, MsgOk, Marshallable, SchemaOk, Unmarshal;
    forall i | 0 <= i < |m.fields|
      ensures FieldIs(sc, sc[k][i], Sub(Marshal(sc, k, m), sc[k][i].tag), FilledField(sc, k, m, i))
    {
      FieldTrip(sc, k, m, i);
    }
    MarshalKnown(sc, k, m, |m.fields|);
    UnmarshalExactly(sc, k, Marshal(sc, k, m), Filled(sc, k, m));
  }

  lemma {:induction false} CompleteMarshals(sc: Schema, k: nat, m: Msg)
    requires Complete(sc, k, m)
    ensures Marshallable(sc, k, m)
    decreases m
  {
    forall i, j | 0 <= i < |m.fields| && 0 <= j < |m.fields[i].vals| && sc[k][i].kind.Struct?
         && m.fields[i].vals[j].VStruct?
      ensures Marshallable(sc, sc[k][i].kind.ref, m.fields[i].vals[j].m)
    {
      assert ValueComplete(sc, sc[k][i].kind, m.fields[i].vals[j]);
      assert m.fields[i].vals[j] < m.fields[i];
      CompleteMarshals(sc, sc[k][i].kind.ref, m.fields[i].vals[j].m);
    }
  }

  lemma {:induction false} FilledValueSame(sc: Schema, kind: Kind, v: Value)
    requires ValueOk(sc, kind, v) && ValueComplete(sc, kind, v)
    ensures FilledValue(sc, kind, v) == v
    decreases v
  {
    if v.VStruct? { FilledSame(sc, kind.ref, v.m); }
  }

  lemma {:induction false} FilledSame(sc: Schema, k: nat, m: Msg)
    requires MsgOk(sc, k, m) && Complete(sc, k, m)
    ensures Filled(sc, k, m) == m
    decreases m
  {
    forall i | 0 <= i < |m.fields|
      ensures FilledField(sc, k, m, i) == m.fields[i].vals
    {
      forall j | 0 <= j < |m.fields[i].vals|
        ensures FilledValue(sc, sc[k][i].kind, m.fields[i].vals[j]) == m.fields[i].vals[j]
      {
        FilledValueSame(sc, sc[k][i].kind, m.fields[i].vals[j]);
      }
    }
    assert Filled(sc, k, m).fields == m.fields;
  }

  /** A filled message fits its schema and is complete. */
  lemma FilledComplete(sc: Schema, k: nat, m: Msg)
    requires SchemaOk(sc) && MsgOk(sc, k, m) && Marshallable(sc, k, m)
    ensures MsgOk(sc, k, Filled(sc, k, m)) && Complete(sc, k, Filled(sc, k, m))
  {
    MsgTrip(sc, k, m);
    UnmarshalledOk(sc, k, Marshal(sc, k, m), Filled(sc, k, m));
  }

  /** Exactly which messages come back as they were: the complete ones. */
  lemma {:induction false} RoundTripExactly(sc: Schema, k: nat, m: Msg)
    requires SchemaOk(sc) && MsgOk(sc, k, m) && Marshallable(sc, k, m)
    ensures Unmarshal(sc, k, Marshal(sc, k, m)) == Some(m) <==> Complete(sc, k, m)
  {
    hide Unmarshal, Marshal, SchemaOk, MsgOk, Marshallable, Complete, Filled;
    MsgTrip(sc, k, m);
    FilledComplete(sc, k, m);
    if Complete(sc, k, m) { FilledSame(sc, k, m); }
  }

  /** Every complete message survives the trip. */
  lemma RoundTrip(sc: Schema, k: nat, m: Msg)
    requires SchemaOk(sc) && MsgOk(sc, k, m) && Complete(sc, k, m)
    ensures Unmarshal(sc, k, Marshal(sc, k, m)) == Some(m)
  {
    CompleteMarshals(sc, k, m);
    RoundTripExactly(sc, k, m);
  }

  /** Whatever stream was accepted, encoding the result again gives a stream in schema order that decodes
      to the same message. */
  lemma ReencodedStreamDecodes(sc: Schema, k: nat, rs: seq<Rec>, m: Msg)
    requires SchemaOk(sc) && k < |sc| && Unmarshal(sc, k, rs) == Some(m)
    ensures MsgOk(sc, k, m) && Unmarshal(sc, k, Marshal(sc, k, m)) == Some(m)
    ensures InSchemaOrder(sc[k], Marshal(sc, k, m))
  {
    UnmarshalledOk(sc, k, rs, m);
    RoundTrip(sc, k, m);
    MarshalOrdered(sc, k, m, |m.fields|);
  }

  /** The records come in the order of their entries. */
  ghost predicate InSchemaOrder(es: seq<Entry>, rs: seq<Rec>) {
    forall i, j :: 0 <= i < j < |rs| ==> EntryOf(es, rs[i].tag) <= EntryOf(es, rs[j].tag)
  }

  lemma {:induction false} MarshalOrdered(sc: Schema, k: nat, m: Msg, n: nat)
    requires SchemaOk(sc) && MsgOk(sc, k, m) && n <= |m.fields|
    ensures k < |sc|
    ensures var rs := MarshalUpTo(sc, k, m, n);
            InSchemaOrder(sc[k], rs) && forall j :: 0 <= j < |rs| ==> EntryOf(sc[k], rs[j].tag) < n
    decreases n
  {
    assert k < |sc| && |m.fields| == |sc[k]| && DistinctTags(sc[k]);
    hide EncodeField, MsgOk, SchemaOk, EntryOf;
    if n > 0 {
      MarshalOrdered(sc, k, m, n - 1);
      FieldTags(sc, k, m, n - 1);
      EntryOfTag(sc[k], n - 1);
    }
  }

  /** Two adjacent records of different tags have changed places. */
  ghost predicate SwappedAt(rs: seq<Rec>, rs2: seq<Rec>, i: nat) {
    i + 1 < |rs| && rs[i].tag != rs[i + 1].tag && rs2 == rs[..i] + [rs[i + 1], rs[i]] + rs[i + 2..]
  }

  /** The i-th record of a stream now holds the payload p. */
  ghost predicate ReplacedAt(rs: seq<Rec>, rs2: seq<Rec>, i: nat) {
    && i < |rs| == |rs2| && rs2[i].tag == rs[i].tag
    && forall j :: 0 <= j < |rs| && j != i ==> rs2[j] == rs[j]
  }

  /** Two adjacent records of different tags have changed places somewhere, at any depth. */
  ghost predicate Swapped(rs: seq<Rec>, rs2: seq<Rec>)
    decreases rs
  {
    || (exists i: nat :: SwappedAt(rs, rs2, i))
    || (exists i: nat :: ReplacedAt(rs, rs2, i) && SwappedInside(rs[i], rs2[i]))
  }

  ghost predicate SwappedInside(r: Rec, r2: Rec)
    decreases r
  {
    r.payload.PRecs? && r2.payload.PRecs? && Swapped(r.payload.recs, r2.payload.recs)
  }

  lemma SubMiddle(a: seq<Rec>, x: Rec, y: Rec, b: seq<Rec>, tag: nat)
    requires x.tag != y.tag
    ensures Sub(a + [x, y] + b, tag)
         == Sub(a, tag) + (if x.tag == tag then [x.payload] else if y.tag == tag then [y.payload] else []) + Sub(b, tag)
  {
    SubConcat(a + [x, y], b, tag);
    SubConcat(a, [x, y], tag);
    assert [x, y][1..] == [y] && [y][1..] == [];
    assert Sub([y], tag) == if y.tag == tag then [y.payload] else [];
    assert Sub([x, y], tag) == (if x.tag == tag then [x.payload] else []) + Sub([y], tag);
  }

  lemma SwapKeepsSub(rs: seq<Rec>, rs2: seq<Rec>, i: nat, tag: nat)
    requires SwappedAt(rs, rs2, i)
    ensures Sub(rs, tag) == Sub(rs2, tag)
  {
    hide Sub;
    assert rs == rs[..i] + [rs[i], rs[i + 1]] + rs[i + 2..];
    SubMiddle(rs[..i], rs[i], rs[i + 1], rs[i + 2..], tag);
    SubMiddle(rs[..i], rs[i + 1], rs[i], rs[i + 2..], tag);
  }

  /** A payload that decodes alike, as whatever kind, can stand for another. */
  lemma {:induction false} ReplaceKeeps(sc: Schema, k: nat, m: Msg, rs: seq<Rec>, rs2: seq<Rec>, i: nat)
    requires k < |sc| && |m.fields| == |sc[k]| && ReplacedAt(rs, rs2, i)
    requires forall kind :: DecodeValue(sc, kind, rs[i].payload) == DecodeValue(sc, kind, rs2[i].payload)
    ensures UnmarshalFrom(sc, k, m, rs) == UnmarshalFrom(sc, k, m, rs2)
    decreases |rs|
  {
    hide DecodeValue;
    assert DecodeStep(sc, k, m, rs[0]) == DecodeStep(sc, k, m, rs2[0]);
    if DecodeStep(sc, k, m, rs[0]).Some? {
      if i == 0 {
        assert rs[1..] == rs2[1..];
      } else {
        ReplaceKeeps(sc, k, DecodeStep(sc, k, m, rs[0]).value, rs[1..], rs2[1..], i - 1);
      }
    }
  }

  lemma {:induction false} InsideDecodesAlike(sc: Schema, kind: Kind, r: Rec, r2: Rec)
    requires SchemaOk(sc) && SwappedInside(r, r2)
    ensures DecodeValue(sc, kind, r.payload) == DecodeValue(sc, kind, r2.payload)
    decreases r
  {
    hide Swapped, Unmarshal, SchemaOk;
    if kind.Struct? && kind.ref < |sc| { SwapKeeps(sc, kind.ref, r.payload.recs, r2.payload.recs); }
  }

  lemma {:induction false} SwapKeeps(sc: Schema, k: nat, rs: seq<Rec>, rs2: seq<Rec>)
    requires SchemaOk(sc) && k < |sc| && Swapped(rs, rs2)
    ensures Unmarshal(sc, k, rs) == Unmarshal(sc, k, rs2)
    decreases rs
  {
    hide SwappedInside, DecodeValue, Sub;
    if i: nat :| SwappedAt(rs, rs2, i) {
      forall tag
        ensures Sub(rs, tag) == Sub(rs2, tag)
      {
        SwapKeepsSub(rs, rs2, i, tag);
      }
      OrderIndependent(sc, k, rs, rs2);
    } else {
      var i: nat :| ReplacedAt(rs, rs2, i) && SwappedInside(rs[i], rs2[i]);
      forall kind
        ensures DecodeValue(sc, kind, rs[i].payload) == DecodeValue(sc, kind, rs2[i].payload)
      {
        InsideDecodesAlike(sc, kind, rs[i], rs2[i]);
      }
      ReplaceKeeps(sc, k, Fresh(sc[k]), rs, rs2, i);
    }
  }

  /** Order independence at every depth: however many adjacent records of different tags change places,
      in the stream or in the structs inside it, unmarshalling accepts or refuses it as before, with the
      same result. */
  lemma {:induction false} OrderIndependentAtEveryDepth(sc: Schema, k: nat, streams: seq<seq<Rec>>)
    requires SchemaOk(sc) && k < |sc| && streams != []
    requires forall i :: 0 < i < |streams| ==> Swapped(streams[i - 1], streams[i])
    ensures Unmarshal(sc, k, streams[|streams| - 1]) == Unmarshal(sc, k, streams[0])
    decreases |streams|
  {
    hide Unmarshal, Swapped;
    var n := |streams| - 1;
    if n > 0 {
      OrderIndependentAtEveryDepth(sc, k, streams[..n]);
      SwapKeeps(sc, k, streams[n - 1], streams[n]);
    }
  }
}
