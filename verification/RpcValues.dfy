/** What single values are on the wire and after decoding, and what an accepted stream must hold. */
module RpcValues {
  import opened Basics
  import opened Rpc

  /** A string as C sees it: what comes before the first NUL byte, or all of it. */
  lemma {:induction false} CStringExactly(b: seq<byte>, s: seq<byte>)
    ensures CString(b) == s <==> 0 !in s && (s == b || s + [0] <= b)
  {
    if b == [] {
    } else if b[0] == 0 {
      var t := s + [0];
      assert t[0] == if s == [] then 0 else s[0];
      assert s == [] ==> t == [0];
      assert s != [] ==> s[0] in s;
      assert b[0] in b && [b[0]] <= b;
    } else if s == [] {
      assert s + [0] == [0];
    } else {
      CStringExactly(b[1..], s[1..]);
      assert s == [s[0]] + s[1..] && b == [b[0]] + b[1..];
      assert s[0] == b[0] ==> (s + [0] <= b <==> s[1..] + [0] <= b[1..]) by {
        assert s + [0] == [s[0]] + (s[1..] + [0]);
      }
    }
  }

  /** Exactly which payloads decode for each kind of field, and to what: an integer in range, bytes of the very
      length of a fixed field, any bytes, a string up to its first NUL, or a stream that is itself accepted. */
  lemma DecodeValueExactly(sc: Schema, kind: Kind, p: Payload, v: Value)
    ensures DecodeValue(sc, kind, p) == Some(v)
       <==> match kind
            case Int => p.PInt? && 0 <= p.n < 0x1_0000_0000 && v == VInt(p.n)
            case Int64 => p.PInt? && 0 <= p.n < 0x1_0000_0000_0000_0000 && v == VInt(p.n)
            case Bytes(length) => p.PBytes? && |p.b| == length && v == VBytes(p.b)
            case VarBytes => p.PBytes? && v == VBytes(p.b)
            case String => p.PBytes? && v.VBytes? && 0 !in v.b && (v.b == p.b || v.b + [0] <= p.b)
            case Struct(ref) => p.PRecs? && ref < |sc| && v.VStruct? && Unmarshal(sc, ref, p.recs) == Some(v.m)
  {
    hide Unmarshal, CString;
    if kind.String? && p.PBytes? && v.VBytes? { CStringExactly(p.b, v.b); }
  }

  /** What a value is on the wire. */
  lemma EncodeValueIs(sc: Schema, kind: Kind, v: Value)
    requires ValueOk(sc, kind, v)
    ensures EncodeValue(sc, kind, v)
         == match v
            case VInt(n) => PInt(n)
            case VBytes(b) => PBytes(b)
            case VStruct(m) => PRecs(Marshal(sc, kind.ref, m))
  {
  }

  /** What comes back for a required field that was not set: zero, as many zero bytes as the field has, or none. */
  lemma UnsetComesBack(sc: Schema, k: nat, m: Msg, i: nat)
    requires SchemaOk(sc) && MsgOk(sc, k, m) && Marshallable(sc, k, m) && i < |m.fields|
    requires m.fields[i].vals == [] && sc[k][i].mode.Required?
    ensures var t := Unmarshal(sc, k, Marshal(sc, k, m));
            && t.Some? && i < |t.value.fields| && |t.value.fields[i].vals| == 1
            && match sc[k][i].kind
               case Int => t.value.fields[i].vals == [VInt(0)]
               case Int64 => t.value.fields[i].vals == [VInt(0)]
               case Bytes(length) => t.value.fields[i].vals[0].VBytes? && |t.value.fields[i].vals[0].b| == length
                                     && forall j :: 0 <= j < length ==> t.value.fields[i].vals[0].b[j] == 0
               case VarBytes => t.value.fields[i].vals == [VBytes([])]
               case _ => true
  {
    MsgTrip(sc, k, m);
    hide Unmarshal, Marshal, Marshallable, MsgOk;
    assert FilledField(sc, k, m, i) == [Initial(sc[k][i].kind)];
  }

  /** What an accepted stream holds: no unknown tag, a record for each required entry, at most one for each entry
      that is no array, and for each record a value of the message that is its payload decoded. */
  lemma AcceptedHolds(sc: Schema, k: nat, rs: seq<Rec>, m: Msg)
    requires SchemaOk(sc) && k < |sc| && Unmarshal(sc, k, rs) == Some(m)
    ensures |m.fields| == |sc[k]|
    ensures forall r :: r in rs ==> exists i :: 0 <= i < |sc[k]| && sc[k][i].tag == r.tag
    ensures forall i :: 0 <= i < |sc[k]| && sc[k][i].mode.Required? ==>
              |m.fields[i].vals| == 1 && exists r :: r in rs && r.tag == sc[k][i].tag
    ensures forall i :: 0 <= i < |sc[k]| && !sc[k][i].mode.Array? ==> |m.fields[i].vals| <= 1
    ensures forall i, r :: 0 <= i < |sc[k]| && r in rs && r.tag == sc[k][i].tag ==>
              exists v :: v in m.fields[i].vals && DecodeValue(sc, sc[k][i].kind, r.payload) == Some(v)
    ensures forall i, v :: 0 <= i < |sc[k]| && v in m.fields[i].vals ==>
              exists r :: r in rs && r.tag == sc[k][i].tag && DecodeValue(sc, sc[k][i].kind, r.payload) == Some(v)
  {
    UnmarshalExactly(sc, k, rs, m);
    hide Unmarshal, DecodeValue, Sub;
    forall i | 0 <= i < |sc[k]|
      ensures sc[k][i].mode.Required? ==>
                |m.fields[i].vals| == 1 && exists r :: r in rs && r.tag == sc[k][i].tag
      ensures !sc[k][i].mode.Array? ==> |m.fields[i].vals| <= 1
      ensures forall r :: r in rs && r.tag == sc[k][i].tag ==>
                exists v :: v in m.fields[i].vals && DecodeValue(sc, sc[k][i].kind, r.payload) == Some(v)
      ensures forall v :: v in m.fields[i].vals ==>
                exists r :: r in rs && r.tag == sc[k][i].tag && DecodeValue(sc, sc[k][i].kind, r.payload) == Some(v)
    {
      FieldHolds(sc, sc[k][i], rs, m.fields[i].vals);
    }
    forall r | r in rs
      ensures exists i :: 0 <= i < |sc[k]| && sc[k][i].tag == r.tag
    {
      var j :| 0 <= j < |rs| && rs[j] == r;
      assert EntryOf(sc[k], rs[j].tag) < |sc[k]|;
    }
  }

  lemma FieldHolds(sc: Schema, e: Entry, rs: seq<Rec>, vs: seq<Value>)
    requires FieldIs(sc, e, Sub(rs, e.tag), vs)
    ensures e.mode.Required? ==> |vs| == 1 && exists r :: r in rs && r.tag == e.tag
    ensures !e.mode.Array? ==> |vs| <= 1
    ensures forall r :: r in rs && r.tag == e.tag ==>
              exists v :: v in vs && DecodeValue(sc, e.kind, r.payload) == Some(v)
    ensures forall v :: v in vs ==>
              exists r :: r in rs && r.tag == e.tag && DecodeValue(sc, e.kind, r.payload) == Some(v)
  {
    var ps := Sub(rs, e.tag);
    SubMembers(rs, e.tag);
    hide Sub, DecodeValue;
    if |ps| > 0 { assert Rec(e.tag, ps[0]) in rs; }
    forall r | r in rs && r.tag == e.tag
      ensures exists v :: v in vs && DecodeValue(sc, e.kind, r.payload) == Some(v)
    {
      var i :| 0 <= i < |ps| && ps[i] == r.payload;
      assert vs[i] in vs;
    }
    forall v | v in vs
      ensures exists r :: r in rs && r.tag == e.tag && DecodeValue(sc, e.kind, r.payload) == Some(v)
    {
      var i :| 0 <= i < |vs| && vs[i] == v;
      assert Rec(e.tag, ps[i]) in rs;
    }
  }

  lemma SubPlace(rs: seq<Rec>, x: nat)
    requires x < |rs|
    ensures var tag := rs[x].tag;
            |Sub(rs[..x], tag)| < |Sub(rs, tag)| && Sub(rs, tag)[|Sub(rs[..x], tag)|] == rs[x].payload
  {
    var tag, tail := rs[x].tag, rs[x..];
    SubConcat(rs[..x], tail, tag);
    assert rs[..x] + tail == rs;
    assert Sub(tail, tag) == [rs[x].payload] + Sub(tail[1..], tag);
  }

  /** The values of an array are in the order of their records. */
  lemma ArrayInOrder(sc: Schema, k: nat, rs: seq<Rec>, m: Msg, i: nat, x: nat, y: nat)
    requires SchemaOk(sc) && k < |sc| && Unmarshal(sc, k, rs) == Some(m)
    requires i < |sc[k]| && x < y < |rs| && rs[x].tag == rs[y].tag == sc[k][i].tag
    ensures |m.fields| == |sc[k]|
    ensures exists a, b ::
              && 0 <= a < b < |m.fields[i].vals|
              && DecodeValue(sc, sc[k][i].kind, rs[x].payload) == Some(m.fields[i].vals[a])
              && DecodeValue(sc, sc[k][i].kind, rs[y].payload) == Some(m.fields[i].vals[b])
  {
    var tag := sc[k][i].tag;
    UnmarshalExactly(sc, k, rs, m);
    assert FieldIs(sc, sc[k][i], Sub(rs, tag), m.fields[i].vals);
    SubPlace(rs, x);
    SubPlace(rs, y);
    SubPlace(rs[..y], x);
    assert rs[..y][..x] == rs[..x];
    hide Unmarshal, DecodeValue, Sub;
    var a, b := |Sub(rs[..x], tag)|, |Sub(rs[..y], tag)|;
    assert DecodeValue(sc, sc[k][i].kind, Sub(rs, tag)[a]) == Some(m.fields[i].vals[a]);
    assert DecodeValue(sc, sc[k][i].kind, Sub(rs, tag)[b]) == Some(m.fields[i].vals[b]);
  }
}
