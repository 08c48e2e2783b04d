/** The loops of the generated code and of the generator, proved against the functions of Rpc. */
module RpcCode {
  import opened Basics
  import opened Rpc

  /** Struct (event_rpcgen.py): the entries of a struct under construction, and the names of its tags. */
  class Struct {
    var entries: seq<Entry>
    var tags: map<nat, string>

    ghost predicate Valid()
      reads this
    {
      && DistinctTags(entries)
      && forall t :: t in tags <==> exists i :: 0 <= i < |entries| && entries[i].tag == t
    }

    constructor ()
      ensures Valid() && entries == []
    {
      entries, tags := [], map[];
    }

    /** AddEntry: false stands for the exception that names a duplicate tag. */
    method AddEntry(e: Entry, name: string) returns (ok: bool)
      requires Valid()
      modifies this
      ensures Valid()
      ensures ok <==> forall i :: 0 <= i < |old(entries)| ==> old(entries)[i].tag != e.tag
      ensures entries == if ok then old(entries) + [e] else old(entries)
      ensures !ok ==> tags == old(tags)
    {
      if e.tag in tags {
        return false;
      }
      entries := entries + [e];
      tags := tags[e.tag := name];
      assert entries[|entries| - 1] == e;
      assert forall i :: 0 <= i < |old(entries)| ==> entries[i] == old(entries)[i];
      return true;
    }
  }

  /** A record of one value: evtag_marshal_*. */
  method MarshalValue(sc: Schema, e: Entry, v: Value) returns (r: Rec)
    requires ValueOk(sc, e.kind, v)
    ensures r == Rec(e.tag, EncodeValue(sc, e.kind, v))
    decreases v
  {
    match v
    case VInt(n) => r := Rec(e.tag, PInt(n));
    case VBytes(b) => r := Rec(e.tag, PBytes(b));
    case VStruct(m) =>
      var recs := MarshalMsg(sc, e.kind.ref, m);
      r := Rec(e.tag, PRecs(recs));
  }

  /** The generated marshal(): the array entries loop over their elements, the others are written once,
      an optional one only if it is set. */
  method MarshalMsg(sc: Schema, k: nat, m: Msg) returns (buf: seq<Rec>)
    requires MsgOk(sc, k, m)
    ensures buf == Marshal(sc, k, m)
    decreases m
  {
    buf := [];
    for n := 0 to |sc[k]|
      invariant buf == MarshalUpTo(sc, k, m, n)
    {
      var e, f := sc[k][n], m.fields[n];
      ghost var rs := EncodeField(sc, k, m, n);
      if e.mode.Required? && f.vals == [] {
        buf := buf + [Rec(e.tag, InitialPayload(e.kind))];
      } else {
        ghost var before := buf;
        for i := 0 to |f.vals|
          invariant buf == before + rs[..i]
        {
          var r := MarshalValue(sc, e, f.vals[i]);
          assert rs[..i + 1] == rs[..i] + [rs[i]];
          buf := buf + [r];
        }
        assert rs[..|f.vals|] == rs;
      }
    }
  }

  /** A decoded string, as far as C reads it. */
  method UnmarshalString(b: seq<byte>) returns (s: seq<byte>)
    ensures s == CString(b)
    ensures 0 !in s && (s == b || s + [0] <= b)
  {
    var n := 0;
    while n < |b| && b[n] != 0
      invariant n <= |b| && 0 !in b[..n]
    {
      n := n + 1;
    }
    s := b[..n];
    CStringUpTo(b, n);
  }

  lemma {:induction false} CStringUpTo(b: seq<byte>, n: nat)
    requires n <= |b| && 0 !in b[..n] && (n < |b| ==> b[n] == 0)
    ensures CString(b) == b[..n]
  {
    if n > 0 {
      assert b[..n] == [b[0]] + b[1..][..n - 1] && b[0] == b[..n][0];
      CStringUpTo(b[1..], n - 1);
    }
  }

  /** The body of one case: evtag_unmarshal_*. */
  method UnmarshalValue(sc: Schema, kind: Kind, p: Payload) returns (v: Option<Value>)
    ensures v == DecodeValue(sc, kind, p)
    decreases p
  {
    match kind {
      case Int => return if p.PInt? && 0 <= p.n < INT_LIMIT then Some(VInt(p.n)) else None;
      case Int64 => return if p.PInt? && 0 <= p.n < INT64_LIMIT then Some(VInt(p.n)) else None;
      case Bytes(length) => return if p.PBytes? && |p.b| == length then Some(VBytes(p.b)) else None;
      case VarBytes => return if p.PBytes? then Some(VBytes(p.b)) else None;
      case String =>
        if !p.PBytes? {
          return None;
        }
        var s := UnmarshalString(p.b);
        return Some(VBytes(s));
      case Struct(ref) =>
        if !p.PRecs? || |sc| <= ref {
          return None;
        }
        var m := UnmarshalMsg(sc, ref, p.recs);
        return if m.Some? then Some(VStruct(m.value)) else None;
    }
  }

  /** The generated unmarshal(), on a fresh message. */
  method UnmarshalMsg(sc: Schema, k: nat, evbuf: seq<Rec>) returns (t: Option<Msg>)
    requires k < |sc|
    ensures t == Unmarshal(sc, k, evbuf)
    decreases evbuf
  {
    var m := Fresh(sc[k]);
    var buf := evbuf;
    while buf != []
      invariant |m.fields| == |sc[k]| && |buf| <= |evbuf|
      invariant forall j :: 0 <= j < |buf| ==> buf[j] == evbuf[|evbuf| - |buf| + j]
      invariant UnmarshalFrom(sc, k, m, buf) == UnmarshalFrom(sc, k, Fresh(sc[k]), evbuf)
      decreases |buf|
    {
      var i := EntryOf(sc[k], buf[0].tag);
      if i == |sc[k]| {
        return None;
      }
      if !sc[k][i].mode.Array? && m.fields[i].vals != [] {
        return None;
      }
      assert buf[0] == evbuf[|evbuf| - |buf|] && buf[0].payload < buf[0];
      var v := UnmarshalValue(sc, sc[k][i].kind, buf[0].payload);
      if v.None? {
        return None;
      }
      m := Msg(m.fields[i := Field(m.fields[i].vals + [v.value])]);
      buf := buf[1..];
    }
    return if Complete(sc, k, m) then Some(m) else None;
  }

  /** Schemas built with AddEntry alone have distinct tags, and so everything proved of Rpc holds of them. */
  method BuildStruct(es: seq<Entry>, names: seq<string>) returns (s: Struct, ok: bool)
    requires |es| == |names|
    ensures fresh(s) && s.Valid()
    ensures ok <==> DistinctTags(es)
    ensures ok ==> s.entries == es
  {
    s := new Struct();
    ok := true;
    for i := 0 to |es|
      invariant fresh(s) && s.Valid() && ok && s.entries == es[..i] && DistinctTags(es[..i])
    {
      ok := s.AddEntry(es[i], names[i]);
      if !ok {
        return;
      }
      assert es[..i + 1] == es[..i] + [es[i]];
    }
    assert es[..|es|] == es;
  }
}
