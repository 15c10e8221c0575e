/** The reader: a position in a fixed buffer, a count of started records, and a
    flag for being inside a sequence. */
module KeyReader {
  import opened Bytes
  import opened Codec
  import KeyWriter

  class Deserializer {
    const buf: seq<byte>
    var pos: nat
    var rec: nat
    var inSeq: bool

    ghost predicate Valid()
      reads this
    {
      pos <= |buf|
    }

    /** The unread bytes. */
    ghost function Rest(): seq<byte>
      requires Valid()
      reads this
    {
      buf[pos..]
    }

    /** Whether a record was started: the position alone cannot tell, because an
        empty first record leaves it at zero. */
    function Started(): bool
      reads this
    {
      pos != 0 || rec > 0
    }

    constructor (b: seq<byte>)
      ensures buf == b && pos == 0 && rec == 0 && !inSeq
    {
      buf := b;
      pos, rec, inSeq := 0, 0, false;
    }

    /** Consume the current record up to, not including, its separator. */
    method RecordNext() returns (r: seq<byte>)
      requires Valid()
      modifies this`pos
      ensures Valid() && pos == old(pos) + RecordLen(old(Rest()))
      ensures r == buf[old(pos)..pos]
    {
      ghost var rest := Rest();
      var n := 0;
      while pos + n < |buf| && buf[pos + n] != SEP
        invariant pos + n <= |buf|
        invariant SEP !in buf[pos..pos + n]
      {
        assert buf[pos..pos + n + 1] == buf[pos..pos + n] + [buf[pos + n]];
        n := n + 1;
      }
      assert RecordLen(rest) == n by {
        assert rest == buf[pos..pos + n] + buf[pos + n..];
        RecordLenOf(buf[pos..pos + n], buf[pos + n..]);
      }
      r := buf[pos..pos + n];
      pos := pos + n;
    }

    /** Consume everything left, separators included. */
    method RecordTrail() returns (r: seq<byte>)
      requires Valid()
      modifies this`pos
      ensures Valid() && pos == |buf| && r == old(Rest())
    {
      r := buf[pos..];
      pos := pos + |r|;
    }

    /** Step over the separator in front of a record; false where the debug
        assertion fires. */
    method RecordStart() returns (ok: bool)
      requires Valid() && pos < |buf|
      modifies this`pos, this`rec
      ensures Valid()
      ensures ok == !(old(Started()) && old(Rest())[0] != SEP)
      ensures ok ==> Started() && rec == old(rec) + 1
      ensures ok ==> Rest() == if old(Started()) then old(Rest())[1..] else old(Rest())
      ensures !ok ==> pos == old(pos) && rec == old(rec)
    {
      var started := Started();
      ok := !(started && buf[pos] != SEP);
      if ok {
        pos := pos + (if started then 1 else 0);
        rec := rec + 1;
      }
    }

    method DeserializePrim(p: Prim) returns (r: Res<Scalar>)
      requires Valid()
      modifies this`pos
      ensures Valid()
      ensures (r, pos - old(pos)) == DecPrim(p, old(Rest()))
    {
      match p {
        case Str =>
          var s := RecordNext();
          assert s == old(Rest())[..|s|];
          r := if ValidUtf8(s) then Done(VStr(s)) else Err(BadUtf8);
        case U64 =>
          if |buf| - pos < 8 {
            r := Err(Underflow);
          } else {
            assert buf[pos..pos + 8] == Rest()[..8];
            r := Done(VU64(Word64(buf[pos..pos + 8])));
            pos := pos + 8;
          }
        case I64 =>
          if |buf| - pos < 8 {
            r := Err(Underflow);
          } else {
            assert buf[pos..pos + 8] == Rest()[..8];
            r := Done(VI64(Unword(Word64(buf[pos..pos + 8]))));
            pos := pos + 8;
          }
        case Bool =>
          if pos >= |buf| {
            r := Err(Underflow);
          } else {
            r := Done(VBool(buf[pos] != 0x00));
            pos := pos + 1;
          }
        case RawBytes =>
          var bs := RecordTrail();
          r := Done(VBytes(bs));
      }
    }

    method DeserializeValue(t: Ty) returns (r: Res<Value>)
      requires Valid()
      modifies this`pos
      ensures Valid()
      ensures (r, pos - old(pos)) == DecTy(t, old(Rest()))
    {
      if t.Opt? && (pos >= |buf| || buf[pos] == SEP) {
        r := Done(None);
      } else {
        var v := DeserializePrim(t.p);
        match v {
          case Done(x) => r := Done(if t.Opt? then Some(x) else Just(x));
          case Err(e) => r := Err(e);
          case Panic(a) => r := Panic(a);
        }
      }
    }

    /** `Ignore` inside a tuple skips one record, outside everything. */
    method RecordIgnore()
      requires Valid()
      modifies this`pos
      ensures Valid()
      ensures pos == if inSeq then old(pos) + RecordLen(old(Rest())) else |buf|
    {
      if inSeq {
        var _ := RecordNext();
      } else {
        var _ := RecordTrail();
      }
    }

    method DeserializeWant(w: Want) returns (r: Res<Slot>)
      requires Valid() && inSeq
      modifies this`pos
      ensures Valid()
      ensures (r, pos - old(pos)) == DecWant(w, old(Rest()))
    {
      match w {
        case Ignore =>
          RecordIgnore();
          r := Done(Skipped);
        case IgnoreAll =>
          var _ := RecordTrail();
          r := Done(Skipped);
        case Get(t) =>
          var x := DeserializeValue(t);
          match x {
            case Done(v) => r := Done(Got(v));
            case Err(e) => r := Err(e);
            case Panic(a) => r := Panic(a);
          }
      }
    }

    method Finished() returns (ok: bool)
      requires Valid()
      ensures ok == (Rest() == [] || Rest() == [SEP])
    {
      var remain := |buf| - pos;
      ok := remain == 0 || (remain == 1 && buf[pos] == SEP);
    }

    /** The next element of a tuple, or the end of the buffer. */
    method NextElement(w: Want) returns (r: Res<Slot>)
      requires Valid() && inSeq
      modifies this`pos, this`rec
      ensures Valid()
      ensures r == DecNext(w, old(Rest()), old(Started())).0
      ensures r.Done? ==> Started() && Rest() == DecNext(w, old(Rest()), old(Started())).1
    {
      hide DecWant, DecNext;
      DecNextParts(w, Rest(), Started());
      if pos >= |buf| {
        return Err(InvalidLength);
      }
      var ok := RecordStart();
      if !ok {
        return Panic(MissingSeparator);
      }
      ghost var body := Rest();
      r := DeserializeWant(w);
      assert Rest() == body[DecWant(w, body).1..];
    }

    /** One tuple, then the check that the buffer was consumed. The position
        stays inside the buffer whatever the bytes are. */
    method DeserializeTuple(ws: seq<Want>) returns (r: Res<seq<Slot>>)
      requires Valid()
      modifies this
      ensures Valid()
      ensures old(inSeq) ==> r == Panic(NestedSequence)
      ensures !old(inSeq) ==> r == DecTuple(ws, old(Rest()), old(Started()))
      ensures r.Done? ==> Rest() == [] || Rest() == [SEP]
    {
      hide DecNext, DecTuple, DecWant, Prepend;
      if inSeq {
        return Panic(NestedSequence);
      }
      inSeq := true;
      ghost var whole := DecTuple(ws, Rest(), Started());
      var acc: seq<Slot> := [];
      var i := 0;
      assert ws[0..] == ws;
      PrependNothing(whole);
      while i < |ws|
        invariant 0 <= i <= |ws|
        invariant Valid() && inSeq
        invariant whole == Prepend(acc, DecTuple(ws[i..], Rest(), Started()))
      {
        assert ws[i..][0] == ws[i] && ws[i..][1..] == ws[i + 1..];
        DecTupleStep(ws[i..], Rest(), Started(), acc);
        var slot := NextElement(ws[i]);
        match slot {
          case Err(e) => return Err(e);
          case Panic(a) => return Panic(a);
          case Done(s) => acc := acc + [s];
        }
        i := i + 1;
      }
      assert ws[i..] == [];
      var fin := Finished();
      DecTupleEnd(acc, Rest(), Started());
      r := if fin then Done(acc) else Panic(TrailingBytes);
    }
  }

  /** One element at a boundary: what it yields and the bytes it leaves. */
  ghost function DecNext(w: Want, rest: seq<byte>, started: bool): (Res<Slot>, seq<byte>) {
    if rest == [] then (Err(InvalidLength), rest)
    else if started && rest[0] != SEP then (Panic(MissingSeparator), rest)
    else
      var body := if started then rest[1..] else rest;
      var (res, used) := DecWant(w, body);
      (res, body[used..])
  }

  lemma DecNextParts(w: Want, rest: seq<byte>, started: bool)
    ensures rest == [] ==> DecNext(w, rest, started).0 == Err(InvalidLength)
    ensures rest != [] && started && rest[0] != SEP ==> DecNext(w, rest, started).0 == Panic(MissingSeparator)
    ensures rest != [] && !(started && rest[0] != SEP) ==>
              var body := if started then rest[1..] else rest;
              DecNext(w, rest, started) == (DecWant(w, body).0, body[DecWant(w, body).1..])
  {
    hide DecWant;
  }

  lemma DecTupleStep(ws: seq<Want>, rest: seq<byte>, started: bool, acc: seq<Slot>)
    requires ws != []
    ensures var (res, left) := DecNext(ws[0], rest, started);
            Prepend(acc, DecTuple(ws, rest, started)) ==
            match res
            case Err(e) => Err(e)
            case Panic(a) => Panic(a)
            case Done(s) => Prepend(acc + [s], DecTuple(ws[1..], left, true))
  {
    var (res, left) := DecNext(ws[0], rest, started);
    if res.Done? {
      PrependTwice(acc, [res.value], DecTuple(ws[1..], left, true));
    }
  }

  lemma DecTupleEnd(acc: seq<Slot>, rest: seq<byte>, started: bool)
    ensures Prepend(acc, DecTuple([], rest, started)) ==
            if rest == [] || rest == [SEP] then Done(acc) else Panic(TrailingBytes)
  {
    assert acc + [] == acc;
  }

  lemma PrependNothing(r: Res<seq<Slot>>)
    ensures Prepend([], r) == r
  {
    if r.Done? {
      assert [] + r.value == r.value;
    }
  }

  lemma PrependTwice(a: seq<Slot>, b: seq<Slot>, r: Res<seq<Slot>>)
    ensures Prepend(a, Prepend(b, r)) == Prepend(a + b, r)
  {
    if r.Done? {
      assert a + (b + r.value) == (a + b) + r.value;
    }
  }

  /** A key written by one object and read by another: the tuple comes back, the
      final check passes and no assertion fires, exactly for the tuples
      described by `RoundTrips`. */
  method WriteThenRead(ts: seq<Ty>, xs: seq<Value>) returns (key: seq<byte>, r: Res<seq<Slot>>)
    requires Typed(xs, ts)
    ensures key == Encode(xs)
    ensures r == Done(Gots(xs)) <==> RoundTrips(xs)
  {
    var w := new KeyWriter.Serializer();
    KeyWriter.WrittenIsEncode(xs);
    w.SerializeTuple(KeyWriter.Vals(xs));
    key := w.out;
    var d := new Deserializer(key);
    assert d.Rest() == key;
    r := d.DeserializeTuple(Gets(ts));
    RoundTrip(ts, xs);
  }
}
