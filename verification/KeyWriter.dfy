/** The writer: a sink that grows, a flag that puts a separator in front of every
    record but the first, and a flag that closes the key after `Interfix`. */
module KeyWriter {
  import opened Bytes
  import opened Codec

  /** A tuple element as the writer sees it: a value or a directive. */
  datatype Item = Val(x: Value) | Interfix | Separator

  function EncItem(it: Item): seq<byte> {
    match it
    case Val(x) => EncValue(x)
    case Interfix => []
    case Separator => [SEP]
  }

  /** What a tuple of items is written as, read from its last item. */
  function Written(items: seq<Item>): seq<byte> {
    if items == [] then []
    else
      var n := |items| - 1;
      Written(items[..n]) + (if n > 0 then [SEP] else []) + EncItem(items[n])
  }

  /** Nothing may follow `Interfix`. */
  predicate Closed(items: seq<Item>) {
    forall i :: 0 <= i < |items| - 1 ==> !items[i].Interfix?
  }

  class Serializer {
    var out: seq<byte>
    var depth: nat
    var sep: bool
    var fin: bool

    constructor ()
      ensures out == [] && depth == 0 && !sep && !fin
    {
      out, depth, sep, fin := [], 0, false, false;
    }

    method TupleStart()
      requires !sep && !fin
      modifies this`depth
      ensures depth == old(depth) + 1
    {
      depth := depth + 1;
    }

    method TupleEnd()
      modifies this`depth
      ensures depth == if old(depth) == 0 then 0 else old(depth) - 1
    {
      depth := if depth == 0 then 0 else depth - 1;
    }

    method Write(buf: seq<byte>)
      modifies this`out
      ensures out == old(out) + buf
    {
      out := out + buf;
    }

    method WriteSeparator()
      requires !fin
      modifies this`out
      ensures out == old(out) + [SEP]
    {
      Write([SEP]);
    }

    method RecordStart()
      requires !fin
      modifies this`out, this`sep
      ensures sep
      ensures out == old(out) + (if old(sep) then [SEP] else [])
    {
      var was := sep;
      sep := true;
      if was {
        WriteSeparator();
      }
    }

    method SerializeScalar(v: Scalar)
      requires v.VStr? || v.VBytes? ==> depth > 0
      modifies this`out
      ensures out == old(out) + EncScalar(v)
    {
      match v {
        case VStr(s) => Write(s);
        case VBytes(bs) => Write(bs);
        case VU64(n) => Write(U64Bytes(n));
        case VI64(n) => Write(U64Bytes(Word(n)));
        case VBool(b) => if b { Write([0x01]); } else { Write([0x00]); }
      }
    }

    /** One tuple element: a record start, then the value or directive. */
    method SerializeElement(it: Item)
      requires !fin && depth > 0
      modifies this`out, this`sep, this`fin
      ensures sep && fin == it.Interfix?
      ensures out == old(out) + (if old(sep) then [SEP] else []) + EncItem(it)
    {
      RecordStart();
      match it {
        case Interfix => fin := true;
        case Separator => WriteSeparator();
        case Val(x) =>
          if !x.None? {
            SerializeScalar(x.v);
          }
      }
    }

    /** A whole tuple into an unused writer. */
    method SerializeTuple(items: seq<Item>)
      requires !sep && !fin && depth == 0 && Closed(items)
      modifies this
      ensures out == old(out) + Written(items)
      ensures depth == 0
      ensures sep == (items != [])
      ensures fin == (items != [] && items[|items| - 1].Interfix?)
    {
      TupleStart();
      for i := 0 to |items|
        invariant out == old(out) + Written(items[..i])
        invariant depth == 1
        invariant sep == (i > 0)
        invariant fin == (i > 0 && items[i - 1].Interfix?)
      {
        assert items[..i + 1][..i] == items[..i];
        SerializeElement(items[i]);
      }
      assert items[..|items|] == items;
      TupleEnd();
    }
  }

  function Vals(xs: seq<Value>): (r: seq<Item>)
    ensures |r| == |xs| && forall i :: 0 <= i < |xs| ==> r[i] == Val(xs[i])
  {
    seq(|xs|, i requires 0 <= i < |xs| => Val(xs[i]))
  }

  lemma Regroup(e: seq<byte>, k: seq<byte>, f: seq<byte>)
    ensures e + [SEP] + (k + [SEP] + f) == (e + [SEP] + k) + [SEP] + f
  {}

  lemma {:induction false} EncodeSnoc(xs: seq<Value>, x: Value)
    requires xs != []
    ensures Encode(xs + [x]) == Encode(xs) + [SEP] + EncValue(x)
  {
    if |xs| == 1 {
      assert (xs + [x])[1..] == [x];
    } else {
      assert (xs + [x])[1..] == xs[1..] + [x];
      EncodeSnoc(xs[1..], x);
      Regroup(EncValue(xs[0]), Encode(xs[1..]), EncValue(x));
    }
  }

  /** The writer's output for plain values is their encoding. */
  lemma {:induction false} WrittenIsEncode(xs: seq<Value>)
    ensures Written(Vals(xs)) == Encode(xs)
    decreases |xs|
  {
    if xs != [] {
      var n := |xs| - 1;
      assert Vals(xs)[..n] == Vals(xs[..n]);
      WrittenIsEncode(xs[..n]);
      assert xs == xs[..n] + [xs[n]];
      if n > 0 {
        EncodeSnoc(xs[..n], xs[n]);
      }
    }
  }

  /** A query ending in `Interfix` is the encoding closed by one separator. */
  lemma InterfixIsPrefixKey(ps: seq<Value>)
    ensures Closed(Vals(ps) + [Interfix])
    ensures Written(Vals(ps) + [Interfix]) == PrefixKey(ps)
  {
    var items := Vals(ps) + [Interfix];
    assert items[..|ps|] == Vals(ps);
    WrittenIsEncode(ps);
  }
}
