/** The key codec as functions: what a tuple is written as, what the reader
    makes of a buffer, and how the two relate.

    The reader is modelled as a build with debug assertions: an assertion that
    fires is the outcome `Panic`. Where the theorems below show that none fires,
    a build without them computes the same. */
module Codec {
  import opened Bytes

  const U64_END := 0x1_0000_0000_0000_0000
  const I64_END := 0x8000_0000_0000_0000

  type u64 = n: int | 0 <= n < U64_END
  type i64 = n: int | -I64_END <= n < I64_END

  datatype Prim = Str | U64 | I64 | Bool | RawBytes

  datatype Ty = Plain(p: Prim) | Opt(p: Prim)

  datatype Scalar =
    | VStr(s: Utf8)
    | VU64(u: u64)
    | VI64(i: i64)
    | VBool(b: bool)
    | VBytes(bs: seq<byte>)

  /** A tuple component: a plain scalar, or an optional one. */
  datatype Value = Just(v: Scalar) | Some(v: Scalar) | None

  predicate HasPrim(v: Scalar, p: Prim) {
    match p
    case Str => v.VStr?
    case U64 => v.VU64?
    case I64 => v.VI64?
    case Bool => v.VBool?
    case RawBytes => v.VBytes?
  }

  predicate HasType(x: Value, t: Ty) {
    match t
    case Plain(p) => x.Just? && HasPrim(x.v, p)
    case Opt(p) => x.None? || (x.Some? && HasPrim(x.v, p))
  }

  predicate Typed(xs: seq<Value>, ts: seq<Ty>) {
    |xs| == |ts| && forall i :: 0 <= i < |xs| ==> HasType(xs[i], ts[i])
  }

  // ------------------------------------------------------------------ writing

  lemma EightBytes()
    ensures Pow256(8) == U64_END
  {
    assert Pow256(1) == 256;
    assert Pow256(2) == 0x1_0000;
    assert Pow256(4) == 0x1_0000_0000;
    assert Pow256(6) == 0x1_0000_0000_0000;
  }

  function U64Bytes(n: u64): (r: seq<byte>)
    ensures |r| == 8
  {
    EightBytes();
    BeBytes(n, 8)
  }

  /** The 64-bit word of a signed integer: two's complement. */
  function Word(n: i64): (r: u64) {
    if n < 0 then n + U64_END else n
  }

  function Unword(n: u64): (r: i64) {
    if n < I64_END then n else n - U64_END
  }

  function EncScalar(v: Scalar): seq<byte> {
    match v
    case VStr(s) => s
    case VU64(n) => U64Bytes(n)
    case VI64(n) => U64Bytes(Word(n))
    case VBool(b) => if b then [0x01] else [0x00]
    case VBytes(bs) => bs
  }

  function EncValue(x: Value): seq<byte> {
    match x
    case Just(v) => EncScalar(v)
    case Some(v) => EncScalar(v)
    case None => []
  }

  /** A tuple's bytes: its records with one separator between neighbours. */
  function Encode(xs: seq<Value>): seq<byte> {
    if xs == [] then []
    else if |xs| == 1 then EncValue(xs[0])
    else EncValue(xs[0]) + [SEP] + Encode(xs[1..])
  }

  // ------------------------------------------------------------------ reading

  datatype Error = BadUtf8 | Underflow | InvalidLength

  datatype Assertion = MissingSeparator | TrailingBytes | NestedSequence

  datatype Res<+T> = Done(value: T) | Err(error: Error) | Panic(assertion: Assertion)

  /** What a tuple type asks of each position. */
  datatype Want = Get(t: Ty) | Ignore | IgnoreAll

  datatype Slot = Got(x: Value) | Skipped

  /** Bytes before the first separator. */
  function RecordLen(rest: seq<byte>): (n: nat)
    ensures n <= |rest|
    ensures SEP !in rest[..n]
    ensures n < |rest| ==> rest[n] == SEP
  {
    if rest == [] || rest[0] == SEP then 0
    else
      var n := RecordLen(rest[1..]);
      assert rest[..n + 1] == [rest[0]] + rest[1..][..n];
      n + 1
  }

  /** One scalar at the front of the unread bytes, with the bytes it consumes. */
  function DecPrim(p: Prim, rest: seq<byte>): (r: (Res<Scalar>, nat))
    ensures r.1 <= |rest|
  {
    match p
    case Str =>
      var n := RecordLen(rest);
      (if ValidUtf8(rest[..n]) then Done(VStr(rest[..n])) else Err(BadUtf8), n)
    case U64 =>
      if |rest| < 8 then (Err(Underflow), 0) else (Done(VU64(Word64(rest[..8]))), 8)
    case I64 =>
      if |rest| < 8 then (Err(Underflow), 0) else (Done(VI64(Unword(Word64(rest[..8])))), 8)
    case Bool =>
      if rest == [] then (Err(Underflow), 0) else (Done(VBool(rest[0] != 0x00)), 1)
    case RawBytes =>
      (Done(VBytes(rest)), |rest|)
  }

  function Word64(bs: seq<byte>): (n: u64)
    requires |bs| == 8
  {
    EightBytes();
    FromBeBound(bs);
    FromBe(bs)
  }

  lemma {:induction false} FromBeBound(bs: seq<byte>)
    ensures FromBe(bs) < Pow256(|bs|)
  {
    if bs != [] {
      FromBeBound(bs[..|bs| - 1]);
    }
  }

  function DecTy(t: Ty, rest: seq<byte>): (r: (Res<Value>, nat))
    ensures r.1 <= |rest|
  {
    if t.Opt? && (rest == [] || rest[0] == SEP) then (Done(None), 0)
    else
      var (res, used) := DecPrim(t.p, rest);
      match res
      case Done(v) => (Done(if t.Opt? then Some(v) else Just(v)), used)
      case Err(e) => (Err(e), used)
      case Panic(a) => (Panic(a), used)
  }

  function DecWant(w: Want, rest: seq<byte>): (r: (Res<Slot>, nat))
    ensures r.1 <= |rest|
  {
    match w
    case Ignore => (Done(Skipped), RecordLen(rest))
    case IgnoreAll => (Done(Skipped), |rest|)
    case Get(t) =>
      var (res, used) := DecTy(t, rest);
      match res
      case Done(x) => (Done(Got(x)), used)
      case Err(e) => (Err(e), used)
      case Panic(a) => (Panic(a), used)
  }

  function Prepend(acc: seq<Slot>, r: Res<seq<Slot>>): Res<seq<Slot>> {
    match r
    case Done(xs) => Done(acc + xs)
    case Err(_) => r
    case Panic(_) => r
  }

  /** The rest of a tuple, given the unread bytes and whether a record was
      started before. A complete read must leave at most one lone separator. */
  function DecTuple(ws: seq<Want>, rest: seq<byte>, started: bool): Res<seq<Slot>>
    decreases |ws|
  {
    if ws == [] then
      if rest == [] || rest == [SEP] then Done([]) else Panic(TrailingBytes)
    else if rest == [] then Err(InvalidLength)
    else if started && rest[0] != SEP then Panic(MissingSeparator)
    else
      var body := if started then rest[1..] else rest;
      var (res, used) := DecWant(ws[0], body);
      match res
      case Done(slot) => Prepend([slot], DecTuple(ws[1..], body[used..], true))
      case Err(e) => Err(e)
      case Panic(a) => Panic(a)
  }

  function Decode(ws: seq<Want>, buf: seq<byte>): Res<seq<Slot>> {
    DecTuple(ws, buf, false)
  }

  // ------------------------------------------------- one record, written and read

  /** Exactly the components whose record the reader gives back: raw bytes must
      come last, and a present option must not look like an absent one. */
  predicate Faithful(x: Value, last: bool) {
    match x
    case None => true
    case Just(v) => v.VBytes? ==> last
    case Some(v) =>
      && EncScalar(v) != [] && EncScalar(v)[0] != SEP
      && (v.VBytes? ==> last)
  }

  /** What can follow a record: nothing, or a separator. */
  predicate Boundary(tail: seq<byte>) {
    tail == [] || tail[0] == SEP
  }

  lemma {:induction false} RecordLenOf(r: seq<byte>, tail: seq<byte>)
    requires SEP !in r && Boundary(tail)
    ensures RecordLen(r + tail) == |r|
  {
    if r == [] {
      assert r + tail == tail;
    } else {
      assert (r + tail)[1..] == r[1..] + tail;
      RecordLenOf(r[1..], tail);
    }
  }

  lemma ScalarRoundTrip(v: Scalar, p: Prim, tail: seq<byte>)
    requires HasPrim(v, p) && Boundary(tail)
    requires v.VBytes? ==> tail == []
    ensures DecPrim(p, EncScalar(v) + tail) == (Done(v), |EncScalar(v)|)
  {
    var e := EncScalar(v);
    assert (e + tail)[..|e|] == e;
    match v {
      case VStr(s) =>
        Utf8HasNoSep(s);
        RecordLenOf(s, tail);
      case VU64(n) =>
        EightBytes();
        BeRoundTrip(n, 8);
      case VI64(n) =>
        EightBytes();
        BeRoundTrip(Word(n), 8);
      case VBool(b) =>
      case VBytes(bs) =>
        assert bs + tail == bs;
    }
  }

  lemma ValueRoundTrip(x: Value, t: Ty, tail: seq<byte>)
    requires HasType(x, t) && Boundary(tail) && Faithful(x, tail == [])
    ensures DecTy(t, EncValue(x) + tail) == (Done(x), |EncValue(x)|)
  {
    if x.None? {
      assert EncValue(x) + tail == tail;
    } else {
      ScalarRoundTrip(x.v, t.p, tail);
      if x.Some? {
        assert (EncValue(x) + tail)[0] == EncValue(x)[0];
      }
    }
  }

  /** An unfaithful component is never read back, whatever follows it. */
  lemma ValueLost(x: Value, t: Ty, tail: seq<byte>)
    requires HasType(x, t) && Boundary(tail) && !Faithful(x, tail == [])
    ensures DecTy(t, EncValue(x) + tail).0 != Done(x)
            || DecTy(t, EncValue(x) + tail).1 != |EncValue(x)|
    ensures x.Just? || DecTy(t, EncValue(x) + tail).0 != Done(x)
    ensures x.Just? ==> DecTy(t, EncValue(x) + tail).1 == |EncValue(x) + tail|
  {
    if x.Some? && (EncScalar(x.v) == [] || EncScalar(x.v)[0] == SEP) {
      assert EncValue(x) == [] ==> EncValue(x) + tail == tail;
    } else {
      assert x.v.VBytes? && tail != [];
      assert |EncValue(x) + tail| > |EncValue(x)|;
    }
  }

  // ------------------------------------------------------------- whole tuples

  function Gets(ts: seq<Ty>): (ws: seq<Want>)
    ensures |ws| == |ts|
    ensures forall i :: 0 <= i < |ts| ==> ws[i] == Get(ts[i])
  {
    seq(|ts|, i requires 0 <= i < |ts| => Get(ts[i]))
  }

  function Gots(xs: seq<Value>): (ss: seq<Slot>)
    ensures |ss| == |xs|
    ensures forall i :: 0 <= i < |xs| ==> ss[i] == Got(xs[i])
  {
    seq(|xs|, i requires 0 <= i < |xs| => Got(xs[i]))
  }

  predicate AllFaithful(xs: seq<Value>) {
    forall i :: 0 <= i < |xs| ==> Faithful(xs[i], i == |xs| - 1)
  }

  /** The bytes after the first record. */
  function After(xs: seq<Value>): (r: seq<byte>)
    requires xs != []
    ensures Boundary(r) && (r == [] <==> |xs| == 1)
    ensures Encode(xs) == EncValue(xs[0]) + r
  {
    if |xs| == 1 then [] else
      assert EncValue(xs[0]) + [SEP] + Encode(xs[1..]) == EncValue(xs[0]) + ([SEP] + Encode(xs[1..]));
      [SEP] + Encode(xs[1..])
  }

  /** Unread bytes when the records xs are still to come. */
  function Remaining(xs: seq<Value>, started: bool): seq<byte> {
    if started && xs != [] then [SEP] + Encode(xs) else Encode(xs)
  }

  lemma RestOf(xs: seq<Value>)
    requires xs != []
    ensures Encode(xs)[|EncValue(xs[0])|..] == Remaining(xs[1..], true)
  {
    assert Encode(xs) == EncValue(xs[0]) + After(xs);
  }

  lemma PrependCancels(slot: Slot, ss: seq<Slot>, r: Res<seq<Slot>>)
    ensures Prepend([slot], r) == Done([slot] + ss) <==> r == Done(ss)
  {
    if r.Done? && [slot] + r.value == [slot] + ss {
      assert r.value == ([slot] + r.value)[1..];
      assert ss == ([slot] + ss)[1..];
    }
  }

  lemma AllFaithfulTail(xs: seq<Value>)
    requires xs != [] && Faithful(xs[0], |xs| == 1)
    ensures AllFaithful(xs) <==> AllFaithful(xs[1..])
  {
    var ys := xs[1..];
    if AllFaithful(ys) {
      forall i | 0 <= i < |xs| ensures Faithful(xs[i], i == |xs| - 1) {
        if i > 0 {
          assert Faithful(ys[i - 1], i - 1 == |ys| - 1);
        }
      }
    }
  }

  /** From any record boundary on, the reader recovers the remaining components
      exactly when each of them is faithful. */
  lemma {:induction false} DecodeFrom(ts: seq<Ty>, xs: seq<Value>, started: bool)
    requires Typed(xs, ts)
    requires !started && xs != [] ==> Encode(xs) != []
    ensures DecTuple(Gets(ts), Remaining(xs, started), started) == Done(Gots(xs)) <==> AllFaithful(xs)
    decreases |xs|
  {
    var ws, rest := Gets(ts), Remaining(xs, started);
    if xs != [] {
      hide Encode, EncValue, HasType, DecTy, Faithful;
      var body := Encode(xs);
      var tail := After(xs);
      assert (if started then rest[1..] else rest) == body;
      assert ws[1..] == Gets(ts[1..]);
      assert Gots(xs) == [Got(xs[0])] + Gots(xs[1..]);
      if Faithful(xs[0], |xs| == 1) {
        ValueRoundTrip(xs[0], ts[0], tail);
        RestOf(xs);
        DecodeFrom(ts[1..], xs[1..], true);
        AllFaithfulTail(xs);
        PrependCancels(Got(xs[0]), Gots(xs[1..]), DecTuple(ws[1..], Remaining(xs[1..], true), true));
      } else {
        ValueLost(xs[0], ts[0], tail);
        if xs[0].Just? {
          assert |xs| > 1 && ws[1..] != [];
          assert body[DecTy(ts[0], body).1..] == [];
        }
        assert !AllFaithful(xs);
      }
    }
  }

  /** Exactly the tuples that survive being written and read back. */
  predicate RoundTrips(xs: seq<Value>) {
    && (|xs| == 1 ==> Encode(xs) != [])
    && AllFaithful(xs)
  }

  /** Writing then reading a tuple gives the tuple back if and only if every
      component is faithful and a 1-tuple is not written as nothing. A 1-tuple
      written as nothing is refused as too short. */
  lemma RoundTrip(ts: seq<Ty>, xs: seq<Value>)
    requires Typed(xs, ts)
    ensures Decode(Gets(ts), Encode(xs)) == Done(Gots(xs)) <==> RoundTrips(xs)
  {
    if xs != [] && Encode(xs) == [] {
      assert Encode(xs) == EncValue(xs[0]) + After(xs);
      assert |xs| == 1;
      assert Decode(Gets(ts), Encode(xs)) == Err(InvalidLength);
    } else {
      DecodeFrom(ts, xs, false);
    }
  }

  /** Two tuples of one type that survive reading are written differently. */
  lemma EncodeInjective(ts: seq<Ty>, xs: seq<Value>, ys: seq<Value>)
    requires Typed(xs, ts) && Typed(ys, ts) && RoundTrips(xs) && RoundTrips(ys)
    requires Encode(xs) == Encode(ys)
    ensures xs == ys
  {
    RoundTrip(ts, xs);
    RoundTrip(ts, ys);
    forall i | 0 <= i < |xs| ensures xs[i] == ys[i] {
      assert Gots(xs)[i] == Gots(ys)[i];
    }
  }

  /** An empty present string is read back as an absent one. */
  lemma EmptyStringLost()
    ensures var xs := [Some(VStr([])), Just(VBool(true))];
            Decode([Get(Opt(Str)), Get(Plain(Bool))], Encode(xs)) == Done([Got(None), Got(Just(VBool(true)))])
  {
    var xs := [Some(VStr([])), Just(VBool(true))];
    assert xs[1..] == [Just(VBool(true))];
    var e := Encode(xs);
    assert e == [SEP, 1];
    assert e[1..] == [1] && [1 as byte][1..] == [] && e[0..] == e;
    assert DecTuple([], [], true) == Done([]);
    var last := DecTuple([Get(Plain(Bool))], e, true);
    assert last == Prepend([Got(Just(VBool(true)))], DecTuple([Get(Plain(Bool))][1..], [1 as byte][1..], true));
    assert [Get(Plain(Bool))][1..] == [];
    assert [Got(Just(VBool(true)))] + [] == [Got(Just(VBool(true)))];
    assert last == Done([Got(Just(VBool(true)))]);
    assert [Got(None)] + [Got(Just(VBool(true)))] == [Got(None), Got(Just(VBool(true)))];
    assert [Get(Opt(Str)), Get(Plain(Bool))][1..] == [Get(Plain(Bool))];
  }

  /** A present integer whose top byte is the separator is not read back. */
  lemma TopSeparatorLost()
    ensures !RoundTrips([Some(VU64(0xFF00_0000_0000_0000)), Just(VBool(true))])
  {
    OptionalIntegers(0xFF00_0000_0000_0000, 0);
    assert !Faithful([Some(VU64(0xFF00_0000_0000_0000)), Just(VBool(true))][0], false);
  }

  /** Raw bytes that are not last swallow what follows. */
  lemma InnerBytesSwallow()
    ensures Decode([Get(Plain(RawBytes)), Get(Plain(Bool))], Encode([Just(VBytes([7])), Just(VBool(true))]))
            == Err(InvalidLength)
  {
    var zs := [Just(VBytes([7])), Just(VBool(true))];
    assert zs[1..] == [Just(VBool(true))];
    assert [Get(Plain(RawBytes)), Get(Plain(Bool))][1..] == [Get(Plain(Bool))];
  }

  lemma {:induction false} TopByteIsSep(n: nat, k: nat)
    requires k > 0 && n < Pow256(k)
    ensures BeBytes(n, k)[0] == SEP <==> n >= 255 * Pow256(k - 1)
  {
    if k > 1 {
      TopByteIsSep(n / 256, k - 1);
      assert BeBytes(n, k)[0] == BeBytes(n / 256, k - 1)[0];
    } else {
      assert BeBytes(n, 1) == [n % 256];
    }
  }

  /** Which present integers an optional record can carry. */
  lemma OptionalIntegers(n: u64, i: i64)
    ensures Faithful(Some(VU64(n)), false) <==> n < 0xFF00_0000_0000_0000
    ensures Faithful(Some(VI64(i)), false) <==> !(-0x100_0000_0000_0000 <= i < 0)
  {
    EightBytes();
    assert Pow256(7) == 0x100_0000_0000_0000 by {
      assert Pow256(8) == 256 * Pow256(7);
    }
    TopByteIsSep(n, 8);
    TopByteIsSep(Word(i), 8);
  }

  // ------------------------------------------------------------ projections

  /** What a tuple type with directives should read from a written tuple. */
  function Project(ws: seq<Want>, xs: seq<Value>): (ss: seq<Slot>)
    requires |ws| <= |xs|
    ensures |ss| == |ws|
  {
    seq(|ws|, i requires 0 <= i < |ws| => if ws[i].Get? then Got(xs[i]) else Skipped)
  }

  /** A type that agrees with the written tuple, skips only records free of the
      separator byte, and either covers every record or ends in `IgnoreAll`. */
  predicate Fits(ws: seq<Want>, ts: seq<Ty>, xs: seq<Value>)
    requires Typed(xs, ts)
  {
    && |ws| <= |xs|
    && (forall i :: 0 <= i < |ws| ==>
          match ws[i]
          case Get(t) => t == ts[i]
          case Ignore => SEP !in EncValue(xs[i])
          case IgnoreAll => i == |ws| - 1)
    && (|ws| < |xs| ==> ws != [] && ws[|ws| - 1].IgnoreAll?)
    && (forall i :: 0 <= i < |ws| && ws[i].Get? ==> Faithful(xs[i], i == |xs| - 1))
  }

  /** The first want reads its slot and stops at the next record, or at the end. */
  lemma FirstWant(ws: seq<Want>, ts: seq<Ty>, xs: seq<Value>)
    requires Typed(xs, ts) && Fits(ws, ts, xs) && ws != []
    ensures DecWant(ws[0], Encode(xs)) ==
            (Done(if ws[0].Get? then Got(xs[0]) else Skipped),
             if ws[0].IgnoreAll? then |Encode(xs)| else |EncValue(xs[0])|)
  {
    hide Encode, EncValue, DecTy, HasType;
    var tail := After(xs);
    match ws[0] {
      case IgnoreAll =>
      case Ignore => RecordLenOf(EncValue(xs[0]), tail);
      case Get(t) => ValueRoundTrip(xs[0], t, tail);
    }
  }

  lemma ProjectCons(ws: seq<Want>, xs: seq<Value>)
    requires ws != [] && |ws| <= |xs|
    ensures Project(ws, xs) == [if ws[0].Get? then Got(xs[0]) else Skipped] + Project(ws[1..], xs[1..])
  {}

  /** One step of the reader at a boundary with records to come. */
  lemma TupleStep(ws: seq<Want>, xs: seq<Value>, started: bool, slot: Slot, used: nat)
    requires ws != [] && xs != [] && (started || Encode(xs) != [])
    requires DecWant(ws[0], Encode(xs)) == (Done(slot), used)
    ensures used <= |Encode(xs)|
    ensures DecTuple(ws, Remaining(xs, started), started)
            == Prepend([slot], DecTuple(ws[1..], Encode(xs)[used..], true))
  {
    hide Encode, DecWant;
    var rest := Remaining(xs, started);
    assert (if started then rest[1..] else rest) == Encode(xs);
  }

  lemma {:induction false} ProjectFrom(ws: seq<Want>, ts: seq<Ty>, xs: seq<Value>, started: bool)
    requires Typed(xs, ts) && Fits(ws, ts, xs)
    requires !started && xs != [] ==> Encode(xs) != []
    ensures DecTuple(ws, Remaining(xs, started), started) == Done(Project(ws, xs))
    decreases |ws|
  {
    if ws != [] {
      hide Encode, EncValue, Fits, Typed, DecWant, DecTuple, Project, Remaining;
      FirstWant(ws, ts, xs);
      FitsShape(ws, ts, xs);
      var slot := if ws[0].Get? then Got(xs[0]) else Skipped;
      TupleStep(ws, xs, started, slot, DecWant(ws[0], Encode(xs)).1);
      ProjectCons(ws, xs);
      if ws[0].IgnoreAll? {
        NothingLeft(ws[1..], xs[1..], Encode(xs));
      } else {
        RestOf(xs);
        FitsTail(ws, ts, xs);
        ProjectFrom(ws[1..], ts[1..], xs[1..], true);
      }
    }
  }

  lemma NothingLeft(ws: seq<Want>, xs: seq<Value>, buf: seq<byte>)
    requires ws == []
    ensures DecTuple(ws, buf[|buf|..], true) == Done(Project(ws, xs))
  {
    assert buf[|buf|..] == [];
  }

  lemma FitsShape(ws: seq<Want>, ts: seq<Ty>, xs: seq<Value>)
    requires Typed(xs, ts) && Fits(ws, ts, xs) && ws != []
    ensures |ws| <= |xs| == |ts|
    ensures ws[0].IgnoreAll? ==> |ws| == 1
  {}

  lemma FitsTail(ws: seq<Want>, ts: seq<Ty>, xs: seq<Value>)
    requires Typed(xs, ts) && Fits(ws, ts, xs) && ws != [] && !ws[0].IgnoreAll?
    ensures Typed(xs[1..], ts[1..]) && Fits(ws[1..], ts[1..], xs[1..])
  {
    assert |ws| < |xs| ==> |ws| > 1;
  }

  /** Skipping directives are projections: the positions that are read keep
      their values, and the whole buffer is consumed without an assertion. */
  lemma IgnoreIsProjection(ws: seq<Want>, ts: seq<Ty>, xs: seq<Value>)
    requires Typed(xs, ts) && Fits(ws, ts, xs)
    requires xs != [] ==> Encode(xs) != []
    ensures Decode(ws, Encode(xs)) == Done(Project(ws, xs))
  {
    ProjectFrom(ws, ts, xs, false);
  }

  /** Skipping is always allowed over strings and optional strings. */
  lemma StringsCanBeIgnored(x: Value)
    requires x.None? || x.v.VStr?
    ensures SEP !in EncValue(x)
  {
    if !x.None? {
      Utf8HasNoSep(x.v.s);
    }
  }

  // ------------------------------------------------------------ key prefixes

  /** The bytes of a prefix query: the components, then the separator that
      `Interfix` forces. */
  function PrefixKey(ps: seq<Value>): seq<byte> {
    if ps == [] then [] else Encode(ps) + [SEP]
  }

  lemma PrefixKeyStep(ps: seq<Value>)
    requires ps != []
    ensures PrefixKey(ps) == EncValue(ps[0]) + ([SEP] + PrefixKey(ps[1..]))
  {
    if |ps| > 1 {
      assert PrefixKey(ps[1..]) == Encode(ps[1..]) + [SEP];
    }
  }

  /** Two faithful records of one type, each closed by a separator, agree as
      soon as one byte string starts with both. */
  lemma HeadAgrees(t: Ty, x: Value, y: Value, a: seq<byte>, b: seq<byte>)
    requires HasType(x, t) && HasType(y, t) && Faithful(x, false) && Faithful(y, false)
    requires EncValue(x) + ([SEP] + a) == EncValue(y) + ([SEP] + b)
    ensures x == y && a == b
  {
    ValueRoundTrip(x, t, [SEP] + a);
    ValueRoundTrip(y, t, [SEP] + b);
    var z := EncValue(x) + ([SEP] + a);
    assert a == z[|EncValue(x)| + 1..];
    assert b == z[|EncValue(x)| + 1..];
  }

  lemma EncodeStep(xs: seq<Value>)
    requires |xs| > 1
    ensures Encode(xs) == EncValue(xs[0]) + ([SEP] + Encode(xs[1..]))
  {
    assert After(xs) == [SEP] + Encode(xs[1..]);
  }

  lemma ExtendMatch(e: seq<byte>, k: seq<byte>, r: seq<byte>)
    requires k <= r
    ensures e + ([SEP] + k) <= e + ([SEP] + r)
  {
    var z := r[|k|..];
    assert r == k + z;
    Regroup(e, k, z);
  }

  lemma SplitMatch(e: seq<byte>, k: seq<byte>, key: seq<byte>) returns (z: seq<byte>)
    requires e + ([SEP] + k) <= key
    ensures key == e + ([SEP] + (k + z))
  {
    var p := e + ([SEP] + k);
    z := key[|p|..];
    assert key == p + z;
    Regroup(e, k, z);
  }

  lemma Regroup(e: seq<byte>, k: seq<byte>, z: seq<byte>)
    ensures (e + ([SEP] + k)) + z == e + ([SEP] + (k + z))
  {}

  lemma {:induction false} EqualComponentsMatch(ps: seq<Value>, xs: seq<Value>)
    requires |ps| < |xs| && ps == xs[..|ps|]
    ensures PrefixKey(ps) <= Encode(xs)
    decreases |ps|
  {
    if ps == [] {
      assert PrefixKey(ps) == [];
    } else {
      hide Encode, EncValue, PrefixKey;
      EqualComponentsMatch(ps[1..], xs[1..]);
      PrefixKeyStep(ps);
      EncodeStep(xs);
      ExtendMatch(EncValue(ps[0]), PrefixKey(ps[1..]), Encode(xs[1..]));
    }
  }

  lemma {:induction false} MatchingComponentsEqual(ts: seq<Ty>, ps: seq<Value>, xs: seq<Value>)
    requires Typed(xs, ts) && |ps| < |xs| && Typed(ps, ts[..|ps|])
    requires forall i :: 0 <= i < |ps| ==> Faithful(ps[i], false) && Faithful(xs[i], false)
    requires PrefixKey(ps) <= Encode(xs)
    ensures ps == xs[..|ps|]
    decreases |ps|
  {
    hide Encode, EncValue, PrefixKey, Faithful, HasType;
    if ps != [] {
      var ps', xs' := ps[1..], xs[1..];
      PrefixKeyStep(ps);
      EncodeStep(xs);
      var z := SplitMatch(EncValue(ps[0]), PrefixKey(ps'), Encode(xs));
      HeadAgrees(ts[0], ps[0], xs[0], PrefixKey(ps') + z, Encode(xs'));
      assert ts[1..][..|ps'|] == ts[..|ps|][1..];
      MatchingComponentsEqual(ts[1..], ps', xs');
      assert xs[..|ps|] == [xs[0]] + xs'[..|ps'|];
    }
  }

  /** A prefix query matches a longer key exactly when the components agree,
      where the components of both are faithful. */
  lemma PrefixExact(ts: seq<Ty>, ps: seq<Value>, xs: seq<Value>)
    requires Typed(xs, ts) && |ps| < |xs| && Typed(ps, ts[..|ps|])
    requires forall i :: 0 <= i < |ps| ==> Faithful(ps[i], false) && Faithful(xs[i], false)
    ensures PrefixKey(ps) <= Encode(xs) <==> ps == xs[..|ps|]
  {
    if ps == xs[..|ps|] {
      EqualComponentsMatch(ps, xs);
    }
    if PrefixKey(ps) <= Encode(xs) {
      MatchingComponentsEqual(ts, ps, xs);
    }
  }

  /** A query for an absent number also finds a present one. */
  lemma PrefixAmbiguous()
    ensures var ps, xs := [None], [Some(VU64(0xFF00_0000_0000_0000)), Just(VBool(true))];
            PrefixKey(ps) <= Encode(xs) && ps != xs[..1]
  {
    var xs := [Some(VU64(0xFF00_0000_0000_0000)), Just(VBool(true))];
    OptionalIntegers(0xFF00_0000_0000_0000, 0);
    assert PrefixKey([None]) == [SEP];
    assert Encode(xs)[0] == SEP;
    assert xs[..1][0] != None;
  }

  /** The types whose records a following separator closes without doubt. */
  predicate Sharp(t: Ty) {
    (t.Plain? && !t.p.RawBytes?) || t == Opt(Bool)
  }

  lemma SharpIsFaithful(x: Value, t: Ty)
    requires HasType(x, t) && Sharp(t)
    ensures Faithful(x, false)
  {
  }

  /** Values of one type with a separator behind them never look alike. */
  ghost predicate RecordsExact(t: Ty) {
    forall x, y, a, b :: HasType(x, t) && HasType(y, t) && Ended(x, a) == Ended(y, b) ==> x == y
  }

  function Ended(x: Value, rest: seq<byte>): seq<byte> {
    EncValue(x) + ([SEP] + rest)
  }

  /** Of any other type two values do look alike. */
  lemma LookAlikes(t: Ty) returns (x: Value, y: Value)
    requires !Sharp(t)
    ensures HasType(x, t) && HasType(y, t) && x != y
    ensures EncValue(x) == [] && (EncValue(y) == [] || EncValue(y)[0] == SEP)
  {
    match t
    case Plain(_) =>
      x, y := Just(VBytes([])), Just(VBytes([SEP]));
    case Opt(p) =>
      OptionalIntegers(0xFF00_0000_0000_0000, -1);
      x := None;
      y := Some(
        match p
        case Str => VStr([])
        case RawBytes => VBytes([])
        case U64 => VU64(0xFF00_0000_0000_0000)
        case I64 => VI64(-1)
        case Bool => VBool(true));
  }

  /** Closed records are told apart exactly for plain strings, integers and
      booleans, and for optional booleans. */
  lemma RecordsExactIff(t: Ty)
    ensures RecordsExact(t) <==> Sharp(t)
  {
    if Sharp(t) {
      forall x, y, a, b | HasType(x, t) && HasType(y, t) && Ended(x, a) == Ended(y, b)
        ensures x == y
      {
        SharpIsFaithful(x, t);
        SharpIsFaithful(y, t);
        HeadAgrees(t, x, y, a, b);
      }
    } else {
      var x, y := LookAlikes(t);
      var e := EncValue(y);
      var a := if e == [] then [] else e[1..] + [SEP];
      assert Ended(x, a) == Ended(y, []);
    }
  }

  /** Every prefix query on tuples of a type finds exactly the matching tuples. */
  ghost predicate QueriesExact(ts: seq<Ty>) {
    forall ps, xs :: Typed(xs, ts) && |ps| < |xs| && Typed(ps, ts[..|ps|]) ==>
      (PrefixKey(ps) <= Encode(xs) <==> ps == xs[..|ps|])
  }

  function Sample(t: Ty): (x: Value)
    ensures HasType(x, t)
  {
    match t
    case Opt(_) => None
    case Plain(p) => Just(
      match p
      case Str => VStr([])
      case U64 => VU64(0)
      case I64 => VI64(0)
      case Bool => VBool(false)
      case RawBytes => VBytes([]))
  }

  function Samples(ts: seq<Ty>): (xs: seq<Value>)
    ensures Typed(xs, ts)
  {
    if ts == [] then [] else [Sample(ts[0])] + Samples(ts[1..])
  }

  lemma LookAlikeFirst(x: Value, y: Value, rest: seq<Value>)
    requires rest != [] && EncValue(x) == [] && (EncValue(y) == [] || EncValue(y)[0] == SEP)
    ensures PrefixKey([x]) <= Encode([y] + rest)
  {
    var xs := [y] + rest;
    EncodeStep(xs);
    assert PrefixKey([x]) == [SEP];
    assert xs[0] == y;
    hide Encode, EncValue;
    assert Encode(xs)[0] == SEP;
  }

  /** After equal components, a query for one look-alike also finds the other. */
  lemma {:induction false} LookAlikeMatches(common: seq<Value>, x: Value, y: Value, rest: seq<Value>)
    requires rest != [] && EncValue(x) == [] && (EncValue(y) == [] || EncValue(y)[0] == SEP)
    ensures PrefixKey(common + [x]) <= Encode(common + ([y] + rest))
    decreases |common|
  {
    hide PrefixKey, Encode, EncValue;
    if common == [] {
      LookAlikeFirst(x, y, rest);
      assert common + [x] == [x] && common + ([y] + rest) == [y] + rest;
    } else {
      var ps, xs := common + [x], common + ([y] + rest);
      PrefixKeyStep(ps);
      EncodeStep(xs);
      assert ps[1..] == common[1..] + [x] && xs[1..] == common[1..] + ([y] + rest);
      LookAlikeMatches(common[1..], x, y, rest);
      ExtendMatch(EncValue(common[0]), PrefixKey(ps[1..]), Encode(xs[1..]));
    }
  }

  lemma TypedConcat(xs: seq<Value>, ts: seq<Ty>, ys: seq<Value>, us: seq<Ty>)
    requires Typed(xs, ts) && Typed(ys, us)
    ensures Typed(xs + ys, ts + us)
  {
    hide HasType;
  }

  lemma QueryMisses(ts: seq<Ty>, i: nat)
    requires i < |ts| - 1 && !Sharp(ts[i])
    ensures !QueriesExact(ts)
  {
    hide PrefixKey, Encode, EncValue, HasType;
    var x, y := LookAlikes(ts[i]);
    var common, rest := Samples(ts[..i]), Samples(ts[i + 1..]);
    var ps, xs := common + [x], common + ([y] + rest);
    LookAlikeMatches(common, x, y, rest);
    TypedConcat(common, ts[..i], [x], [ts[i]]);
    TypedConcat([y], [ts[i]], rest, ts[i + 1..]);
    TypedConcat(common, ts[..i], [y] + rest, [ts[i]] + ts[i + 1..]);
    assert ts[..i] + [ts[i]] == ts[..|ps|] && ts[..i] + ([ts[i]] + ts[i + 1..]) == ts;
    hide Typed;
    assert ps[i] == x && xs[..|ps|][i] == y;
  }

  /** All prefix queries on tuples of a type are exact exactly if every component
      but the last has a sharp type. */
  lemma QueriesExactIff(ts: seq<Ty>)
    ensures QueriesExact(ts) <==> forall i :: 0 <= i < |ts| - 1 ==> Sharp(ts[i])
  {
    if i :| 0 <= i < |ts| - 1 && !Sharp(ts[i]) {
      QueryMisses(ts, i);
    } else {
      forall ps, xs | Typed(xs, ts) && |ps| < |xs| && Typed(ps, ts[..|ps|])
        ensures PrefixKey(ps) <= Encode(xs) <==> ps == xs[..|ps|]
      {
        forall i | 0 <= i < |ps|
          ensures Faithful(ps[i], false) && Faithful(xs[i], false)
        {
          SharpIsFaithful(ps[i], ts[..|ps|][i]);
          SharpIsFaithful(xs[i], ts[i]);
        }
        PrefixExact(ts, ps, xs);
      }
    }
  }
}
