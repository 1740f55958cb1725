/**
 * What the bytes of a buffer show: a relation between bytes and values that says how every
 * number, character, string, array and record lies in memory, and that reading decides exactly.
 */
module Readings {
  import opened Common
  import opened Bytes
  import opened DataElements
  import opened Layouts
  import opened RoundTrips
  import PackLeaf

  /** `n` bytes from `p` on; fewer only if there are none left. */
  function Slice(buf: seq<byte>, p: nat, n: nat): seq<byte> {
    if p + n <= |buf| then buf[p..p + n] else []
  }

  /** Numbers are little-endian two's complement, any byte but 0 is true, a character is its byte. */
  ghost predicate ScalarShows(c: TypeCode, v: Value, bs: seq<byte>) {
    match v
    case VInt(n) => IsNumber(c) && TypeMin(c) <= n <= TypeMax(c) && bs == PackLE(n, TypeSize(c))
    case VBool(b) => c.Bool? && |bs| == 1 && (b <==> bs[0] != 0)
    case VChar(x) => (c.Char? || c.Char8?) && bs == [x]
    case VBytes(x) => c.Byte? && |x| == 1 && bs == x
    case _ => false
  }

  /** Items one behind the other. */
  ghost predicate ItemsShow(c: TypeCode, items: seq<Value>, buf: seq<byte>, p: nat) {
    |items| > 0 ==> ScalarShows(c, items[0], Slice(buf, p, TypeSize(c))) && ItemsShow(c, items[1..], buf, p + TypeSize(c))
  }

  /** An array of `n` items. */
  ghost predicate ArrayShows(c: TypeCode, v: Value, buf: seq<byte>, p: nat, n: nat) {
    && p + Times(n, TypeSize(c)) <= |buf|
    && match v
       case VArray(items) =>
         IsNumberOrBool(c) && |items| == n && ItemsShow(c, items, buf, p)
       case VStr(s) => (c.Char? || c.Char8?) && s == Slice(buf, p, n) && |s| == n
       case VBytes(bs) => c.Byte? && bs == Slice(buf, p, n) && |bs| == n
       case _ => false
  }

  /** A string of at most `n` bytes without a NUL: it fills its room, or a NUL ends it. */
  ghost predicate StringShows(s: seq<byte>, buf: seq<byte>, p: nat, n: nat) {
    && |s| <= n && p + |s| <= |buf| && buf[p..p + |s|] == s && 0 !in s
    && (|s| < n ==> p + |s| < |buf| && buf[p + |s|] == 0)
  }

  /** A dynamic array is its length, then that many items; it is never empty. */
  ghost predicate LeafShows(e: DataElement, v: Value, buf: seq<byte>, p: nat) {
    if e.arrayLen == 0 then p + TypeSize(e.code) <= |buf| && ScalarShows(e.code, v, Slice(buf, p, TypeSize(e.code)))
    else if !e.isDynamic then
      if e.code.Char? || e.code.Char8? then v.VStr? && StringShows(v.s, buf, p, e.arrayLen)
      else ArrayShows(e.code, v, buf, p, e.arrayLen)
    else
      var w := LengthSize(e.arrayLen);
      && ValueLength(v).Some?
      && 0 < ValueLength(v).value <= e.arrayLen
      && p + w <= |buf| && Slice(buf, p, w) == PackLE(ValueLength(v).value, w)
      && ArrayShows(e.code, v, buf, p + w, ValueLength(v).value)
  }

  /** The map of field names to values; of two fields of one name the later one counts. */
  function Named(fs: seq<DataElement>, xs: seq<Value>): map<Name, Value>
    requires |fs| == |xs|
  {
    if |fs| == 0 then map[] else map[fs[0].name := xs[0]] + Named(fs[1..], xs[1..])
  }

  /** The fields one behind the other. */
  ghost predicate FieldsShow(fs: seq<DataElement>, xs: seq<Value>, buf: seq<byte>, p: nat)
    decreases fs, 0
  {
    && |xs| == |fs|
    && (|fs| > 0 ==> FieldShows(fs[0], xs[0], buf, p) && FieldsShow(fs[1..], xs[1..], buf, p + Size(fs[0])))
  }

  ghost predicate RecordShows(fs: seq<DataElement>, m: map<Name, Value>, buf: seq<byte>, p: nat)
    decreases fs, 1
  {
    exists xs :: FieldsShow(fs, xs, buf, p) && m == Named(fs, xs)
  }

  /** A field with limits shows nothing. */
  ghost predicate FieldShows(e: DataElement, v: Value, buf: seq<byte>, p: nat)
    decreases e, 2
  {
    if !e.code.Record? then e.limits.None? && LeafShows(e, v, buf, p)
    else v.VRecord? && RecordShows(e.children, v.fields, buf, p)
  }

  /** Records one behind the other. */
  ghost predicate RecordsShow(fs: seq<DataElement>, items: seq<Value>, buf: seq<byte>, p: nat)
    decreases |items|
  {
    |items| > 0 ==>
      && items[0].VRecord? && RecordShows(fs, items[0].fields, buf, p)
      && RecordsShow(fs, items[1..], buf, p + FieldsSize(fs))
  }

  /** A 32-bit number seen as a signed one. */
  function AsSigned(n: int): int {
    if n < 0x8000_0000 then n else n - 0x1_0000_0000
  }

  /** Limits leave 32-bit unsigned numbers in the order of signed ones, and no 64-bit unsigned number from 2^63 on. */
  ghost predicate NumberAllowed(c: TypeCode, l: Limits, v: Value) {
    && v.VInt?
    && if c.UInt32? then AsSigned(l.lower) <= AsSigned(v.n) <= AsSigned(l.upper)
       else l.lower <= v.n <= l.upper && (c.UInt64? ==> v.n < 0x8000_0000_0000_0000)
  }

  /** Limited values are numbers, or arrays of numbers of at most 32 bits. */
  ghost predicate Allowed(c: TypeCode, l: Limits, v: Value) {
    match v
    case VInt(_) => NumberAllowed(c, l, v)
    case VArray(items) => IsNumber(c) && TypeSize(c) <= 4 && forall i :: 0 <= i < |items| ==> NumberAllowed(c, l, items[i])
    case _ => false
  }

  ghost predicate ElementShows(e: DataElement, v: Value, buf: seq<byte>) {
    if !e.code.Record? then
      LeafShows(e, v, buf, 0) && (e.limits.Some? ==> Allowed(e.code, StoredLimits(e.code, e.limits.value), v))
    else if e.arrayLen == 0 then FieldShows(e, v, buf, 0)
    else
      v.VArray? && |v.items| == e.arrayLen && RecordsShow(e.children, v.items, buf, 0)
  }

  // ---------- scalars ----------

  lemma {:induction false} PackUnpackLE(bs: seq<byte>)
    ensures PackLE(UnpackLE(bs), |bs|) == bs
  {
    if |bs| > 0 {
      PackUnpackLE(bs[1..]);
      var rest := UnpackLE(bs[1..]);
      LowByte(bs[0], rest);
      assert PackLE(bs[0] + 256 * rest, |bs|) == [bs[0]] + PackLE(rest, |bs| - 1);
    }
  }

  lemma LowByte(b: byte, rest: nat)
    ensures (b + 256 * rest) % 256 == b && (b + 256 * rest) / 256 == rest
  {
  }

  lemma {:induction false} PackLEWraps(value: int, n: nat)
    ensures PackLE(value - Pow256(n), n) == PackLE(value, n)
    decreases n
  {
    if n > 0 {
      var m := Pow256(n - 1);
      assert (value - 256 * m) % 256 == value % 256 && (value - 256 * m) / 256 == value / 256 - m;
      PackLEWraps(value / 256, n - 1);
    }
  }

  lemma NumberReadExact(c: TypeCode, bs: seq<byte>, n: int)
    requires IsNumber(c) && |bs| == TypeSize(c)
    ensures ReadScalar(c, bs) == VInt(n) <==> ScalarShows(c, VInt(n), bs)
  {
    hide PackLE, UnpackLE;
    var size := TypeSize(c);
    Pow256Values();
    UnpackLEBound(bs);
    PackUnpackLE(bs);
    PackLEWraps(UnpackLE(bs), size);
    if ScalarShows(c, VInt(n), bs) {
      if IsUnsigned(c) {
        UnsignedRoundTrip(n, size);
      } else {
        SignedRoundTrip(n, size);
      }
    }
  }

  /** Reading a scalar gives exactly the value that its bytes show. */
  lemma ScalarReadExact(c: TypeCode, bs: seq<byte>, v: Value)
    requires |bs| == TypeSize(c) && !c.Record? && !c.Char16? && !c.Char32?
    ensures ReadScalar(c, bs) == v <==> ScalarShows(c, v, bs)
  {
    hide PackLE, UnpackLE;
    if IsNumber(c) {
      if v.VInt? {
        NumberReadExact(c, bs, v.n);
      }
    } else if |bs| == 1 {
      assert bs == [bs[0]];
    }
  }

  /** What packing stores for a scalar shows that scalar, and true is stored as 1. */
  lemma StoredShows(c: TypeCode, v: Value)
    requires ScalarFits(c, v)
    ensures ScalarShows(c, v, ScalarBytes(c, v))
    ensures v.VBool? ==> ScalarBytes(c, v) == [if v.b then 1 else 0] && ScalarBytes(c, v) == ScalarBytes(UInt8, VInt(if v.b then 1 else 0))
  {
    hide PackLE;
    if v.VBool? {
      OneByte(if v.b then 1 else 0);
    }
  }

  lemma OneByte(n: byte)
    ensures PackLE(n, 1) == [n]
  {
    assert PackLE(n / 256, 0) == [];
  }

  // ---------- leaves ----------

  lemma TimesNext(n: nat, size: nat)
    ensures Times(n + 1, size) == size + Times(n, size)
  {
  }

  lemma {:induction false} ItemsReadExact(c: TypeCode, buf: seq<byte>, p: nat, items: seq<Value>)
    requires IsNumberOrBool(c) && p + Times(|items|, TypeSize(c)) <= |buf|
    ensures ReadScalars(c, buf, p, |items|) == items <==> ItemsShow(c, items, buf, p)
    decreases |items|
  {
    hide ReadScalar, ScalarShows, Times, IsNumberOrBool;
    if |items| > 0 {
      var size := TypeSize(c);
      TimesNext(|items| - 1, size);
      NumbersAreScalars(c);
      ScalarReadExact(c, buf[p..p + size], items[0]);
      ItemsReadExact(c, buf, p + size, items[1..]);
      var read := ReadScalars(c, buf, p, |items|);
      assert read[0] == ReadScalar(c, buf[p..p + size]) && read[1..] == ReadScalars(c, buf, p + size, |items[1..]|);
      assert read == [read[0]] + read[1..] && items == [items[0]] + items[1..];
    }
  }

  lemma NumbersAreScalars(c: TypeCode)
    ensures IsNumberOrBool(c) ==> !c.Record? && !c.Char16? && !c.Char32?
  {
  }

  lemma ArrayReadExact(c: TypeCode, buf: seq<byte>, p: nat, n: nat, v: Value)
    ensures ReadArray(c, buf, p, n) == Some(v) <==> ArrayShows(c, v, buf, p, n)
  {
    hide ReadScalars, ItemsShow, Times;
    if p + Times(n, TypeSize(c)) <= |buf| {
      if IsNumberOrBool(c) {
        if v.VArray? && |v.items| == n {
          ItemsReadExact(c, buf, p, v.items);
        }
      } else {
        OneByteItems(c, n);
      }
    }
  }

  lemma OneByteItems(c: TypeCode, n: nat)
    ensures TypeSize(c) == 1 ==> Times(n, TypeSize(c)) == n
  {
  }

  lemma StringReadExact(buf: seq<byte>, p: nat, n: nat, s: seq<byte>)
    ensures ReadFixedString(buf, p, n) == Some(VStr(s)) <==> StringShows(s, buf, p, n)
  {
    hide CutAtNul;
    if p <= |buf| {
      var window := if p + n <= |buf| then buf[p..p + n] else buf[p..];
      if StringShows(s, buf, p, n) {
        assert window[..|s|] == s;
        CutAtNulIs(window, s);
      }
    }
  }

  /** Reading a leaf gives exactly the value that its bytes show. */
  lemma LeafReadExact(e: DataElement, buf: seq<byte>, p: nat, v: Value)
    ensures ReadLeaf(e, buf, p) == Some(v) <==> LeafShows(e, v, buf, p)
  {
    hide ReadScalar, ScalarShows, ReadArray, ArrayShows, ReadFixedString, StringShows, PackLE, UnpackLE;
    OtherTypesShowNothing(e.code, v, Slice(buf, p, TypeSize(e.code)));
    if e.arrayLen == 0 {
      if p + TypeSize(e.code) <= |buf| && !e.code.Record? && !e.code.Char16? && !e.code.Char32? {
        ScalarReadExact(e.code, buf[p..p + TypeSize(e.code)], v);
      }
    } else if !e.isDynamic {
      ArrayReadExact(e.code, buf, p, e.arrayLen, v);
      StringsAreStrings(buf, p, e.arrayLen);
      if v.VStr? {
        StringReadExact(buf, p, e.arrayLen, v.s);
      }
    } else {
      var w := LengthSize(e.arrayLen);
      if p + w <= |buf| {
        var n := UnpackLE(buf[p..p + w]);
        PackUnpackLE(buf[p..p + w]);
        ArrayReadExact(e.code, buf, p + w, n, v);
        if LeafShows(e, v, buf, p) {
          LengthFits(ValueLength(v).value, e.arrayLen);
        }
        ShownLength(e.code, v, buf, p + w, n);
      }
    }
  }

  lemma OtherTypesShowNothing(c: TypeCode, v: Value, bs: seq<byte>)
    ensures c.Record? || c.Char16? || c.Char32? ==> !ScalarShows(c, v, bs)
  {
  }

  lemma StringsAreStrings(buf: seq<byte>, p: nat, n: nat)
    ensures ReadFixedString(buf, p, n).Some? ==> ReadFixedString(buf, p, n).value.VStr?
  {
  }

  lemma ShownLength(c: TypeCode, v: Value, buf: seq<byte>, p: nat, n: nat)
    ensures ArrayShows(c, v, buf, p, n) ==> ValueLength(v) == Some(n)
  {
  }

  // ---------- records ----------

  /** What reading fields adds to `acc` is shown. */
  lemma {:induction false} FieldsReadShown(fs: seq<DataElement>, buf: seq<byte>, p: nat, acc: map<Name, Value>) returns (xs: seq<Value>)
    requires ReadFields(fs, buf, p, acc).Some?
    ensures FieldsShow(fs, xs, buf, p) && ReadFields(fs, buf, p, acc).value == acc + Named(fs, xs)
    decreases fs, 0
  {
    hide ReadField, FieldShows, Size;
    if |fs| == 0 {
      xs := [];
      assert acc + Named(fs, []) == acc;
    } else {
      var x := ReadField(fs[0], buf, p).value;
      FieldReadExact(fs[0], buf, p, x);
      var ys := FieldsReadShown(fs[1..], buf, p + Size(fs[0]), acc[fs[0].name := x]);
      xs := [x] + ys;
      assert xs[1..] == ys;
      assert acc + Named(fs, xs) == acc[fs[0].name := x] + Named(fs[1..], ys);
    }
  }

  /** What fields show is read. */
  lemma {:induction false} FieldsShownRead(fs: seq<DataElement>, xs: seq<Value>, buf: seq<byte>, p: nat, acc: map<Name, Value>)
    requires FieldsShow(fs, xs, buf, p)
    ensures ReadFields(fs, buf, p, acc) == Some(acc + Named(fs, xs))
    decreases fs, 0
  {
    hide ReadField, FieldShows, Size;
    if |fs| == 0 {
      assert acc + Named(fs, xs) == acc;
    } else {
      FieldReadExact(fs[0], buf, p, xs[0]);
      FieldsShownRead(fs[1..], xs[1..], buf, p + Size(fs[0]), acc[fs[0].name := xs[0]]);
      assert acc + Named(fs, xs) == acc[fs[0].name := xs[0]] + Named(fs[1..], xs[1..]);
    }
  }

  lemma {:induction false} FieldReadExact(e: DataElement, buf: seq<byte>, p: nat, v: Value)
    ensures ReadField(e, buf, p) == Some(v) <==> FieldShows(e, v, buf, p)
    decreases e, 1
  {
    hide ReadLeaf, LeafShows, ReadFields, FieldsShow;
    if !e.code.Record? {
      LeafReadExact(e, buf, p, v);
    } else if v.VRecord? {
      RecordReadExact(e.children, buf, p, v.fields);
    }
  }

  lemma Plus(m: map<Name, Value>)
    ensures map[] + m == m
  {
  }

  lemma RecordReadExact(fs: seq<DataElement>, buf: seq<byte>, p: nat, m: map<Name, Value>)
    ensures ReadFields(fs, buf, p, map[]) == Some(m) <==> RecordShows(fs, m, buf, p)
    decreases fs, 1
  {
    hide ReadFields, Named;
    if ReadFields(fs, buf, p, map[]) == Some(m) {
      var xs := FieldsReadShown(fs, buf, p, map[]);
      Plus(Named(fs, xs));
    }
    if RecordShows(fs, m, buf, p) {
      var xs :| FieldsShow(fs, xs, buf, p) && m == Named(fs, xs);
      FieldsShownRead(fs, xs, buf, p, map[]);
      Plus(Named(fs, xs));
    }
  }

  /** Reading records behind `acc` gives exactly the records that the bytes show. */
  lemma {:induction false} RecordsReadExact(fs: seq<DataElement>, buf: seq<byte>, p: nat, acc: seq<Value>, items: seq<Value>)
    ensures ReadItems(fs, buf, p, |items|, acc) == Some(acc + items) <==> RecordsShow(fs, items, buf, p)
    ensures ReadItems(fs, buf, p, |items|, acc).Some? ==>
      |ReadItems(fs, buf, p, |items|, acc).value| == |acc| + |items| && acc <= ReadItems(fs, buf, p, |items|, acc).value
    decreases |items|
  {
    hide ReadFields, RecordShows, FieldsSize;
    if |items| == 0 {
      assert acc + items == acc;
    } else {
      var first := ReadFields(fs, buf, p, map[]);
      if items[0].VRecord? {
        RecordReadExact(fs, buf, p, items[0].fields);
      }
      if first.Some? {
        var acc1 := acc + [VRecord(first.value)];
        RecordsReadExact(fs, buf, p + FieldsSize(fs), acc1, items[1..]);
        var all := ReadItems(fs, buf, p, |items|, acc);
        if items[0] == VRecord(first.value) {
          assert acc1 + items[1..] == acc + items;
        } else if all.Some? {
          assert all.value[|acc|] == acc1[|acc|] == VRecord(first.value);
        }
      }
    }
  }

  // ---------- limits and whole elements ----------

  lemma WrapsAsSigned(n: int)
    requires 0 <= n <= U32_MAX
    ensures Wrap32(n) == AsSigned(n) && I32_MIN <= AsSigned(n) <= I32_MAX
  {
    Pow256Values();
  }

  lemma NumberAllowedExact(c: TypeCode, l: Limits, v: Value)
    requires IsNumber(c) && ScalarFits(c, v) && ScalarFits(c, VInt(l.lower)) && ScalarFits(c, VInt(l.upper))
    ensures UnpackLimitAccepts(c, l, v) <==> NumberAllowed(c, l, v)
    ensures c.UInt32? ==> (InRangeI32(Wrap32(v.n), Wrap32(l.lower), Wrap32(l.upper)) <==> NumberAllowed(c, l, v))
  {
    hide Wrap32;
    if c.UInt32? {
      WrapsAsSigned(v.n);
      WrapsAsSigned(l.lower);
      WrapsAsSigned(l.upper);
    }
  }

  /** The limit check of a leaf lets through exactly what is allowed. */
  lemma AllowedExact(c: TypeCode, l: Limits, v: Value)
    requires v.VInt? ==> IsNumber(c) && ScalarFits(c, v)
    requires v.VArray? && IsNumber(c) ==> ItemsFit(c, v.items)
    requires IsNumber(c) ==> ScalarFits(c, VInt(l.lower)) && ScalarFits(c, VInt(l.upper))
    ensures UnpackLimitAccepts(c, l, v) <==> Allowed(c, l, v)
  {
    hide Wrap32, InRangeI32, AsSigned, TypeMin, TypeMax;
    if v.VInt? {
      NumberAllowedExact(c, l, v);
    } else if v.VArray? && IsNumber(c) {
      forall i | 0 <= i < |v.items|
        ensures UnpackLimitAccepts(c, l, v.items[i]) <==> NumberAllowed(c, l, v.items[i])
      {
        NumberAllowedExact(c, l, v.items[i]);
      }
    }
  }

  lemma LimitsFit(c: TypeCode, l: Limits)
    ensures var s := StoredLimits(c, l); IsNumber(c) ==> ScalarFits(c, VInt(s.lower)) && ScalarFits(c, VInt(s.upper))
  {
    hide StoredLimits;
    if IsNumber(c) {
      PackLeaf.StoredLimitsInType(c, l);
    }
  }

  lemma {:induction false} ShownItemsFit(c: TypeCode, items: seq<Value>, buf: seq<byte>, p: nat)
    requires IsNumber(c) && ItemsShow(c, items, buf, p)
    ensures ItemsFit(c, items)
    decreases |items|
  {
    hide TypeMin, TypeMax, PackLE;
    if |items| > 0 {
      ShownItemsFit(c, items[1..], buf, p + TypeSize(c));
      forall i | 0 <= i < |items| ensures ScalarFits(c, items[i]) {
        if i > 0 { assert items[i] == items[1..][i - 1]; }
      }
    }
  }

  lemma ShownLeafFits(e: DataElement, v: Value, buf: seq<byte>, p: nat)
    requires LeafShows(e, v, buf, p)
    ensures v.VInt? ==> IsNumber(e.code) && ScalarFits(e.code, v)
    ensures v.VArray? && IsNumber(e.code) ==> ItemsFit(e.code, v.items)
  {
    hide TypeMin, TypeMax, PackLE, ItemsShow, ScalarFits, StringShows, Times;
    if v.VArray? && IsNumber(e.code) {
      ShownItemsFit(e.code, v.items, buf, if e.isDynamic then p + LengthSize(e.arrayLen) else p);
    } else if v.VInt? {
      ShownScalarFits(e.code, v, Slice(buf, p, TypeSize(e.code)));
    }
  }

  lemma ShownScalarFits(c: TypeCode, v: Value, bs: seq<byte>)
    requires v.VInt? && ScalarShows(c, v, bs)
    ensures IsNumber(c) && ScalarFits(c, v)
  {
  }

  /** Reading gives exactly the value that the bytes of the buffer show, for every element and every buffer. */
  lemma ReadExact(e: DataElement, buf: seq<byte>, v: Value)
    ensures Read(e, buf) == Some(v) <==> ElementShows(e, v, buf)
  {
    hide ReadLeaf, LeafShows, ReadField, FieldShows, ReadItems, RecordsShow, UnpackLimitAccepts, Allowed, ScalarFits, StoredLimits;
    if !e.code.Record? {
      LeafReadExact(e, buf, 0, v);
      if LeafShows(e, v, buf, 0) && e.limits.Some? {
        ShownLeafFits(e, v, buf, 0);
        LimitsFit(e.code, e.limits.value);
        AllowedExact(e.code, StoredLimits(e.code, e.limits.value), v);
      }
    } else if e.arrayLen == 0 {
      FieldReadExact(e, buf, 0, v);
    } else {
      var r := ReadItems(e.children, buf, 0, e.arrayLen, []);
      if v.VArray? && |v.items| == e.arrayLen {
        assert [] + v.items == v.items;
        RecordsReadExact(e.children, buf, 0, [], v.items);
      }
      if r.Some? {
        ReadItemsCount(e.children, buf, 0, e.arrayLen, []);
      }
    }
  }

  lemma {:induction false} ReadItemsCount(fs: seq<DataElement>, buf: seq<byte>, p: nat, n: nat, acc: seq<Value>)
    requires ReadItems(fs, buf, p, n, acc).Some?
    ensures |ReadItems(fs, buf, p, n, acc).value| == |acc| + n
    decreases n
  {
    hide ReadFields, FieldsSize;
    if n > 0 {
      ReadItemsCount(fs, buf, p + FieldsSize(fs), n - 1, acc + [VRecord(ReadFields(fs, buf, p, map[]).value)]);
    }
  }
}
