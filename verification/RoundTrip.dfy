/** Reading back what was laid out: when it returns the value, and which value it returns. */
module RoundTrips {
  import opened Common
  import opened Bytes
  import opened DataElements
  import opened Layouts
  import opened Bytecode

  /** An empty dynamic array packs, but its length 0 is refused when unpacking. */
  predicate LeafReadable(e: DataElement, v: Value) {
    e.IsDynamicArray() ==> ValueLength(v) != Some(0)
  }

  function LeafCanon(e: DataElement, v: Value): Value {
    if e.IsArray() && !e.isDynamic && v.VStr? then VStr(CutAtNul(v.s)) else v
  }

  predicate FieldReadable(e: DataElement, v: Value)
    decreases e, 1
  {
    if !e.code.Record? then e.limits.None? && LeafReadable(e, v)
    else v.VRecord? && FieldsReadable(e.children, v.fields)
  }

  predicate FieldsReadable(fs: seq<DataElement>, m: map<Name, Value>)
    decreases fs, 0
  {
    |fs| == 0 || (fs[0].name in m && FieldReadable(fs[0], m[fs[0].name]) && FieldsReadable(fs[1..], m))
  }

  /**
   * The check after a top-level leaf compares 32-bit unsigned values as signed ones and
   * cannot handle arrays of 64-bit values.
   */
  predicate LimitReadable(e: DataElement, l: Limits, v: Value) {
    match e.code
    case UInt8 | UInt16 | Int8 | Int16 | Int32 => true
    case UInt32 => !(l.lower <= I32_MAX < l.upper)
    case Int64 => !e.IsArray()
    case UInt64 => !e.IsArray() && v.VInt? && v.n <= 0x7FFF_FFFF_FFFF_FFFF
    case _ => false
  }

  /** Decidable on the element and the value alone: does unpacking the packed value succeed? */
  predicate Readable(e: DataElement, v: Value) {
    if !e.code.Record? then
      && LeafReadable(e, v)
      && (e.limits.Some? ==> LimitReadable(e, StoredLimits(e.code, e.limits.value), v))
    else if e.arrayLen == 0 then FieldReadable(e, v)
    else v.VArray? && forall i :: 0 <= i < |v.items| ==> v.items[i].VRecord? && FieldsReadable(e.children, v.items[i].fields)
  }

  function CanonField(e: DataElement, v: Value): Value
    decreases e, 1
  {
    if !e.code.Record? then LeafCanon(e, v)
    else if v.VRecord? then VRecord(CanonFields(e.children, v.fields, map[]))
    else v
  }

  /** Only the declared fields survive; a field declared twice is stored twice. */
  function CanonFields(fs: seq<DataElement>, m: map<Name, Value>, acc: map<Name, Value>): map<Name, Value>
    decreases fs, 0
  {
    if |fs| == 0 || fs[0].name !in m then acc
    else CanonFields(fs[1..], m, acc[fs[0].name := CanonField(fs[0], m[fs[0].name])])
  }

  function CanonItems(fs: seq<DataElement>, items: seq<Value>): (r: seq<Value>)
    ensures |r| == |items|
  {
    seq(|items|, i requires 0 <= i < |items| =>
      if items[i].VRecord? then VRecord(CanonFields(fs, items[i].fields, map[])) else items[i])
  }

  /** The value that comes back. */
  function Canon(e: DataElement, v: Value): Value {
    if e.code.Record? && e.arrayLen > 0 && v.VArray? then VArray(CanonItems(e.children, v.items))
    else CanonField(e, v)
  }

  // ---------- leaves ----------

  lemma ScalarRoundTrip(c: TypeCode, v: Value)
    requires ScalarFits(c, v)
    ensures ReadScalar(c, ScalarBytes(c, v)) == v
  {
    Pow256Values();
    if IsSigned(c) {
      SignedRoundTrip(v.n, TypeSize(c));
    } else if IsUnsigned(c) {
      UnsignedRoundTrip(v.n, TypeSize(c));
    } else {
      assert ScalarBytes(c, v)[0] == if v.b then 1 else 0;
    }
  }

  lemma SliceSplit(buf: seq<byte>, p: nat, a: nat, b: nat)
    requires p + a + b <= |buf|
    ensures buf[p..p + (a + b)][..a] == buf[p..p + a] && buf[p..p + (a + b)][a..] == buf[p + a..p + a + b]
  {
  }

  lemma ItemsBytesParts(c: TypeCode, items: seq<Value>)
    requires |items| > 0
    ensures Times(|items|, TypeSize(c)) == TypeSize(c) + Times(|items[1..]|, TypeSize(c))
    ensures ItemsBytes(c, items)[..TypeSize(c)] == ScalarBytes(c, items[0])
    ensures ItemsBytes(c, items)[TypeSize(c)..] == ItemsBytes(c, items[1..])
  {
    hide ScalarBytes;
  }

  lemma {:induction false} ItemsRoundTrip(c: TypeCode, items: seq<Value>, buf: seq<byte>, p: nat)
    requires ItemsFit(c, items)
    requires p + |ItemsBytes(c, items)| <= |buf|
    requires buf[p..p + |ItemsBytes(c, items)|] == ItemsBytes(c, items)
    ensures ReadScalars(c, buf, p, |items|) == items
    decreases |items|
  {
    hide ScalarBytes, ScalarFits, TypeSize, ReadScalar, ItemsBytes;
    if |items| > 0 {
      var w := TypeSize(c);
      ItemsBytesParts(c, items);
      SliceSplit(buf, p, w, |ItemsBytes(c, items[1..])|);
      ScalarRoundTrip(c, items[0]);
      ItemsRoundTrip(c, items[1..], buf, p + w);
    }
  }

  lemma ArrayRoundTrip(c: TypeCode, v: Value, buf: seq<byte>, p: nat)
    requires ArrayKindFits(c, v)
    requires p + |ArrayBytes(c, v)| <= |buf| && buf[p..p + |ArrayBytes(c, v)|] == ArrayBytes(c, v)
    ensures ReadArray(c, buf, p, ValueLength(v).value) == Some(v)
  {
    match v
    case VArray(items) => ItemsRoundTrip(c, items, buf, p);
    case _ =>
  }

  lemma {:induction false} CutAtNulPadded(s: seq<byte>, n: nat)
    ensures CutAtNul(s + Zeros(n)) == CutAtNul(s)
  {
    if |s| == 0 {
      assert s + Zeros(n) == Zeros(n);
    } else {
      assert (s + Zeros(n))[1..] == s[1..] + Zeros(n);
      CutAtNulPadded(s[1..], n);
    }
  }

  lemma LengthFits(n: nat, arrayLen: uint32)
    requires n <= arrayLen
    ensures UnpackLE(PackLE(n, LengthSize(arrayLen))) == n || arrayLen == 0
  {
    Pow256Values();
    if arrayLen > 0 {
      UnsignedRoundTrip(n, LengthSize(arrayLen));
    }
  }

  lemma FixedStringRoundTrip(s: seq<byte>, n: nat, buf: seq<byte>, p: nat)
    requires |s| <= n && p + n <= |buf| && buf[p..p + n] == s + Zeros(n - |s|)
    ensures ReadFixedString(buf, p, n) == Some(VStr(CutAtNul(s)))
  {
    CutAtNulPadded(s, n - |s|);
  }

  lemma LeafRoundTrip(e: DataElement, v: Value, buf: seq<byte>, p: nat)
    requires !e.code.Record? && !e.code.Char16? && !e.code.Char32?
    requires LeafFits(e, v) && Holds(buf, p, LeafLayout(e, v))
    ensures ReadLeaf(e, buf, p) == if LeafReadable(e, v) then Some(LeafCanon(e, v)) else None
  {
    hide Holds, ReadArray, ItemsFit, ScalarBytes, ArrayBytes, SignExtend, UnpackLE;
    var bs := LeafBytes(e, v);
    LeafBytesFit(e, v);
    HoldsSplit(buf, p, Written(bs), Padding(Size(e) - |bs|));
    HoldsWritten(buf, p, bs);
    if e.arrayLen == 0 {
      if !e.code.Byte? {
        ScalarRoundTrip(e.code, v);
      }
    } else if !e.isDynamic {
      if v.VStr? {
        FixedStringRoundTrip(v.s, e.arrayLen, buf, p);
      } else {
        ArrayRoundTrip(e.code, v, buf, p);
      }
    } else {
      DynamicRoundTrip(e, v, buf, p);
    }
  }

  lemma DynamicRoundTrip(e: DataElement, v: Value, buf: seq<byte>, p: nat)
    requires !e.code.Record? && e.IsDynamicArray() && LeafFits(e, v)
    requires p + |LeafBytes(e, v)| <= |buf| && buf[p..p + |LeafBytes(e, v)|] == LeafBytes(e, v)
    ensures ReadLeaf(e, buf, p) == if LeafReadable(e, v) then Some(v) else None
  {
    var bs := LeafBytes(e, v);
    var n, w := ValueLength(v).value, LengthSize(e.arrayLen);
    LengthFits(n, e.arrayLen);
    hide PackLE, UnpackLE, ArrayBytes, ReadArray;
    SliceSplit(buf, p, w, |ArrayBytes(e.code, v)|);
    assert bs[..w] == PackLE(n, w) && bs[w..] == ArrayBytes(e.code, v);
    if n > 0 {
      ArrayRoundTrip(e.code, v, buf, p + w);
    }
  }

  // ---------- records ----------

  lemma {:induction false} FieldRoundTrip(e: DataElement, v: Value, buf: seq<byte>, p: nat)
    requires FieldSupported(e) && Compiles(e) && Conforms(e, v) && Holds(buf, p, Layout(e, v))
    ensures ReadField(e, buf, p) == if FieldReadable(e, v) then Some(CanonField(e, v)) else None
    decreases e, 1
  {
    if !e.code.Record? {
      LeafRoundTrip(e, v, buf, p);
    } else {
      FieldsRoundTrip(e.children, v.fields, buf, p, map[]);
    }
  }

  lemma {:induction false} FieldsRoundTrip(fs: seq<DataElement>, m: map<Name, Value>, buf: seq<byte>, p: nat, acc: map<Name, Value>)
    requires FieldsSupported(fs) && FieldsCompile(fs) && FieldsConform(fs, m) && Holds(buf, p, FieldsLayout(fs, m))
    ensures ReadFields(fs, buf, p, acc) == if FieldsReadable(fs, m) then Some(CanonFields(fs, m, acc)) else None
    decreases fs, 0
  {
    hide Layout, Conforms, Compiles, FieldSupported, ReadField, FieldReadable, CanonField, Holds;
    if |fs| > 0 {
      var v := m[fs[0].name];
      FieldsParts(fs, m);
      HoldsSplit(buf, p, Layout(fs[0], v), FieldsLayout(fs[1..], m));
      FieldRoundTrip(fs[0], v, buf, p);
      FieldsRoundTrip(fs[1..], m, buf, p + Size(fs[0]), acc[fs[0].name := CanonField(fs[0], v)]);
    }
  }

  lemma FieldsParts(fs: seq<DataElement>, m: map<Name, Value>)
    requires |fs| > 0 && FieldsSupported(fs) && FieldsCompile(fs) && FieldsConform(fs, m)
    ensures FieldSupported(fs[0]) && Compiles(fs[0]) && fs[0].name in m && Conforms(fs[0], m[fs[0].name])
    ensures FieldsSupported(fs[1..]) && FieldsCompile(fs[1..]) && FieldsConform(fs[1..], m)
    ensures FieldsLayout(fs, m) == Layout(fs[0], m[fs[0].name]) + FieldsLayout(fs[1..], m)
  {
  }

  predicate ItemsReadable(fs: seq<DataElement>, items: seq<Value>) {
    forall i :: 0 <= i < |items| ==> items[i].VRecord? && FieldsReadable(fs, items[i].fields)
  }

  lemma {:induction false} ItemsOfRecordsRoundTrip(fs: seq<DataElement>, items: seq<Value>, buf: seq<byte>, p: nat, acc: seq<Value>)
    requires FieldsSupported(fs) && FieldsCompile(fs)
    requires forall i :: 0 <= i < |items| ==> items[i].VRecord? && FieldsConform(fs, items[i].fields)
    requires Holds(buf, p, ItemsLayout(fs, items))
    ensures ReadItems(fs, buf, p, |items|, acc)
         == if ItemsReadable(fs, items) then Some(acc + CanonItems(fs, items)) else None
    decreases |items|
  {
    hide FieldsLayout, FieldsConform, FieldsCompile, FieldsSupported, ReadFields, FieldsReadable, CanonFields, Holds;
    if |items| == 0 {
      assert acc + CanonItems(fs, items) == acc;
    } else {
      var head := FieldsLayout(fs, items[0].fields);
      HoldsSplit(buf, p, head, ItemsLayout(fs, items[1..]));
      FieldsRoundTrip(fs, items[0].fields, buf, p, map[]);
      var v := VRecord(CanonFields(fs, items[0].fields, map[]));
      ItemsOfRecordsRoundTrip(fs, items[1..], buf, p + |head|, acc + [v]);
      assert acc + [v] + CanonItems(fs, items[1..]) == acc + CanonItems(fs, items);
      assert ItemsReadable(fs, items) <==> FieldsReadable(fs, items[0].fields) && ItemsReadable(fs, items[1..]) by {
        if FieldsReadable(fs, items[0].fields) && ItemsReadable(fs, items[1..]) {
          forall i | 0 <= i < |items| ensures items[i].VRecord? && FieldsReadable(fs, items[i].fields) {
            if i > 0 { assert items[i] == items[1..][i - 1]; }
          }
        }
      }
    }
  }
}
