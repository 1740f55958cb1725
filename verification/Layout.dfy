/**
 * What packing and unpacking mean, with no machine in sight: which values an element
 * accepts, the bytes it lays out, and what reading those bytes gives back.
 */
module Layouts {
  import opened Common
  import opened Bytes
  import opened DataElements

  // ---------- which values an element accepts ----------

  /** Limits as the program stores them: truncated to the width of the type. */
  function StoredLimits(c: TypeCode, l: Limits): Limits {
    var lower := UnpackLE(PackLE(l.lower, TypeSize(c)));
    var upper := UnpackLE(PackLE(l.upper, TypeSize(c)));
    if IsSigned(c) then Limits(SignExtend(lower, TypeSize(c)), SignExtend(upper, TypeSize(c)))
    else Limits(lower, upper)
  }

  predicate NumberWithin(l: Limits, v: Value) {
    v.VInt? && l.lower <= v.n <= l.upper
  }

  predicate WithinLimits(l: Limits, v: Value) {
    match v
    case VInt(_) => NumberWithin(l, v)
    case VArray(items) => forall i :: 0 <= i < |items| ==> NumberWithin(l, items[i])
    case _ => false
  }

  predicate ScalarFits(c: TypeCode, v: Value) {
    if IsNumber(c) then v.VInt? && TypeMin(c) <= v.n <= TypeMax(c) else c.Bool? && v.VBool?
  }

  predicate ItemsFit(c: TypeCode, items: seq<Value>) {
    forall i :: 0 <= i < |items| ==> ScalarFits(c, items[i])
  }

  /** The length a value offers to a dynamic array; a plain scalar offers none (0). */
  function ValueLength(v: Value): Option<nat> {
    match v
    case VStr(s) => Some(|s|)
    case VBytes(bs) => Some(|bs|)
    case VArray(items) => Some(|items|)
    case VInt(_) | VBool(_) | VChar(_) => Some(0)
    case VNull | VRecord(_) => None
  }

  /** The kind of value that can fill an array of `c` that is not empty. */
  predicate ArrayKindFits(c: TypeCode, v: Value) {
    match v
    case VArray(items) => IsNumberOrBool(c) && ItemsFit(c, items)
    case VStr(_) => c.Char? || c.Char8?
    case VBytes(_) => c.Byte?
    case _ => false
  }

  predicate LeafFits(e: DataElement, v: Value) {
    if e.arrayLen == 0 then
      if e.code.Byte? then v.VBytes? && |v.bs| == 1 else ScalarFits(e.code, v)
    else if !e.isDynamic then
      && ArrayKindFits(e.code, v)
      && (if v.VStr? then |v.s| <= e.arrayLen else ValueLength(v) == Some(e.arrayLen))
    else
      && ValueLength(v).Some?
      && ValueLength(v).value <= e.arrayLen
      && (ValueLength(v).value > 0 ==> ArrayKindFits(e.code, v))
  }

  predicate LeafConforms(e: DataElement, v: Value) {
    && (e.limits.Some? ==> WithinLimits(StoredLimits(e.code, e.limits.value), v))
    && LeafFits(e, v)
  }

  /** The values that pack: exactly these, as `PackRecords.PackProgramCorrect` shows. */
  predicate Conforms(e: DataElement, v: Value)
    decreases e, 1
  {
    if !e.code.Record? then LeafConforms(e, v)
    else if e.arrayLen == 0 then v.VRecord? && FieldsConform(e.children, v.fields)
    else v.VArray? && |v.items| == e.arrayLen
         && forall i :: 0 <= i < |v.items| ==> v.items[i].VRecord? && FieldsConform(e.children, v.items[i].fields)
  }

  predicate FieldsConform(fs: seq<DataElement>, m: map<Name, Value>)
    decreases fs, 0
  {
    |fs| == 0 || (
      && fs[0].name in m
      && Conforms(fs[0], m[fs[0].name])
      && FieldsConform(fs[1..], m))
  }

  // ---------- the bytes an element lays out ----------

  function ScalarBytes(c: TypeCode, v: Value): (r: seq<byte>)
    ensures |r| == TypeSize(c)
  {
    match v
    case VInt(n) => PackLE(n, TypeSize(c))
    case VBool(b) => PackLE(if b then 1 else 0, TypeSize(c))
    case _ => Zeros(TypeSize(c))
  }

  function ItemsBytes(c: TypeCode, items: seq<Value>): (r: seq<byte>)
    ensures |r| == Times(|items|, TypeSize(c))
  {
    if |items| == 0 then [] else ScalarBytes(c, items[0]) + ItemsBytes(c, items[1..])
  }

  function ArrayBytes(c: TypeCode, v: Value): seq<byte> {
    match v
    case VArray(items) => ItemsBytes(c, items)
    case VStr(s) => s
    case VBytes(bs) => bs
    case _ => []
  }

  /** The bytes a leaf writes; the rest of its room, if any, is left untouched. */
  function LeafBytes(e: DataElement, v: Value): seq<byte>
    requires LeafFits(e, v)
  {
    if e.arrayLen == 0 then
      if v.VBytes? then v.bs else ScalarBytes(e.code, v)
    else if !e.isDynamic then
      if v.VStr? then v.s + Zeros(e.arrayLen - |v.s|) else ArrayBytes(e.code, v)
    else
      PackLE(ValueLength(v).value, LengthSize(e.arrayLen)) + ArrayBytes(e.code, v)
  }

  /** One cell of a layout: a byte that is written, or one that is padding. */
  type Cell = Option<byte>

  function Written(bs: seq<byte>): (r: seq<Cell>)
    ensures |r| == |bs|
  {
    seq(|bs|, i requires 0 <= i < |bs| => Some(bs[i]))
  }

  function Padding(n: nat): (r: seq<Cell>)
    ensures |r| == n
  {
    seq(n, _ => None)
  }

  lemma LeafBytesFit(e: DataElement, v: Value)
    requires !e.code.Record? && LeafFits(e, v)
    ensures |LeafBytes(e, v)| <= Size(e)
    ensures !e.IsDynamicArray() ==> |LeafBytes(e, v)| == Size(e)
  {
    if e.IsDynamicArray() && ArrayKindFits(e.code, v) && v.VArray? {
      TimesMonotone(|v.items|, e.arrayLen, TypeSize(e.code));
    }
  }

  function LeafLayout(e: DataElement, v: Value): (r: seq<Cell>)
    requires !e.code.Record? && LeafFits(e, v)
    ensures |r| == Size(e)
  {
    LeafBytesFit(e, v);
    Written(LeafBytes(e, v)) + Padding(Size(e) - |LeafBytes(e, v)|)
  }

  /** The layout of a whole value: fields in declaration order, nothing between them. */
  function Layout(e: DataElement, v: Value): (r: seq<Cell>)
    requires Conforms(e, v) && PortSupported(e)
    ensures |r| == Size(e)
    decreases e, 2, 0
  {
    if !e.code.Record? then LeafLayout(e, v)
    else if e.arrayLen == 0 then FieldsLayout(e.children, v.fields)
    else ItemsLayout(e.children, v.items)
  }

  function FieldsLayout(fs: seq<DataElement>, m: map<Name, Value>): (r: seq<Cell>)
    requires FieldsConform(fs, m) && FieldsSupported(fs)
    ensures |r| == FieldsSize(fs)
    decreases fs, 0, 0
  {
    if |fs| == 0 then [] else
      assert FieldSupported(fs[0]);
      Layout(fs[0], m[fs[0].name]) + FieldsLayout(fs[1..], m)
  }

  function ItemsLayout(fs: seq<DataElement>, items: seq<Value>): (r: seq<Cell>)
    requires FieldsSupported(fs)
    requires forall i :: 0 <= i < |items| ==> items[i].VRecord? && FieldsConform(fs, items[i].fields)
    ensures |r| == Times(|items|, FieldsSize(fs))
    decreases fs, 1, |items|
  {
    if |items| == 0 then [] else
      FieldsLayout(fs, items[0].fields) + ItemsLayout(fs, items[1..])
  }

  /** `buf` after writing the layout `cells` at `p`. */
  function Overlay(buf: seq<byte>, p: nat, cells: seq<Cell>): (r: seq<byte>)
    ensures |r| == |buf|
  {
    seq(|buf|, i requires 0 <= i < |buf| =>
      if p <= i < p + |cells| && cells[i - p].Some? then cells[i - p].value else buf[i])
  }

  lemma OverlayAppend(buf: seq<byte>, p: nat, a: seq<Cell>, b: seq<Cell>)
    ensures Overlay(Overlay(buf, p, a), p + |a|, b) == Overlay(buf, p, a + b)
  {
  }

  lemma OverlayWritten(buf: seq<byte>, p: nat, bs: seq<byte>, n: nat)
    requires p + |bs| <= |buf|
    ensures WriteAt(buf, p, bs) == Overlay(buf, p, Written(bs) + Padding(n))
  {
  }

  /** `buf` holds the layout `cells` at `p`, whatever the padding holds. */
  ghost predicate Holds(buf: seq<byte>, p: nat, cells: seq<Cell>) {
    && p + |cells| <= |buf|
    && forall i :: 0 <= i < |cells| ==> cells[i].Some? ==> buf[p + i] == cells[i].value
  }

  lemma OverlayHolds(buf: seq<byte>, p: nat, cells: seq<Cell>)
    requires p + |cells| <= |buf|
    ensures Holds(Overlay(buf, p, cells), p, cells)
  {
  }

  lemma HoldsSplit(buf: seq<byte>, p: nat, a: seq<Cell>, b: seq<Cell>)
    requires Holds(buf, p, a + b)
    ensures Holds(buf, p, a) && Holds(buf, p + |a|, b)
  {
    assert forall i :: 0 <= i < |a| ==> a[i] == (a + b)[i];
    forall i | 0 <= i < |b| ensures b[i].Some? ==> buf[p + |a| + i] == b[i].value {
      assert b[i] == (a + b)[|a| + i];
    }
  }

  lemma HoldsWritten(buf: seq<byte>, p: nat, bs: seq<byte>)
    requires Holds(buf, p, Written(bs))
    ensures p + |bs| <= |buf| && buf[p..p + |bs|] == bs
  {
    forall i | 0 <= i < |bs| ensures buf[p + i] == bs[i] {
      assert Written(bs)[i] == Some(bs[i]);
    }
  }

  // ---------- reading a buffer back ----------

  function ReadScalar(c: TypeCode, bs: seq<byte>): Value
    requires |bs| == TypeSize(c)
  {
    if IsUnsigned(c) then VInt(UnpackLE(bs))
    else if IsSigned(c) then VInt(SignExtend(UnpackLE(bs), TypeSize(c)))
    else match c
         case Bool => VBool(bs[0] != 0)
         case Char | Char8 => VChar(bs[0])
         case Byte => VBytes(bs)
         case _ => VNull
  }

  function ReadScalars(c: TypeCode, buf: seq<byte>, p: nat, n: nat): (r: seq<Value>)
    requires p + Times(n, TypeSize(c)) <= |buf|
    ensures |r| == n
    decreases n
  {
    if n == 0 then [] else
      [ReadScalar(c, buf[p..p + TypeSize(c)])] + ReadScalars(c, buf, p + TypeSize(c), n - 1)
  }

  /** The bytes before the first NUL. */
  function CutAtNul(s: seq<byte>): (r: seq<byte>)
    ensures |r| <= |s| && r == s[..|r|]
    ensures 0 !in r
    ensures |r| < |s| ==> s[|r|] == 0
  {
    if |s| == 0 || s[0] == 0 then [] else [s[0]] + CutAtNul(s[1..])
  }

  lemma {:induction false} CutAtNulIs(window: seq<byte>, s: seq<byte>)
    requires s <= window && 0 !in s && (|s| < |window| ==> window[|s|] == 0)
    ensures CutAtNul(window) == s
    decreases |window|
  {
    if |s| > 0 {
      assert window[0] == s[0] && s[0] in s;
      CutAtNulIs(window[1..], s[1..]);
    }
  }

  /** A fixed string ends at a NUL or at its full length, whichever comes first. */
  function ReadFixedString(buf: seq<byte>, p: nat, n: nat): Option<Value> {
    if p > |buf| then None else
      var window := if p + n <= |buf| then buf[p..p + n] else buf[p..];
      var s := CutAtNul(window);
      if |s| == n || |s| < |window| then Some(VStr(s)) else None
  }

  /** Reads `n > 0` elements of type `c` stored from `p` on. */
  function ReadArray(c: TypeCode, buf: seq<byte>, p: nat, n: nat): Option<Value> {
    if p + Times(n, TypeSize(c)) > |buf| then None
    else if IsNumberOrBool(c) then Some(VArray(ReadScalars(c, buf, p, n)))
    else match c
         case Char | Char8 => Some(VStr(buf[p..p + n]))
         case Byte => Some(VBytes(buf[p..p + n]))
         case _ => None
  }

  function ReadLeaf(e: DataElement, buf: seq<byte>, p: nat): Option<Value> {
    if e.arrayLen == 0 then
      if p + TypeSize(e.code) > |buf| || e.code.Char16? || e.code.Char32? || e.code.Record? then None
      else Some(ReadScalar(e.code, buf[p..p + TypeSize(e.code)]))
    else if !e.isDynamic then
      if e.code.Char? || e.code.Char8? then ReadFixedString(buf, p, e.arrayLen)
      else ReadArray(e.code, buf, p, e.arrayLen)
    else
      var w := LengthSize(e.arrayLen);
      if p + w > |buf| then None else
        var n := UnpackLE(buf[p..p + w]);
        if n == 0 || n > e.arrayLen then None else ReadArray(e.code, buf, p + w, n)
  }

  function Wrap32(n: int): int {
    SignExtend(n % U32_MOD, 4)
  }

  /** value_in_range_i32 of vm_common.c: extreme limits are not compared. */
  predicate InRangeI32(n: int, lower: int, upper: int) {
    !((lower > I32_MIN && n < lower) || (upper < I32_MAX && n > upper))
  }

  /** The limit check that follows a top-level leaf in an unpack program. */
  predicate UnpackLimitAccepts(c: TypeCode, l: Limits, v: Value) {
    match v
    case VInt(n) =>
      (match c
       case UInt8 | UInt16 | Int8 | Int16 | Int32 | Int64 => NumberWithin(l, v)
       case UInt32 => InRangeI32(Wrap32(n), Wrap32(l.lower), Wrap32(l.upper))
       case UInt64 => n <= 0x7FFF_FFFF_FFFF_FFFF && NumberWithin(l, v)
       case _ => false)
    case VArray(items) =>
      (match c
       case UInt8 | UInt16 | Int8 | Int16 | Int32 =>
         forall i :: 0 <= i < |items| ==> NumberWithin(l, items[i])
       case UInt32 =>
         forall i :: 0 <= i < |items| ==>
           items[i].VInt? && InRangeI32(Wrap32(items[i].n), Wrap32(l.lower), Wrap32(l.upper))
       case _ => false)
    case _ => false
  }

  /** A limited leaf inside a record cannot be unpacked at all. */
  function ReadFields(fs: seq<DataElement>, buf: seq<byte>, p: nat, acc: map<Name, Value>): Option<map<Name, Value>>
    decreases fs, 0
  {
    if |fs| == 0 then Some(acc) else
      match ReadField(fs[0], buf, p)
      case None => None
      case Some(v) => ReadFields(fs[1..], buf, p + Size(fs[0]), acc[fs[0].name := v])
  }

  function ReadField(e: DataElement, buf: seq<byte>, p: nat): Option<Value>
    decreases e, 1
  {
    if !e.code.Record? then
      if e.limits.Some? then None else ReadLeaf(e, buf, p)
    else
      match ReadFields(e.children, buf, p, map[])
      case None => None
      case Some(m) => Some(VRecord(m))
  }

  function ReadItems(fs: seq<DataElement>, buf: seq<byte>, p: nat, n: nat, acc: seq<Value>): Option<seq<Value>>
    decreases n
  {
    if n == 0 then Some(acc) else
      match ReadFields(fs, buf, p, map[])
      case None => None
      case Some(m) => ReadItems(fs, buf, p + FieldsSize(fs), n - 1, acc + [VRecord(m)])
  }

  /** What unpacking the element `e` from the start of `buf` gives. */
  function Read(e: DataElement, buf: seq<byte>): Option<Value> {
    if !e.code.Record? then
      var v := ReadLeaf(e, buf, 0);
      if v.Some? && e.limits.Some? && !UnpackLimitAccepts(e.code, StoredLimits(e.code, e.limits.value), v.value)
      then None else v
    else if e.arrayLen == 0 then ReadField(e, buf, 0)
    else
      match ReadItems(e.children, buf, 0, e.arrayLen, [])
      case None => None
      case Some(items) => Some(VArray(items))
  }
}
