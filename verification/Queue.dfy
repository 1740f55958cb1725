/**
 * Queued ports: a cleared queue takes its capacity of elements and no more, and gives them
 * back first in, first out, with the last one flagged.
 */
module Queues {
  import opened Common
  import opened Bytes
  import opened DataElements
  import opened Layouts
  import opened RoundTrips
  import opened Bytecode
  import opened Decoding
  import opened WriterModel
  import opened ReaderModel
  import opened PackLeaf
  import opened PackRun
  import opened UnpackLeaf

  // ---------- writing ----------

  /** Setting each value in turn and packing it as an element `e`. */
  function PackAll(w: Writer, e: DataElement, vs: seq<Value>): Result<Writer>
    decreases |vs|
  {
    if |vs| == 0 then Ok(w) else
      var w1 :- Pack(w.(state := Fresh(vs[0])), e.code, e.arrayLen, DynamicType(e));
      PackAll(w1, e, vs[1..])
  }

  /** The queue with one more element counted. */
  function Counted(q: WriteQueue): WriteQueue {
    q.(currentLength := q.currentLength + 1)
  }

  lemma StoreScalarQueue(w: Writer, c: TypeCode, v: Value, q: WriteQueue)
    ensures StoreScalar(w.(queue := q), c, v) == WithQueue(StoreScalar(w, c, v), q)
  {
    hide WriteAt, ScalarBytes;
  }

  lemma {:induction false} StoreItemsQueue(w: Writer, c: TypeCode, items: seq<Value>, q: WriteQueue)
    ensures StoreItems(w.(queue := q), c, items) == WithQueue(StoreItems(w, c, items), q)
    decreases |items|
  {
    hide StoreScalar, ReadItemAs;
    if |items| > 0 && ReadItemAs(c, items[0]).Ok? {
      var v := ReadItemAs(c, items[0]).value;
      StoreScalarQueue(w, c, v, q);
      if StoreScalar(w, c, v).Ok? {
        StoreItemsQueue(StoreScalar(w, c, v).value, c, items[1..], q);
      }
    }
  }

  function WithQueue(r: Result<Writer>, q: WriteQueue): Result<Writer> {
    match r
    case Ok(w) => Ok(w.(queue := q))
    case Err(x) => Err(x)
  }

  lemma PackScalarsQueue(w: Writer, c: TypeCode, q: WriteQueue)
    ensures PackScalars(w.(queue := q), c) == WithQueue(PackScalars(w, c), q)
  {
    hide StoreItems, DefaultRangeItems;
    if w.state.value.VArray? {
      StoreItemsQueue(w, c, w.state.value.items, q);
    }
  }

  lemma OtherPackersQueue(w: Writer, c: TypeCode, q: WriteQueue)
    ensures PackScalar(w.(queue := q), c) == WithQueue(PackScalar(w, c), q)
    ensures PackString(w.(queue := q), c) == WithQueue(PackString(w, c), q)
    ensures PackBytes(w.(queue := q)) == WithQueue(PackBytes(w), q)
  {
    hide WriteAt, ScalarBytes, DefaultRangeValue, Zeros, Times;
  }

  lemma WriteLengthQueue(w: Writer, n: nat, size: nat, q: WriteQueue)
    ensures WriteLength(w.(queue := q), n, size) == WithQueue(WriteLength(w, n, size), q)
    ensures WriteLength(w, n, size).Ok? ==>
      var d := WriteLength(w, n, size).value;
      d.queue == w.queue && d.stack == w.stack && d.state == w.state
  {
    hide WriteAt, PackLE, Pow256;
  }

  /** The packers neither look at the queue nor change it. */
  lemma ByTypeQueue(w: Writer, c: TypeCode, q: WriteQueue)
    requires !c.Record?
    ensures PackByType(w.(queue := q), c) == WithQueue(PackByType(w, c), q)
  {
    hide PackScalar, PackScalars, PackString, PackBytes, WriteLength, IsNumberOrBool;
    var n, size := w.state.arrayLen, SizeTypeToSize(w.state.dynamicSize);
    PackScalarsQueue(w, c, q);
    OtherPackersQueue(w, c, q);
    WriteLengthQueue(w, n, size, q);
    if WriteLength(w, n, size).Ok? {
      PackScalarsQueue(WriteLength(w, n, size).value, c, q);
      OtherPackersQueue(WriteLength(w, n, size).value, c, q);
    }
  }

  /** Packing into an active queue is packing without one, unless the queue is full. */
  lemma PackQueued(w: Writer, c: TypeCode, n: uint32, t: SizeType)
    requires w.queue.isActive && !c.Record?
    ensures w.queue.currentLength >= w.queue.maxLength ==> Pack(w, c, n, t).Err?
    ensures w.queue.currentLength < w.queue.maxLength ==>
      Pack(w, c, n, t) == WithQueue(Pack(w.(queue := NO_WRITE_QUEUE), c, n, t), Counted(w.queue))
  {
    hide PackValue, PrepareArray, PrepareWrite;
    var m := if c.Byte? && n == 0 then 1 else n;
    PrepareWriteQueue(w, c, TypeSize(c));
    if PrepareWrite(w, c, TypeSize(c)).Ok? {
      var w1 := PrepareWrite(w, c, TypeSize(c)).value;
      PrepareArrayQueue(w1, m, t);
      if PrepareArray(w1, m, t).Ok? {
        PackValueQueue(PrepareArray(w1, m, t).value, c);
      }
    }
  }

  lemma PackValueQueue(w: Writer, c: TypeCode)
    requires w.queue.isActive && !c.Record?
    ensures w.queue.currentLength >= w.queue.maxLength ==> PackValue(w, c).Err?
    ensures w.queue.currentLength < w.queue.maxLength ==>
      PackValue(w, c) == WithQueue(PackValue(w.(queue := NO_WRITE_QUEUE), c), Counted(w.queue))
  {
    hide PackByType, Pop;
    var plain := w.(queue := NO_WRITE_QUEUE);
    assert plain.(queue := w.queue) == w;
    ByTypeQueue(plain, c, w.queue);
    ByTypeQueue(plain, c, NO_WRITE_QUEUE);
  }

  lemma PrepareWriteQueue(w: Writer, c: TypeCode, size: nat)
    ensures PrepareWrite(w.(queue := NO_WRITE_QUEUE), c, size) == WithQueue(PrepareWrite(w, c, size), NO_WRITE_QUEUE)
    ensures PrepareWrite(w, c, size).Ok? ==> PrepareWrite(w, c, size).value.queue == w.queue
  {
  }

  lemma PrepareArrayQueue(w: Writer, n: uint32, t: SizeType)
    ensures PrepareArray(w.(queue := NO_WRITE_QUEUE), n, t) == WithQueue(PrepareArray(w, n, t), NO_WRITE_QUEUE)
    ensures PrepareArray(w, n, t).Ok? ==> PrepareArray(w, n, t).value.queue == w.queue
  {
  }

  /** The layouts of the elements one after another. */
  function QueueLayout(e: DataElement, vs: seq<Value>): (r: seq<Cell>)
    requires !e.code.Record? && AllFit(e, vs)
    ensures |r| == Times(|vs|, Size(e))
  {
    if |vs| == 0 then [] else LeafLayout(e, vs[0]) + QueueLayout(e, vs[1..])
  }

  predicate AllFit(e: DataElement, vs: seq<Value>) {
    forall i :: 0 <= i < |vs| ==> LeafFits(e, vs[i])
  }

  /** One element packed into a queue that is not full. */
  lemma OneQueued(w: Writer, e: DataElement, v: Value)
    requires !e.code.Record? && Compiles(e) && Size(e) < U32_MOD
    requires w.queue.isActive && w.queue.currentLength < w.queue.maxLength
    requires w.next <= |w.buf| && w.stack == []
    ensures var r := Pack(w.(state := Fresh(v)), e.code, e.arrayLen, DynamicType(e));
            if LeafFits(e, v) && HasRoom(w, Size(e)) then
              && r.Ok? && r.value.queue == Counted(w.queue) && r.value.stack == [] && r.value.next <= |r.value.buf|
              && r.value.buf == Overlay(w.buf, Cursor(w), LeafLayout(e, v)) && Cursor(r.value) == Cursor(w) + Size(e)
            else r.Err?
  {
    hide Pack, LeafFits, Compiles, Overlay, LeafLayout;
    var w1 := w.(state := Fresh(v));
    PackQueued(w1, e.code, e.arrayLen, DynamicType(e));
    LeafPacks(e, v, w1.(queue := NO_WRITE_QUEUE));
  }

  lemma AllFitParts(e: DataElement, vs: seq<Value>)
    requires |vs| > 0
    ensures AllFit(e, vs) <==> LeafFits(e, vs[0]) && AllFit(e, vs[1..])
  {
    hide LeafFits;
    if LeafFits(e, vs[0]) && AllFit(e, vs[1..]) {
      forall i | 0 <= i < |vs| ensures LeafFits(e, vs[i]) {
        if i > 0 { assert vs[i] == vs[1..][i - 1]; }
      }
    }
  }

  /** Elements packed into a queue that has space for them: exactly if they fit and the buffer has room. */
  lemma {:induction false} PackAllExact(w: Writer, e: DataElement, vs: seq<Value>)
    requires !e.code.Record? && Compiles(e) && Size(e) < U32_MOD
    requires w.queue.isActive && w.queue.currentLength + |vs| <= w.queue.maxLength
    requires w.next <= |w.buf| && w.stack == [] && HasRoom(w, 0)
    ensures var r := PackAll(w, e, vs);
            if AllFit(e, vs) && HasRoom(w, Times(|vs|, Size(e))) then
              && r.Ok? && r.value.queue == w.queue.(currentLength := w.queue.currentLength + |vs|)
              && r.value.buf == Overlay(w.buf, Cursor(w), QueueLayout(e, vs))
            else r.Err?
    decreases |vs|
  {
    hide Pack, LeafFits, AllFit, Compiles, Overlay, LeafLayout, Size;
    if |vs| == 0 {
      OverlayNothing(w.buf, Cursor(w));
      NoneFit(e);
    } else {
      TimesStep(|vs|, Size(e));
      AllFitParts(e, vs);
      OneQueued(w, e, vs[0]);
      if LeafFits(e, vs[0]) && HasRoom(w, Size(e)) {
        var w1 := Pack(w.(state := Fresh(vs[0])), e.code, e.arrayLen, DynamicType(e)).value;
        PackAllExact(w1, e, vs[1..]);
        if AllFit(e, vs) {
          OverlayAppend(w.buf, Cursor(w), LeafLayout(e, vs[0]), QueueLayout(e, vs[1..]));
        }
      }
    }
  }

  lemma NoneFit(e: DataElement)
    ensures AllFit(e, [])
  {
  }

  lemma TimesStep(n: nat, size: nat)
    requires n > 0
    ensures Times(n, size) == size + Times(n - 1, size)
  {
  }

  lemma OverlayNothing(buf: seq<byte>, p: nat)
    ensures Overlay(buf, p, []) == buf
  {
  }

  lemma {:induction false} PackAllCounts(w: Writer, e: DataElement, vs: seq<Value>)
    requires !e.code.Record? && w.queue.isActive && w.queue.currentLength + |vs| > w.queue.maxLength && |vs| > 0
    ensures PackAll(w, e, vs).Err?
    decreases |vs|
  {
    hide Pack;
    var w0 := w.(state := Fresh(vs[0]));
    PackQueued(w0, e.code, e.arrayLen, DynamicType(e));
    var r := Pack(w0, e.code, e.arrayLen, DynamicType(e));
    if r.Ok? {
      PackAllCounts(r.value, e, vs[1..]);
    }
  }

  /** Beginning a queue, packing elements into it and ending it. */
  function WriteQueued(w: Writer, e: DataElement, capacity: uint32, vs: seq<Value>): Result<Writer> {
    var w1 :- PackAll(QueueBegin(w, Size(e), capacity), e, vs);
    QueueEnd(w1)
  }

  /** The cells of a queue: its length, then its elements. */
  function QueueCells(e: DataElement, capacity: uint32, vs: seq<Value>): seq<Cell>
    requires !e.code.Record? && AllFit(e, vs)
  {
    Written(PackLE(|vs|, LengthSize(capacity))) + QueueLayout(e, vs)
  }

  /** Without room for its length a queue takes no element. */
  lemma NoRoomForLength(w: Writer, e: DataElement, vs: seq<Value>)
    requires w.next > |w.buf|
    ensures if |vs| == 0 then PackAll(w, e, vs) == Ok(w) else PackAll(w, e, vs).Err?
  {
    hide PrepareArray, PackValue;
  }

  /**
   * Writing a queue of capacity n: it succeeds exactly for at most n elements that fit and for
   * which, with their length, the buffer has room, and stores them in order behind their number.
   */
  lemma QueueWrites(w: Writer, e: DataElement, capacity: uint32, vs: seq<Value>)
    requires !e.code.Record? && Compiles(e) && Size(e) < U32_MOD && capacity > 0
    requires w.padded.None? && w.stack == []
    ensures WriteQueued(w, e, capacity, vs).Ok? <==>
      |vs| <= capacity && AllFit(e, vs) && w.next + LengthSize(capacity) + Times(|vs|, Size(e)) <= |w.buf|
    ensures WriteQueued(w, e, capacity, vs).Ok? ==>
      var r := WriteQueued(w, e, capacity, vs);
      r.value.buf == Overlay(w.buf, w.next, QueueCells(e, capacity, vs)) && !r.value.queue.isActive
  {
    hide PackAll, AllFit, Compiles, Size, Overlay, QueueLayout, LeafFits, PackLE;
    var w1 := QueueBegin(w, Size(e), capacity);
    if |vs| > capacity {
      PackAllCounts(w1, e, vs);
    } else if w1.next > |w.buf| {
      NoRoomForLength(w1, e, vs);
    } else {
      PackAllExact(w1, e, vs);
      if AllFit(e, vs) && HasRoom(w1, Times(|vs|, Size(e))) {
        LengthWrites(w, |vs|, capacity);
        LengthInFront(w.buf, w.next, PackLE(|vs|, LengthSize(capacity)), QueueLayout(e, vs));
      }
    }
  }

  /** The length may be written before or after what follows it. */
  lemma LengthInFront(buf: seq<byte>, p: nat, bs: seq<byte>, cells: seq<Cell>)
    requires p + |bs| <= |buf|
    ensures WriteAt(Overlay(buf, p + |bs|, cells), p, bs) == Overlay(buf, p, Written(bs) + cells)
  {
  }

  // ---------- reading ----------

  /** Unpacking elements until the one that is flagged as the last. */
  function ReadQueued(r: Reader, e: DataElement, fuel: nat): Result<seq<Value>>
    decreases fuel
  {
    if fuel == 0 then Err(InternalError) else
      var r1 :- Unpack(r, e.code, e.arrayLen, DynamicType(e));
      var (r2, isLast) :- QueueReadNext(r1);
      if isLast then Ok([r1.state.value])
      else
        var rest :- ReadQueued(r2, e, fuel - 1);
        Ok([r1.state.value] + rest)
  }

  /** Unpacking from an active queue is unpacking without one, until the queue is used up. */
  lemma UnpackQueued(r: Reader, c: TypeCode, n: uint32, t: SizeType)
    requires r.queue.isActive && !c.Record? && r.stack == []
    ensures r.queue.index >= r.queue.currentLength ==> Unpack(r, c, n, t).Err?
    ensures r.queue.index < r.queue.currentLength ==>
      match Unpack(r.(queue := NO_READ_QUEUE), c, n, t)
      case Ok(d) => Unpack(r, c, n, t) == Ok(d.(queue := r.queue))
      case Err(x) => Unpack(r, c, n, t) == Err(x)
  {
    hide UnpackValue;
    var code := if c.Char8? then Char else c;
    if PrepareRead(r, code, TypeSize(code)).Ok? {
      UnpackValueQueued(PrepareRead(r, code, TypeSize(code)).value, code, n, t);
    }
  }

  lemma UnpackValueQueued(r: Reader, c: TypeCode, n: uint32, t: SizeType)
    requires r.queue.isActive && !c.Record? && r.stack == []
    ensures r.queue.index >= r.queue.currentLength ==> UnpackValue(r, c, n, t).Err?
    ensures r.queue.index < r.queue.currentLength ==>
      match UnpackValue(r.(queue := NO_READ_QUEUE), c, n, t)
      case Ok(d) => UnpackValue(r, c, n, t) == Ok(d.(queue := r.queue))
      case Err(x) => UnpackValue(r, c, n, t) == Err(x)
  {
    hide LoadByType, PrepareReadArray;
    PrepareReadQueue(r, n, t);
    if PrepareReadArray(r, n, t).Ok? {
      var plain := PrepareReadArray(r, n, t).value.(queue := NO_READ_QUEUE);
      assert plain.(queue := r.queue) == PrepareReadArray(r, n, t).value;
      LoadQueue(plain, c, r.queue);
    }
  }

  lemma PrepareReadQueue(r: Reader, n: uint32, t: SizeType)
    ensures match PrepareReadArray(r, n, t)
            case Ok(d) => d.queue == r.queue && d.stack == r.stack
                       && PrepareReadArray(r.(queue := NO_READ_QUEUE), n, t) == Ok(d.(queue := NO_READ_QUEUE))
            case Err(x) => PrepareReadArray(r.(queue := NO_READ_QUEUE), n, t) == Err(x)
  {
    hide ParseNumber;
  }

  /** The readers neither look at the queue nor change it. */
  lemma LoadQueue(r: Reader, c: TypeCode, q: ReadQueue)
    ensures match LoadByType(r, c)
            case Ok((v, d)) => LoadByType(r.(queue := q), c) == Ok((v, d.(queue := q))) && d.stack == r.stack
            case Err(x) => LoadByType(r.(queue := q), c) == Err(x)
  {
    hide LoadItems, LoadString, LoadBytes, LoadScalar, IsNumberOrBool;
    LoadItemsQueue(r, c, r.state.arrayLen, q);
    LoadPartsQueue(r, c, q);
  }

  lemma LoadPartsQueue(r: Reader, c: TypeCode, q: ReadQueue)
    ensures match LoadScalar(r, c)
            case Ok((v, d)) => LoadScalar(r.(queue := q), c) == Ok((v, d.(queue := q))) && d.stack == r.stack
            case Err(x) => LoadScalar(r.(queue := q), c) == Err(x)
    ensures match LoadString(r, r.state.arrayLen, r.state.dynamicSize != SizeNone)
            case Ok((v, d)) => LoadString(r.(queue := q), r.state.arrayLen, r.state.dynamicSize != SizeNone) == Ok((v, d.(queue := q))) && d.stack == r.stack
            case Err(x) => LoadString(r.(queue := q), r.state.arrayLen, r.state.dynamicSize != SizeNone) == Err(x)
    ensures match LoadBytes(r, r.state.arrayLen)
            case Ok((v, d)) => LoadBytes(r.(queue := q), r.state.arrayLen) == Ok((v, d.(queue := q))) && d.stack == r.stack
            case Err(x) => LoadBytes(r.(queue := q), r.state.arrayLen) == Err(x)
  {
    hide ReadFixedString, ReadScalar, IsNumberOrBool;
  }

  lemma {:induction false} LoadItemsQueue(r: Reader, c: TypeCode, n: nat, q: ReadQueue)
    ensures match LoadItems(r, c, n)
            case Ok((vs, d)) => LoadItems(r.(queue := q), c, n) == Ok((vs, d.(queue := q))) && d.stack == r.stack
            case Err(x) => LoadItems(r.(queue := q), c, n) == Err(x)
    decreases n
  {
    hide ReadScalar, LoadScalar;
    LoadPartsQueue(r, c, q);
    if n > 0 && LoadScalar(r, c).Ok? {
      LoadItemsQueue(LoadScalar(r, c).value.1, c, n - 1, q);
    }
  }

  predicate AllReadable(e: DataElement, vs: seq<Value>) {
    forall i :: 0 <= i < |vs| ==> LeafReadable(e, vs[i])
  }

  /** The elements as they come back. */
  function CanonAll(e: DataElement, vs: seq<Value>): seq<Value> {
    if |vs| == 0 then [] else [LeafCanon(e, vs[0])] + CanonAll(e, vs[1..])
  }

  lemma AllReadableParts(e: DataElement, vs: seq<Value>)
    requires |vs| > 0
    ensures AllReadable(e, vs) <==> LeafReadable(e, vs[0]) && AllReadable(e, vs[1..])
  {
    hide LeafReadable;
    if LeafReadable(e, vs[0]) && AllReadable(e, vs[1..]) {
      forall i | 0 <= i < |vs| ensures LeafReadable(e, vs[i]) {
        if i > 0 { assert vs[i] == vs[1..][i - 1]; }
      }
    }
  }

  lemma NoneReadable(e: DataElement)
    ensures AllReadable(e, []) && CanonAll(e, []) == []
  {
  }

  /** One element read from a queue that is not used up: it fails exactly if the element is not readable. */
  lemma OneUnqueued(r: Reader, e: DataElement, v: Value)
    requires !e.code.Record? && Compiles(e) && LeafFits(e, v)
    requires r.queue.isActive && r.queue.index < r.queue.currentLength && r.stack == []
    requires (r.padded.Some? ==> r.next <= |r.buf|) && Holds(r.buf, ReadCursor(r), LeafLayout(e, v))
    ensures var x := Unpack(r, e.code, e.arrayLen, DynamicType(e));
            if LeafReadable(e, v) then
              && x.Ok? && x.value.state.value == LeafCanon(e, v) && x.value.stack == [] && x.value.queue == r.queue
              && x.value.buf == r.buf && ReadCursor(x.value) == ReadCursor(r) + Size(e)
              && (x.value.padded.Some? ==> x.value.next <= |r.buf|)
            else x.Err?
  {
    hide Unpack, ReadLeaf, LeafFits, LeafReadable, LeafCanon, LeafLayout, Holds, Compiles;
    CompiledType(e);
    LeafRoundTrip(e, v, r.buf, ReadCursor(r));
    LeafUnpacks(r.(queue := NO_READ_QUEUE), e);
    UnpackQueued(r, e.code, e.arrayLen, DynamicType(e));
  }

  /** Reading what is left in a queue: all of it in order, or an error if any of it is not readable. */
  lemma {:induction false} ReadQueuedAll(r: Reader, e: DataElement, vs: seq<Value>, fuel: nat)
    requires !e.code.Record? && Compiles(e) && AllFit(e, vs) && 0 < |vs| <= fuel
    requires r.queue.isActive && r.queue.index + |vs| == r.queue.currentLength && r.stack == []
    requires (r.padded.Some? ==> r.next <= |r.buf|) && Holds(r.buf, ReadCursor(r), QueueLayout(e, vs))
    ensures if AllReadable(e, vs) then ReadQueued(r, e, fuel) == Ok(CanonAll(e, vs)) else ReadQueued(r, e, fuel).Err?
    decreases |vs|
  {
    hide Unpack, LeafFits, LeafReadable, LeafCanon, LeafLayout, Holds, Compiles, Size, AllReadable;
    HoldsSplit(r.buf, ReadCursor(r), LeafLayout(e, vs[0]), QueueLayout(e, vs[1..]));
    OneUnqueued(r, e, vs[0]);
    AllReadableParts(e, vs);
    if LeafReadable(e, vs[0]) {
      var r1 := Unpack(r, e.code, e.arrayLen, DynamicType(e)).value;
      var r2 := QueueReadNext(r1).value.0;
      if |vs| > 1 {
        ReadQueuedAll(r2, e, vs[1..], fuel - 1);
      } else {
        NoneReadable(e);
        assert vs[1..] == [];
        assert [LeafCanon(e, vs[0])] + [] == [LeafCanon(e, vs[0])];
      }
    }
  }

  lemma NothingQueued(r: Reader, e: DataElement, fuel: nat)
    requires !e.code.Record? && r.queue.isActive && r.queue.index >= r.queue.currentLength && r.stack == []
    ensures ReadQueued(r, e, fuel).Err?
  {
    hide Unpack;
    UnpackQueued(r, e.code, e.arrayLen, DynamicType(e));
  }

  /**
   * Reading a written queue: exactly if there are elements and all are readable they come back,
   * in the order in which they were packed and no others, the flag of the last one being set.
   */
  lemma QueueReads(r: Reader, e: DataElement, capacity: uint32, vs: seq<Value>)
    requires !e.code.Record? && Compiles(e) && Size(e) < U32_MOD && capacity > 0
    requires |vs| <= capacity && AllFit(e, vs)
    requires r.padded.None? && r.stack == [] && Holds(r.buf, r.next, QueueCells(e, capacity, vs))
    ensures QueueReadBegin(r, Size(e), capacity).Ok?
    ensures var b := QueueReadBegin(r, Size(e), capacity).value;
            && b.queue.currentLength == |vs|
            && forall fuel: nat :: fuel >= |vs| ==>
              && (ReadQueued(b, e, fuel).Ok? <==> |vs| > 0 && AllReadable(e, vs))
              && (ReadQueued(b, e, fuel).Ok? ==> ReadQueued(b, e, fuel) == Ok(CanonAll(e, vs)))
  {
    hide ReadQueued, Compiles, AllFit, AllReadable, Size, QueueLayout, LengthSize, Holds, PackLE, UnpackLE;
    var w := LengthSize(capacity);
    HoldsSplit(r.buf, r.next, Written(PackLE(|vs|, w)), QueueLayout(e, vs));
    HoldsWritten(r.buf, r.next, PackLE(|vs|, w));
    LengthFits(|vs|, capacity);
    SizeTypes(capacity);
    CompiledNotEmpty(e);
    var b := QueueReadBegin(r, Size(e), capacity).value;
    forall fuel: nat | fuel >= |vs|
      ensures ReadQueued(b, e, fuel).Ok? <==> |vs| > 0 && AllReadable(e, vs)
      ensures ReadQueued(b, e, fuel).Ok? ==> ReadQueued(b, e, fuel) == Ok(CanonAll(e, vs))
    {
      if |vs| > 0 {
        ReadQueuedAll(b, e, vs, fuel);
      } else {
        NothingQueued(b, e, fuel);
      }
    }
  }

  lemma SizeTypes(capacity: nat)
    ensures SizeTypeToSize(SizeToSizeType(capacity)) == LengthSize(capacity)
  {
  }
}
