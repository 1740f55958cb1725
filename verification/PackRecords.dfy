/** Records, arrays of records and whole programs: the main results about packing. */
module PackRecords {
  import opened Common
  import opened Bytes
  import opened DataElements
  import opened Layouts
  import opened Bytecode
  import opened Decoding
  import opened WriterModel
  import opened PackLeaf
  import opened PackRun

  function Cells(e: DataElement, v: Value): seq<Cell>
    requires FieldSupported(e)
  {
    if Conforms(e, v) then Layout(e, v) else []
  }

  function FieldsCells(fs: seq<DataElement>, m: map<Name, Value>): seq<Cell>
    requires FieldsSupported(fs)
  {
    if FieldsConform(fs, m) then FieldsLayout(fs, m) else []
  }

  function ItemsCells(fs: seq<DataElement>, items: seq<Value>): seq<Cell>
    requires FieldsSupported(fs)
  {
    if ItemsConform(fs, items) then ItemsLayout(fs, items) else []
  }

  predicate ItemsConform(fs: seq<DataElement>, items: seq<Value>) {
    forall i :: 0 <= i < |items| ==> items[i].VRecord? && FieldsConform(fs, items[i].fields)
  }

  lemma SupportedParts(fs: seq<DataElement>)
    requires FieldsSupported(fs) && |fs| > 0
    ensures FieldSupported(fs[0]) && FieldsSupported(fs[1..])
  {
  }

  /** After the record instruction the padding is behind and the state is a record's. */
  function Entered(w: Writer): Writer {
    w.(next := Cursor(w), padded := None, state := w.state.(code := Some(Record), elementSize := 0))
  }

  lemma RecordStarts(prog: seq<byte>, e: DataElement, v: Value, m: PackMachine)
    requires e.code.Record? && e.arrayLen == 0
    requires At(prog, m.next, DataCode(e, PackProgram)) && Idle(m.w) && m.w.state == Fresh(v)
    ensures if v.VRecord? && HasRoom(m.w, 0)
            then Leads(prog, m, 1, m.(next := m.next + |DataCode(e, PackProgram)|, w := Entered(m.w)))
            else Fails(prog, m, 1)
  {
    hide DecodeOperation, RunPack, DataCode, At;
    DecodeDataCode(prog, m.next, e, PackProgram);
    StepLeads(prog, m, Data(PackProgram, Record, 0, false), m.next + |DataCode(e, PackProgram)|);
  }

  /** Selecting field `fs[0]` of a record enters a child state with the field's value. */
  function Selected(w: Writer, key: Name, isLast: bool, v: Value): Writer {
    Enter(w.(state := w.state.(fieldName := key, isLastField := isLast)), v)
  }

  lemma SelectRuns(prog: seq<byte>, key: Name, isLast: bool, m: PackMachine)
    requires NameCompiles(key) && At(prog, m.next, SelectCode(key, isLast))
    ensures if m.w.state.value.VRecord? && key in m.w.state.value.fields
            then Leads(prog, m, 1, m.(next := m.next + |SelectCode(key, isLast)|,
                                      w := Selected(m.w, key, isLast, m.w.state.value.fields[key])))
            else Fails(prog, m, 1)
  {
    hide DecodeOperation, RunPack, SelectCode, At;
    DecodeSelectCode(prog, m.next, key, isLast);
    StepLeads(prog, m, RecordSelect(key, isLast), m.next + |SelectCode(key, isLast)|);
  }

  /** Leaving the last field leaves the record as well; leaving another stays in it. */
  lemma PopField(w: Writer, key: Name, isLast: bool, v: Value, d: Writer)
    requires Popped(Selected(w, key, isLast, v).stack, d)
    ensures isLast ==> Popped(w.stack, d)
    ensures !isLast ==> d.stack == w.stack && d.state == w.state.(fieldName := key, isLastField := isLast)
  {
    var stack := Selected(w, key, isLast, v).stack;
    var record := stack[|stack| - 1];
    assert stack[..|stack| - 1] == w.stack;
    assert Pop(stack[0], stack) == if isLast then Pop(record, w.stack) else (record, w.stack);
  }

  lemma LandsTwice(w: Writer, w1: Writer, w2: Writer, a: seq<Cell>, b: seq<Cell>)
    requires w1.buf == Overlay(w.buf, Cursor(w), a) && Cursor(w1) == Cursor(w) + |a| && w1.queue == w.queue
    requires w1.stack == w.stack
    requires Lands(w1, w2, b)
    ensures Lands(w, w2, a + b)
  {
    hide Overlay;
    OverlayAppend(w.buf, Cursor(w), a, b);
  }

  // ---------- fields ----------

  lemma {:induction false} FieldRuns(prog: seq<byte>, e: DataElement, v: Value, m: PackMachine) returns (k: nat, d: PackMachine)
    requires FieldSupported(e) && Compiles(e) && Size(e) < U32_MOD
    requires At(prog, m.next, Code(e, PackProgram)) && Idle(m.w) && m.w.state == Fresh(v)
    ensures Runs(prog, m, k, d, Conforms(e, v) && HasRoom(m.w, Size(e)), |Code(e, PackProgram)|, Cells(e, v))
    decreases e, 2
  {
    if !e.code.Record? {
      k, d := LeafRunsAsField(prog, e, v, m);
    } else {
      k, d := RecordRuns(prog, e, v, m);
    }
  }

  lemma {:induction false} RecordRuns(prog: seq<byte>, e: DataElement, v: Value, m: PackMachine) returns (k: nat, d: PackMachine)
    requires e.code.Record? && FieldSupported(e) && Compiles(e) && Size(e) < U32_MOD
    requires At(prog, m.next, Code(e, PackProgram)) && Idle(m.w) && m.w.state == Fresh(v)
    ensures Runs(prog, m, k, d, Conforms(e, v) && HasRoom(m.w, Size(e)), |Code(e, PackProgram)|, Cells(e, v))
    decreases e, 1
  {
    hide At, Code, DataCode, FieldsCode, Leads, Fails, Lands, HasRoom, Conforms, FieldsConform, Layout, FieldsLayout, Compiles, FieldsCompile, Entered, Cells, FieldsCells, FieldSupported, FieldsSupported;
    RecordCodeParts(prog, m.next, e, PackProgram);
    RecordFacts(e, v);
    RecordStarts(prog, e, v, m);
    NoRoom(m.w, Size(e));
    if v.VRecord? && HasRoom(m.w, 0) {
      var m1 := m.(next := m.next + |DataCode(e, PackProgram)|, w := Entered(m.w));
      EnteredFacts(m.w, FieldsSize(e.children));
      var k1, d1 := FieldsRun(prog, e.children, v.fields, m1);
      k, d := 1 + k1, d1;
      if FieldsConform(e.children, v.fields) && HasRoom(m1.w, FieldsSize(e.children)) {
        LeadsThenLeads(prog, m, 1, m1, k1, d);
        LandsEntered(m.w, d.w, FieldsCells(e.children, v.fields));
      } else {
        LeadsThenFails(prog, m, 1, m1, k1);
      }
    } else {
      k, d := 1, m;
    }
  }

  lemma LeafRunsAsField(prog: seq<byte>, e: DataElement, v: Value, m: PackMachine) returns (k: nat, d: PackMachine)
    requires !e.code.Record? && Compiles(e) && Size(e) < U32_MOD
    requires At(prog, m.next, Code(e, PackProgram)) && Idle(m.w) && m.w.state == Fresh(v)
    ensures Runs(prog, m, k, d, Conforms(e, v) && HasRoom(m.w, Size(e)), |Code(e, PackProgram)|, Cells(e, v))
  {
    hide At, Code, LeafFits, LeafLayout, Leads, Fails, Lands, Compiles;
    k, d := LeafRuns(prog, e, v, m);
  }

  lemma RecordFacts(e: DataElement, v: Value)
    requires e.code.Record? && FieldSupported(e) && Compiles(e)
    ensures e.arrayLen == 0 && FieldsSupported(e.children) && FieldsCompile(e.children) && |e.children| > 0
    ensures Size(e) == FieldsSize(e.children) && NextPart(e) == []
    ensures Conforms(e, v) <==> v.VRecord? && FieldsConform(e.children, v.fields)
    ensures v.VRecord? ==> Cells(e, v) == FieldsCells(e.children, v.fields)
  {
  }

  lemma EnteredFacts(w: Writer, n: nat)
    requires Idle(w) && HasRoom(w, 0)
    ensures Idle(Entered(w)) && Entered(w).state.value == w.state.value
    ensures HasRoom(Entered(w), n) <==> HasRoom(w, n)
  {
  }

  lemma NoRoom(w: Writer, n: nat)
    ensures HasRoom(w, n) ==> HasRoom(w, 0)
  {
  }

  lemma LandsEntered(w: Writer, d: Writer, cells: seq<Cell>)
    requires Lands(Entered(w), d, cells)
    ensures Lands(w, d, cells)
  {
  }

  lemma {:induction false} FieldsRun(prog: seq<byte>, fs: seq<DataElement>, r: map<Name, Value>, m: PackMachine) returns (k: nat, d: PackMachine)
    requires |fs| > 0 && FieldsSupported(fs) && FieldsCompile(fs) && FieldsSize(fs) < U32_MOD
    requires At(prog, m.next, FieldsCode(fs, PackProgram)) && Idle(m.w) && m.w.state.value == VRecord(r)
    ensures Runs(prog, m, k, d, FieldsConform(fs, r) && HasRoom(m.w, FieldsSize(fs)), |FieldsCode(fs, PackProgram)|, FieldsCells(fs, r))
    decreases fs, 0
  {
    hide At, Code, FieldsCode, SelectCode, Leads, Fails, Lands, HasRoom, Conforms, FieldsConform, Layout, FieldsLayout, Compiles, FieldsCompile, FieldsSupported, Selected, Popped, NameCompiles;
    var key, isLast := fs[0].name, |fs| == 1;
    SupportedParts(fs);
    FieldsCompileParts(fs);
    FieldsCodeParts(prog, m.next, fs, PackProgram);
    FieldsFacts(fs, r);
    SelectRuns(prog, key, isLast, m);
    if key !in r {
      k, d := 1, m;
    } else {
      var v := r[key];
      var m1 := m.(next := m.next + |SelectCode(key, isLast)|, w := Selected(m.w, key, isLast, v));
      SelectedFacts(m.w, key, isLast, v);
      var k1, d1 := FieldRuns(prog, fs[0], v, m1);
      RoomParts(m.w, fs);
      if !(Conforms(fs[0], v) && HasRoom(m1.w, Size(fs[0]))) {
        k, d := 1 + k1, m;
        LeadsThenFails(prog, m, 1, m1, k1);
      } else {
        LeadsThenLeads(prog, m, 1, m1, k1, d1);
        FieldLanded(m.w, key, isLast, v, d1.w, Cells(fs[0], v));
        if isLast {
          k, d := 1 + k1, d1;
          LastField(fs, r);
        } else {
          var k2, d2 := FieldsRun(prog, fs[1..], r, d1);
          k, d := 1 + k1 + k2, d2;
          if FieldsConform(fs[1..], r) && HasRoom(d1.w, FieldsSize(fs[1..])) {
            LeadsThenLeads(prog, m, 1 + k1, d1, k2, d2);
            LandsTwice(m.w, d1.w, d2.w, Cells(fs[0], v), FieldsCells(fs[1..], r));
          } else {
            LeadsThenFails(prog, m, 1 + k1, d1, k2);
          }
          RoomAfter(m.w, d1.w, fs);
        }
      }
    }
  }

  lemma FieldsFacts(fs: seq<DataElement>, r: map<Name, Value>)
    requires |fs| > 0 && FieldsSupported(fs)
    ensures FieldSupported(fs[0]) && FieldsSupported(fs[1..])
    ensures FieldsConform(fs, r) <==> fs[0].name in r && Conforms(fs[0], r[fs[0].name]) && FieldsConform(fs[1..], r)
    ensures FieldsConform(fs, r) ==> FieldsCells(fs, r) == Cells(fs[0], r[fs[0].name]) + FieldsCells(fs[1..], r)
    ensures FieldsSize(fs) == Size(fs[0]) + FieldsSize(fs[1..])
    ensures forall v :: Conforms(fs[0], v) ==> |Cells(fs[0], v)| == Size(fs[0])
  {
  }

  lemma LastField(fs: seq<DataElement>, r: map<Name, Value>)
    requires |fs| == 1 && FieldsSupported(fs) && FieldSupported(fs[0])
    requires fs[0].name in r
    ensures FieldsConform(fs[1..], r) && FieldsSize(fs[1..]) == 0 && |FieldsCode(fs[1..], PackProgram)| == 0
    ensures Conforms(fs[0], r[fs[0].name]) ==> FieldsCells(fs, r) == Cells(fs[0], r[fs[0].name])
  {
    assert fs[1..] == [];
    if Conforms(fs[0], r[fs[0].name]) {
      assert FieldsConform(fs[1..], r) && FieldsConform(fs, r);
      var first, rest := Layout(fs[0], r[fs[0].name]), FieldsLayout(fs[1..], r);
      assert rest == [] && first + rest == first;
      assert FieldsLayout(fs, r) == first + rest;
    }
  }

  lemma SelectedFacts(w: Writer, key: Name, isLast: bool, v: Value)
    requires Idle(w)
    ensures var s := Selected(w, key, isLast, v); Idle(s) && s.state == Fresh(v) && Cursor(s) == Cursor(w) && s.buf == w.buf
    ensures forall n: nat :: HasRoom(Selected(w, key, isLast, v), n) <==> HasRoom(w, n)
  {
  }

  lemma RoomParts(w: Writer, fs: seq<DataElement>)
    requires |fs| > 0
    ensures HasRoom(w, FieldsSize(fs)) ==> HasRoom(w, Size(fs[0]))
    ensures |fs| == 1 ==> FieldsSize(fs) == Size(fs[0])
  {
  }

  lemma RoomAfter(w: Writer, d: Writer, fs: seq<DataElement>)
    requires |fs| > 0 && Cursor(d) == Cursor(w) + Size(fs[0]) && |d.buf| == |w.buf|
    ensures HasRoom(w, FieldsSize(fs)) <==> HasRoom(d, FieldsSize(fs[1..]))
  {
  }

  lemma FieldLanded(w: Writer, key: Name, isLast: bool, v: Value, d: Writer, cells: seq<Cell>)
    requires Idle(w) && Lands(Selected(w, key, isLast, v), d, cells)
    ensures isLast ==> Lands(w, d, cells)
    ensures !isLast ==> d.stack == w.stack && d.state == w.state.(fieldName := key, isLastField := isLast)
    ensures Idle(d) && d.buf == Overlay(w.buf, Cursor(w), cells) && Cursor(d) == Cursor(w) + |cells|
    ensures |d.buf| == |w.buf| && d.queue == w.queue
  {
    PopField(w, key, isLast, v, d);
  }

  // ---------- arrays of records ----------

  /** The state of an array of records that is about to pack item `i`. */
  predicate InArray(w: Writer, items: seq<Value>, i: nat) {
    && |w.stack| == 1 && i < |items|
    && w.state == Fresh(items[i])
    && w.stack[0].value == VArray(items)
    && w.stack[0].arrayLen == |items| && w.stack[0].index == i
    && w.stack[0].code == Some(Record) && !w.stack[0].isLastField
  }

  lemma ArrayStarts(prog: seq<byte>, e: DataElement, v: Value, m: PackMachine) returns (w: Writer)
    requires e.code.Record? && e.arrayLen > 0 && !e.isDynamic
    requires At(prog, m.next, DataCode(e, PackProgram)) && Idle(m.w) && m.w.state == Fresh(v) && m.w.stack == []
    ensures var after := m.next + |DataCode(e, PackProgram)|;
            if HasRoom(m.w, 0) && v.VArray? && |v.items| == e.arrayLen && v.items[0].VRecord? then
              Leads(prog, m, 1, PackMachine(after, Some(after), w)) && InArray(w, v.items, 0) && Idle(w)
              && w.buf == m.w.buf && Cursor(w) == Cursor(m.w) && w.queue == m.w.queue
            else Fails(prog, m, 1)
  {
    hide DecodeOperation, RunPack, DataCode, At;
    DecodeDataCode(prog, m.next, e, PackProgram);
    var after := m.next + |DataCode(e, PackProgram)|;
    StepLeads(prog, m, Data(PackProgram, Record, e.arrayLen, false), after);
    var r := Pack(m.w, Record, e.arrayLen, SizeNone);
    w := if r.Ok? then r.value else m.w;
  }

  lemma NextRuns(prog: seq<byte>, items: seq<Value>, i: nat, m: PackMachine)
    requires At(prog, m.next, ArrayNextCode()) && m.mark.Some? && Idle(m.w)
    requires |m.w.stack| == 0 && m.w.state.value == VArray(items) && m.w.state.arrayLen == |items|
    requires m.w.state.index == i < |items| && m.w.state.code == Some(Record) && !m.w.state.isLastField
    ensures i + 1 == |items| ==>
      Leads(prog, m, 1, m.(next := m.next + 1, w := m.w.(state := m.w.state.(index := i + 1))))
    ensures i + 1 < |items| ==>
      var w := Enter(m.w.(state := m.w.state.(index := i + 1)), items[i + 1]);
      Leads(prog, m, 1, m.(next := m.mark.value, w := w)) && InArray(w, items, i + 1) && Idle(w)
      && w.buf == m.w.buf && Cursor(w) == Cursor(m.w) && w.queue == m.w.queue
  {
    hide DecodeOperation, RunPack, At;
    DecodeArrayNextCode(prog, m.next);
    StepLeads(prog, m, ArrayNext, m.next + 1);
  }

  /** A run that starts in a record's fields fails if the value is not a record. */
  lemma NotARecord(prog: seq<byte>, fs: seq<DataElement>, m: PackMachine)
    requires |fs| > 0 && FieldsCompile(fs) && At(prog, m.next, FieldsCode(fs, PackProgram))
    requires !m.w.state.value.VRecord?
    ensures Fails(prog, m, 1)
  {
    hide At, Code, FieldsCode, SelectCode, Fails, Leads;
    FieldsCompileParts(fs);
    FieldsCodeParts(prog, m.next, fs, PackProgram);
    SelectRuns(prog, fs[0].name, |fs| == 1, m);
  }

  /** What the rest of an array of records comes to. */
  ghost predicate RestRuns(prog: seq<byte>, m: PackMachine, k: nat, d: PackMachine, ok: bool, end: nat, cells: seq<Cell>) {
    if ok then
      && Leads(prog, m, k, d) && d.next == end
      && d.w.buf == Overlay(m.w.buf, Cursor(m.w), cells) && Cursor(d.w) == Cursor(m.w) + |cells|
      && d.w.stack == [] && d.w.queue == m.w.queue
    else Fails(prog, m, k)
  }

  lemma {:induction false} ItemsRun(prog: seq<byte>, fs: seq<DataElement>, items: seq<Value>, i: nat, m: PackMachine) returns (k: nat, d: PackMachine)
    requires |fs| > 0 && FieldsSupported(fs) && FieldsCompile(fs) && FieldsSize(fs) < U32_MOD
    requires At(prog, m.next, FieldsCode(fs, PackProgram) + ArrayNextCode())
    requires m.mark == Some(m.next) && InArray(m.w, items, i) && Idle(m.w)
    ensures RestRuns(prog, m, k, d, ItemsConform(fs, items[i..]) && HasRoom(m.w, Times(|items[i..]|, FieldsSize(fs))),
                     m.next + |FieldsCode(fs, PackProgram)| + 1, ItemsCells(fs, items[i..]))
    decreases |items| - i
  {
    hide At, FieldsCode, Leads, Fails, Lands, HasRoom, FieldsConform, FieldsLayout, FieldsCompile, FieldsSupported, Overlay, ItemsConform, ItemsCells, FieldsCells, FieldsSize, Cursor;
    var rest := items[i..];
    AtSplit(prog, m.next, FieldsCode(fs, PackProgram), ArrayNextCode());
    ItemsFacts(fs, rest);
    assert rest[0] == items[i] && rest[1..] == items[i + 1..];
    if !items[i].VRecord? {
      k, d := 1, m;
      NotARecord(prog, fs, m);
    } else {
      var r := items[i].fields;
      var k1, d1 := FieldsRun(prog, fs, r, m);
      ItemsRoom(m.w, fs, |rest|);
      if !(FieldsConform(fs, r) && HasRoom(m.w, FieldsSize(fs))) {
        k, d := k1, m;
      } else {
        ItemPopped(m.w, items, i, d1.w, FieldsCells(fs, r));
        NextRuns(prog, items, i, d1);
        if i + 1 == |items| {
          d := d1.(next := d1.next + 1, w := d1.w.(state := d1.w.state.(index := i + 1)));
          k := k1 + 1;
          LeadsThenLeads(prog, m, k1, d1, 1, d);
          SameCursor(d1.w, d.w);
          LastItem(fs, rest);
        } else {
          var w2 := Enter(d1.w.(state := d1.w.state.(index := i + 1)), items[i + 1]);
          var m2 := d1.(next := m.next, w := w2);
          LeadsThenLeads(prog, m, k1, d1, 1, m2);
          SameCursor(d1.w, w2);
          var k2, d2 := ItemsRun(prog, fs, items, i + 1, m2);
          k, d := k1 + 1 + k2, d2;
          RoomAfterItem(m.w, w2, fs, |rest|);
          if ItemsConform(fs, rest[1..]) && HasRoom(w2, Times(|rest[1..]|, FieldsSize(fs))) {
            LeadsThenLeads(prog, m, k1 + 1, m2, k2, d2);
            OverlayAppend(m.w.buf, Cursor(m.w), FieldsCells(fs, r), ItemsCells(fs, rest[1..]));
          } else {
            LeadsThenFails(prog, m, k1 + 1, m2, k2);
          }
        }
      }
    }
  }

  lemma ItemsFacts(fs: seq<DataElement>, items: seq<Value>)
    requires |items| > 0 && FieldsSupported(fs)
    ensures ItemsConform(fs, items) <==> items[0].VRecord? && FieldsConform(fs, items[0].fields) && ItemsConform(fs, items[1..])
    ensures ItemsConform(fs, items) ==> ItemsCells(fs, items) == FieldsCells(fs, items[0].fields) + ItemsCells(fs, items[1..])
    ensures items[0].VRecord? && FieldsConform(fs, items[0].fields) ==> |FieldsCells(fs, items[0].fields)| == FieldsSize(fs)
  {
    if items[0].VRecord? && FieldsConform(fs, items[0].fields) && ItemsConform(fs, items[1..]) {
      forall i | 0 <= i < |items| ensures items[i].VRecord? && FieldsConform(fs, items[i].fields) {
        if i > 0 { assert items[i] == items[1..][i - 1]; }
      }
    }
  }

  lemma LastItem(fs: seq<DataElement>, items: seq<Value>)
    requires |items| == 1 && FieldsSupported(fs)
    ensures ItemsConform(fs, items[1..]) && Times(|items|, FieldsSize(fs)) == FieldsSize(fs)
    ensures items[0].VRecord? && FieldsConform(fs, items[0].fields) ==> ItemsCells(fs, items) == FieldsCells(fs, items[0].fields)
  {
    ItemsFacts(fs, items);
    if items[0].VRecord? && FieldsConform(fs, items[0].fields) {
      assert ItemsCells(fs, items[1..]) == [];
      assert FieldsCells(fs, items[0].fields) + [] == FieldsCells(fs, items[0].fields);
    }
  }

  lemma ItemsRoom(w: Writer, fs: seq<DataElement>, n: nat)
    requires n > 0
    ensures HasRoom(w, Times(n, FieldsSize(fs))) ==> HasRoom(w, FieldsSize(fs))
    ensures n == 1 ==> Times(n, FieldsSize(fs)) == FieldsSize(fs)
  {
    TimesAtLeast(n, FieldsSize(fs));
  }

  lemma RoomAfterItem(w: Writer, w2: Writer, fs: seq<DataElement>, n: nat)
    requires n > 0 && Cursor(w2) == Cursor(w) + FieldsSize(fs) && |w2.buf| == |w.buf|
    ensures HasRoom(w, Times(n, FieldsSize(fs))) <==> HasRoom(w2, Times(n - 1, FieldsSize(fs)))
  {
    assert Times(n, FieldsSize(fs)) == FieldsSize(fs) + Times(n - 1, FieldsSize(fs));
  }

  lemma SameCursor(w: Writer, d: Writer)
    requires w.next == d.next && w.padded == d.padded && w.buf == d.buf
    ensures Cursor(w) == Cursor(d) && (Idle(w) && w.queue == d.queue ==> Idle(d))
    ensures forall n: nat :: HasRoom(w, n) <==> HasRoom(d, n)
  {
  }

  lemma ItemPopped(w: Writer, items: seq<Value>, i: nat, d: Writer, cells: seq<Cell>)
    requires InArray(w, items, i) && Idle(w) && Lands(w, d, cells)
    ensures d.stack == [] && d.state == w.stack[0] && Idle(d) && d.queue == w.queue
    ensures d.buf == Overlay(w.buf, Cursor(w), cells) && Cursor(d) == Cursor(w) + |cells| && |d.buf| == |w.buf|
  {
  }

  // ---------- whole programs ----------

  lemma PackDone(prog: seq<byte>, m: PackMachine, k: nat, d: PackMachine)
    requires Leads(prog, m, k, d) && d.next == |prog|
    ensures forall f: nat :: f > k ==> RunPack(prog, m, f) == Done(d)
  {
    forall f: nat | f > k ensures RunPack(prog, m, f) == Done(d) {
      assert RunPack(prog, m, f) == RunPack(prog, d, f - k);
    }
  }

  function PortCells(e: DataElement, v: Value): seq<Cell>
    requires PortSupported(e)
  {
    if Conforms(e, v) then Layout(e, v) else []
  }

  lemma ArrayRuns(prog: seq<byte>, e: DataElement, v: Value, m: PackMachine) returns (k: nat, d: PackMachine)
    requires e.code.Record? && e.arrayLen > 0
    requires Compiles(e) && PortSupported(e) && Size(e) < U32_MOD
    requires At(prog, m.next, Code(e, PackProgram)) && Idle(m.w) && m.w.state == Fresh(v) && m.w.stack == []
    ensures RestRuns(prog, m, k, d, Conforms(e, v) && HasRoom(m.w, Size(e)), m.next + |Code(e, PackProgram)|, PortCells(e, v))
  {
    hide At, Code, DataCode, FieldsCode, Leads, Fails, HasRoom, FieldsConform, FieldsLayout, ItemsConform, ItemsCells, ItemsLayout, Compiles, FieldsCompile, FieldsSupported, Overlay;
    RecordCodeParts(prog, m.next, e, PackProgram);
    ArrayFacts(e, v);
    NoRoom(m.w, Size(e));
    var after := m.next + |DataCode(e, PackProgram)|;
    var w := ArrayStarts(prog, e, v, m);
    if !(HasRoom(m.w, 0) && v.VArray? && |v.items| == e.arrayLen && v.items[0].VRecord?) {
      k, d := 1, m;
    } else {
      var m1 := PackMachine(after, Some(after), w);
      assert At(prog, after, FieldsCode(e.children, PackProgram) + ArrayNextCode()) by {
        AtJoin(prog, after, FieldsCode(e.children, PackProgram), ArrayNextCode());
      }
      var k1, d1 := ItemsRun(prog, e.children, v.items, 0, m1);
      assert v.items[0..] == v.items;
      RoomSame(m.w, w, Size(e));
      k, d := 1 + k1, d1;
      if Conforms(e, v) && HasRoom(m.w, Size(e)) {
        LeadsThenLeads(prog, m, 1, m1, k1, d1);
      } else {
        LeadsThenFails(prog, m, 1, m1, k1);
      }
    }
  }

  lemma AtJoin(prog: seq<byte>, p: nat, a: seq<byte>, b: seq<byte>)
    requires At(prog, p, a) && At(prog, p + |a|, b)
    ensures At(prog, p, a + b)
  {
    assert prog[p..p + |a| + |b|] == prog[p..p + |a|] + prog[p + |a|..p + |a| + |b|];
  }

  lemma RoomSame(w: Writer, d: Writer, n: nat)
    requires Cursor(w) == Cursor(d) && |w.buf| == |d.buf|
    ensures HasRoom(w, n) <==> HasRoom(d, n)
  {
  }

  lemma ArrayFacts(e: DataElement, v: Value)
    requires e.code.Record? && e.arrayLen > 0 && Compiles(e) && PortSupported(e) && Size(e) < U32_MOD
    ensures !e.isDynamic && FieldsSupported(e.children) && FieldsCompile(e.children) && |e.children| > 0
    ensures NextPart(e) == ArrayNextCode() && Size(e) == Times(e.arrayLen, FieldsSize(e.children))
    ensures FieldsSize(e.children) < U32_MOD
    ensures Conforms(e, v) <==> v.VArray? && |v.items| == e.arrayLen && ItemsConform(e.children, v.items)
    ensures ItemsConform(e.children, []) && (v.VArray? && |v.items| > 0 && !v.items[0].VRecord? ==> !ItemsConform(e.children, v.items))
    ensures Conforms(e, v) ==> PortCells(e, v) == ItemsCells(e.children, v.items)
  {
    TimesAtLeast(e.arrayLen, FieldsSize(e.children));
  }

  lemma PortRuns(prog: seq<byte>, e: DataElement, v: Value, m: PackMachine) returns (k: nat, d: PackMachine)
    requires Compiles(e) && PortSupported(e) && Size(e) < U32_MOD
    requires At(prog, m.next, Code(e, PackProgram)) && Idle(m.w) && m.w.state == Fresh(v) && m.w.stack == []
    ensures RestRuns(prog, m, k, d, Conforms(e, v) && HasRoom(m.w, Size(e)), m.next + |Code(e, PackProgram)|, PortCells(e, v))
  {
    hide At, Code, Leads, Fails, HasRoom, Conforms, Layout, Compiles, FieldsSupported, Overlay;
    if e.code.Record? && e.arrayLen > 0 {
      k, d := ArrayRuns(prog, e, v, m);
    } else {
      k, d := FieldRuns(prog, e, v, m);
      assert FieldSupported(e) && Cells(e, v) == PortCells(e, v);
    }
  }

  /**
   * Compiler and serializer together. The pack program of a port, after any header, packs
   * exactly the conforming values that fit the buffer; the buffer then holds the value's
   * layout, untouched in its padding; the cursor stands past the element's full size; and
   * the state stack is empty again. Every other value is refused with an error.
   */
  lemma PackProgramCorrect(header: seq<byte>, e: DataElement, v: Value, w: Writer) returns (k: nat, d: PackMachine)
    requires Compiles(e) && PortSupported(e) && Size(e) < U32_MOD
    requires Idle(w) && w.state == Fresh(v) && w.stack == []
    ensures var prog := header + Code(e, PackProgram);
            var m := PackMachine(|header|, None, w);
            if Conforms(e, v) && Cursor(w) + Size(e) <= |w.buf| then
              && (forall f: nat :: f >= k ==> RunPack(prog, m, f) == Done(d))
              && d.w.buf == Overlay(w.buf, Cursor(w), Layout(e, v))
              && Cursor(d.w) == Cursor(w) + Size(e)
              && d.w.stack == [] && d.w.queue == w.queue
            else forall f: nat :: f >= k ==> RunPack(prog, m, f).Failed?
  {
    hide Code, Conforms, Layout, Compiles, FieldsSupported, Overlay, RunPack, Leads;
    var prog := header + Code(e, PackProgram);
    var m := PackMachine(|header|, None, w);
    var k1;
    k1, d := PortRuns(prog, e, v, m);
    k := k1 + 1;
    if Conforms(e, v) && HasRoom(w, Size(e)) {
      PackDone(prog, m, k1, d);
    }
  }
}
