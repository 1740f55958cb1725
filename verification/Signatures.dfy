/**
 * Port signatures (apx/src/data_element.c, apx/src/port_instance.c): the text by which the
 * server decides that two ports belong together.
 */
module Signatures {
  import opened Common
  import opened Bytes
  import opened DataElements
  import opened Bytecode
  import opened Initializers
  import opened Programs
  import Routing

  const OPEN_PAREN: byte := 0x28
  const CLOSE_PAREN: byte := 0x29
  const STAR: byte := 0x2A
  const OPEN_BRACKET: byte := 0x5B
  const CLOSE_BRACKET: byte := 0x5D

  function TypeChar(c: TypeCode): byte {
    match c
    case UInt8 => 0x43
    case UInt16 => 0x53
    case UInt32 => 0x4C
    case UInt64 => 0x51
    case Int8 => 0x63
    case Int16 => 0x73
    case Int32 => 0x6C
    case Int64 => 0x71
    case Char => 0x61
    case Char8 => 0x41
    case Char16 => 0x75
    case Char32 => 0x55
    case Bool => 0x62
    case Byte => 0x42
    case Record => 0
  }

  /** A number as the printf family writes it. */
  function Whole(n: int): seq<byte> {
    if n < 0 then [MINUS] + Decimal(-n) else Decimal(n)
  }

  /** Types for which limits_to_string has a format. */
  predicate LimitsPrint(c: TypeCode) { IsNumber(c) || c.Byte? }

  function LimitsText(l: Option<Limits>): seq<byte> {
    match l
    case None => []
    case Some(l) => [OPEN_PAREN] + (Whole(l.lower) + ([COMMA] + (Whole(l.upper) + [CLOSE_PAREN])))
  }

  function ArrayText(e: DataElement, normalized: bool): seq<byte> {
    if e.arrayLen == 0 then []
    else if e.isDynamic && normalized then [OPEN_BRACKET, STAR, CLOSE_BRACKET]
    else [OPEN_BRACKET] + (Decimal(e.arrayLen) + if e.isDynamic then [STAR, CLOSE_BRACKET] else [CLOSE_BRACKET])
  }

  /** apx_dataElement_to_string, with `None` for NULL */
  function ElementText(e: DataElement, normalized: bool): Option<seq<byte>>
    decreases e, 1
  {
    if e.code.Record? then
      var fields := FieldsText(e.children, normalized);
      if fields.None? then None
      else Some([OPEN_BRACE] + (fields.value + ([CLOSE_BRACE] + ArrayText(e, normalized))))
    else if e.limits.Some? && !LimitsPrint(e.code) then None
    else Some([TypeChar(e.code)] + (LimitsText(e.limits) + ArrayText(e, normalized)))
  }

  function FieldsText(fs: seq<DataElement>, normalized: bool): Option<seq<byte>>
    decreases fs, 0
  {
    if |fs| == 0 then Some([])
    else
      var first, rest := ElementText(fs[0], normalized), FieldsText(fs[1..], normalized);
      if first.None? || rest.None? then None
      else Some([QUOTE] + (fs[0].name + ([QUOTE] + (first.value + rest.value))))
  }

  /** apx_port_instance_create_port_signature */
  function PortSignature(name: Name, e: DataElement): Option<seq<byte>> {
    var text := ElementText(e, true);
    if text.None? then None else Some([QUOTE] + (name + ([QUOTE] + text.value)))
  }

  // ---------- what a text determines ----------

  /** Elements that differ in nothing that a text tells: a normalised one leaves out the capacity of dynamic arrays. */
  ghost predicate Agree(a: DataElement, b: DataElement, normalized: bool)
    decreases a, 1
  {
    && a.code == b.code
    && a.IsArray() == b.IsArray() && a.IsDynamicArray() == b.IsDynamicArray()
    && (a.IsArray() && !(a.isDynamic && normalized) ==> a.arrayLen == b.arrayLen)
    && if a.code.Record? then FieldsAgree(a.children, b.children, normalized) else a.limits == b.limits
  }

  ghost predicate FieldsAgree(fs: seq<DataElement>, gs: seq<DataElement>, normalized: bool)
    decreases fs, 0
  {
    && |fs| == |gs|
    && (|fs| > 0 ==> fs[0].name == gs[0].name && Agree(fs[0], gs[0], normalized) && FieldsAgree(fs[1..], gs[1..], normalized))
  }

  /** Field names are such as a definition can give: kept with their escapes, as they stand between its quotes. */
  ghost predicate NamesEscaped(e: DataElement)
    decreases e, 1
  {
    e.code.Record? ==> FieldNamesEscaped(e.children)
  }

  ghost predicate FieldNamesEscaped(fs: seq<DataElement>)
    decreases fs, 0
  {
    |fs| > 0 ==> WellEscaped(fs[0].name) && NamesEscaped(fs[0]) && FieldNamesEscaped(fs[1..])
  }

  /** What may follow an element's text: the next field's name, or the end of the record. */
  predicate Follows(x: seq<byte>) {
    |x| > 0 ==> x[0] == QUOTE || x[0] == CLOSE_BRACE
  }

  predicate NoDigit(x: seq<byte>) { |x| > 0 && !IsDigit(x[0]) }

  lemma Cancel(c: byte, d: byte, x: seq<byte>, y: seq<byte>)
    requires [c] + x == [d] + y
    ensures c == d && x == y
  {
    assert ([c] + x)[0] == c && ([d] + y)[0] == d;
    assert ([c] + x)[1..] == x && ([d] + y)[1..] == y;
  }

  lemma Joined(a: seq<byte>, b: seq<byte>, c: seq<byte>)
    ensures (a + b) + c == a + (b + c)
  {
  }

  lemma DecimalEnd(n: nat, x: seq<byte>)
    requires NoDigit(x)
    ensures DigitsEnd(Decimal(n) + x, 0, 10) == |Decimal(n)|
  {
    var text := Decimal(n) + x;
    DecimalDigits(n);
    assert forall i :: 0 <= i < |Decimal(n)| ==> text[i] == Decimal(n)[i];
    DigitsRun(text, 0, |Decimal(n)|, 10);
  }

  lemma DecimalUnique(n: nat, m: nat, x: seq<byte>, y: seq<byte>)
    requires Decimal(n) + x == Decimal(m) + y && NoDigit(x) && NoDigit(y)
    ensures n == m && x == y
  {
    hide Decimal, DigitsEnd, DigitsValue;
    DecimalEnd(n, x);
    DecimalEnd(m, y);
    assert (Decimal(n) + x)[..|Decimal(n)|] == Decimal(n) && (Decimal(m) + y)[..|Decimal(m)|] == Decimal(m);
    DecimalValue(n);
    DecimalValue(m);
  }

  lemma WholeUnique(n: int, m: int, x: seq<byte>, y: seq<byte>)
    requires Whole(n) + x == Whole(m) + y && NoDigit(x) && NoDigit(y)
    ensures n == m && x == y
  {
    hide Decimal;
    WholeFirst(n, x);
    WholeFirst(m, y);
    if n < 0 {
      Joined([MINUS], Decimal(-n), x);
      Joined([MINUS], Decimal(-m), y);
      Cancel(MINUS, MINUS, Decimal(-n) + x, Decimal(-m) + y);
      DecimalUnique(-n, -m, x, y);
    } else {
      DecimalUnique(n, m, x, y);
    }
  }

  /** The first character tells the sign. */
  lemma WholeFirst(n: int, x: seq<byte>)
    ensures |Whole(n) + x| > 0 && ((Whole(n) + x)[0] == MINUS <==> n < 0)
  {
    hide Decimal;
    if n >= 0 {
      DecimalDigits(n);
    }
  }

  lemma LimitsUnique(a: Option<Limits>, b: Option<Limits>, x: seq<byte>, y: seq<byte>)
    requires LimitsText(a) + x == LimitsText(b) + y
    requires |x| > 0 ==> x[0] != OPEN_PAREN
    requires |y| > 0 ==> y[0] != OPEN_PAREN
    ensures a == b && x == y
  {
    hide Whole;
    ParenFirst(a, x);
    ParenFirst(b, y);
    if a.Some? {
      LimitsParts(a.value, x);
      LimitsParts(b.value, y);
      var s, t := [COMMA] + (Whole(a.value.upper) + ([CLOSE_PAREN] + x)), [COMMA] + (Whole(b.value.upper) + ([CLOSE_PAREN] + y));
      Cancel(OPEN_PAREN, OPEN_PAREN, Whole(a.value.lower) + s, Whole(b.value.lower) + t);
      WholeUnique(a.value.lower, b.value.lower, s, t);
      Cancel(COMMA, COMMA, Whole(a.value.upper) + ([CLOSE_PAREN] + x), Whole(b.value.upper) + ([CLOSE_PAREN] + y));
      WholeUnique(a.value.upper, b.value.upper, [CLOSE_PAREN] + x, [CLOSE_PAREN] + y);
      Cancel(CLOSE_PAREN, CLOSE_PAREN, x, y);
    }
  }

  /** The first character tells whether there are limits. */
  lemma ParenFirst(l: Option<Limits>, x: seq<byte>)
    requires |x| > 0 ==> x[0] != OPEN_PAREN
    ensures l.Some? <==> |LimitsText(l) + x| > 0 && (LimitsText(l) + x)[0] == OPEN_PAREN
    ensures l.None? ==> LimitsText(l) + x == x
  {
    hide Whole;
  }

  lemma LimitsParts(l: Limits, x: seq<byte>)
    ensures LimitsText(Some(l)) + x == [OPEN_PAREN] + (Whole(l.lower) + ([COMMA] + (Whole(l.upper) + ([CLOSE_PAREN] + x))))
  {
    hide Whole;
  }

  /** Array parts that agree. */
  ghost predicate ArraysAgree(a: DataElement, b: DataElement, normalized: bool) {
    && a.IsArray() == b.IsArray() && a.IsDynamicArray() == b.IsDynamicArray()
    && (a.IsArray() && !(a.isDynamic && normalized) ==> a.arrayLen == b.arrayLen)
  }

  /** What stands behind the opening bracket of an array. */
  function InBrackets(e: DataElement, x: seq<byte>, normalized: bool): seq<byte> {
    if !e.isDynamic then Decimal(e.arrayLen) + ([CLOSE_BRACKET] + x)
    else if normalized then [STAR] + ([CLOSE_BRACKET] + x)
    else Decimal(e.arrayLen) + ([STAR] + ([CLOSE_BRACKET] + x))
  }

  lemma ArrayParts(e: DataElement, x: seq<byte>, normalized: bool)
    ensures ArrayText(e, normalized) + x == if e.IsArray() then [OPEN_BRACKET] + InBrackets(e, x, normalized) else x
  {
    hide Decimal;
    var n := Decimal(e.arrayLen);
    assert [OPEN_BRACKET] + (n + [CLOSE_BRACKET]) + x == [OPEN_BRACKET] + (n + ([CLOSE_BRACKET] + x));
    assert [OPEN_BRACKET] + (n + [STAR, CLOSE_BRACKET]) + x == [OPEN_BRACKET] + (n + ([STAR] + ([CLOSE_BRACKET] + x)));
  }

  lemma ArrayUnique(a: DataElement, b: DataElement, x: seq<byte>, y: seq<byte>, normalized: bool)
    requires ArrayText(a, normalized) + x == ArrayText(b, normalized) + y && Follows(x) && Follows(y)
    ensures ArraysAgree(a, b, normalized) && x == y
  {
    hide Decimal, ArrayText, InBrackets;
    ArrayParts(a, x, normalized);
    ArrayParts(b, y, normalized);
    BracketFirst(a, x, normalized);
    BracketFirst(b, y, normalized);
    if a.IsArray() {
      Cancel(OPEN_BRACKET, OPEN_BRACKET, InBrackets(a, x, normalized), InBrackets(b, y, normalized));
      BracketsUnique(a, b, x, y, normalized);
    }
  }

  lemma BracketsUnique(a: DataElement, b: DataElement, x: seq<byte>, y: seq<byte>, normalized: bool)
    requires InBrackets(a, x, normalized) == InBrackets(b, y, normalized)
    ensures a.isDynamic == b.isDynamic && x == y && (!(a.isDynamic && normalized) ==> a.arrayLen == b.arrayLen)
  {
    hide Decimal;
    var s, t := InBrackets(a, x, normalized), InBrackets(b, y, normalized);
    var p := if a.isDynamic then [STAR] + ([CLOSE_BRACKET] + x) else [CLOSE_BRACKET] + x;
    var q := if b.isDynamic then [STAR] + ([CLOSE_BRACKET] + y) else [CLOSE_BRACKET] + y;
    DecimalDigits(a.arrayLen);
    DecimalDigits(b.arrayLen);
    assert s[0] == t[0];
    if !(a.isDynamic && normalized) {
      DecimalUnique(a.arrayLen, b.arrayLen, p, q);
    }
    assert p == q && p[0] == q[0];
    assert x == (if a.isDynamic then p[2..] else p[1..]) && y == (if b.isDynamic then q[2..] else q[1..]);
  }

  /** The first character tells whether there is an array. */
  lemma BracketFirst(e: DataElement, x: seq<byte>, normalized: bool)
    requires Follows(x)
    ensures e.IsArray() <==> |ArrayText(e, normalized) + x| > 0 && (ArrayText(e, normalized) + x)[0] == OPEN_BRACKET
  {
    hide Decimal;
  }

  /** Well-escaped names end at the first quote that closes them. */
  lemma QuoteUnique(n: seq<byte>, m: seq<byte>, x: seq<byte>, y: seq<byte>)
    requires n + ([QUOTE] + x) == m + ([QUOTE] + y) && WellEscaped(n) && WellEscaped(m)
    ensures n == m && x == y
  {
    var s, t := n + ([QUOTE] + x), m + ([QUOTE] + y);
    assert s[0..0 + |n|] == n && t[0..0 + |m|] == m;
    ClosingQuoteExact(s, 0, |n|);
    ClosingQuoteExact(t, 0, |m|);
    assert s[|n| + 1..] == x && t[|m| + 1..] == y;
  }

  /** Texts followed by anything that can follow them determine where they end. */
  lemma {:induction false} ElementUnique(a: DataElement, b: DataElement, x: seq<byte>, y: seq<byte>, normalized: bool)
    requires ElementText(a, normalized).Some? && ElementText(b, normalized).Some? && NamesEscaped(a) && NamesEscaped(b)
    requires ElementText(a, normalized).value + x == ElementText(b, normalized).value + y && Follows(x) && Follows(y)
    ensures Agree(a, b, normalized) && x == y
    decreases a, 1
  {
    hide FieldsText, ArrayText, LimitsText, FieldsAgree, FieldNamesEscaped;
    ElementParts(a, x, normalized);
    ElementParts(b, y, normalized);
    Cancel(First(a), First(b), Behind(a, x, normalized), Behind(b, y, normalized));
    if a.code.Record? {
      FieldsUnique(a.children, b.children, ArrayText(a, normalized) + x, ArrayText(b, normalized) + y, normalized);
    } else {
      NoParen(a, x, normalized);
      NoParen(b, y, normalized);
      LimitsUnique(a.limits, b.limits, ArrayText(a, normalized) + x, ArrayText(b, normalized) + y);
    }
    ArrayUnique(a, b, x, y, normalized);
  }

  function First(e: DataElement): byte {
    if e.code.Record? then OPEN_BRACE else TypeChar(e.code)
  }

  /** The text behind an element's first character. */
  function Behind(e: DataElement, x: seq<byte>, normalized: bool): seq<byte>
    requires ElementText(e, normalized).Some?
  {
    if e.code.Record? then FieldsText(e.children, normalized).value + ([CLOSE_BRACE] + (ArrayText(e, normalized) + x))
    else LimitsText(e.limits) + (ArrayText(e, normalized) + x)
  }

  lemma ElementParts(e: DataElement, x: seq<byte>, normalized: bool)
    requires ElementText(e, normalized).Some?
    ensures ElementText(e, normalized).value + x == [First(e)] + Behind(e, x, normalized)
  {
    hide FieldsText, ArrayText, LimitsText;
  }

  lemma NoParen(e: DataElement, x: seq<byte>, normalized: bool)
    requires Follows(x)
    ensures |ArrayText(e, normalized) + x| > 0 ==> (ArrayText(e, normalized) + x)[0] != OPEN_PAREN
  {
    if e.IsArray() {
      BracketFirst(e, x, normalized);
    } else {
      ArrayParts(e, x, normalized);
    }
  }

  lemma {:induction false} FieldsUnique(fs: seq<DataElement>, gs: seq<DataElement>, x: seq<byte>, y: seq<byte>, normalized: bool)
    requires FieldsText(fs, normalized).Some? && FieldsText(gs, normalized).Some? && FieldNamesEscaped(fs) && FieldNamesEscaped(gs)
    requires FieldsText(fs, normalized).value + ([CLOSE_BRACE] + x) == FieldsText(gs, normalized).value + ([CLOSE_BRACE] + y)
    ensures FieldsAgree(fs, gs, normalized) && x == y
    decreases fs, 0
  {
    hide ElementText, Agree, NamesEscaped;
    var s, t := [CLOSE_BRACE] + x, [CLOSE_BRACE] + y;
    FieldsFirst(fs, s, normalized);
    FieldsFirst(gs, t, normalized);
    if |fs| > 0 && |gs| > 0 {
      var p, q := ElementText(fs[0], normalized).value + (FieldsText(fs[1..], normalized).value + s), ElementText(gs[0], normalized).value + (FieldsText(gs[1..], normalized).value + t);
      Cancel(QUOTE, QUOTE, fs[0].name + ([QUOTE] + p), gs[0].name + ([QUOTE] + q));
      QuoteUnique(fs[0].name, gs[0].name, p, q);
      FieldsFirst(fs[1..], s, normalized);
      FieldsFirst(gs[1..], t, normalized);
      ElementUnique(fs[0], gs[0], FieldsText(fs[1..], normalized).value + s, FieldsText(gs[1..], normalized).value + t, normalized);
      FieldsUnique(fs[1..], gs[1..], x, y, normalized);
    } else if |fs| == 0 && |gs| == 0 {
      Cancel(CLOSE_BRACE, CLOSE_BRACE, x, y);
    }
  }

  /** The text of fields, up to the end of the record. */
  lemma FieldsFirst(fs: seq<DataElement>, s: seq<byte>, normalized: bool)
    requires FieldsText(fs, normalized).Some? && |s| > 0 && s[0] == CLOSE_BRACE
    ensures |fs| == 0 ==> FieldsText(fs, normalized).value + s == s
    ensures |fs| > 0 ==>
      && ElementText(fs[0], normalized).Some? && FieldsText(fs[1..], normalized).Some?
      && FieldsText(fs, normalized).value + s
         == [QUOTE] + (fs[0].name + ([QUOTE] + (ElementText(fs[0], normalized).value + (FieldsText(fs[1..], normalized).value + s))))
    ensures Follows(FieldsText(fs, normalized).value + s)
    ensures |FieldsText(fs, normalized).value + s| > 0 && ((FieldsText(fs, normalized).value + s)[0] == CLOSE_BRACE <==> |fs| == 0)
  {
    hide ElementText;
    if |fs| > 0 {
      QuotedJoined(fs[0].name, ElementText(fs[0], normalized).value, FieldsText(fs[1..], normalized).value, s);
    }
  }

  lemma QuotedJoined(n: seq<byte>, a: seq<byte>, b: seq<byte>, c: seq<byte>)
    ensures [QUOTE] + (n + ([QUOTE] + (a + b))) + c == [QUOTE] + (n + ([QUOTE] + (a + (b + c))))
  {
  }

  // ---------- agreement gives equal texts ----------

  lemma {:induction false} AgreeSameText(a: DataElement, b: DataElement, normalized: bool)
    requires Agree(a, b, normalized)
    ensures ElementText(a, normalized) == ElementText(b, normalized)
    decreases a, 1
  {
    hide FieldsText, FieldsAgree;
    if a.code.Record? {
      FieldsAgreeSameText(a.children, b.children, normalized);
    }
  }

  lemma {:induction false} FieldsAgreeSameText(fs: seq<DataElement>, gs: seq<DataElement>, normalized: bool)
    requires FieldsAgree(fs, gs, normalized)
    ensures FieldsText(fs, normalized) == FieldsText(gs, normalized)
    decreases fs, 0
  {
    hide ElementText, Agree;
    if |fs| > 0 {
      AgreeSameText(fs[0], gs[0], normalized);
      FieldsAgreeSameText(fs[1..], gs[1..], normalized);
    }
  }

  /** Which elements have a text: limits are for numbers and bytes only. */
  predicate HasText(e: DataElement)
    decreases e, 1
  {
    if e.code.Record? then FieldsHaveText(e.children) else e.limits.Some? ==> !IsCharType(e.code) && !e.code.Bool?
  }

  predicate FieldsHaveText(fs: seq<DataElement>)
    decreases fs, 0
  {
    forall i :: 0 <= i < |fs| ==> HasText(fs[i])
  }

  lemma {:induction false} TextExists(e: DataElement, normalized: bool)
    ensures ElementText(e, normalized).Some? <==> HasText(e)
    decreases e, 1
  {
    hide FieldsText, FieldsHaveText, LimitsText, ArrayText;
    if e.code.Record? {
      FieldsTextExists(e.children, normalized);
    }
  }

  lemma {:induction false} FieldsTextExists(fs: seq<DataElement>, normalized: bool)
    ensures FieldsText(fs, normalized).Some? <==> FieldsHaveText(fs)
    decreases fs, 0
  {
    hide ElementText, HasText;
    if |fs| > 0 {
      TextExists(fs[0], normalized);
      FieldsTextExists(fs[1..], normalized);
      assert forall i :: 0 < i < |fs| ==> fs[i] == fs[1..][i - 1];
      assert FieldsHaveText(fs) ==> FieldsHaveText(fs[1..]);
    }
  }

  /** What compiles has a text. */
  lemma {:induction false} CompiledHasText(e: DataElement)
    requires Compiles(e)
    ensures HasText(e)
    decreases e, 1
  {
    if e.code.Record? {
      FieldsCompiledHaveText(e.children);
    }
  }

  lemma {:induction false} FieldsCompiledHaveText(fs: seq<DataElement>)
    requires FieldsCompile(fs)
    ensures FieldsHaveText(fs)
    decreases fs, 0
  {
    hide Compiles, HasText;
    if |fs| > 0 {
      CompiledHasText(fs[0]);
      FieldsCompiledHaveText(fs[1..]);
      forall i | 0 <= i < |fs| ensures HasText(fs[i]) {
        if i > 0 { assert fs[i] == fs[1..][i - 1]; }
      }
    }
  }

  /**
   * Text injectivity: texts are equal exactly for elements that agree. A text that is not
   * normalised tells everything, capacities of dynamic arrays included.
   */
  lemma TextExact(a: DataElement, b: DataElement, normalized: bool)
    requires ElementText(a, normalized).Some? && ElementText(b, normalized).Some? && NamesEscaped(a) && NamesEscaped(b)
    ensures ElementText(a, normalized) == ElementText(b, normalized) <==> Agree(a, b, normalized)
  {
    hide ElementText, Agree, NamesEscaped;
    var s, t := ElementText(a, normalized).value, ElementText(b, normalized).value;
    if s == t {
      assert s + [] == s && t + [] == t;
      ElementUnique(a, b, [], [], normalized);
    } else if Agree(a, b, normalized) {
      AgreeSameText(a, b, normalized);
    }
  }

  // ---------- signatures ----------

  /** Signature injectivity: equal signatures are equal names, and elements that agree. */
  lemma SignatureExact(n: Name, a: DataElement, m: Name, b: DataElement)
    requires PortSignature(n, a).Some? && PortSignature(m, b).Some?
    requires WellEscaped(n) && WellEscaped(m) && NamesEscaped(a) && NamesEscaped(b)
    ensures PortSignature(n, a) == PortSignature(m, b) <==> n == m && Agree(a, b, true)
  {
    hide ElementText, Agree, NamesEscaped;
    var s, t := ElementText(a, true).value, ElementText(b, true).value;
    if PortSignature(n, a) == PortSignature(m, b) {
      Cancel(QUOTE, QUOTE, n + ([QUOTE] + s), m + ([QUOTE] + t));
      QuoteUnique(n, m, s, t);
      assert s + [] == s && t + [] == t;
      ElementUnique(a, b, [], [], true);
    } else if Agree(a, b, true) {
      AgreeSameText(a, b, true);
    }
  }

  /** Elements that agree and have no dynamic array are of one size. */
  lemma {:induction false} AgreeSameSize(a: DataElement, b: DataElement)
    requires Agree(a, b, true) && !HasDynamicData(a)
    ensures WrappedSize(a) == WrappedSize(b) && Size(a) == Size(b)
    decreases a, 1
  {
    hide FieldsAgree, AnyDynamic, WrappedFieldsSize, FieldsSize, Times;
    if a.code.Record? {
      FieldsAgreeSameSize(a.children, b.children);
    }
  }

  lemma {:induction false} FieldsAgreeSameSize(fs: seq<DataElement>, gs: seq<DataElement>)
    requires FieldsAgree(fs, gs, true) && !AnyDynamic(fs)
    ensures WrappedFieldsSize(fs) == WrappedFieldsSize(gs) && FieldsSize(fs) == FieldsSize(gs)
    decreases fs, 0
  {
    hide Agree, HasDynamicData, WrappedSize, Size;
    if |fs| > 0 {
      AgreeSameSize(fs[0], gs[0]);
      FieldsAgreeSameSize(fs[1..], gs[1..]);
    }
  }

  /** What routing needs: ports without dynamic data that share a signature are of one compiled size. */
  lemma EqualSignatureEqualSize(n: Name, a: DataElement, m: Name, b: DataElement)
    requires PortSignature(n, a).Some? && PortSignature(n, a) == PortSignature(m, b) && !HasDynamicData(a)
    requires WellEscaped(n) && WellEscaped(m) && NamesEscaped(a) && NamesEscaped(b)
    ensures WrappedSize(a) == WrappedSize(b)
  {
    hide ElementText, Agree, NamesEscaped, PortSignature;
    SignatureExact(n, a, m, b);
    AgreeSameSize(a, b);
  }

  /** Port `x` was declared under this name with this element, which has no dynamic data. */
  ghost predicate Declares(t: Routing.Topology, x: Routing.Port, name: Name, e: DataElement) {
    && PortSignature(name, e) == Some(Routing.Sig(t, x)) && Routing.Info(t, x).size == WrappedSize(e)
    && !HasDynamicData(e) && WellEscaped(name) && NamesEscaped(e)
  }

  /** Which discharges what routing asks of signatures. */
  lemma DeclaredSizes(t: Routing.Topology, declared: map<Routing.Port, (Name, DataElement)>)
    requires forall x :: Routing.IsPort(t, x) ==> x in declared && Declares(t, x, declared[x].0, declared[x].1)
    requires forall n :: n in t ==> Routing.Placed(t[n].provide) && Routing.Placed(t[n].require)
    ensures Routing.WellFormed(t)
  {
    hide ElementText, Agree, NamesEscaped, PortSignature, WrappedSize, HasDynamicData, Routing.Placed, Routing.TotalSize, Routing.Info;
    forall x, y | Routing.IsPort(t, x) && Routing.IsPort(t, y) && Routing.Sig(t, x) == Routing.Sig(t, y)
      ensures Routing.Info(t, x).size == Routing.Info(t, y).size
    {
      EqualSignatureEqualSize(declared[x].0, declared[x].1, declared[y].0, declared[y].1);
    }
  }

  // ---------- where signatures are not enough ----------

  lemma {:induction false} AgreeSelf(a: DataElement)
    ensures Agree(a, a, true)
    decreases a, 1
  {
    hide FieldsAgree;
    if a.code.Record? {
      FieldsAgreeSelf(a.children);
    }
  }

  lemma {:induction false} FieldsAgreeSelf(fs: seq<DataElement>)
    ensures FieldsAgree(fs, fs, true)
    decreases fs, 0
  {
    hide Agree;
    if |fs| > 0 {
      AgreeSelf(fs[0]);
      FieldsAgreeSelf(fs[1..]);
    }
  }

  lemma CapacityCounts(n: nat, m: nat, base: nat)
    requires n < m && base > 0
    ensures Times(n, base) + LengthSize(n) < Times(m, base) + LengthSize(m)
  {
    TimesIs(n, base);
    TimesIs(m, base);
    assert (m - n) * base > 0;
  }

  lemma ScaledDiffers(n: nat, x: nat, y: nat)
    requires n > 0 && x != y
    ensures Times(n, x) != Times(n, y)
  {
    TimesIs(n, x);
    TimesIs(n, y);
  }

  /** Every compilable element with dynamic data agrees with one of another size: change one capacity. */
  lemma {:induction false} OtherCapacity(a: DataElement) returns (b: DataElement)
    requires Compiles(a) && HasDynamicData(a)
    ensures Agree(a, b, true) && b.name == a.name && Size(a) != Size(b) && (NamesEscaped(a) ==> NamesEscaped(b))
    decreases a, 1
  {
    hide FieldsAgree, FieldsCompile, AnyDynamic, FieldsSize, FieldNamesEscaped, LengthSize, Times;
    if a.IsDynamicArray() {
      b := a.(arrayLen := if a.arrayLen > 1 then a.arrayLen - 1 else 2);
      FieldsAgreeSelf(a.children);
      var base := Size(a.(arrayLen := 0));
      CompiledNotEmpty(a.(arrayLen := 0));
      if a.arrayLen > 1 {
        CapacityCounts(b.arrayLen, a.arrayLen, base);
      } else {
        CapacityCounts(a.arrayLen, b.arrayLen, base);
      }
    } else {
      var fields := OtherCapacities(a.children);
      b := a.(children := fields);
      if a.arrayLen > 0 {
        ScaledDiffers(a.arrayLen, FieldsSize(a.children), FieldsSize(fields));
      }
    }
  }

  lemma {:induction false} OtherCapacities(fs: seq<DataElement>) returns (gs: seq<DataElement>)
    requires FieldsCompile(fs) && AnyDynamic(fs)
    ensures FieldsAgree(fs, gs, true) && FieldsSize(fs) != FieldsSize(gs) && (FieldNamesEscaped(fs) ==> FieldNamesEscaped(gs))
    decreases fs, 0
  {
    hide Agree, Compiles, HasDynamicData, Size, NamesEscaped;
    if HasDynamicData(fs[0]) {
      var first := OtherCapacity(fs[0]);
      gs := [first] + fs[1..];
      assert gs[1..] == fs[1..];
      FieldsAgreeSelf(fs[1..]);
    } else {
      var rest := OtherCapacities(fs[1..]);
      gs := [fs[0]] + rest;
      assert gs[1..] == rest;
      AgreeSelf(fs[0]);
    }
  }

  /** A signature determines the size exactly if there is no dynamic data: its capacity is left out. */
  lemma SignatureSizeExact(n: Name, a: DataElement)
    requires Compiles(a) && WellEscaped(n) && NamesEscaped(a)
    ensures !HasDynamicData(a) <==>
      forall m: Name, b :: WellEscaped(m) && NamesEscaped(b) && PortSignature(m, b) == PortSignature(n, a) ==> Size(b) == Size(a)
  {
    hide ElementText, Agree, NamesEscaped, PortSignature, Compiles, HasDynamicData, Size;
    CompiledHasSignature(n, a);
    if HasDynamicData(a) {
      var b := OtherCapacity(a);
      AgreeSameSignature(n, a, b);
    } else {
      forall m: Name, b | WellEscaped(m) && NamesEscaped(b) && PortSignature(m, b) == PortSignature(n, a) ensures Size(b) == Size(a) {
        SignatureExact(n, a, m, b);
        AgreeSameSize(a, b);
      }
    }
  }

  lemma CompiledHasSignature(n: Name, e: DataElement)
    requires Compiles(e)
    ensures PortSignature(n, e).Some?
  {
    hide ElementText, Compiles, HasText;
    CompiledHasText(e);
    TextExists(e, true);
  }

  lemma AgreeSameSignature(n: Name, a: DataElement, b: DataElement)
    requires Agree(a, b, true)
    ensures PortSignature(n, a) == PortSignature(n, b)
  {
    hide ElementText, Agree;
    AgreeSameText(a, b, true);
  }

  /** Such elements compile as well, if their size still fits 32 bits. */
  lemma {:induction false} AgreeCompiles(a: DataElement, b: DataElement)
    requires Agree(a, b, true) && Compiles(a) && Size(b) < U32_MOD
    ensures Compiles(b)
    decreases a, 1
  {
    hide FieldsAgree, FieldsCompile, FieldsSize, WrappedFieldsSize, Times;
    if a.code.Record? {
      if b.arrayLen > 0 {
        TimesAtLeast(b.arrayLen, FieldsSize(b.children));
      }
      FieldsAgreeCompile(a.children, b.children);
    }
  }

  lemma {:induction false} FieldsAgreeCompile(fs: seq<DataElement>, gs: seq<DataElement>)
    requires FieldsAgree(fs, gs, true) && FieldsCompile(fs) && FieldsSize(gs) < U32_MOD
    ensures FieldsCompile(gs) && |fs| == |gs| && (|gs| > 0 ==> WrappedFieldsSize(gs) > 0)
    decreases fs, 0
  {
    hide Agree, Compiles, Size, WrappedSize;
    if |fs| > 0 {
      AgreeCompiles(fs[0], gs[0]);
      FieldsAgreeCompile(fs[1..], gs[1..]);
      CompiledNotEmpty(gs[0]);
      SizeExact(gs[0]);
      FieldsSizeExact(gs);
    }
  }

  /** Two capacities of one signature. */
  lemma DynamicCapacityIsLost(name: Name)
    ensures var a := DataElement([], UInt8, 10, true, None, []);
            var b := DataElement([], UInt8, 300, true, None, []);
            PortSignature(name, a) == PortSignature(name, b) && PortSignature(name, a).Some? && Size(a) != Size(b)
  {
    TimesIs(10, 1);
    TimesIs(300, 1);
  }

  /** With a bare quote in a field name, which only a caller of apx_dataElement_set_name_cstr can give it, two different records share a signature. */
  lemma QuotedNamesCollide(name: Name)
    ensures var x: Name := [0x61];
            var y: Name := [0x62];
            var quoted: Name := [0x61, QUOTE, 0x43, QUOTE, 0x62];
            var two := DataElement([], Record, 0, false, None, [DataElement(x, UInt8, 0, false, None, []), DataElement(y, UInt8, 0, false, None, [])]);
            var one := DataElement([], Record, 0, false, None, [DataElement(quoted, UInt8, 0, false, None, [])]);
            PortSignature(name, two).Some? && PortSignature(name, two) == PortSignature(name, one) && !Agree(two, one, true) && !WellEscaped(quoted)
  {
    var x: Name := [0x61];
    var y: Name := [0x62];
    var quoted: Name := [0x61, QUOTE, 0x43, QUOTE, 0x62];
    var f, g, h := DataElement(x, UInt8, 0, false, None, []), DataElement(y, UInt8, 0, false, None, []), DataElement(quoted, UInt8, 0, false, None, []);
    var two, one := DataElement([], Record, 0, false, None, [f, g]), DataElement([], Record, 0, false, None, [h]);
    ScalarText(x);
    ScalarText(y);
    ScalarText(quoted);
    assert [f, g] == [f] + [g] && [g] == [g] + [] && [h] == [h] + [];
    hide ElementText;
    OneMore(f, [g]);
    OneMore(g, []);
    OneMore(h, []);
    assert [QUOTE] + (x + ([QUOTE] + ([0x43] + ([QUOTE] + (y + ([QUOTE] + ([0x43] + [])))))))
        == [QUOTE] + (quoted + ([QUOTE] + ([0x43] + [])));
    RecordsAlike(two, one);
    assert |two.children| != |one.children|;
    assert quoted[1..][0] == QUOTE;
  }

  lemma OneMore(f: DataElement, rest: seq<DataElement>)
    requires ElementText(f, true).Some? && FieldsText(rest, true).Some?
    ensures FieldsText([f] + rest, true) == Some([QUOTE] + (f.name + ([QUOTE] + (ElementText(f, true).value + FieldsText(rest, true).value))))
  {
    hide ElementText;
    assert ([f] + rest)[1..] == rest;
  }

  lemma ScalarText(name: Name)
    ensures ElementText(DataElement(name, UInt8, 0, false, None, []), true) == Some([0x43])
  {
    NoLimits();
    assert [0x43] + ([] + []) == [0x43 as byte];
  }

  lemma RecordsAlike(a: DataElement, b: DataElement)
    requires a.code.Record? && b.code.Record? && a.arrayLen == 0 && b.arrayLen == 0
    requires FieldsText(a.children, true) == FieldsText(b.children, true)
    ensures ElementText(a, true) == ElementText(b, true)
    ensures ElementText(a, true).Some? <==> FieldsText(a.children, true).Some?
  {
  }

  // ---------- writing the text ----------

  /** array_to_string */
  method ArrayToString(e: DataElement, normalized: bool) returns (text: seq<byte>)
    requires e.IsArray()
    ensures text == ArrayText(e, normalized)
  {
    if e.isDynamic && normalized {
      text := [OPEN_BRACKET, STAR, CLOSE_BRACKET];
    } else {
      text := [OPEN_BRACKET] + Decimal(e.arrayLen) + (if e.isDynamic then [STAR, CLOSE_BRACKET] else [CLOSE_BRACKET]);
    }
  }

  /** apx_dataElement_to_string, which appends to a string field by field */
  method ToString(e: DataElement, normalized: bool) returns (result: Option<seq<byte>>)
    ensures result == ElementText(e, normalized)
    decreases e
  {
    hide FieldsText, ArrayText, LimitsText;
    var text: seq<byte>;
    if e.code.Record? {
      text := [OPEN_BRACE];
      for i := 0 to |e.children|
        invariant FieldsText(e.children, normalized).Some? <==> FieldsText(e.children[i..], normalized).Some?
        invariant FieldsText(e.children, normalized).Some? ==>
          [OPEN_BRACE] + FieldsText(e.children, normalized).value == text + FieldsText(e.children[i..], normalized).value
      {
        var child := e.children[i];
        FieldsStep(e.children, i, normalized);
        text := text + [QUOTE];
        text := text + child.name;
        text := text + [QUOTE];
        var signature := ToString(child, normalized);
        if signature.None? {
          return None;
        }
        text := text + signature.value;
      }
      NoFields(e.children, normalized);
      assert text + [] == text;
      text := text + [CLOSE_BRACE];
    } else {
      text := [TypeChar(e.code)];
      if e.limits.Some? {
        if !LimitsPrint(e.code) {
          return None;
        }
        text := text + LimitsText(e.limits);
      } else {
        NoLimits();
        assert text + LimitsText(e.limits) == text;
      }
    }
    if e.IsArray() {
      var suffix := ArrayToString(e, normalized);
      text := text + suffix;
    } else {
      NoArray(e, normalized);
      assert text + ArrayText(e, normalized) == text;
    }
    TextJoined(e, normalized);
    return Some(text);
  }

  lemma TextJoined(e: DataElement, normalized: bool)
    requires ElementText(e, normalized).Some?
    ensures ElementText(e, normalized).value
         == if e.code.Record? then [OPEN_BRACE] + FieldsText(e.children, normalized).value + [CLOSE_BRACE] + ArrayText(e, normalized)
            else [TypeChar(e.code)] + LimitsText(e.limits) + ArrayText(e, normalized)
  {
    hide FieldsText, ArrayText, LimitsText;
  }

  lemma FieldsStep(fs: seq<DataElement>, i: nat, normalized: bool)
    requires i < |fs|
    ensures FieldsText(fs[i..], normalized)
         == (var first, rest := ElementText(fs[i], normalized), FieldsText(fs[i + 1..], normalized);
             if first.None? || rest.None? then None else Some([QUOTE] + (fs[i].name + ([QUOTE] + (first.value + rest.value)))))
  {
    hide ElementText;
    assert fs[i..][0] == fs[i] && fs[i..][1..] == fs[i + 1..];
  }

  lemma NoFields(fs: seq<DataElement>, normalized: bool)
    ensures FieldsText(fs[|fs|..], normalized) == Some([]) && fs[0..] == fs
  {
  }

  lemma NoLimits()
    ensures LimitsText(None) == []
  {
  }

  lemma NoArray(e: DataElement, normalized: bool)
    requires !e.IsArray()
    ensures ArrayText(e, normalized) == []
  {
  }
}
