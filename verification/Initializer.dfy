/**
 * The grammar of port initializers (apx/src/attribute_parser.c) as recursive functions: the
 * meaning that the iterative parser is proved to have on every text.
 */
module Initializers {
  import opened Common
  import opened Bytes

  const OPEN_BRACE: byte := 0x7B
  const CLOSE_BRACE: byte := 0x7D
  const COMMA: byte := 0x2C
  const QUOTE: byte := 0x22
  const BACKSLASH: byte := 0x5C
  const MINUS: byte := 0x2D
  const PLUS: byte := 0x2B
  const ZERO: byte := 0x30
  const ULONG_MAX := U64_MOD - 1

  /** Initial values: a scalar that was never set, numbers, texts and lists. */
  datatype Tree = Unset | Number(n: int) | Text(s: seq<byte>) | List(items: seq<Tree>)

  // ---------- characters ----------

  predicate IsSpace(c: byte) { c == 0x20 || 0x09 <= c <= 0x0D }

  predicate IsDigit(c: byte) { ZERO <= c <= 0x39 }

  /** The character at `p`; the text is followed by a NUL. */
  function CharAt(text: seq<byte>, p: nat): byte {
    if p < |text| then text[p] else 0
  }

  /** bstr_lstrip */
  function Skip(text: seq<byte>, p: nat): (q: nat)
    requires p <= |text|
    ensures p <= q <= |text| && !IsSpace(CharAt(text, q))
    decreases |text| - p
  {
    if p < |text| && IsSpace(text[p]) then Skip(text, p + 1) else p
  }

  // ---------- numbers ----------

  /** The value of a digit in any base up to 16, or 16. */
  function DigitValue(c: byte): nat {
    if IsDigit(c) then c - ZERO
    else if 0x41 <= c <= 0x46 then c - 0x41 + 10
    else if 0x61 <= c <= 0x66 then c - 0x61 + 10
    else 16
  }

  /** The end of the run of digits that starts at `p`. */
  function DigitsEnd(text: seq<byte>, p: nat, base: nat): (q: nat)
    requires p <= |text|
    ensures p <= q <= |text|
    decreases |text| - p
  {
    if p < |text| && DigitValue(text[p]) < base then DigitsEnd(text, p + 1, base) else p
  }

  function DigitsValue(digits: seq<byte>, base: nat): nat {
    if |digits| == 0 then 0 else base * DigitsValue(digits[..|digits| - 1], base) + DigitValue(digits[|digits| - 1])
  }

  /**
   * The number at `t` and its end, without space or sign: hexadecimal behind 0x or 0X and a
   * digit, octal behind a 0, else decimal. Without a number the end is `t`.
   */
  function Magnitude(text: seq<byte>, t: nat): (r: (nat, nat))
    requires t <= |text|
    ensures t <= r.1 <= |text|
  {
    var isHex := CharAt(text, t) == ZERO && (CharAt(text, t + 1) == 0x78 || CharAt(text, t + 1) == 0x58)
                 && DigitValue(CharAt(text, t + 2)) < 16;
    var base := if isHex then 16 else if CharAt(text, t) == ZERO then 8 else 10;
    var first := if isHex then t + 2 else t;
    var end := DigitsEnd(text, first, base);
    if end == first then (0, t) else (DigitsValue(text[first..end], base), end)
  }

  /**
   * strtoul with base 0 on the text from `p` on (sections 7.22.1.4 and 7.22.1.3 of ISO C11):
   * optional white space and sign, then a number. The result saturates at the 64-bit maximum,
   * a negated one wraps around. Without a number `end == p`.
   */
  function StrToUL(text: seq<byte>, p: nat): (r: (nat, nat))
    requires p <= |text|
    ensures p <= r.1 <= |text|
  {
    var s := Skip(text, p);
    var negative := CharAt(text, s) == MINUS;
    var t := if negative || CharAt(text, s) == PLUS then s + 1 else s;
    var (n, end) := Magnitude(text, t);
    if end == t then (0, p)
    else (if n > ULONG_MAX then ULONG_MAX else if negative then (U64_MOD - n) % U64_MOD else n, end)
  }

  /** The number that is stored for a magnitude: as signed 32 bits if it fits, else as unsigned 32 bits without its sign. */
  function StoredNumber(value: nat, unaryMinus: bool): int {
    if unaryMinus && value == 0x8000_0000 then I32_MIN
    else if value > I32_MAX then value % U32_MOD
    else if unaryMinus then -(value as int) else value
  }

  /** apx_attributeParser_parse_integer_literal */
  function IntegerLiteral(text: seq<byte>, p: nat, unaryMinus: bool): Option<(int, nat)>
    requires p <= |text|
  {
    var (value, end) := StrToUL(text, p);
    if end > p then Some((StoredNumber(value, unaryMinus), end)) else None
  }

  // ---------- texts ----------

  /** bstr_match_pair: the quote that ends a text whose content starts at `p`; a backslash hides the next character. */
  function ClosingQuote(text: seq<byte>, p: nat): (q: Option<nat>)
    ensures q.Some? ==> p <= q.value < |text|
    decreases |text| - p
  {
    if p >= |text| then None
    else if text[p] == BACKSLASH then ClosingQuote(text, p + 2)
    else if text[p] == QUOTE then Some(p)
    else ClosingQuote(text, p + 1)
  }

  // ---------- scalars ----------

  /** What parse_scalar finds: maybe a value, and the position after it; nothing for a lone minus. */
  function Scalar(text: seq<byte>, p: nat): (r: Option<(Option<Tree>, nat)>)
    requires p <= |text|
    ensures r.Some? ==> p <= r.value.1 <= |text|
  {
    var c := CharAt(text, p);
    if IsDigit(c) then
      match IntegerLiteral(text, p, false)
      case Some((n, end)) => Some((Some(Number(n)), end))
      case None => Some((Some(Unset), p))
    else if c == MINUS then
      if p + 1 >= |text| then None else
        match IntegerLiteral(text, p + 1, true)
        case Some((n, end)) => Some((Some(Number(n)), end))
        case None => Some((Some(Unset), p + 1))
    else if c == QUOTE then
      match ClosingQuote(text, p + 1)
      case Some(q) => Some((Some(Text(text[p + 1..q])), q + 1))
      case None => Some((Some(Unset), p))
    else Some((None, p))
  }

  // ---------- lists ----------

  datatype Parsed = Items(items: seq<Tree>, next: nat) | Incomplete | Refused

  function Append(items: seq<Tree>, v: Option<Tree>): seq<Tree> {
    if v.Some? then items + [v.value] else items
  }

  /** The rest of a list of which `items` have been read, from the start of its next item on. */
  function ParseItems(text: seq<byte>, p: nat, items: seq<Tree>): (r: Parsed)
    ensures r.Items? ==> p < r.next <= |text|
    decreases |text| - p, 1
  {
    if p >= |text| then Incomplete else
      var q := Skip(text, p);
      if CharAt(text, q) == OPEN_BRACE then
        match ParseItems(text, q + 1, [])
        case Items(inner, next) => AfterItem(text, next, items + [List(inner)])
        case r => r
      else
        match Scalar(text, q)
        case None => Refused
        case Some((v, next)) => AfterItem(text, next, Append(items, v))
  }

  /** The rest of a list from the end of an item on: a comma or the closing brace. */
  function AfterItem(text: seq<byte>, p: nat, items: seq<Tree>): (r: Parsed)
    requires p <= |text|
    ensures r.Items? ==> p < r.next <= |text|
    decreases |text| - p, 0
  {
    var q := Skip(text, p);
    var c := CharAt(text, q);
    if |items| > 0 && c == COMMA then ParseItems(text, q + 1, items)
    else if c == CLOSE_BRACE then Items(items, q + 1)
    else Refused
  }

  /** The outcome of a parse: refused, or the position reached and the value found, if any. */
  datatype Initializer = Rejected | Accepted(next: nat, value: Option<Tree>)

  /** A parsed outermost list, as the value of the initializer. */
  function OfList(text: seq<byte>, r: Parsed): Initializer
    requires r.Items? ==> r.next <= |text|
  {
    match r
    case Items(items, next) => Accepted(Skip(text, next), Some(List(items)))
    case Incomplete => Accepted(|text|, None)
    case Refused => Rejected
  }

  /** A whole text: a list or a scalar. */
  function ParseText(text: seq<byte>): Initializer {
    if |text| == 0 then Accepted(0, None) else
      var q := Skip(text, 0);
      if CharAt(text, q) == OPEN_BRACE then OfList(text, ParseItems(text, q + 1, []))
      else
        match Scalar(text, q)
        case None => Rejected
        case Some((v, next)) => Accepted(Skip(text, next), v)
  }

  /** What an initializer text means: no value is taken from a text of which nothing was used. */
  function ParseInitializer(text: seq<byte>): Initializer {
    match ParseText(text)
    case Rejected => Rejected
    case Accepted(next, v) => Accepted(next, if next > 0 then v else None)
  }

  // ---------- numerals ----------

  function Decimal(n: nat): (r: seq<byte>)
    ensures |r| > 0
  {
    if n < 10 then [ZERO + n] else Decimal(n / 10) + [ZERO + n % 10]
  }

  /** A digit that stands for `v`, letters being of either case. */
  predicate DigitOf(c: byte, v: nat) {
    if v < 10 then c == 0x30 + v else v < 16 && (c == 0x41 + (v - 10) || c == 0x61 + (v - 10))
  }

  /** The digits of `n` to one of the bases of the language, with any zeros in front. */
  predicate DigitsOf(digits: seq<byte>, n: nat, base: nat)
    requires base == 8 || base == 10 || base == 16
  {
    |digits| > 0 && DigitOf(digits[|digits| - 1], n % base)
    && if |digits| == 1 then n < base else DigitsOf(digits[..|digits| - 1], n / base, base)
  }

  /** How `n` may be written: decimal, octal behind a 0, or hexadecimal behind 0x or 0X. */
  predicate Numeral(digits: seq<byte>, n: nat) {
    || (DigitsOf(digits, n, 10) && digits[0] != 0x30)
    || (DigitsOf(digits, n, 8) && digits[0] == 0x30)
    || (|digits| > 2 && digits[0] == 0x30 && (digits[1] == 0x78 || digits[1] == 0x58) && DigitsOf(digits[2..], n, 16))
  }

  lemma {:induction false} DecimalDigits(n: nat)
    ensures forall i :: 0 <= i < |Decimal(n)| ==> IsDigit(Decimal(n)[i])
    ensures Decimal(n)[0] == ZERO <==> n == 0
    ensures n == 0 ==> |Decimal(n)| == 1
  {
    if n >= 10 {
      DecimalDigits(n / 10);
    }
  }

  lemma {:induction false} DecimalValue(n: nat)
    ensures DigitsValue(Decimal(n), 10) == n
  {
    if n >= 10 {
      DecimalValue(n / 10);
      assert Decimal(n)[..|Decimal(n)| - 1] == Decimal(n / 10);
    } else {
      assert Decimal(n)[..0] == [] && DigitsValue([], 10) == 0;
    }
  }

  lemma {:induction false} DecimalIsNumeral(n: nat)
    ensures DigitsOf(Decimal(n), n, 10) && Numeral(Decimal(n), n)
  {
    DecimalDigits(n);
    if n >= 10 {
      DecimalIsNumeral(n / 10);
      assert Decimal(n)[..|Decimal(n)| - 1] == Decimal(n / 10);
    } else {
      assert |Decimal(n)| == 1 && n % 10 == n && (n == 0 ==> n % 8 == 0);
    }
  }

  lemma DigitIs(c: byte, v: nat)
    requires DigitOf(c, v)
    ensures DigitValue(c) == v < 16 && !IsSpace(c) && c != MINUS && c != PLUS && c != 0x78 && c != 0x58
  {
  }

  lemma {:induction false} DigitsAre(digits: seq<byte>, n: nat, base: nat)
    requires (base == 8 || base == 10 || base == 16) && DigitsOf(digits, n, base)
    ensures DigitsValue(digits, base) == n
    ensures forall i :: 0 <= i < |digits| ==> DigitValue(digits[i]) < base && !IsSpace(digits[i]) && digits[i] != MINUS && digits[i] != PLUS && digits[i] != 0x78 && digits[i] != 0x58
    decreases |digits|
  {
    hide DigitOf, DigitValue, IsSpace;
    DigitIs(digits[|digits| - 1], n % base);
    var rest := digits[..|digits| - 1];
    if |digits| > 1 {
      DigitsAre(rest, n / base, base);
      forall i | 0 <= i < |digits| - 1 ensures digits[i] == rest[i] {
      }
    } else {
      assert rest == [] && DigitsValue([], base) == 0;
    }
    DivMod(n, base);
  }

  lemma DivMod(n: nat, base: nat)
    requires base == 8 || base == 10 || base == 16
    ensures base * (n / base) + n % base == n && (n < base ==> n % base == n && n / base == 0)
  {
  }

  /** A run of digits ends where its text ends, if no digit follows. */
  lemma {:induction false} DigitsRun(text: seq<byte>, p: nat, end: nat, base: nat)
    requires p <= end <= |text| && forall i :: p <= i < end ==> DigitValue(text[i]) < base
    requires end < |text| ==> DigitValue(text[end]) >= base
    ensures DigitsEnd(text, p, base) == end
    decreases end - p
  {
    if p < end {
      DigitsRun(text, p + 1, end, base);
    }
  }

  /** What may follow a number: nothing that would continue it. */
  predicate Ends(rest: seq<byte>) {
    |rest| > 0 ==> rest[0] == COMMA || rest[0] == CLOSE_BRACE || IsSpace(rest[0])
  }

  lemma EndIs(rest: seq<byte>)
    requires Ends(rest) && |rest| > 0
    ensures DigitValue(rest[0]) == 16 && rest[0] != 0x78 && rest[0] != 0x58
  {
  }

  /** Digits in place: where they end and what they come to. */
  lemma DigitsInPlace(text: seq<byte>, p: nat, digits: seq<byte>, n: nat, base: nat, rest: seq<byte>)
    requires p <= |text| && text[p..] == digits + rest && Ends(rest)
    requires (base == 8 || base == 10 || base == 16) && DigitsOf(digits, n, base)
    ensures var end := p + |digits|;
            && p < end <= |text| && text[p..end] == digits && DigitsEnd(text, p, base) == end && DigitsValue(text[p..end], base) == n
            && (end < |text| ==> text[end] == rest[0]) && DigitValue(text[p]) < base
            && (forall i :: p <= i < end ==> text[i] == digits[i - p])
  {
    hide DigitOf, DigitValue, DigitsEnd, DigitsValue, DigitsOf;
    assert |digits| > 0 by { SomeDigits(digits, n, base); }
    var end := p + |digits|;
    DigitsAre(digits, n, base);
    assert text[p..][..|digits|] == digits && text[p..][|digits|..] == rest;
    forall i | p <= i < end ensures text[i] == digits[i - p] {
      assert text[i] == text[p..][i - p];
    }
    if end < |text| {
      assert text[end] == text[p..][|digits|] == rest[0];
      EndIs(rest);
    }
    DigitsRun(text, p, end, base);
  }

  lemma SomeDigits(digits: seq<byte>, n: nat, base: nat)
    requires (base == 8 || base == 10 || base == 16) && DigitsOf(digits, n, base)
    ensures |digits| > 0
  {
  }

  /** A numeral in place is read to its value and its end. */
  lemma NumeralReads(text: seq<byte>, t: nat, digits: seq<byte>, n: nat, rest: seq<byte>)
    requires t <= |text| && text[t..] == digits + rest && Numeral(digits, n) && Ends(rest)
    ensures |digits| > 0 && t + |digits| <= |text| && Magnitude(text, t) == (n, t + |digits|)
    ensures var c := CharAt(text, t); c == digits[0] && IsDigit(c) && !IsSpace(c) && c != MINUS && c != PLUS && c != OPEN_BRACE
  {
    hide DigitOf, DigitsEnd, DigitsValue, DigitsOf;
    if |digits| > 2 && digits[0] == 0x30 && (digits[1] == 0x78 || digits[1] == 0x58) && DigitsOf(digits[2..], n, 16) {
      PrefixInPlace(text, t, digits, rest);
      DigitsInPlace(text, t + 2, digits[2..], n, 16, rest);
    } else {
      NumeralNotEmpty(digits, n);
      var base := if digits[0] == 0x30 then 8 else 10;
      SomeDigits(digits, n, base);
      DigitsInPlace(text, t, digits, n, base, rest);
      DigitsAre(digits, n, base);
      FirstIsDigit(digits, n, base);
      NoPrefix(text, t, digits, rest);
    }
  }

  lemma PrefixInPlace(text: seq<byte>, t: nat, digits: seq<byte>, rest: seq<byte>)
    requires t <= |text| && text[t..] == digits + rest && |digits| > 2
    ensures t + 2 <= |text| && text[t + 2..] == digits[2..] + rest && text[t] == digits[0] && text[t + 1] == digits[1]
  {
    var tail := text[t..];
    assert tail[0] == text[t] && tail[1] == text[t + 1] && tail[2..] == text[t + 2..];
  }

  lemma FirstIsDigit(digits: seq<byte>, n: nat, base: nat)
    requires (base == 8 || base == 10) && DigitsOf(digits, n, base) && |digits| > 0 && DigitValue(digits[0]) < base
    ensures IsDigit(digits[0]) && !IsSpace(digits[0]) && digits[0] != MINUS && digits[0] != PLUS && digits[0] != OPEN_BRACE
  {
  }

  /** Behind the first digit of a number in base 8 or 10 there is no x. */
  lemma NoPrefix(text: seq<byte>, t: nat, digits: seq<byte>, rest: seq<byte>)
    requires t <= |text| && text[t..] == digits + rest && |digits| > 0 && Ends(rest)
    requires forall i :: 0 <= i < |digits| ==> digits[i] != 0x78 && digits[i] != 0x58
    ensures CharAt(text, t + 1) != 0x78 && CharAt(text, t + 1) != 0x58
  {
    if t + 1 < |text| {
      assert text[t + 1] == text[t..][1];
      if |digits| > 1 {
        assert text[t + 1] == digits[1];
      } else {
        assert text[t + 1] == rest[0];
        EndIs(rest);
      }
    }
  }

  // ---------- white space ----------

  predicate AllSpace(s: seq<byte>) { forall i :: 0 <= i < |s| ==> IsSpace(s[i]) }

  lemma {:induction false} SkipSpaces(text: seq<byte>, p: nat, spaces: seq<byte>, rest: seq<byte>)
    requires p <= |text| && text[p..] == spaces + rest && AllSpace(spaces) && (|rest| > 0 ==> !IsSpace(rest[0]))
    ensures p + |spaces| <= |text| && Skip(text, p) == p + |spaces| && text[p + |spaces|..] == rest
    decreases |spaces|
  {
    hide IsSpace;
    var tail := text[p..];
    assert tail[|spaces|..] == rest && tail[|spaces|..] == text[p + |spaces|..];
    if |spaces| > 0 {
      assert text[p] == tail[0] == spaces[0] && text[p + 1..] == tail[1..] == spaces[1..] + rest;
      SkipSpaces(text, p + 1, spaces[1..], rest);
    } else {
      assert p < |text| ==> text[p] == tail[0] == rest[0];
      NulIsNoSpace();
    }
  }

  lemma NulIsNoSpace()
    ensures !IsSpace(0)
  {
  }

  /**
   * strtoul on white space, a sign or none, and a numeral in any base: its value, saturated
   * at the 64-bit maximum, or negated modulo 2^64, and its end.
   */
  lemma StrToULExact(text: seq<byte>, p: nat, spaces: seq<byte>, sign: seq<byte>, digits: seq<byte>, n: nat, rest: seq<byte>)
    requires p <= |text| && text[p..] == spaces + (sign + (digits + rest)) && Numeral(digits, n) && Ends(rest)
    requires AllSpace(spaces) && (sign == [] || sign == [0x2D] || sign == [0x2B])
    ensures StrToUL(text, p)
         == (if n >= 0x1_0000_0000_0000_0000 then 0xFFFF_FFFF_FFFF_FFFF
             else if sign == [0x2D] && n > 0 then 0x1_0000_0000_0000_0000 - n else n,
             p + |spaces| + |sign| + |digits|)
  {
    hide Magnitude, Numeral, Skip;
    var t := p + |spaces| + |sign|;
    var tail := text[p..];
    assert tail[|spaces| + |sign|..] == digits + rest && tail[|spaces| + |sign|..] == text[t..];
    NumeralReads(text, t, digits, n, rest);
    assert (digits + rest)[0] == text[t..][0] == text[t];
    SkipSpaces(text, p, spaces, sign + (digits + rest));
    if sign != [] {
      assert text[p + |spaces|] == (sign + (digits + rest))[0] == sign[0];
    }
  }

  // ---------- written trees ----------

  /**
   * A tree as it is written: numbers in any base, a minus with white space behind it, texts,
   * and lists with white space around their items.
   */
  datatype Written =
    | Numbered(minus: bool, gap: seq<byte>, digits: seq<byte>, n: nat)
    | Quoted(s: seq<byte>)
    | Listed(items: seq<Item>, inner: seq<byte>)

  datatype Item = Item(before: seq<byte>, what: Written, after: seq<byte>)

  /** The text. White space inside an empty list is `inner`. */
  function Render(w: Written): (r: seq<byte>)
    decreases w, 1
  {
    match w
    case Numbered(minus, gap, digits, _) => (if minus then [MINUS] + gap else []) + digits
    case Quoted(s) => [QUOTE] + s + [QUOTE]
    case Listed(items, inner) => [OPEN_BRACE] + ((if |items| == 0 then inner else []) + RenderRest(items))
  }

  /** The items of a list and the brace behind them. */
  function RenderRest(items: seq<Item>): (r: seq<byte>)
    ensures |r| > 0
    decreases items, 0
  {
    if |items| == 0 then [CLOSE_BRACE]
    else items[0].before + (Render(items[0].what) + (items[0].after + ((if |items| > 1 then [COMMA] else []) + RenderRest(items[1..]))))
  }

  /** The tree that is meant. */
  function Meant(w: Written): Tree
    decreases w, 1
  {
    match w
    case Numbered(minus, _, _, n) => Number(if minus then -(n as int) else n)
    case Quoted(s) => Text(s)
    case Listed(items, _) => List(AllMeant(items))
  }

  function AllMeant(items: seq<Item>): (r: seq<Tree>)
    ensures |r| == |items|
    decreases items, 0
  {
    if |items| == 0 then [] else [Meant(items[0].what)] + AllMeant(items[1..])
  }

  /** Texts whose quotes are all escaped by a backslash and that do not end within an escape. */
  predicate WellEscaped(s: seq<byte>) {
    |s| == 0
    || (s[0] == BACKSLASH && |s| > 1 && WellEscaped(s[2..]))
    || (s[0] != BACKSLASH && s[0] != QUOTE && WellEscaped(s[1..]))
  }

  predicate WellWritten(w: Written)
    decreases w, 1
  {
    match w
    case Numbered(minus, gap, digits, n) => Numeral(digits, n) && AllSpace(gap)
    case Quoted(s) => WellEscaped(s)
    case Listed(items, inner) => AllWellWritten(items) && AllSpace(inner)
  }

  predicate AllWellWritten(items: seq<Item>)
    decreases items, 0
  {
    |items| == 0 || (AllSpace(items[0].before) && WellWritten(items[0].what) && AllSpace(items[0].after) && AllWellWritten(items[1..]))
  }

  /** The number that comes back for a written one. */
  function ReadBack(n: int): int {
    var magnitude := if n < 0 then -n else n;
    StoredNumber(if magnitude > ULONG_MAX then ULONG_MAX else magnitude, n < 0)
  }

  function Stored(t: Tree): Tree
    decreases t, 1
  {
    match t
    case Number(n) => Number(ReadBack(n))
    case List(items) => List(AllStored(items))
    case _ => t
  }

  function AllStored(items: seq<Tree>): (r: seq<Tree>)
    ensures |r| == |items|
    decreases items, 0
  {
    if |items| == 0 then [] else [Stored(items[0])] + AllStored(items[1..])
  }

  predicate InRange(t: Tree)
    decreases t, 1
  {
    match t
    case Number(n) => I32_MIN <= n <= U32_MAX
    case List(items) => AllInRange(items)
    case _ => true
  }

  predicate AllInRange(items: seq<Tree>)
    decreases items, 0
  {
    |items| == 0 || (InRange(items[0]) && AllInRange(items[1..]))
  }

  // ---------- written texts are read back ----------

  /** The texts that can stand before a closing quote are exactly the well-escaped ones. */
  lemma {:induction false} ClosingQuoteExact(text: seq<byte>, p: nat, n: nat)
    requires p + n < |text|
    ensures ClosingQuote(text, p) == Some(p + n) <==> text[p + n] == QUOTE && WellEscaped(text[p..p + n])
    decreases n
  {
    var s := text[p..p + n];
    if n > 0 {
      assert text[p] == s[0];
      if s[0] == BACKSLASH {
        if n > 1 {
          assert text[p + 2..p + 2 + (n - 2)] == s[2..];
          ClosingQuoteExact(text, p + 2, n - 2);
        }
      } else {
        assert text[p + 1..p + 1 + (n - 1)] == s[1..];
        ClosingQuoteExact(text, p + 1, n - 1);
      }
    }
  }

  /** A written scalar is read back as what is stored for it. */
  lemma ScalarReadsBack(text: seq<byte>, p: nat, w: Written, rest: seq<byte>)
    requires WellWritten(w) && !w.Listed? && p <= |text| && text[p..] == Render(w) + rest && Ends(rest)
    ensures |Render(w)| > 0 && Scalar(text, p) == Some((Some(Stored(Meant(w))), p + |Render(w)|))
    ensures CharAt(text, p) != OPEN_BRACE && !IsSpace(CharAt(text, p))
  {
    hide Scalar, Numeral, AllSpace, StoredNumber;
    match w
    case Numbered(minus, gap, digits, n) =>
      if minus {
        NegativeReads(text, p, gap, digits, n, rest);
      } else {
        NumberReads(text, p, digits, n, rest);
      }
    case Quoted(s) =>
      TextReads(text, p, s, rest);
  }

  lemma NegativeReads(text: seq<byte>, p: nat, gap: seq<byte>, digits: seq<byte>, n: nat, rest: seq<byte>)
    requires Numeral(digits, n) && AllSpace(gap) && Ends(rest)
    requires p <= |text| && text[p..] == [MINUS] + gap + digits + rest
    ensures Scalar(text, p) == Some((Some(Number(ReadBack(-(n as int)))), p + 1 + |gap| + |digits|)) && CharAt(text, p) == MINUS
  {
    hide StrToUL, ClosingQuote, StoredNumber, Numeral, AllSpace, Ends, ReadBack;
    NumeralNotEmpty(digits, n);
    NegativeStored(n);
    assert [MINUS] + gap + digits + rest == [MINUS] + (gap + ([] + (digits + rest)));
    SplitAt(text, p, [MINUS], gap + ([] + (digits + rest)));
    StrToULExact(text, p + 1, gap, [], digits, n, rest);
  }

  lemma NumberReads(text: seq<byte>, p: nat, digits: seq<byte>, n: nat, rest: seq<byte>)
    requires Numeral(digits, n) && Ends(rest) && p <= |text| && text[p..] == digits + rest
    ensures |digits| > 0 && Scalar(text, p) == Some((Some(Number(ReadBack(n))), p + |digits|))
    ensures CharAt(text, p) != OPEN_BRACE && !IsSpace(CharAt(text, p))
  {
    hide StrToUL, ClosingQuote, StoredNumber, Numeral, Ends, IsSpace;
    assert digits + rest == [] + ([] + (digits + rest));
    NoneIsSpace();
    StrToULExact(text, p, [], [], digits, n, rest);
    NumeralReads(text, p, digits, n, rest);
  }

  lemma TextReads(text: seq<byte>, p: nat, s: seq<byte>, rest: seq<byte>)
    requires WellEscaped(s) && p <= |text| && text[p..] == [QUOTE] + s + [QUOTE] + rest
    ensures Scalar(text, p) == Some((Some(Text(s)), p + |s| + 2)) && CharAt(text, p) == QUOTE
  {
    hide ClosingQuote, WellEscaped;
    QuotedText(text, p, s, rest);
    ClosingQuoteExact(text, p + 1, |s|);
  }

  lemma NumeralNotEmpty(digits: seq<byte>, n: nat)
    requires Numeral(digits, n)
    ensures |digits| > 0
  {
  }

  lemma NegativeStored(n: nat)
    ensures ReadBack(-(n as int)) == StoredNumber(if n > ULONG_MAX then ULONG_MAX else n, true)
  {
  }

  lemma QuotedText(text: seq<byte>, p: nat, s: seq<byte>, rest: seq<byte>)
    requires p <= |text| && text[p..] == [QUOTE] + s + [QUOTE] + rest
    ensures p + 1 + |s| < |text| && text[p] == QUOTE && text[p + 1..p + 1 + |s|] == s && text[p + 1 + |s|] == QUOTE
  {
    var tail := text[p..];
    assert tail[0] == text[p] && tail[1 + |s|] == text[p + 1 + |s|];
    assert tail[1..1 + |s|] == text[p + 1..p + 1 + |s|];
    assert tail[1..1 + |s|] == s;
  }

  lemma SplitAt(text: seq<byte>, p: nat, a: seq<byte>, b: seq<byte>)
    requires p <= |text| && text[p..] == a + b
    ensures p + |a| <= |text| && text[p + |a|..] == b && (|a| > 0 ==> text[p] == a[0]) && (|a| == 0 && |b| > 0 ==> text[p] == b[0])
  {
    var tail := text[p..];
    assert tail[|a|..] == b && tail[|a|..] == text[p + |a|..];
    assert |tail| > 0 ==> text[p] == tail[0];
  }

  /** White space behind an item is skipped. */
  lemma AfterSpaces(text: seq<byte>, p: nat, spaces: seq<byte>, rest: seq<byte>, items: seq<Tree>)
    requires p <= |text| && text[p..] == spaces + rest && AllSpace(spaces) && |rest| > 0 && !IsSpace(rest[0])
    ensures p + |spaces| < |text| && text[p + |spaces|] == rest[0] && text[p + |spaces|..] == rest
    ensures |items| > 0 && rest[0] == COMMA ==> AfterItem(text, p, items) == ParseItems(text, p + |spaces| + 1, items)
    ensures rest[0] == CLOSE_BRACE ==> AfterItem(text, p, items) == Items(items, p + |spaces| + 1)
  {
    hide ParseItems, AllSpace, IsSpace, Skip;
    SkipSpaces(text, p, spaces, rest);
    SplitAt(text, p + |spaces|, [], rest);
  }

  lemma NoneIsSpace()
    ensures AllSpace([])
  {
  }

  /** A list that holds no more items. */
  lemma CloseReads(text: seq<byte>, p: nat, spaces: seq<byte>, rest: seq<byte>, items: seq<Tree>)
    requires p <= |text| && text[p..] == spaces + ([CLOSE_BRACE] + rest) && AllSpace(spaces)
    ensures ParseItems(text, p, items) == Items(items, p + |spaces| + 1)
  {
    hide AfterItem, AllSpace;
    var q := p + |spaces|;
    SkipSpaces(text, p, spaces, [CLOSE_BRACE] + rest);
    SplitAt(text, q, [CLOSE_BRACE], rest);
    assert Scalar(text, q) == Some((None, q));
    assert text[q..] == [] + ([CLOSE_BRACE] + rest);
    NoneIsSpace();
    AfterSpaces(text, q, [], [CLOSE_BRACE] + rest, items);
  }

  /** Where the next item of a list begins, and how it is read. */
  lemma {:induction false} ItemReadsBack(text: seq<byte>, p: nat, item: Item, rest: seq<byte>, items: seq<Tree>)
    requires AllSpace(item.before) && WellWritten(item.what) && AllSpace(item.after) && |rest| > 0 && Ends(item.after + rest)
    requires p <= |text| && text[p..] == item.before + (Render(item.what) + (item.after + rest))
    ensures var q := p + |item.before| + |Render(item.what)|;
            && q <= |text| && text[q..] == item.after + rest
            && ParseItems(text, p, items) == AfterItem(text, q, items + [Stored(Meant(item.what))])
    decreases item, 1
  {
    hide Scalar, AfterItem, ParseItems, AllSpace, Ends, Skip, IsSpace, Stored, Meant, WellWritten, Render;
    var w, more := item.what, item.after + rest;
    var q := p + |item.before|;
    SplitAt(text, p, item.before, Render(w) + more);
    SplitAt(text, q, Render(w), more);
    StartOfWritten(text, q, w, more);
    SkipSpaces(text, p, item.before, Render(w) + more);
    match w
    case Listed(inner, spaces) =>
      ListReadsBack(text, q, w, more);
      ListStep(text, p, q, AllStored(AllMeant(inner)), q + |Render(w)|, items);
    case _ =>
      ScalarReadsBack(text, q, w, more);
      ScalarStep(text, p, q, Stored(Meant(w)), q + |Render(w)|, items);
  }

  lemma ListStep(text: seq<byte>, p: nat, q: nat, inner: seq<Tree>, next: nat, items: seq<Tree>)
    requires p <= q < |text| && Skip(text, p) == q && text[q] == OPEN_BRACE
    requires ParseItems(text, q + 1, []) == Items(inner, next)
    ensures next <= |text| && ParseItems(text, p, items) == AfterItem(text, next, items + [List(inner)])
  {
    hide AfterItem, Skip, Scalar;
  }

  lemma ScalarStep(text: seq<byte>, p: nat, q: nat, x: Tree, next: nat, items: seq<Tree>)
    requires p <= q < |text| && Skip(text, p) == q && text[q] != OPEN_BRACE && Scalar(text, q) == Some((Some(x), next))
    ensures next <= |text| && ParseItems(text, p, items) == AfterItem(text, next, items + [x])
  {
    hide AfterItem, Skip, Scalar;
  }

  /** No written tree begins with white space; a brace begins lists only. */
  lemma StartOfWritten(text: seq<byte>, p: nat, w: Written, rest: seq<byte>)
    requires WellWritten(w) && p <= |text| && text[p..] == Render(w) + rest && Ends(rest)
    ensures p < |text| && |Render(w) + rest| > 0 && text[p] == (Render(w) + rest)[0] && !IsSpace(text[p])
    ensures text[p] == OPEN_BRACE <==> w.Listed?
  {
    hide Numeral, AllWellWritten, AllSpace, Ends, WellEscaped;
    if !w.Listed? {
      ScalarReadsBack(text, p, w, rest);
    }
    var tail := text[p..];
    assert |tail| > 0 && tail[0] == text[p];
  }

  /** A written list is read back to its closing brace. */
  lemma {:induction false} ListReadsBack(text: seq<byte>, p: nat, w: Written, more: seq<byte>)
    requires w.Listed? && WellWritten(w) && p <= |text| && text[p..] == Render(w) + more
    ensures p < |text| && Stored(Meant(w)) == List(AllStored(AllMeant(w.items)))
    ensures ParseItems(text, p + 1, []) == Items(AllStored(AllMeant(w.items)), p + |Render(w)|)
    decreases w, 0
  {
    hide ParseItems, AllWellWritten, AllStored, AllMeant, Render, AllSpace;
    ListParts(w, more);
    SplitAt(text, p, [OPEN_BRACE], ListBody(w, more));
    if |w.items| == 0 {
      CloseReads(text, p + 1, w.inner, more, []);
      NoneStored();
    } else {
      RestReadsBack(text, p + 1, w.items, more, []);
      assert [] + AllStored(AllMeant(w.items)) == AllStored(AllMeant(w.items));
    }
  }

  /** What stands behind the opening brace of a list. */
  function ListBody(w: Written, more: seq<byte>): seq<byte>
    requires w.Listed?
  {
    if |w.items| == 0 then w.inner + ([CLOSE_BRACE] + more) else RenderRest(w.items) + more
  }

  lemma ListParts(w: Written, more: seq<byte>)
    requires w.Listed?
    ensures Render(w) + more == [OPEN_BRACE] + ListBody(w, more)
    ensures |Render(w)| == 1 + (if |w.items| == 0 then |w.inner| + 1 else |RenderRest(w.items)|)
  {
    if |w.items| > 0 {
      hide RenderRest;
      assert [] + RenderRest(w.items) == RenderRest(w.items);
    } else {
      assert w.items == [];
    }
  }

  lemma NoneStored()
    ensures AllStored(AllMeant([])) == []
  {
  }

  /** The items that are left of a list are read back to its closing brace. */
  lemma {:induction false} RestReadsBack(text: seq<byte>, p: nat, rest: seq<Item>, more: seq<byte>, items: seq<Tree>)
    requires |rest| > 0 && AllWellWritten(rest) && p <= |text| && text[p..] == RenderRest(rest) + more
    ensures ParseItems(text, p, items) == Items(items + AllStored(AllMeant(rest)), p + |RenderRest(rest)|)
    decreases rest, 0
  {
    hide Render, WellWritten, Stored, Meant, ParseItems, AfterItem, AllSpace, AllWellWritten, AllStored, AllMeant, RenderRest;
    RestParts(rest);
    var item, behind := rest[0], Behind(rest) + more;
    BehindEnds(item, rest, more);
    Assemble(item, Behind(rest), more);
    ItemReadsBack(text, p, item, behind, items);
    var q := p + |item.before| + |Render(item.what)|;
    var items1 := items + [Stored(Meant(item.what))];
    AfterSpaces(text, q, item.after, behind, items1);
    if |rest| > 1 {
      assert behind == [COMMA] + (RenderRest(rest[1..]) + more);
      SplitAt(text, q + |item.after|, [COMMA], RenderRest(rest[1..]) + more);
      RestReadsBack(text, q + |item.after| + 1, rest[1..], more, items1);
      assert items1 + AllStored(AllMeant(rest[1..])) == items + AllStored(AllMeant(rest));
    } else {
      assert items1 == items + AllStored(AllMeant(rest));
    }
  }

  /** What stands behind the first of the items that are left. */
  function Behind(rest: seq<Item>): seq<byte>
    requires |rest| > 0
  {
    (if |rest| > 1 then [COMMA] else []) + RenderRest(rest[1..])
  }

  lemma RestParts(rest: seq<Item>)
    requires |rest| > 0 && AllWellWritten(rest)
    ensures AllSpace(rest[0].before) && WellWritten(rest[0].what) && AllSpace(rest[0].after) && AllWellWritten(rest[1..])
    ensures RenderRest(rest) == rest[0].before + (Render(rest[0].what) + (rest[0].after + Behind(rest)))
    ensures AllStored(AllMeant(rest)) == [Stored(Meant(rest[0].what))] + AllStored(AllMeant(rest[1..]))
    ensures |rest| == 1 ==> Behind(rest) == [CLOSE_BRACE] && AllStored(AllMeant(rest[1..])) == []
  {
    hide Render, Stored, Meant, WellWritten, AllSpace;
    assert AllMeant(rest)[1..] == AllMeant(rest[1..]);
    if |rest| == 1 {
      assert rest[1..] == [];
    }
  }

  lemma BehindEnds(item: Item, rest: seq<Item>, more: seq<byte>)
    requires |rest| > 0 && AllSpace(item.after)
    ensures |Behind(rest) + more| > 0 && Ends(item.after + (Behind(rest) + more)) && !IsSpace((Behind(rest) + more)[0])
    ensures (Behind(rest) + more)[0] == if |rest| > 1 then COMMA else CLOSE_BRACE
  {
    hide Render;
    if |rest| == 1 {
      assert rest[1..] == [];
    }
    var all := item.after + (Behind(rest) + more);
    assert all[0] == if |item.after| > 0 then item.after[0] else (Behind(rest) + more)[0];
  }

  lemma Assemble(item: Item, behind: seq<byte>, more: seq<byte>)
    ensures item.before + (Render(item.what) + (item.after + behind)) + more
         == item.before + (Render(item.what) + (item.after + (behind + more)))
  {
    hide Render;
  }

  lemma ReadBackExact(n: int)
    ensures ReadBack(n) == n <==> I32_MIN <= n <= U32_MAX
  {
  }

  lemma {:induction false} StoredExact(t: Tree)
    ensures Stored(t) == t <==> InRange(t)
    decreases t, 1
  {
    hide ReadBack;
    match t
    case Number(n) => ReadBackExact(n);
    case List(items) => AllStoredExact(items);
    case _ =>
  }

  lemma {:induction false} AllStoredExact(items: seq<Tree>)
    ensures AllStored(items) == items <==> AllInRange(items)
    decreases items, 0
  {
    hide Stored, InRange;
    if |items| > 0 {
      StoredExact(items[0]);
      AllStoredExact(items[1..]);
      assert items == [items[0]] + items[1..];
      if AllStored(items) == items {
        assert AllStored(items)[0] == items[0] && AllStored(items)[1..] == items[1..];
      }
    }
  }

  /**
   * However a tree of numbers, well-escaped texts and nested lists is written, with numbers in
   * any base and white space around every item, its text is consumed to its end, and only to
   * its end. The tree that was meant comes back unchanged exactly when all its numbers lie
   * between -2^31 and 2^32 - 1.
   */
  lemma WrittenTreeReadsBack(before: seq<byte>, w: Written, after: seq<byte>, rest: seq<byte>)
    requires WellWritten(w) && AllSpace(before) && AllSpace(after) && Ends(rest) && (|rest| > 0 ==> !IsSpace(rest[0]))
    ensures var text, end := before + (Render(w) + (after + rest)), |before| + |Render(w)| + |after|;
            && ParseInitializer(text) == Accepted(end, Some(Stored(Meant(w))))
            && (ParseInitializer(text) == Accepted(end, Some(Meant(w))) <==> InRange(Meant(w)))
  {
    hide ParseText, InRange, Stored, Meant, AllSpace, WellWritten, Render;
    StoredExact(Meant(w));
    AfterEnds(after, rest);
    WrittenText(before, w, after, rest);
  }

  lemma WrittenText(before: seq<byte>, w: Written, after: seq<byte>, rest: seq<byte>)
    requires WellWritten(w) && AllSpace(before) && AllSpace(after) && Ends(after + rest) && (|rest| > 0 ==> !IsSpace(rest[0]))
    ensures |Render(w)| > 0
    ensures ParseText(before + (Render(w) + (after + rest))) == Accepted(|before| + |Render(w)| + |after|, Some(Stored(Meant(w))))
  {
    hide *;
    var more := after + rest;
    var text, q := before + (Render(w) + more), |before|;
    SplitAtStart(text, before, Render(w) + more);
    SplitAt(text, q, Render(w), more);
    StartOfWritten(text, q, w, more);
    SkipSpaces(text, 0, before, Render(w) + more);
    SkipSpaces(text, q + |Render(w)|, after, rest);
    if w.Listed? {
      ListReadsBack(text, q, w, more);
      ListText(text, q, AllStored(AllMeant(w.items)), q + |Render(w)|);
    } else {
      ScalarReadsBack(text, q, w, more);
      ScalarText(text, q, Stored(Meant(w)), q + |Render(w)|);
    }
  }

  lemma SplitAtStart(text: seq<byte>, a: seq<byte>, b: seq<byte>)
    requires text == a + b
    ensures text[0..] == a + b && text[|a|..] == b
  {
  }

  lemma ListText(text: seq<byte>, q: nat, items: seq<Tree>, next: nat)
    requires q < |text| && Skip(text, 0) == q && text[q] == OPEN_BRACE && ParseItems(text, q + 1, []) == Items(items, next)
    ensures next <= |text| && ParseText(text) == Accepted(Skip(text, next), Some(List(items)))
  {
    hide ParseItems, Skip;
  }

  lemma ScalarText(text: seq<byte>, q: nat, x: Tree, next: nat)
    requires q < |text| && Skip(text, 0) == q && text[q] != OPEN_BRACE && Scalar(text, q) == Some((Some(x), next))
    ensures next <= |text| && ParseText(text) == Accepted(Skip(text, next), Some(x))
  {
    hide Scalar, Skip;
  }

  lemma AfterEnds(after: seq<byte>, rest: seq<byte>)
    requires AllSpace(after) && Ends(rest)
    ensures Ends(after + rest)
  {
    if |after| > 0 {
      assert (after + rest)[0] == after[0];
    } else {
      assert after + rest == rest;
    }
  }

  /** Trees that can be written: every scalar is set, every text well escaped. */
  predicate Writable(t: Tree)
    decreases t, 1
  {
    match t
    case Unset => false
    case Number(_) => true
    case Text(s) => WellEscaped(s)
    case List(items) => AllWritable(items)
  }

  predicate AllWritable(items: seq<Tree>)
    decreases items, 0
  {
    |items| == 0 || (Writable(items[0]) && AllWritable(items[1..]))
  }

  /** Each of them in one way at least: decimal, and without white space. */
  lemma {:induction false} WrittenPlainly(t: Tree) returns (w: Written)
    requires Writable(t)
    ensures WellWritten(w) && Meant(w) == t
    decreases t, 1
  {
    hide AllWellWritten, AllMeant, AllWritable, Numeral, Decimal;
    match t
    case Number(n) =>
      var magnitude := if n < 0 then -n else n;
      DecimalIsNumeral(magnitude);
      w := Numbered(n < 0, [], Decimal(magnitude), magnitude);
    case Text(s) =>
      w := Quoted(s);
    case List(items) =>
      var written := AllWrittenPlainly(items);
      w := Listed(written, []);
  }

  lemma {:induction false} AllWrittenPlainly(items: seq<Tree>) returns (ws: seq<Item>)
    requires AllWritable(items)
    ensures AllWellWritten(ws) && AllMeant(ws) == items
    decreases items, 0
  {
    hide WellWritten, Meant, Writable;
    ws := [];
    if |items| > 0 {
      var first := WrittenPlainly(items[0]);
      var rest := AllWrittenPlainly(items[1..]);
      ws := [Item([], first, [])] + rest;
      assert ws[1..] == rest && items == [items[0]] + items[1..];
    }
  }
}
