/**
 * The initializer parser of apx/src/attribute_parser.c: a loop with an explicit stack of
 * states that are reused in place. It is proved equal to the recursive grammar of
 * `Initializers` on every text.
 */
module AttributeParsers {
  import opened Common
  import opened Bytes
  import opened Initializers

  /** apx_attributeParseState_t */
  class ParseState {
    var parent: ParseState?
    var sv: Option<Tree>
    var initializerList: Option<seq<Tree>>

    constructor ()
      ensures parent == null && sv == None && initializerList == None
    {
      parent, sv, initializerList := null, None, None;
    }

    predicate HasValue()
      reads this
    {
      sv.Some? || initializerList.Some?
    }

    /** The value a state holds, a list before a scalar. */
    function Value(): Option<Tree>
      reads this
    {
      if initializerList.Some? then Some(List(initializerList.value)) else sv
    }
  }

  /** The result of a parse that is inside the lists `outer`, once the innermost list has become `r`. */
  ghost function Resume(text: seq<byte>, outer: seq<seq<Tree>>, r: Parsed): Initializer
    requires r.Items? ==> r.next <= |text|
    decreases |outer|
  {
    if !r.Items? || |outer| == 0 then OfList(text, r)
    else
      var last := |outer| - 1;
      Resume(text, outer[..last], AfterItem(text, r.next, outer[last] + [List(r.items)]))
  }

  /** One list closed inside another. */
  lemma ResumeInner(text: seq<byte>, outer: seq<seq<Tree>>, items: seq<Tree>, next: nat)
    requires |outer| > 0 && next <= |text|
    ensures Resume(text, outer, Items(items, next))
         == Resume(text, outer[..|outer| - 1], AfterItem(text, next, outer[|outer| - 1] + [List(items)]))
  {
    hide AfterItem;
  }

  /** An opened list, seen from outside and from inside. */
  lemma {:induction false} ResumeOpened(text: seq<byte>, outer: seq<seq<Tree>>, items: seq<Tree>, p: nat)
    requires p < |text| && CharAt(text, Skip(text, p)) == OPEN_BRACE
    ensures Resume(text, outer, ParseItems(text, p, items))
         == Resume(text, outer + [items], ParseItems(text, Skip(text, p) + 1, []))
  {
    hide AfterItem;
    var inner := ParseItems(text, Skip(text, p) + 1, []);
    assert (outer + [items])[..|outer|] == outer;
    if inner.Items? {
      ResumeInner(text, outer + [items], inner.items, inner.next);
    } else {
      ResumeFailed(text, outer, inner);
      ResumeFailed(text, outer + [items], inner);
    }
  }

  lemma ResumeFailed(text: seq<byte>, outer: seq<seq<Tree>>, r: Parsed)
    requires !r.Items?
    ensures Resume(text, outer, r) == OfList(text, r)
  {
  }

  /** The lists around the innermost one, and the innermost one itself. */
  ghost function Outside(lists: seq<seq<Tree>>): seq<seq<Tree>>
    requires |lists| > 0
  {
    lists[..|lists| - 1]
  }

  ghost function Innermost(lists: seq<seq<Tree>>): seq<Tree>
    requires |lists| > 0
  {
    lists[|lists| - 1]
  }

  /** The lists with a value appended to the innermost one. */
  ghost function Grown(lists: seq<seq<Tree>>, v: Option<Tree>): seq<seq<Tree>>
    requires |lists| > 0
  {
    Outside(lists) + [Append(Innermost(lists), v)]
  }

  // ---------- one turn of the grammar ----------

  lemma TextOpened(text: seq<byte>)
    requires |text| > 0 && CharAt(text, Skip(text, 0)) == OPEN_BRACE
    ensures ParseText(text) == Resume(text, [], ParseItems(text, Skip(text, 0) + 1, []))
  {
    hide ParseItems;
  }

  lemma TextScalar(text: seq<byte>)
    requires |text| > 0 && CharAt(text, Skip(text, 0)) != OPEN_BRACE
    ensures var s := Scalar(text, Skip(text, 0));
            ParseText(text) == if s.None? then Rejected else Accepted(Skip(text, s.value.1), s.value.0)
  {
    hide Scalar;
  }

  lemma ScalarItem(text: seq<byte>, p: nat, items: seq<Tree>)
    requires p < |text| && CharAt(text, Skip(text, p)) != OPEN_BRACE
    ensures var s := Scalar(text, Skip(text, p));
            ParseItems(text, p, items) == if s.None? then Refused else AfterItem(text, s.value.1, Append(items, s.value.0))
  {
    hide Scalar, AfterItem;
  }

  lemma AfterItemParts(text: seq<byte>, p: nat, items: seq<Tree>)
    requires p <= |text|
    ensures var q := Skip(text, p);
            AfterItem(text, p, items) == if |items| > 0 && CharAt(text, q) == COMMA then ParseItems(text, q + 1, items)
                                         else if CharAt(text, q) == CLOSE_BRACE then Items(items, q + 1)
                                         else Refused
  {
    hide ParseItems;
  }

  lemma AtEnd(text: seq<byte>, lists: seq<seq<Tree>>)
    requires |lists| > 0
    ensures Resume(text, Outside(lists), ParseItems(text, |text|, Innermost(lists))) == Accepted(|text|, None)
  {
    ResumeFailed(text, Outside(lists), Incomplete);
  }

  /** What the whole text means once the value `v` inside `lists` ends at `p`. */
  ghost function Meaning(text: seq<byte>, p: nat, lists: seq<seq<Tree>>, v: Option<Tree>): Initializer
    requires p <= |text|
  {
    if |lists| == 0 then Accepted(Skip(text, p), v)
    else Resume(text, Outside(lists), AfterItem(text, p, Append(Innermost(lists), v)))
  }

  /** An opening brace at the start of an item. */
  lemma OpenedHere(text: seq<byte>, p: nat, lists: seq<seq<Tree>>)
    requires p < |text| && CharAt(text, Skip(text, p)) == OPEN_BRACE && (|lists| == 0 ==> p == 0)
    ensures var q := Skip(text, p);
            Resume(text, Outside(lists + [[]]), ParseItems(text, q + 1, Innermost(lists + [[]])))
            == if |lists| == 0 then ParseText(text) else Resume(text, Outside(lists), ParseItems(text, p, Innermost(lists)))
  {
    hide ParseItems, AfterItem, Resume, ParseText, Skip;
    assert Outside(lists + [[]]) == lists;
    if |lists| == 0 {
      TextOpened(text);
    } else {
      ResumeOpened(text, Outside(lists), Innermost(lists), p);
      assert Outside(lists) + [Innermost(lists)] == lists;
    }
  }

  /** A scalar at the start of an item. */
  lemma ScalarHere(text: seq<byte>, p: nat, lists: seq<seq<Tree>>)
    requires p < |text| && CharAt(text, Skip(text, p)) != OPEN_BRACE && (|lists| == 0 ==> p == 0)
    ensures var s := Scalar(text, Skip(text, p));
            (if s.None? then Rejected else Meaning(text, s.value.1, lists, s.value.0))
            == if |lists| == 0 then ParseText(text) else Resume(text, Outside(lists), ParseItems(text, p, Innermost(lists)))
  {
    hide ParseItems, AfterItem, Resume, ParseText, Scalar, Skip;
    if |lists| == 0 {
      TextScalar(text);
    } else {
      ScalarItem(text, p, Innermost(lists));
      ResumeRefused(text, lists);
    }
  }

  /** The text ends where an item should start. */
  lemma EndsHere(text: seq<byte>, lists: seq<seq<Tree>>)
    ensures Skip(text, |text|) == |text|
    ensures |lists| > 0 ==> Resume(text, Outside(lists), ParseItems(text, |text|, Innermost(lists))) == Accepted(|text|, None)
    ensures |text| == 0 ==> ParseText(text) == Accepted(0, None)
  {
    if |lists| > 0 {
      AtEnd(text, lists);
    }
  }

  lemma ResumeRefused(text: seq<byte>, lists: seq<seq<Tree>>)
    ensures |lists| > 0 ==> Resume(text, Outside(lists), Refused) == Rejected
  {
  }

  /** The innermost list is closed at `next`: it is the whole value, or an item of the list around it. */
  lemma ResumeClosed(text: seq<byte>, lists: seq<seq<Tree>>, next: nat)
    requires |lists| > 0 && next <= |text|
    ensures var outer, items := Outside(lists), Innermost(lists);
            Resume(text, outer, Items(items, next))
            == if |outer| == 0 then Accepted(Skip(text, next), Some(List(items)))
               else Resume(text, Outside(outer), AfterItem(text, next, Append(Innermost(outer), Some(List(items)))))
  {
    hide AfterItem;
  }

  ghost function Top(stack: seq<ParseState>): ParseState? {
    if |stack| == 0 then null else stack[|stack| - 1]
  }

  /** Each state holds its list, and its parent is the state below it. */
  ghost predicate Chain(stack: seq<ParseState>, lists: seq<seq<Tree>>)
    reads stack
    decreases |stack|
  {
    && |lists| == |stack|
    && (|stack| > 0 ==>
      var top, below := stack[|stack| - 1], stack[..|stack| - 1];
      && top.initializerList == Some(Innermost(lists)) && top.sv == None
      && top.parent == Top(below) && top !in below
      && Chain(below, Outside(lists)))
  }

  lemma ChainLength(stack: seq<ParseState>, lists: seq<seq<Tree>>)
    requires Chain(stack, lists)
    ensures |lists| == |stack|
    ensures |stack| > 0 ==> Top(stack) in stack && Top(stack).initializerList == Some(Innermost(lists))
  {
  }

  /** apx_attributeParser_t */
  class AttributeParser {
    var stack: seq<ParseState>
    var state: ParseState?
    var lastError: Error

    constructor ()
      ensures stack == [] && state == null && lastError == NoError
    {
      stack, state, lastError := [], null, NoError;
    }

    /** The stack holds the unfinished lists `lists`, and the current state hangs below its top. */
    ghost predicate Linked(lists: seq<seq<Tree>>)
      reads this, state, stack
    {
      state != null && state !in stack && state.parent == Top(stack) && Chain(stack, lists)
    }

    /** apx_attributeParser_parse_initializer */
    method Parse(text: seq<byte>) returns (next: Option<nat>, dv: Option<Tree>)
      modifies this
      ensures match ParseInitializer(text)
              case Rejected => next == None && dv == None && lastError == ParseError
              case Accepted(p, v) => next == Some(p) && dv == v && lastError == NoError
    {
      hide ParseText;
      stack, lastError := [], NoError;
      state := new ParseState();
      dv := None;
      next := ParseInitializerList(text);
      if next.Some? && next.value > 0 {
        if state.initializerList.Some? {
          dv := Some(List(state.initializerList.value));
        } else if state.sv.Some? {
          dv := state.sv;
        }
      }
      if next.None? {
        lastError := ParseError;
      }
      state := null;
    }

    /** apx_attributeParser_parse_scalar; None for a lone minus. */
    method ParseScalar(text: seq<byte>, p: nat) returns (next: Option<nat>)
      requires state != null && state.sv == None && p <= |text|
      modifies state`sv
      ensures match Scalar(text, p)
              case None => next == None
              case Some((v, q)) => next == Some(q) && state.sv == v
    {
      hide IntegerLiteral, ClosingQuote;
      var c := CharAt(text, p);
      if IsDigit(c) {
        state.sv := Some(Unset);
        var r := IntegerLiteral(text, p, false);
        if r.Some? {
          state.sv := Some(Number(r.value.0));
          return Some(r.value.1);
        }
      } else if c == MINUS {
        if p + 1 >= |text| {
          return None;
        }
        state.sv := Some(Unset);
        var r := IntegerLiteral(text, p + 1, true);
        if r.Some? {
          state.sv := Some(Number(r.value.0));
          return Some(r.value.1);
        }
        return Some(p + 1);
      } else if c == QUOTE {
        state.sv := Some(Unset);
        var q := ClosingQuote(text, p + 1);
        if q.Some? {
          state.sv := Some(Text(text[p + 1..q.value]));
          return Some(q.value + 1);
        }
      }
      return Some(p);
    }

    /** apx_attributeParser_push_value_to_parent */
    method PushValueToParent(ghost lists: seq<seq<Tree>>) returns (ok: bool)
      requires Linked(lists) && |stack| > 0 && state.HasValue() && (state.sv.None? || state.initializerList.None?)
      modifies state`sv, state`initializerList, state.parent`initializerList
      ensures ok && !state.HasValue()
      ensures Linked(Grown(lists, old(state.Value())))
    {
      var v;
      if state.sv.Some? {
        v := state.sv.value;
        state.sv := None;
      } else {
        v := List(state.initializerList.value);
        state.initializerList := None;
      }
      state.parent.initializerList := Some(state.parent.initializerList.value + [v]);
      return true;
    }

    /** A new child of the current state, for the first item of a list. */
    method EnterList(ghost lists: seq<seq<Tree>>)
      requires Linked(lists) && !state.HasValue()
      modifies this`stack, this`state, state`initializerList
      ensures fresh(state) && stack == old(stack) + [old(state)]
      ensures Linked(lists + [[]]) && !state.HasValue()
    {
      state.initializerList := Some([]);
      var child := new ParseState();
      child.parent := state;
      stack := stack + [state];
      assert stack[..|stack| - 1] == old(stack) && Outside(lists + [[]]) == lists;
      state := child;
    }

    /** Back to the state on top of the stack, which holds the list that was closed. */
    method LeaveList(ghost lists: seq<seq<Tree>>)
      requires Linked(lists) && |stack| > 0
      modifies this`stack, this`state
      ensures state == old(stack[|stack| - 1]) && stack == old(stack[..|stack| - 1])
      ensures Linked(Outside(lists)) && state.sv == None && state.initializerList == Some(Innermost(lists))
    {
      state := stack[|stack| - 1];
      stack := stack[..|stack| - 1];
    }

    /** The value handler once: `None` when the source jumps back to its start. */
    method HandleOnce(text: seq<byte>, p: nat, ghost lists: seq<seq<Tree>>, ghost owned: set<ParseState>)
      returns (step: Option<Step>, next: nat, ghost now: seq<seq<Tree>>)
      requires p <= |text| && Linked(lists) && (state.sv.None? || state.initializerList.None?)
      requires state in owned && AllIn(stack, owned)
      modifies this`stack, this`state, owned
      ensures state in owned && AllIn(stack, owned) && next <= |text|
      ensures step.None? ==>
        && Linked(now) && (state.sv.None? || state.initializerList.None?) && p <= next && |stack| < |old(stack)|
        && Meaning(text, p, lists, old(state.Value())) == Meaning(text, next, now, state.Value())
      ensures step == Some(GoOn) ==>
        && Linked(now) && !state.HasValue() && p < next && |now| > 0
        && Meaning(text, p, lists, old(state.Value())) == Resume(text, Outside(now), ParseItems(text, next, Innermost(now)))
      ensures step == Some(Finished) ==>
        state != null && Meaning(text, p, lists, old(state.Value())) == Accepted(Skip(text, next), state.Value())
      ensures step == Some(Failed) ==> Meaning(text, p, lists, old(state.Value())) == Rejected
    {
      hide ParseItems, AfterItem, Resume, Chain, Skip;
      next, now := p, lists;
      ChainLength(stack, now);
      if state.parent == null {
        return Some(Finished), next, now;
      }
      AfterItemParts(text, next, Append(Innermost(now), state.Value()));
      next := Skip(text, next);
      var c := CharAt(text, next);
      if state.HasValue() {
        ghost var grown := Grown(now, state.Value());
        var ok := PushValueToParent(now);
        now := grown;
      }
      ChainLength(stack, now);
      if |state.parent.initializerList.value| > 0 && c == COMMA {
        return Some(GoOn), next + 1, now;
      } else if c == CLOSE_BRACE {
        next := next + 1;
        ResumeClosed(text, now, next);
        InitIn(stack, owned);
        LeaveList(now);
        now := Outside(now);
        if |stack| == 0 {
          ChainLength(stack, now);
          return Some(Finished), next, now;
        }
        return None, next, now;
      } else {
        ResumeRefused(text, now);
        return Some(Failed), next, now;
      }
    }

    /**
     * The value handler of parse_initializer_list, to which the source jumps back after a
     * closing brace: it appends the value to the list around it and goes on behind a comma,
     * finishes with the outermost list, or refuses the text.
     */
    method HandleValue(text: seq<byte>, p: nat, ghost lists: seq<seq<Tree>>, ghost owned: set<ParseState>)
      returns (step: Step, next: nat, ghost now: seq<seq<Tree>>)
      requires p <= |text| && Linked(lists) && (state.sv.None? || state.initializerList.None?)
      requires state in owned && AllIn(stack, owned)
      modifies this`stack, this`state, owned
      ensures state in owned && AllIn(stack, owned) && next <= |text|
      ensures step.GoOn? ==>
        && Linked(now) && !state.HasValue() && p < next && |now| > 0
        && Meaning(text, p, lists, old(state.Value())) == Resume(text, Outside(now), ParseItems(text, next, Innermost(now)))
      ensures step.Finished? ==>
        state != null && Meaning(text, p, lists, old(state.Value())) == Accepted(Skip(text, next), state.Value())
      ensures step.Failed? ==> Meaning(text, p, lists, old(state.Value())) == Rejected
    {
      hide ParseItems, Resume, Chain, Skip, Meaning;
      next, now := p, lists;
      ghost var meaning := Meaning(text, p, lists, state.Value());
      while true
        invariant p <= next <= |text| && Linked(now) && (state.sv.None? || state.initializerList.None?)
        invariant state in owned && AllIn(stack, owned)
        invariant meaning == Meaning(text, next, now, state.Value())
        decreases |stack|
      {
        var result;
        result, next, now := HandleOnce(text, next, now, owned);
        if result.Some? {
          return result.value, next, now;
        }
      }
    }

    /** One turn of the loop of parse_initializer_list: a brace that opens a list, or a value. */
    method OneItem(text: seq<byte>, p: nat, ghost lists: seq<seq<Tree>>, ghost owned: set<ParseState>)
      returns (step: Step, next: nat, ghost now: seq<seq<Tree>>, ghost kept: set<ParseState>)
      requires p < |text| && Linked(lists) && state != null && !state.HasValue()
      requires state in owned && AllIn(stack, owned)
      requires |lists| == 0 ==> p == 0
      requires |lists| > 0 ==> ParseText(text) == Resume(text, Outside(lists), ParseItems(text, p, Innermost(lists)))
      modifies this`stack, this`state, owned
      ensures owned <= kept && forall s :: s in kept ==> s in owned || fresh(s)
      ensures next <= |text|
      ensures step.GoOn? ==>
        && p < next && Linked(now) && state != null && !state.HasValue() && state in kept && AllIn(stack, kept)
        && |now| > 0 && ParseText(text) == Resume(text, Outside(now), ParseItems(text, next, Innermost(now)))
      ensures step.Finished? ==> state != null && ParseText(text) == Accepted(Skip(text, next), state.Value())
      ensures step.Failed? ==> ParseText(text) == Rejected
    {
      hide ParseText, Scalar, ParseItems, AfterItem, Resume, Chain, Skip;
      next := Skip(text, p);
      if CharAt(text, next) == OPEN_BRACE {
        OpenedHere(text, p, lists);
        EnterList(lists);
        return GoOn, next + 1, lists + [[]], owned + {state};
      }
      var after := ParseScalar(text, next);
      ScalarHere(text, p, lists);
      now, kept := lists, owned;
      if after.None? {
        return Failed, next, now, kept;
      }
      step, next, now := HandleValue(text, after.value, lists, owned);
    }

    /**
     * apx_attributeParser_parse_initializer_list: on every text the result of the recursive
     * grammar, the value being left in the current state.
     */
    method ParseInitializerList(text: seq<byte>) returns (result: Option<nat>)
      requires state != null && stack == [] && state.parent == null && !state.HasValue()
      modifies this`stack, this`state, state
      ensures match ParseText(text)
              case Rejected => result == None
              case Accepted(p, v) => result == Some(p) && state != null && state.Value() == v
      ensures lastError == old(lastError)
    {
      hide ParseText, ParseItems, Resume, Chain, Skip;
      var next := 0;
      ghost var lists: seq<seq<Tree>>, owned: set<ParseState> := [], {state};
      StartsLinked();
      while next < |text|
        invariant next <= |text| && Linked(lists) && state != null && !state.HasValue()
        invariant state in owned && AllIn(stack, owned) && forall s :: s in owned ==> s == old(state) || fresh(s)
        invariant |lists| == 0 ==> next == 0
        invariant |lists| > 0 ==>
          ParseText(text) == Resume(text, Outside(lists), ParseItems(text, next, Innermost(lists)))
        decreases |text| - next
      {
        var step;
        step, next, lists, owned := OneItem(text, next, lists, owned);
        match step {
          case GoOn =>
          case Finished =>
            next := Skip(text, next);
            return Some(next);
          case Failed =>
            return None;
        }
      }
      EndsHere(text, lists);
      next := Skip(text, next);
      return Some(next);
    }

    /** An empty stack is linked. */
    lemma StartsLinked()
      requires state != null && stack == [] && state.parent == null
      ensures Linked([])
    {
    }
  }

  /** What the value handler tells the loop. */
  datatype Step = GoOn | Finished | Failed

  ghost predicate AllIn(stack: seq<ParseState>, owned: set<ParseState>) {
    forall s :: s in stack ==> s in owned
  }

  lemma InitIn(stack: seq<ParseState>, owned: set<ParseState>)
    requires |stack| > 0 && AllIn(stack, owned)
    ensures AllIn(stack[..|stack| - 1], owned) && stack[|stack| - 1] in owned
  {
  }
}
