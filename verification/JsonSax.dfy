/**
  The SAX handler of json-partial.cpp that records where a text stopped: a stack of the open
  objects, arrays and keys. The events come from the JSON library; here from the automaton.
  */
module JsonSax {
  import opened JsonText

  datatype Element = OBJECT | KEY | ARRAY

  // ---------------------------------------------------------------- states that reading can reach

  const LITERAL_RESTS: set<string> := {"rue", "ue", "e", "alse", "lse", "se", "ull", "ll", "l"}

  /** The mode fits the innermost container. */
  predicate Fits(stack: seq<Frame>, mode: Mode) {
    match mode
    case KeyOrEnd => stack != [] && Top(stack) == InObject
    case Key => stack != [] && Top(stack) == InObject
    case Colon => stack != [] && Top(stack) == InObject
    case ValueOrEnd => stack != [] && Top(stack) == InArray
    case Lit(rest) => rest in LITERAL_RESTS
    case Str(isKey, lex, needLow) =>
      && (isKey ==> stack != [] && Top(stack) == InObject)
      && (lex.Hex? ==> DigitsFit(lex.digits, needLow))
    case _ => true
  }

  /** The digits read so far can still become a legal escape. */
  predicate DigitsFit(digits: string, needLow: bool) {
    && |digits| <= 3
    && (forall i :: 0 <= i < |digits| ==> IsHex(digits[i]))
    && (needLow && |digits| > 0 ==> IsD(digits[0]))
    && (|digits| > 1 ==> (needLow ==> IsLowDigit(digits[1])) && (!needLow && IsD(digits[0]) ==> !IsLowDigit(digits[1])))
  }

  predicate Consistent(st: State) { st.At? ==> Fits(st.stack, st.mode) }

  lemma StepStringConsistent(stack: seq<Frame>, isKey: bool, lex: Lex, needLow: bool, c: char)
    requires Fits(stack, Str(isKey, lex, needLow))
    ensures Consistent(StepString(stack, isKey, lex, needLow, c))
  {
    if lex.Hex? {
      var d := lex.digits + [c];
      assert forall i :: 0 <= i < |lex.digits| ==> d[i] == lex.digits[i];
    }
  }

  lemma StepConsistent(st: State, c: char)
    requires Consistent(st)
    ensures Consistent(Step(st, c))
  {
    if st.At? && st.mode.Str? {
      StepStringConsistent(st.stack, st.mode.isKey, st.mode.lex, st.mode.needLow, c);
    } else {
      hide DigitsFit, StepString;
    }
  }

  lemma {:induction false} RunKeepsConsistent(st: State, s: string)
    requires Consistent(st)
    ensures Consistent(Run(st, s))
    decreases |s|
  {
    if s != "" {
      RunKeepsConsistent(st, s[..|s| - 1]);
      StepConsistent(Run(st, s[..|s| - 1]), s[|s| - 1]);
    }
  }

  lemma RunConsistent(s: string)
    ensures Consistent(Run(START, s))
  {
    RunKeepsConsistent(START, s);
  }

  // ---------------------------------------------------------------- the element stack

  /** The elements of containers that have another container inside. */
  function Outer(stack: seq<Frame>): seq<Element> {
    if stack == [] then []
    else Outer(Pop(stack)) + (if Top(stack) == InObject then [OBJECT, KEY] else [ARRAY])
  }

  /** A key has been read and its value is not complete. */
  predicate ValuePending(mode: Mode) {
    mode == Value || mode == Colon || mode.Num? || mode.Lit? || (mode.Str? && !mode.isKey)
  }

  function Elements(stack: seq<Frame>, mode: Mode): seq<Element> {
    if stack == [] then []
    else Outer(Pop(stack))
         + (if Top(stack) == InArray then [ARRAY] else if ValuePending(mode) then [OBJECT, KEY] else [OBJECT])
  }

  lemma OuterIsPending(stack: seq<Frame>, mode: Mode)
    requires ValuePending(mode) || mode == ValueOrEnd
    requires Fits(stack, mode)
    ensures Elements(stack, mode) == Outer(stack)
  {
  }

  /** Directly inside a new container. */
  lemma ElementsInside(stack: seq<Frame>, kind: Frame)
    ensures Elements(stack + [kind], if kind == InObject then KeyOrEnd else ValueOrEnd)
            == Outer(stack) + [if kind == InObject then OBJECT else ARRAY]
  {
    hide Outer;
    assert Pop(stack + [kind]) == stack;
  }

  predicate KeysOnObjects(elements: seq<Element>) {
    forall i :: 0 <= i < |elements| && elements[i] == KEY ==> i > 0 && elements[i - 1] == OBJECT
  }

  lemma {:induction false} OuterKeysOnObjects(stack: seq<Frame>)
    ensures KeysOnObjects(Outer(stack))
  {
    if stack != [] { OuterKeysOnObjects(Pop(stack)); }
  }

  /** A KEY sits only directly on an OBJECT, in every state of every run. */
  lemma ElementsKeysOnObjects(stack: seq<Frame>, mode: Mode)
    ensures KeysOnObjects(Elements(stack, mode))
  {
    if stack != [] { OuterKeysOnObjects(Pop(stack)); }
  }

  /** At the end of the input a number that may be complete is reported as complete. */
  function Flushed(mode: Mode): Mode {
    if mode.Num? && Complete(mode.num) then After else mode
  }

  // ---------------------------------------------------------------- numbers that are not read

  /** Whether the text of a number is finite as a `double`. */
  type Finite = string -> bool

  predicate InNumberAt(s: string) { Run(START, s).At? && Run(START, s).mode.Num? }

  /** Where the number at the end of a text starts. */
  function TokenStart(s: string): (i: nat)
    ensures i <= |s| && (s != "" ==> i < |s|)
  {
    if s == "" then 0
    else if InNumberAt(s[..|s| - 1]) then TokenStart(s[..|s| - 1])
    else |s| - 1
  }

  /** A number ends at `e`. */
  predicate NumberStopsAt(s: string, e: nat) {
    && 0 < e <= |s| && InNumberAt(s[..e]) && Complete(Run(START, s[..e]).mode.num)
    && (e < |s| ==> !InNumberAt(s[..e + 1]))
  }

  predicate RefusedAt(finite: Finite, s: string, e: nat) {
    NumberStopsAt(s, e) && !finite(s[TokenStart(s[..e])..e])
  }

  /** No number that ends in front of `i` is refused. */
  predicate ReadUpTo(finite: Finite, s: string, i: nat) { forall e :: 0 <= e < i ==> !RefusedAt(finite, s, e) }

  predicate AllRead(finite: Finite, s: string) { ReadUpTo(finite, s, |s| + 1) }

  predicate FirstRefused(finite: Finite, s: string, e: nat) { RefusedAt(finite, s, e) && ReadUpTo(finite, s, e) }

  lemma ReadOneMore(finite: Finite, s: string, i: nat)
    ensures ReadUpTo(finite, s, i + 1) <==> ReadUpTo(finite, s, i) && !RefusedAt(finite, s, i)
  {
    hide RefusedAt;
  }

  lemma RefusedIsNotRead(finite: Finite, s: string, e: nat)
    requires RefusedAt(finite, s, e)
    ensures !AllRead(finite, s)
  {
  }

  lemma BeforeFirst(finite: Finite, s: string)
    ensures Run(START, s[..0]) == START && TokenStart(s[..0]) == 0 && ReadUpTo(finite, s, 0)
    ensures Elements([], Value) == []
  {
  }

  /** One more character: the state, the start of the number, and whether a number ends in front of it. */
  lemma PrefixStep(finite: Finite, s: string, i: nat)
    requires Alive(s) && i < |s|
    ensures var st, next := Run(START, s[..i]), Run(START, s[..i + 1]);
            && next == Step(st, s[i]) && st.At? && next.At? && Consistent(st)
            && TokenStart(s[..i + 1]) == (if st.mode.Num? then TokenStart(s[..i]) else i)
            && TokenStart(s[..i]) <= i && (st.mode.Num? ==> i > 0)
            && (RefusedAt(finite, s, i) <==> st.mode.Num? && !next.mode.Num? && !finite(s[TokenStart(s[..i])..i]))
  {
    hide Step, Consistent;
    RunConsistent(s[..i]);
    AlivePrefix(s, i);
    AlivePrefix(s, i + 1);
    assert s[..i + 1][..i] == s[..i];
    LeavesComplete(Run(START, s[..i]), s[i]);
  }

  lemma PrefixEnd(finite: Finite, s: string)
    requires Alive(s)
    ensures s[..|s|] == s && Consistent(Run(START, s)) && s[TokenStart(s)..] == s[TokenStart(s)..|s|] &&
            TokenStart(s) <= |s|
    ensures var st := Run(START, s);
            && (st.mode.Num? ==> |s| > 0)
            && (RefusedAt(finite, s, |s|) <==> st.mode.Num? && Complete(st.mode.num) && !finite(s[TokenStart(s)..]))
  {
    hide Step, Consistent;
    RunConsistent(s);
    assert s[..|s|] == s;
  }

  /** What a step does to the containers, by the event that it fires. */
  lemma StepEvents(st: State, c: char)
    requires st.At? && Consistent(st) && Step(st, c).At?
    ensures var next, frames := Step(st, c), st.stack;
            var mode := if st.mode.Num? && !next.mode.Num? then After else st.mode;
            if mode.Str? && !next.mode.Str? then next == At(frames, if mode.isKey then Colon else After)
            else if mode.Lit? && !next.mode.Lit? then next == At(frames, After)
            else if (mode == Value || mode == ValueOrEnd) && c == '{' then next == At(frames + [InObject], KeyOrEnd)
            else if (mode == Value || mode == ValueOrEnd) && c == '[' then next == At(frames + [InArray], ValueOrEnd)
            else if (mode == KeyOrEnd || mode == After) && c == '}' then
              frames != [] && Top(frames) == InObject && next == At(Pop(frames), After)
            else if (mode == ValueOrEnd || mode == After) && c == ']' then
              frames != [] && Top(frames) == InArray && next == At(Pop(frames), After)
            else
              next.stack == frames
              && (frames == [] || Top(frames) == InArray || (ValuePending(next.mode) <==> ValuePending(mode)))
  {
    hide DigitsFit;
  }

  lemma ElementsStay(stack: seq<Frame>, a: Mode, b: Mode)
    ensures stack == [] || Top(stack) == InArray || (ValuePending(a) <==> ValuePending(b)) ==>
              Elements(stack, a) == Elements(stack, b)
  {
    hide Outer;
  }

  /** Behind a key its value is pending. */
  lemma OnKeyElements(stack: seq<Frame>, mode: Mode)
    requires mode.Str? && mode.isKey ==> stack != [] && Top(stack) == InObject
    ensures mode.Str? && mode.isKey ==> Elements(stack, mode) + [KEY] == Elements(stack, Colon)
  {
    hide Outer;
  }

  class ErrorLocator {
    var foundError: bool
    var position: nat
    var stack: seq<Element>

    constructor ()
      ensures !foundError && position == 0 && stack == []
    {
      foundError, position, stack := false, 0, [];
    }

    method CloseValue()
      modifies this`stack
      ensures stack == if old(stack) != [] && old(stack)[|old(stack)| - 1] == KEY then old(stack)[..|old(stack)| - 1]
              else old(stack)
    {
      if stack != [] && stack[|stack| - 1] == KEY {
        stack := stack[..|stack| - 1];
      }
    }

    method StartObject()
      modifies this`stack
      ensures stack == old(stack) + [OBJECT]
    {
      stack := stack + [OBJECT];
    }

    method StartArray()
      modifies this`stack
      ensures stack == old(stack) + [ARRAY]
    {
      stack := stack + [ARRAY];
    }

    method OnKey()
      modifies this`stack
      ensures stack == old(stack) + [KEY]
    {
      stack := stack + [KEY];
    }

    /** The precondition is the assertion of the handler; every caller proves it. */
    method EndContainer(kind: Element)
      requires stack != [] && stack[|stack| - 1] == kind
      modifies this`stack
      ensures var s := old(stack)[..|old(stack)| - 1];
              stack == if s != [] && s[|s| - 1] == KEY then s[..|s| - 1] else s
    {
      stack := stack[..|stack| - 1];
      CloseValue();
    }

    /** A value is complete: a KEY on top goes. */
    method EndScalar(ghost frames: seq<Frame>, ghost mode: Mode)
      requires ValuePending(mode) && mode != Colon && mode != Value && Fits(frames, mode) &&
               stack == Elements(frames, mode)
      modifies this`stack
      ensures stack == Elements(frames, After)
    {
      CloseValue();
      if frames != [] && Top(frames) == InObject {
        assert Outer(Pop(frames)) + [OBJECT, KEY] == Outer(Pop(frames)) + [OBJECT] + [KEY];
      }
    }

    method Begin(ghost frames: seq<Frame>, ghost mode: Mode, kind: Frame)
      requires (mode == Value || mode == ValueOrEnd) && Fits(frames, mode) && stack == Elements(frames, mode)
      modifies this`stack
      ensures stack == Elements(frames + [kind], if kind == InObject then KeyOrEnd else ValueOrEnd)
    {
      hide Outer, Elements, DigitsFit;
      OuterIsPending(frames, mode);
      ElementsInside(frames, kind);
      if kind == InObject {
        StartObject();
      } else {
        StartArray();
      }
    }

    method End(ghost frames: seq<Frame>, ghost mode: Mode, kind: Element)
      requires frames != [] && kind == (if Top(frames) == InObject then OBJECT else ARRAY)
      requires !ValuePending(mode) && stack == Elements(frames, mode)
      modifies this`stack
      ensures stack == Elements(Pop(frames), After)
    {
      EndContainer(kind);
      ghost var rest := Pop(frames);
      assert Outer(rest) + [kind] == Elements(frames, mode);
      if rest != [] && Top(rest) == InObject {
        assert Outer(rest) == Outer(Pop(rest)) + [OBJECT] + [KEY];
      }
    }

    /** The events that one more character of the text fires. */
    method Feed(st: State, c: char) returns (next: State)
      requires st.At? && Consistent(st) && Step(st, c).At? && stack == Elements(st.stack, st.mode)
      modifies this`stack
      ensures next == Step(st, c) && stack == Elements(next.stack, next.mode)
    {
      hide Step, Elements, Outer, DigitsFit;
      next := Step(st, c);
      var frames, mode := st.stack, st.mode;
      StepEvents(st, c);
      if mode.Num? && !next.mode.Num? {
        EndScalar(frames, mode);
        mode := After;
      }
      OnKeyElements(frames, mode);
      ElementsStay(frames, mode, next.mode);
      if mode.Str? && !next.mode.Str? {
        if mode.isKey {
          OnKey();
        } else {
          EndScalar(frames, mode);
        }
      } else if mode.Lit? && !next.mode.Lit? {
        EndScalar(frames, mode);
      } else if (mode == Value || mode == ValueOrEnd) && c == '{' {
        Begin(frames, mode, InObject);
      } else if (mode == Value || mode == ValueOrEnd) && c == '[' {
        Begin(frames, mode, InArray);
      } else if (mode == KeyOrEnd || mode == After) && c == '}' {
        End(frames, mode, OBJECT);
      } else if (mode == ValueOrEnd || mode == After) && c == ']' {
        End(frames, mode, ARRAY);
      }
    }

    /**
      `json::sax_parse` over a text whose reading does not fail. None of the handler's assertions
      fires. Without a number that is refused, the stack describes at the end the place where the
      text stopped, and an error is recorded there exactly when the text is not complete. Otherwise
      the error is at the last digit of the first such number, which is still due.
      */
    method SaxParse(input: string, finite: Finite)
      requires Alive(input) && stack == [] && !foundError
      modifies this
      ensures KeysOnObjects(stack)
      ensures AllRead(finite, input) ==>
                var st := Run(START, input);
                && stack == Elements(st.stack, Flushed(st.mode))
                && foundError == !WellFormed(input) && (foundError ==> position == |input|)
      ensures !AllRead(finite, input) ==>
                && foundError && FirstRefused(finite, input, position + 1)
                && var st := Run(START, input[..position + 1]); stack == Elements(st.stack, st.mode)
    {
      hide Run, Step, Elements, Outer, Consistent, TokenStart, RefusedAt, KeysOnObjects, ReadUpTo, AllRead;
      var st, start := START, 0;
      BeforeFirst(finite, input);
      for i := 0 to |input|
        invariant !foundError && st == Run(START, input[..i]) && st.At? && stack == Elements(st.stack, st.mode)
        invariant start == TokenStart(input[..i]) && ReadUpTo(finite, input, i)
      {
        PrefixStep(finite, input, i);
        ReadOneMore(finite, input, i);
        var next := Step(st, input[i]);
        if st.mode.Num? && !next.mode.Num? && !finite(input[start..i]) {
          ElementsKeysOnObjects(st.stack, st.mode);
          RefusedIsNotRead(finite, input, i);
          foundError, position := true, i - 1;
          return;
        }
        if !st.mode.Num? { start := i; }
        st := Feed(st, input[i]);
      }
      PrefixEnd(finite, input);
      AtEnd(input, finite, st, start);
    }

    /** The events at the end of the text. */
    method AtEnd(input: string, finite: Finite, st: State, start: nat)
      requires st == Run(START, input) && st.At? && Consistent(st) && !foundError
      requires stack == Elements(st.stack, st.mode)
      requires start <= |input| && (st.mode.Num? ==> |input| > 0) && ReadUpTo(finite, input, |input|)
      requires RefusedAt(finite, input, |input|) <==> st.mode.Num? && Complete(st.mode.num) && !finite(input[start..])
      modifies this
      ensures KeysOnObjects(stack)
      ensures AllRead(finite, input) ==>
                && stack == Elements(st.stack, Flushed(st.mode))
                && foundError == !WellFormed(input) && (foundError ==> position == |input|)
      ensures !AllRead(finite, input) ==>
                foundError && FirstRefused(finite, input, position + 1) && position + 1 == |input|
                && stack == Elements(st.stack, st.mode)
    {
      hide Run, Step, Elements, Outer, TokenStart, RefusedAt, KeysOnObjects, ReadUpTo, DigitsFit;
      ReadOneMore(finite, input, |input|);
      if st.mode.Num? && Complete(st.mode.num) {
        if !finite(input[start..]) {
          ElementsKeysOnObjects(st.stack, st.mode);
          foundError, position := true, |input| - 1;
          return;
        }
        EndScalar(st.stack, st.mode);
      }
      ElementsKeysOnObjects(st.stack, Flushed(st.mode));
      if !(st.stack == [] && Flushed(st.mode) == After) {
        foundError, position := true, |input|;
      }
    }
  }

  lemma LeavesComplete(st: State, c: char)
    ensures st.At? && st.mode.Num? && Step(st, c).At? && !Step(st, c).mode.Num? ==> Complete(st.mode.num)
  {
  }

  lemma AlivePrefix(s: string, i: nat)
    requires Alive(s) && i <= |s|
    ensures Alive(s[..i])
  {
    assert s == s[..i] + s[i..];
    RunAppend(START, s[..i], s[i..]);
    if !Alive(s[..i]) { RunFail(s[i..]); }
  }

  // ---------------------------------------------------------------- closing what is open

  /** The text that closes all containers, innermost first. */
  function CloseText(stack: seq<Frame>): string {
    if stack == [] then "" else [if Top(stack) == InObject then '}' else ']'] + CloseText(Pop(stack))
  }

  function ClosingOf(elements: seq<Element>): string {
    if elements == [] then ""
    else (match elements[|elements| - 1] case OBJECT => "}" case ARRAY => "]" case KEY => "")
         + ClosingOf(elements[..|elements| - 1])
  }

  lemma ClosingOfPush(elements: seq<Element>, e: Element)
    ensures ClosingOf(elements + [e]) ==
            (match e case OBJECT => "}" case ARRAY => "]" case KEY => "") + ClosingOf(elements)
  {
    assert (elements + [e])[..|elements|] == elements;
  }

  lemma ClosedInside(s: string)
    ensures "" + ("}" + s) == ['}'] + s && "]" + s == [']'] + s
  {
  }

  lemma {:induction false} ClosingOfOuter(stack: seq<Frame>)
    ensures ClosingOf(Outer(stack)) == CloseText(stack)
  {
    hide ClosingOf;
    if stack == [] {
      NoClosing();
    } else {
      var outer := Outer(Pop(stack));
      ClosingOfOuter(Pop(stack));
      if Top(stack) == InObject {
        assert Outer(stack) == outer + [OBJECT] + [KEY];
        ClosingOfPush(outer + [OBJECT], KEY);
        ClosingOfPush(outer, OBJECT);
        ClosedInside(ClosingOf(outer));
      } else {
        ClosingOfPush(outer, ARRAY);
      }
    }
  }

  lemma ClosingOfElements(stack: seq<Frame>, mode: Mode)
    ensures ClosingOf(Elements(stack, mode)) == CloseText(stack)
  {
    ClosingOfOuter(stack);
    if stack != [] && Top(stack) == InObject && !ValuePending(mode) {
      ClosingOfPush(Elements(stack, mode), KEY);
      assert Outer(stack) == Elements(stack, mode) + [KEY];
    }
  }

  lemma NoClosing()
    ensures ClosingOf([]) == "" && forall s: string :: s + "" == s
  {
  }

  /** The loop that builds `closing` from the top of the stack down. */
  method Closing(stack: seq<Element>) returns (closing: string)
    ensures closing == ClosingOf(stack)
  {
    hide ClosingOf;
    closing := "";
    var i := |stack|;
    assert stack[..i] == stack && "" + ClosingOf(stack) == ClosingOf(stack);
    NoClosing();
    while i > 0
      invariant 0 <= i <= |stack|
      invariant closing + ClosingOf(stack[..i]) == ClosingOf(stack)
    {
      var e := stack[i - 1];
      assert stack[..i] == stack[..i - 1] + [e];
      ClosingOfPush(stack[..i - 1], e);
      ghost var rest := ClosingOf(stack[..i - 1]);
      if e == OBJECT {
        assert closing + ("}" + rest) == closing + "}" + rest;
        closing := closing + "}";
      } else if e == ARRAY {
        assert closing + ("]" + rest) == closing + "]" + rest;
        closing := closing + "]";
      } else {
        assert "" + rest == rest;
      }
      i := i - 1;
    }
    assert closing + "" == closing;
  }
}
