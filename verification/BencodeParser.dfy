/** `BencodeParser` of `src/BencodeParser.cc` with its mutable fields and its bulk loops,
    proved to do what the one-character machine of `BencodeMachine` does. */
module BencodePushParser {
  import opened BencodeMachine
  import opened Integers
  import opened Wrappers

  /** The callbacks in the order they were made, with adjacent character callbacks joined. */
  function Join(raw: seq<Event>): seq<Event> {
    if raw == [] then [] else Push(Join(raw[..|raw| - 1]), raw[|raw| - 1])
  }

  lemma JoinAppend(raw: seq<Event>, e: Event)
    ensures Join(raw + [e]) == Push(Join(raw), e)
  {
    assert (raw + [e])[..|raw|] == raw;
  }

  /** Reading `data` from `i` turned `p` into `q`: either `data[i..next]` was consumed,
      or the error `rv` was met. */
  ghost predicate Reads(p: Parser, data: string, i: nat, q: Parser, next: nat, rv: int)
    requires i < |data|
  {
    && rv <= 0
    && (rv < 0 ==> Feed(p, data[i..]) == Fed(q, rv))
    && (rv == 0 ==> i < next <= |data| && q.state != Error && Eat(p, data[i..next]) == Some(q))
  }

  /** One more character, read by the simple machine. */
  lemma ReadsOne(p: Parser, data: string, i: nat)
    requires Wf(p) && p.state != Error && p.state != Finish && i < |data|
    ensures Reads(p, data, i, Step(p, data[i]).0, i + 1, Step(p, data[i]).1)
    ensures Wf(Step(p, data[i]).0)
  {
    StepWf(p, data[i]);
    if Step(p, data[i]).1 == 0 {
      assert data[i..i + 1] == [data[i]];
      EatOne(p, data[i], Step(p, data[i]).0);
    }
  }

  /** What is read from `j` on counts as read from `i` on. */
  lemma ReadsOn(p: Parser, data: string, i: nat, m: Parser, j: nat, q: Parser, next: nat, rv: int)
    requires i <= j < |data| && Eat(p, data[i..j]) == Some(m) && Reads(m, data, j, q, next, rv)
    ensures Reads(p, data, i, q, next, rv)
  {
    if rv < 0 {
      assert data[i..] == data[i..j] + data[j..];
      FeedAfter(p, data[i..j], m, data[j..]);
    } else {
      assert data[i..next] == data[i..j] + data[j..next];
      EatOn(p, data[i..j], m, data[j..next], q);
    }
  }

  lemma DigitMore(acc: int, data: string, i: nat, j: nat)
    requires i <= j < |data| && AllDigits(data[i..j]) && IsDigit(data[j])
    ensures AllDigits(data[i..j + 1])
    ensures Accumulate(acc, data[i..j + 1]) == Accumulate(acc, data[i..j]) * 10 + DigitOf(data[j])
  {
    assert data[i..j + 1] == data[i..j] + [data[j]];
    assert data[i..j + 1][..j - i] == data[i..j];
  }

  /** The character at `j` is the first to fail. */
  lemma FailsAt(p: Parser, data: string, i: nat, j: nat, m: Parser, q: Parser, code: int)
    requires i <= j < |data| && Eat(p, data[i..j]) == Some(m)
    requires m.state != Error && m.state != Finish && Step(m, data[j]) == (q, code) && code < 0
    ensures Feed(p, data[i..]) == Fed(q, code)
  {
    assert data[i..] == data[i..j] + data[j..];
    FeedAfter(p, data[i..j], m, data[j..]);
  }

  /** The digit at `j` is the first to leave int64. */
  lemma LengthTooLong(p: Parser, data: string, i: nat, j: nat)
    requires Wf(p) && p.state.StringLen?
    requires i <= j < |data| && AllDigits(data[i..j]) && IsDigit(data[j])
    requires Accumulate(p.strLength, data[i..j]) <= INT64_MAX
    requires Overflows(Accumulate(p.strLength, data[i..j]), DigitOf(data[j]))
    ensures var (q, code) := Fail(p.(strLength := Accumulate(p.strLength, data[i..j])), ERR_STRING_LENGTH_OUT_OF_RANGE);
            Wf(q) && Feed(p, data[i..]) == Fed(q, code)
  {
    var m := p.(strLength := Accumulate(p.strLength, data[i..j]), numConsumed := p.numConsumed + |data[i..j]|);
    LengthDigits(p, data[i..j]);
    FailsAt(p, data, i, j, m, StepStringLen(m, data[j]).0, ERR_STRING_LENGTH_OUT_OF_RANGE);
  }

  /** The digit at `j` is the first to leave int64. */
  lemma NumberTooLong(p: Parser, data: string, i: nat, j: nat)
    requires Wf(p) && p.state.Number?
    requires i <= j < |data| && AllDigits(data[i..j]) && IsDigit(data[j])
    requires Accumulate(p.number, data[i..j]) <= INT64_MAX
    requires Overflows(Accumulate(p.number, data[i..j]), DigitOf(data[j]))
    ensures var (q, code) := Fail(p.(number := Accumulate(p.number, data[i..j])), ERR_NUMBER_OUT_OF_RANGE);
            Wf(q) && Feed(p, data[i..]) == Fed(q, code)
  {
    var m := p.(number := Accumulate(p.number, data[i..j]), numConsumed := p.numConsumed + |data[i..j]|);
    NumberDigits(p, data[i..j]);
    FailsAt(p, data, i, j, m, StepNumber(m, data[j]).0, ERR_NUMBER_OUT_OF_RANGE);
  }

  /** A dictionary key is read in the same step that opens it. */
  lemma KeyBegins(p: Parser, q: Parser, data: string, i: nat, r: Parser, next: nat, rv: int)
    requires p.state.DictKey? && |p.stack| < MAX_STACK && i < |data| && data[i] != 'e'
    requires q == Emit(p.(stack := p.stack + [DictKey], strLength := 0, numConsumed := 0, state := StringLen),
                       Begin(DictKeyT))
    requires Reads(q, data, i, r, next, rv)
    ensures Reads(p, data, i, r, next, rv)
  {
    assert Step(p, data[i]) == Step(q, data[i]);
    assert Feed(p, data[i..]) == Feed(q, data[i..]);
    if rv == 0 {
      assert Eat(p, data[i..next]) == Eat(q, data[i..next]);
    }
  }

  lemma EatenOn(p: Parser, data: string, i: nat, m: Parser, next: nat, q: Parser)
    requires i <= next <= |data| && Eat(p, data[..i]) == Some(m) && Eat(m, data[i..next]) == Some(q)
    ensures Eat(p, data[..next]) == Some(q)
  {
    assert data[..i] + data[i..next] == data[..next];
    EatOn(p, data[..i], m, data[i..next], q);
  }

  lemma FailsFrom(p: Parser, data: string, i: nat, m: Parser, q: Parser, rv: int)
    requires i <= |data| && Eat(p, data[..i]) == Some(m) && Feed(m, data[i..]) == Fed(q, rv) && rv < 0
    ensures Feed(p, data) == Fed(q, rv)
  {
    assert data[..i] + data[i..] == data;
    FeedAfter(p, data[..i], m, data[i..]);
  }

  lemma EndsAt(p: Parser, data: string, i: nat, q: Parser)
    requires i <= |data| && Eat(p, data[..i]) == Some(q) && q.state != Error
    requires i == |data| || q.state.Finish?
    ensures Feed(p, data) == Fed(q, i)
  {
    assert data[..i] + data[i..] == data;
    FeedAfter(p, data[..i], q, data[i..]);
  }

  lemma SliceReads(p: Parser, data: string, i: nat, next: nat, q: Parser)
    requires p.state.String? && i < next <= |data| && next - i <= p.strLength
    requires q == AfterSlice(p, data[i..next]) && q.state != Error
    ensures Reads(p, data, i, q, next, 0)
  {
    StringSlice(p, data[i..next]);
  }

  class BencodeParser {
    var currentState: Control
    var stateStack: seq<Control>
    var strLength: int
    var numberSign: int
    var number: int
    var numConsumed: nat
    var lastError: int
    var events: seq<Event>

    /** The parser as the one-character machine sees it. In the error state the digit
        counter is dead, and it is the one field in which cuts of the input show. */
    ghost function View(): Parser
      reads this
    {
      Parser(currentState, stateStack, strLength, numberSign, number,
             if currentState.Error? then 0 else numConsumed, lastError, Join(events))
    }

    ghost predicate Valid()
      reads this
    {
      Wf(View())
    }

    constructor ()
      ensures View() == FRESH && Valid()
    {
      currentState := Initial;
      stateStack := [Finish];
      strLength := 0;
      numberSign := 1;
      number := 0;
      numConsumed := 0;
      lastError := 0;
      events := [];
    }

    method Run(e: Event)
      modifies `events
      ensures View() == Emit(old(View()), e)
    {
      JoinAppend(events, e);
      events := events + [e];
    }

    method PushState(state: Control) returns (rv: int)
      modifies `stateStack
      ensures rv == if old(|stateStack|) >= MAX_STACK then ERR_STRUCTURE_TOO_DEEP else 0
      ensures stateStack == if rv < 0 then old(stateStack) else old(stateStack) + [state]
    {
      if |stateStack| >= MAX_STACK {
        return ERR_STRUCTURE_TOO_DEEP;
      }
      stateStack := stateStack + [state];
      return 0;
    }

    method PopState() returns (state: Control)
      requires |stateStack| > 0
      modifies `stateStack
      ensures old(stateStack) == stateStack + [state]
    {
      state := stateStack[|stateStack| - 1];
      stateStack := stateStack[..|stateStack| - 1];
    }

    /** The push after the pop at the end of a dictionary key cannot fail. */
    method OnValueEnd()
      requires currentState != Error && 1 <= |stateStack| <= MAX_STACK && Top(View()) != Error
      modifies this
      ensures View() == ValueEnd(old(View()))
    {
      var top := stateStack[|stateStack| - 1];
      if top == DictKey {
        var _ := PopState();
        var rv := PushState(DictVal);
        assert rv == 0;
        currentState := Value;
        Run(Begin(DictDataT));
      } else if top == DictVal {
        Run(End(DictDataT));
        var _ := PopState();
        currentState := DictKey;
      } else if top == List {
        Run(End(ArrayDataT));
        var _ := PopState();
        currentState := List;
      } else {
        currentState := top;
      }
    }

    method OnStringEnd()
      requires currentState != Error && 1 <= |stateStack| <= MAX_STACK && Top(View()) != Error
      modifies this
      ensures View() == StringEnd(old(View()))
    {
      Run(End(if stateStack[|stateStack| - 1] == DictKey then DictKeyT else StringT));
      OnValueEnd();
    }

    method OnNumberEnd()
      requires currentState != Error && 1 <= |stateStack| <= MAX_STACK && Top(View()) != Error
      requires numberSign == 1 || numberSign == -1
      modifies this
      ensures View() == NumberEnd(old(View()))
    {
      var n := numberSign * number;
      assert n == Signed(numberSign, number);
      Run(Num(n));
      Run(End(NumberT));
      OnValueEnd();
    }

    method SetError(code: int) returns (rv: int)
      modifies `currentState, `lastError
      ensures (View(), rv) == Fail(old(View()), code)
    {
      currentState := Error;
      lastError := code;
      rv := code;
    }

    /** The characters legal at the start of a value, shared by three states. */
    method BeginValue(c: char) returns (rv: int)
      requires currentState != Error
      modifies this
      ensures (View(), rv) == StepValue(old(View()), c)
    {
      if c == 'd' {
        currentState := DictKey;
        Run(Begin(DictT));
      } else if c == 'l' {
        currentState := List;
        Run(Begin(ArrayT));
      } else if c == 'i' {
        number := 0;
        numberSign := 1;
        numConsumed := 0;
        currentState := NumberSign;
        Run(Begin(NumberT));
      } else if IsDigit(c) {
        strLength := DigitOf(c);
        numConsumed := 1;
        currentState := StringLen;
        Run(Begin(StringT));
      } else {
        rv := SetError(ERR_UNEXPECTED_CHAR_BEFORE_VAL);
        return;
      }
      rv := 0;
    }

    /** The run of digits starting at `i`, added to `strLength` until one leaves int64. */
    method AddLengthDigits(data: string, i: nat) returns (j: nat, rv: int)
      requires Valid() && currentState.StringLen? && i < |data|
      modifies this
      ensures rv <= 0
      ensures rv < 0 ==> Valid() && Feed(old(View()), data[i..]) == Fed(View(), rv)
      ensures rv == 0 ==> i <= j <= |data| && (j < |data| ==> !IsDigit(data[j])) && AllDigits(data[i..j])
      ensures rv == 0 ==> Accumulate(old(strLength), data[i..j]) <= INT64_MAX
      ensures rv == 0 ==> View() == old(View()).(strLength := Accumulate(old(strLength), data[i..j]),
                                                 numConsumed := old(numConsumed) + |data[i..j]|)
    {
      j := i;
      while j < |data| && IsDigit(data[j])
        invariant i <= j <= |data| && AllDigits(data[i..j])
        invariant strLength == Accumulate(old(strLength), data[i..j]) <= INT64_MAX
        invariant View() == old(View()).(strLength := strLength)
        invariant numConsumed == old(numConsumed)
      {
        var d := DigitOf(data[j]);
        if (INT64_MAX - d) / 10 < strLength {
          LengthTooLong(old(View()), data, i, j);
          rv := SetError(ERR_STRING_LENGTH_OUT_OF_RANGE);
          return;
        }
        GuardIsExact(strLength, d);
        DigitMore(old(strLength), data, i, j);
        strLength := strLength * 10;
        strLength := strLength + d;
        j := j + 1;
      }
      rv := 0;
      numConsumed := numConsumed + (j - i);
    }

    method TakeLengthDigits(data: string, i: nat) returns (j: nat, rv: int)
      requires Valid() && currentState.StringLen? && i < |data|
      modifies this
      ensures Valid() && rv <= 0
      ensures rv < 0 ==> Feed(old(View()), data[i..]) == Fed(View(), rv)
      ensures rv == 0 ==> i <= j <= |data| && (j < |data| ==> !IsDigit(data[j]))
      ensures rv == 0 ==> currentState.StringLen? && Eat(old(View()), data[i..j]) == Some(View())
    {
      ghost var p := View();
      j, rv := AddLengthDigits(data, i);
      if rv == 0 {
        LengthDigits(p, data[i..j]);
      }
    }

    /** The digits of a string length and the colon after them. On success `next` is the
        first character not consumed. */
    method ReadStringLength(data: string, i: nat) returns (next: nat, rv: int)
      requires Valid() && currentState.StringLen? && i < |data|
      modifies this
      ensures Valid() && Reads(old(View()), data, i, View(), next, rv)
    {
      next, rv := TakeLengthDigits(data, i);
      if rv < 0 {
        return;
      }
      if next != |data| {
        ghost var p := View();
        var j := next;
        rv := EndStringLength(data[j]);
        next := j + 1;
        ReadsOne(p, data, j);
        ReadsOn(old(View()), data, i, p, j, View(), next, rv);
      }
    }

    method EndStringLength(c: char) returns (rv: int)
      requires Valid() && currentState.StringLen? && !IsDigit(c)
      modifies this
      ensures (View(), rv) == StepStringLen(old(View()), c)
    {
      if c != ':' || numConsumed == 0 {
        rv := SetError(ERR_INVALID_STRING_LENGTH);
        return;
      }
      rv := 0;
      currentState := String;
      if strLength == 0 {
        Run(Chars(""));
        OnStringEnd();
      }
    }

    /** The run of digits starting at `i`, added to `number` until one leaves int64. */
    method AddNumberDigits(data: string, i: nat) returns (j: nat, rv: int)
      requires Valid() && currentState.Number? && i < |data|
      modifies this
      ensures rv <= 0
      ensures rv < 0 ==> Valid() && Feed(old(View()), data[i..]) == Fed(View(), rv)
      ensures rv == 0 ==> i <= j <= |data| && (j < |data| ==> !IsDigit(data[j])) && AllDigits(data[i..j])
      ensures rv == 0 ==> Accumulate(old(number), data[i..j]) <= INT64_MAX
      ensures rv == 0 ==> View() == old(View()).(number := Accumulate(old(number), data[i..j]),
                                                 numConsumed := old(numConsumed) + |data[i..j]|)
    {
      j := i;
      while j < |data| && IsDigit(data[j])
        invariant i <= j <= |data| && AllDigits(data[i..j])
        invariant number == Accumulate(old(number), data[i..j]) <= INT64_MAX
        invariant View() == old(View()).(number := number)
        invariant numConsumed == old(numConsumed)
      {
        var d := DigitOf(data[j]);
        if (INT64_MAX - d) / 10 < number {
          NumberTooLong(old(View()), data, i, j);
          rv := SetError(ERR_NUMBER_OUT_OF_RANGE);
          return;
        }
        GuardIsExact(number, d);
        DigitMore(old(number), data, i, j);
        number := number * 10;
        number := number + d;
        j := j + 1;
      }
      rv := 0;
      numConsumed := numConsumed + (j - i);
    }

    method TakeNumberDigits(data: string, i: nat) returns (j: nat, rv: int)
      requires Valid() && currentState.Number? && i < |data|
      modifies this
      ensures Valid() && rv <= 0
      ensures rv < 0 ==> Feed(old(View()), data[i..]) == Fed(View(), rv)
      ensures rv == 0 ==> i <= j <= |data| && (j < |data| ==> !IsDigit(data[j]))
      ensures rv == 0 ==> currentState.Number? && Eat(old(View()), data[i..j]) == Some(View())
    {
      ghost var p := View();
      j, rv := AddNumberDigits(data, i);
      if rv == 0 {
        NumberDigits(p, data[i..j]);
      }
    }

    /** The digits of a number and what ends them. */
    method ReadNumber(data: string, i: nat) returns (next: nat, rv: int)
      requires Valid() && currentState.Number? && i < |data|
      modifies this
      ensures Valid() && Reads(old(View()), data, i, View(), next, rv)
    {
      next, rv := TakeNumberDigits(data, i);
      if rv < 0 {
        return;
      }
      if next != |data| {
        ghost var p := View();
        var j := next;
        rv := EndNumber(data[j]);
        next := j + 1;
        ReadsOne(p, data, j);
        ReadsOn(old(View()), data, i, p, j, View(), next, rv);
      }
    }

    method EndNumber(c: char) returns (rv: int)
      requires Valid() && currentState.Number? && !IsDigit(c)
      modifies this
      ensures (View(), rv) == StepNumber(old(View()), c)
    {
      rv := 0;
      if numConsumed == 0 {
        rv := SetError(ERR_INVALID_NUMBER);
      } else if IsFloatChar(c) {
        number := 0;
        numConsumed := 0;
        currentState := FloatNumberIgnore;
      } else if c != 'e' {
        rv := SetError(ERR_INVALID_NUMBER);
      } else {
        OnNumberEnd();
      }
    }

    method ReadListItem(c: char) returns (rv: int)
      requires Valid() && currentState.List?
      modifies this
      ensures (View(), rv) == Step(old(View()), c)
    {
      rv := 0;
      if c == 'e' {
        Run(End(ArrayT));
        OnValueEnd();
      } else {
        rv := PushState(currentState);
        if rv < 0 {
          return;
        }
        currentState := Value;
        Run(Begin(ArrayDataT));
        rv := BeginValue(c);
      }
    }

    method ReadDictKey(data: string, i: nat) returns (next: nat, rv: int)
      requires Valid() && currentState.DictKey? && i < |data|
      modifies this
      ensures Valid() && Reads(old(View()), data, i, View(), next, rv)
    {
      ghost var p := View();
      ReadsOne(p, data, i);
      rv := 0;
      next := i + 1;
      if data[i] == 'e' {
        Run(End(DictT));
        OnValueEnd();
      } else {
        rv := BeginKey();
        if rv < 0 {
          return;
        }
        ghost var q := View();
        next, rv := ReadStringLength(data, i);
        KeyBegins(p, q, data, i, View(), next, rv);
      }
    }

    /** What happens in front of a key, unless the stack is full. */
    method BeginKey() returns (rv: int)
      requires Valid() && currentState.DictKey?
      modifies this
      ensures rv == if old(|stateStack|) >= MAX_STACK then ERR_STRUCTURE_TOO_DEEP else 0
      ensures rv < 0 ==> View() == old(View())
      ensures rv == 0 ==>
                && Valid()
                && View() == Emit(old(View()).(stack := old(View()).stack + [DictKey], strLength := 0,
                                               numConsumed := 0, state := StringLen), Begin(DictKeyT))
    {
      rv := PushState(currentState);
      if rv < 0 {
        return;
      }
      strLength := 0;
      numConsumed := 0;
      Run(Begin(DictKeyT));
      currentState := StringLen;
    }

    method ReadSlice(data: string, i: nat) returns (next: nat)
      requires Valid() && currentState.String? && i < |data|
      modifies this
      ensures Valid() && Reads(old(View()), data, i, View(), next, 0)
    {
      ghost var p := View();
      var nread := if |data| - i < strLength then |data| - i else strLength;
      next := i + nread;
      TakeSlice(data[i..next]);
      SliceReads(p, data, i, next, View());
    }

    method TakeSlice(slice: string)
      requires Valid() && currentState.String? && 0 < |slice| <= strLength
      modifies this
      ensures Valid() && View() == AfterSlice(old(View()), slice) && currentState != Error
    {
      Run(Chars(slice));
      strLength := strLength - |slice|;
      if strLength == 0 {
        StringEndWf(View());
        OnStringEnd();
      }
    }

    method ReadNumberSign(c: char)
      requires Valid() && currentState.NumberSign?
      modifies this
      ensures (View(), 0) == Step(old(View()), c)
    {
      if c == '+' {
        numberSign := 1;
        currentState := Number;
      } else if c == '-' {
        numberSign := -1;
        currentState := Number;
      } else if IsDigit(c) {
        number := DigitOf(c);
        numConsumed := 1;
        currentState := Number;
      }
    }

    method ReadFloatNumber(c: char) returns (rv: int)
      requires Valid() && currentState.FloatNumberIgnore?
      modifies this
      ensures (View(), rv) == Step(old(View()), c)
    {
      rv := 0;
      if !IsFloatChar(c) {
        if c != 'e' {
          rv := SetError(ERR_INVALID_FLOAT_NUMBER);
        } else {
          OnNumberEnd();
        }
      }
    }

    /** One iteration of the loop of `ParseUpdate`. */
    method ParseStep(data: string, i: nat) returns (next: nat, rv: int)
      requires Valid() && currentState != Error && currentState != Finish && i < |data|
      modifies this
      ensures Valid() && Reads(old(View()), data, i, View(), next, rv)
    {
      ghost var p := View();
      ReadsOne(p, data, i);
      rv := 0;
      next := i + 1;
      if currentState == List {
        rv := ReadListItem(data[i]);
      } else if currentState == Initial || currentState == Value {
        rv := BeginValue(data[i]);
      } else if currentState == DictKey {
        next, rv := ReadDictKey(data, i);
      } else if currentState == StringLen {
        next, rv := ReadStringLength(data, i);
      } else if currentState == String {
        next := ReadSlice(data, i);
      } else if currentState == NumberSign {
        ReadNumberSign(data[i]);
      } else if currentState == Number {
        next, rv := ReadNumber(data, i);
      } else {
        rv := ReadFloatNumber(data[i]);
      }
    }

    /** Parses `data` with bulk reads of digits and string slices, and does exactly what
        reading it one character at a time does. */
    method ParseUpdate(data: string) returns (rv: int)
      requires Valid()
      modifies this
      ensures Valid()
      ensures Fed(View(), rv) == Feed(old(View()), data)
    {
      if currentState == Finish {
        return 0;
      } else if currentState == Error {
        return lastError;
      }
      var i := 0;
      while i < |data| && currentState != Finish
        invariant 0 <= i <= |data| && Valid() && currentState != Error
        invariant Eat(old(View()), data[..i]) == Some(View())
        decreases |data| - i
      {
        ghost var p, from := View(), i;
        i, rv := ParseStep(data, i);
        if rv < 0 {
          FailsFrom(old(View()), data, from, p, View(), rv);
          return;
        }
        EatenOn(old(View()), data, from, p, i, View());
      }
      EndsAt(old(View()), data, i, View());
      return i;
    }

    /** The last piece of input: a value that is neither finished nor unstarted is premature. */
    method ParseFinal(data: string) returns (rv: int)
      requires Valid()
      modifies this
      ensures Valid() && View() == Feed(old(View()), data).parser
      ensures var f := Feed(old(View()), data);
              rv == if f.rv >= 0 && f.parser.state != Finish && f.parser.state != Initial then -4 else f.rv
    {
      rv := ParseUpdate(data);
      if rv >= 0 {
        if currentState != Finish && currentState != Initial {
          rv := ERR_PREMATURE_DATA;
        }
      }
    }

    /** Makes the parser ready for reuse: from here on it behaves as a new one, although
        the registers keep what they held. */
    method Reset()
      requires Valid()
      modifies this
      ensures Valid() && SameLive(FRESH, View())
    {
      events := [];
      currentState := Initial;
      lastError := 0;
      while stateStack != []
        invariant unchanged(`strLength) && unchanged(`numberSign) && unchanged(`number)
        invariant currentState == Initial && lastError == 0 && events == []
        decreases |stateStack|
      {
        var _ := PopState();
      }
      stateStack := stateStack + [Finish];
    }
  }
}
