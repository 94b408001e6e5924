/** The bencode push parser of `src/BencodeParser.cc`, read one character at a time.

    The source consumes whole runs of digits and whole slices of string data per iteration.
    `Step` is the simple machine that reads a single character; `Feed` folds it over an input.
    The imperative parser in `BencodeParser.dfy` is proved to refine `Feed`. */
module BencodeMachine {
  import opened Integers
  import opened Sequences
  import opened Wrappers

  const ERR_UNEXPECTED_CHAR_BEFORE_VAL: int := -1
  const ERR_INVALID_NUMBER: int := -2
  const ERR_NUMBER_OUT_OF_RANGE: int := -3
  const ERR_PREMATURE_DATA: int := -4
  const ERR_STRUCTURE_TOO_DEEP: int := -5
  const ERR_INVALID_STRING_LENGTH: int := -6
  const ERR_STRING_LENGTH_OUT_OF_RANGE: int := -7
  const ERR_INVALID_FLOAT_NUMBER: int := -8

  const MAX_STACK: nat := 50

  datatype Control =
    | Finish
    | Error
    | Initial
    | Value
    | DictKey
    | DictVal
    | List
    | StringLen
    | String
    | NumberSign
    | Number
    | FloatNumberIgnore

  datatype Kind = DictT | DictKeyT | DictDataT | ArrayT | ArrayDataT | StringT | NumberT

  /** One callback into the struct parser state machine. */
  datatype Event =
    | Begin(kind: Kind)
    | End(kind: Kind)
    | Chars(data: string)
    | Num(value: int)

  /** The whole parser state; `trace` holds the callbacks made so far, adjacent character
      callbacks joined. */
  datatype Parser = Parser(
    state: Control,
    stack: seq<Control>,
    strLength: int,
    sign: int,
    number: int,
    numConsumed: nat,
    lastError: int,
    trace: seq<Event>)

  const FRESH: Parser := Parser(Initial, [Finish], 0, 1, 0, 0, 0, [])

  /** What every reachable parser satisfies. */
  ghost predicate Wf(p: Parser) {
    && 1 <= |p.stack| <= MAX_STACK
    && p.stack[0] == Finish
    && (forall i :: 1 <= i < |p.stack| ==> p.stack[i] in {DictKey, DictVal, List})
    && 0 <= p.strLength <= INT64_MAX
    && 0 <= p.number <= INT64_MAX
    && (p.sign == 1 || p.sign == -1)
    && (p.state.String? ==> p.strLength > 0)
    && (p.state.Error? ==> p.lastError < 0)
    && (p.state.Finish? ==> |p.stack| == 1)
    && !p.state.DictVal?
  }

  predicate IsDigit(c: char) { '0' <= c <= '9' }

  function DigitOf(c: char): (d: int)
    requires IsDigit(c)
    ensures 0 <= d <= 9
  {
    c as int - '0' as int
  }

  /** The ten digits in their order. */
  lemma DigitsInOrder(c: char)
    requires IsDigit(c)
    ensures "0123456789"[DigitOf(c)] == c
  {
  }

  /** Characters that mark a floating point number, which is skipped up to its 'e'. */
  predicate IsFloatChar(c: char) {
    IsDigit(c) || c == '.' || c == 'E' || c == '+' || c == '-'
  }

  /** Adds a callback to a trace, joining it to a preceding character callback. */
  function Push(t: seq<Event>, e: Event): seq<Event> {
    if e.Chars? && t != [] && t[|t| - 1].Chars? then
      t[..|t| - 1] + [Chars(t[|t| - 1].data + e.data)]
    else
      t + [e]
  }

  function Emit(p: Parser, e: Event): Parser {
    p.(trace := Push(p.trace, e))
  }

  /** Enters the sticky error state. The digit counter is dead from here on. */
  function Fail(p: Parser, code: int): (Parser, int) {
    (p.(state := Error, lastError := code, numConsumed := 0), code)
  }

  function Top(p: Parser): Control {
    if p.stack == [] then Finish else p.stack[|p.stack| - 1]
  }

  function Pop(p: Parser): seq<Control> {
    if p.stack == [] then [] else p.stack[..|p.stack| - 1]
  }

  function ValueEnd(p: Parser): Parser {
    match Top(p)
    case DictKey =>
      Emit(p.(stack := Pop(p) + [DictVal], state := Value), Begin(DictDataT))
    case DictVal =>
      Emit(p, End(DictDataT)).(stack := Pop(p), state := DictKey)
    case List =>
      Emit(p, End(ArrayDataT)).(stack := Pop(p), state := List)
    case _ =>
      p.(state := Top(p))
  }

  function StringEnd(p: Parser): Parser {
    ValueEnd(Emit(p, End(if Top(p).DictKey? then DictKeyT else StringT)))
  }

  /** `numberSign_ * number_`, the sign being 1 or -1. */
  function Signed(sign: int, n: int): int {
    if sign == -1 then -n else n
  }

  function NumberEnd(p: Parser): Parser {
    ValueEnd(Emit(Emit(p, Num(Signed(p.sign, p.number))), End(NumberT)))
  }

  /** The overflow guard of the source: with a truncating division of non-negative operands. */
  predicate Overflows(acc: int, digit: int) {
    (INT64_MAX - digit) / 10 < acc
  }

  function StepValue(p: Parser, c: char): (Parser, int) {
    if c == 'd' then (Emit(p.(state := DictKey), Begin(DictT)), 0)
    else if c == 'l' then (Emit(p.(state := List), Begin(ArrayT)), 0)
    else if c == 'i' then
      (Emit(p.(number := 0, sign := 1, numConsumed := 0, state := NumberSign), Begin(NumberT)), 0)
    else if IsDigit(c) then
      (Emit(p.(strLength := DigitOf(c), numConsumed := 1, state := StringLen), Begin(StringT)), 0)
    else Fail(p, ERR_UNEXPECTED_CHAR_BEFORE_VAL)
  }

  function StepStringLen(p: Parser, c: char): (Parser, int) {
    if IsDigit(c) then
      if Overflows(p.strLength, DigitOf(c)) then Fail(p, ERR_STRING_LENGTH_OUT_OF_RANGE)
      else (p.(strLength := p.strLength * 10 + DigitOf(c), numConsumed := p.numConsumed + 1), 0)
    else if c != ':' || p.numConsumed == 0 then Fail(p, ERR_INVALID_STRING_LENGTH)
    else if p.strLength == 0 then (StringEnd(Emit(p.(state := String), Chars(""))), 0)
    else (p.(state := String), 0)
  }

  function StepString(p: Parser, c: char): (Parser, int) {
    var q := Emit(p, Chars([c])).(strLength := p.strLength - 1);
    (if q.strLength == 0 then StringEnd(q) else q, 0)
  }

  function StepNumberSign(p: Parser, c: char): (Parser, int) {
    if c == '+' then (p.(sign := 1, state := Number), 0)
    else if c == '-' then (p.(sign := -1, state := Number), 0)
    else if IsDigit(c) then (p.(number := DigitOf(c), numConsumed := 1, state := Number), 0)
    else (p, 0)
  }

  function StepNumber(p: Parser, c: char): (Parser, int) {
    if IsDigit(c) then
      if Overflows(p.number, DigitOf(c)) then Fail(p, ERR_NUMBER_OUT_OF_RANGE)
      else (p.(number := p.number * 10 + DigitOf(c), numConsumed := p.numConsumed + 1), 0)
    else if p.numConsumed == 0 then Fail(p, ERR_INVALID_NUMBER)
    else if IsFloatChar(c) then (p.(number := 0, numConsumed := 0, state := FloatNumberIgnore), 0)
    else if c != 'e' then Fail(p, ERR_INVALID_NUMBER)
    else (NumberEnd(p), 0)
  }

  /** Reads one character. The second component is 0 or a negative error code. */
  function Step(p: Parser, c: char): (r: (Parser, int)) {
    match p.state
    case Finish => (p, 0)
    case Error => (p, p.lastError)
    case Initial => StepValue(p, c)
    case Value => StepValue(p, c)
    case List =>
      if c == 'e' then (ValueEnd(Emit(p, End(ArrayT))), 0)
      else if |p.stack| >= MAX_STACK then (p, ERR_STRUCTURE_TOO_DEEP)
      else StepValue(Emit(p.(stack := p.stack + [List], state := Value), Begin(ArrayDataT)), c)
    case DictKey =>
      if c == 'e' then (ValueEnd(Emit(p, End(DictT))), 0)
      else if |p.stack| >= MAX_STACK then (p, ERR_STRUCTURE_TOO_DEEP)
      else
        StepStringLen(
          Emit(p.(stack := p.stack + [DictKey], strLength := 0, numConsumed := 0, state := StringLen),
               Begin(DictKeyT)), c)
    case DictVal => (p, 0)
    case StringLen => StepStringLen(p, c)
    case String => StepString(p, c)
    case NumberSign => StepNumberSign(p, c)
    case Number => StepNumber(p, c)
    case FloatNumberIgnore =>
      if IsFloatChar(c) then (p, 0)
      else if c != 'e' then Fail(p, ERR_INVALID_FLOAT_NUMBER)
      else (NumberEnd(p), 0)
  }

  /** The overflow guard rejects a digit exactly when the longer number leaves int64. */
  lemma GuardIsExact(acc: int, digit: int)
    requires 0 <= acc && 0 <= digit <= 9
    ensures Overflows(acc, digit) <==> acc * 10 + digit > INT64_MAX
  {
    var q := (INT64_MAX - digit) / 10;
    assert 10 * q <= INT64_MAX - digit < 10 * q + 10;
  }

  lemma ValueEndWf(p: Parser)
    requires Wf(p.(state := Initial))
    ensures Wf(ValueEnd(p)) && |ValueEnd(p).stack| <= |p.stack|
    ensures ValueEnd(p).state != Error && ValueEnd(p).state != String
  {
  }

  /** A step result is well formed and marks the error state exactly when it fails. */
  ghost predicate Sound(r: (Parser, int)) {
    && Wf(r.0)
    && r.1 <= 0
    && r.1 != ERR_STRUCTURE_TOO_DEEP
    && (r.0.state.Error? <==> r.1 < 0)
  }

  lemma StringEndWf(p: Parser)
    requires Wf(p.(state := Initial))
    ensures Wf(StringEnd(p)) && StringEnd(p).state != Error
  {
    ValueEndWf(Emit(p, End(if Top(p).DictKey? then DictKeyT else StringT)));
  }

  lemma NumberEndWf(p: Parser)
    requires Wf(p.(state := Initial))
    ensures Wf(NumberEnd(p)) && NumberEnd(p).state != Error
  {
    ValueEndWf(Emit(Emit(p, Num(Signed(p.sign, p.number))), End(NumberT)));
  }

  lemma StepValueWf(p: Parser, c: char)
    requires Wf(p.(state := Initial))
    ensures Sound(StepValue(p, c))
  {
  }

  lemma StepStringLenWf(p: Parser, c: char)
    requires Wf(p) && p.state.StringLen?
    ensures Sound(StepStringLen(p, c))
  {
    if IsDigit(c) {
      GuardIsExact(p.strLength, DigitOf(c));
    } else {
      StringEndWf(Emit(p.(state := String), Chars("")));
    }
  }

  lemma StepStringWf(p: Parser, c: char)
    requires Wf(p) && p.state.String?
    ensures Sound(StepString(p, c))
  {
    StringEndWf(Emit(p, Chars([c])).(strLength := p.strLength - 1));
  }

  lemma StepNumberWf(p: Parser, c: char)
    requires Wf(p) && p.state.Number?
    ensures Sound(StepNumber(p, c))
  {
    if IsDigit(c) {
      GuardIsExact(p.number, DigitOf(c));
    } else {
      NumberEndWf(p);
    }
  }

  lemma StepListWf(p: Parser, c: char)
    requires Wf(p) && p.state.List?
    ensures Sound(Step(p, c)) || Step(p, c) == (p, ERR_STRUCTURE_TOO_DEEP)
  {
    ValueEndWf(Emit(p, End(ArrayT)));
    if |p.stack| < MAX_STACK {
      StepValueWf(Emit(p.(stack := p.stack + [List], state := Value), Begin(ArrayDataT)), c);
    }
  }

  lemma StepDictKeyWf(p: Parser, c: char)
    requires Wf(p) && p.state.DictKey?
    ensures Sound(Step(p, c)) || Step(p, c) == (p, ERR_STRUCTURE_TOO_DEEP)
  {
    ValueEndWf(Emit(p, End(DictT)));
    if |p.stack| < MAX_STACK {
      StepStringLenWf(
        Emit(p.(stack := p.stack + [DictKey], strLength := 0, numConsumed := 0, state := StringLen),
             Begin(DictKeyT)), c);
    }
  }

  /** Every character keeps the stack within 50 entries and both accumulators within int64;
      the error state is entered exactly by errors other than "too deep", and that one
      changes nothing. */
  lemma StepWf(p: Parser, c: char)
    requires Wf(p) && p.state != Error
    ensures Sound(Step(p, c)) || Step(p, c) == (p, ERR_STRUCTURE_TOO_DEEP)
  {
    match p.state
    case Initial => StepValueWf(p, c);
    case Value => StepValueWf(p, c);
    case List => StepListWf(p, c);
    case DictKey => StepDictKeyWf(p, c);
    case StringLen => StepStringLenWf(p, c);
    case String => StepStringWf(p, c);
    case Number => StepNumberWf(p, c);
    case FloatNumberIgnore => NumberEndWf(p);
    case _ =>
  }

  /** What `parseUpdate` leaves: the parser, and the characters consumed or an error code. */
  datatype Fed = Fed(parser: Parser, rv: int)

  function Shift(n: nat, f: Fed): Fed {
    if f.rv < 0 then f else Fed(f.parser, f.rv + n)
  }

  /** `parseUpdate`. A finished parser consumes nothing; the sticky error is reported again
      without reading anything. */
  function Feed(p: Parser, data: string): (f: Fed)
    decreases |data|
  {
    if p.state.Error? then Fed(p, p.lastError)
    else if data == [] || p.state.Finish? then Fed(p, 0)
    else
      var (q, code) := Step(p, data[0]);
      if code < 0 then Fed(q, code) else Shift(1, Feed(q, data[1..]))
  }

  /** Over every input: the stack never exceeds 50 entries, the accumulators stay within
      int64, and a call that stops early either finished or failed. */
  lemma {:induction false} FeedWf(p: Parser, data: string)
    requires Wf(p)
    ensures var f := Feed(p, data);
            && Wf(f.parser) && f.rv <= |data|
            && (f.rv >= 0 ==> f.parser.state != Error)
            && (0 <= f.rv < |data| ==> f.parser.state.Finish?)
            && (f.rv < 0 && f.rv != ERR_STRUCTURE_TOO_DEEP ==> f.parser.state.Error?)
    decreases |data|
  {
    if p.state != Error && p.state != Finish && data != [] {
      StepWf(p, data[0]);
      var (q, code) := Step(p, data[0]);
      if code == 0 {
        FeedWf(q, data[1..]);
      }
    }
  }

  predicate AllDigits(ds: string) {
    forall i :: 0 <= i < |ds| ==> IsDigit(ds[i])
  }

  /** The number obtained by writing the digits `ds` after the number `acc`. */
  function Accumulate(acc: int, ds: string): (n: int)
    requires AllDigits(ds)
    ensures acc >= 0 ==> n >= acc
  {
    if ds == [] then acc
    else Accumulate(acc, ds[..|ds| - 1]) * 10 + DigitOf(ds[|ds| - 1])
  }

  /** The parser after reading all of `data`, if it neither fails nor finishes before the end. */
  function Eat(p: Parser, data: string): Option<Parser>
    decreases |data|
  {
    if data == [] then Some(p)
    else if p.state.Error? || p.state.Finish? || Step(p, data[0]).1 < 0 then None
    else Eat(Step(p, data[0]).0, data[1..])
  }

  lemma EatFirst(p: Parser, data: string, q: Parser)
    requires !p.state.Error? && !p.state.Finish? && data != [] && Step(p, data[0]) == (q, 0)
    ensures Eat(p, data) == Eat(q, data[1..])
  {
  }

  lemma EatNothing(p: Parser)
    ensures Eat(p, []) == Some(p)
  {
  }

  lemma EatOne(p: Parser, c: char, q: Parser)
    requires !p.state.Error? && !p.state.Finish? && Step(p, c) == (q, 0)
    ensures Eat(p, [c]) == Some(q)
  {
    EatFirst(p, [c], q);
    EatNothing(q);
    assert [c][1..] == [];
  }

  lemma {:induction false} EatOn(p: Parser, a: string, q: Parser, b: string, r: Parser)
    requires Eat(p, a) == Some(q) && Eat(q, b) == Some(r)
    ensures Eat(p, a + b) == Some(r)
    decreases |a|
  {
    if a == [] {
      assert a + b == b;
    } else {
      assert (a + b)[1..] == a[1..] + b;
      EatOn(Step(p, a[0]).0, a[1..], q, b, r);
    }
  }

  /** Whatever follows is fed to the parser that has read `data`. */
  lemma {:induction false} FeedAfter(p: Parser, data: string, q: Parser, rest: string)
    requires Eat(p, data) == Some(q)
    ensures Feed(p, data + rest) == Shift(|data|, Feed(q, rest))
    decreases |data|
  {
    if data == [] {
      assert data + rest == rest;
    } else {
      assert (data + rest)[1..] == data[1..] + rest;
      FeedAfter(Step(p, data[0]).0, data[1..], q, rest);
    }
  }

  lemma LengthDigit(p: Parser, c: char) returns (q: Parser)
    requires p.state.StringLen? && p.strLength >= 0
    requires IsDigit(c) && p.strLength * 10 + DigitOf(c) <= INT64_MAX
    ensures q == p.(strLength := p.strLength * 10 + DigitOf(c), numConsumed := p.numConsumed + 1)
    ensures Eat(p, [c]) == Some(q)
  {
    GuardIsExact(p.strLength, DigitOf(c));
    q := StepStringLen(p, c).0;
    EatOne(p, c, q);
  }

  /** A run of digits that stays within int64 is added to the string length. */
  lemma {:induction false} LengthDigits(p: Parser, ds: string)
    requires p.state.StringLen? && p.strLength >= 0
    requires AllDigits(ds) && Accumulate(p.strLength, ds) <= INT64_MAX
    ensures Eat(p, ds) == Some(p.(strLength := Accumulate(p.strLength, ds), numConsumed := p.numConsumed + |ds|))
    decreases |ds|
  {
    if ds == [] {
    } else {
      var init, c := ds[..|ds| - 1], ds[|ds| - 1];
      var q := p.(strLength := Accumulate(p.strLength, init), numConsumed := p.numConsumed + |init|);
      LengthDigits(p, init);
      var r := LengthDigit(q, c);
      assert r == p.(strLength := Accumulate(p.strLength, ds), numConsumed := p.numConsumed + |ds|);
      assert ds == init + [c];
      EatOn(p, init, q, [c], r);
    }
  }

  lemma NumberDigit(p: Parser, c: char) returns (q: Parser)
    requires p.state.Number? && p.number >= 0
    requires IsDigit(c) && p.number * 10 + DigitOf(c) <= INT64_MAX
    ensures q == p.(number := p.number * 10 + DigitOf(c), numConsumed := p.numConsumed + 1)
    ensures Eat(p, [c]) == Some(q)
  {
    GuardIsExact(p.number, DigitOf(c));
    q := StepNumber(p, c).0;
    EatOne(p, c, q);
  }

  /** A run of digits that stays within int64 is added to the number. */
  lemma {:induction false} NumberDigits(p: Parser, ds: string)
    requires p.state.Number? && p.number >= 0
    requires AllDigits(ds) && Accumulate(p.number, ds) <= INT64_MAX
    ensures Eat(p, ds) == Some(p.(number := Accumulate(p.number, ds), numConsumed := p.numConsumed + |ds|))
    decreases |ds|
  {
    if ds == [] {
    } else {
      var init, c := ds[..|ds| - 1], ds[|ds| - 1];
      var q := p.(number := Accumulate(p.number, init), numConsumed := p.numConsumed + |init|);
      NumberDigits(p, init);
      var r := NumberDigit(q, c);
      assert r == p.(number := Accumulate(p.number, ds), numConsumed := p.numConsumed + |ds|);
      assert ds == init + [c];
      EatOn(p, init, q, [c], r);
    }
  }

  /** Character callbacks may be cut anywhere. */
  lemma PushTwice(t: seq<Event>, a: string, b: string)
    ensures Push(Push(t, Chars(a)), Chars(b)) == Push(t, Chars(a + b))
  {
    if t != [] && t[|t| - 1].Chars? {
      var d := t[|t| - 1].data;
      assert (d + a) + b == d + (a + b);
    }
  }

  /** String data read in one slice is one character callback. */
  lemma {:induction false} StringSlice(p: Parser, slice: string)
    requires p.state.String? && 0 < |slice| <= p.strLength
    ensures Eat(p, slice) == Some(AfterSlice(p, slice))
    decreases |slice|
  {
    var c, tail := slice[0], slice[1..];
    var q := AfterSlice(p, [c]);
    EatOne(p, c, q);
    if tail == [] {
      assert slice == [c];
    } else {
      StringSlice(q, tail);
      PushTwice(p.trace, [c], tail);
      assert [c] + tail == slice;
      EatOn(p, [c], q, tail, AfterSlice(q, tail));
    }
  }

  function AfterSlice(p: Parser, slice: string): Parser {
    var q := Emit(p, Chars(slice)).(strLength := p.strLength - |slice|);
    if q.strLength == 0 then StringEnd(q) else q
  }

  /** Feeding in two calls, with the byte counts added. */
  function FeedTwice(p: Parser, a: string, b: string): Fed {
    var f := Feed(p, a);
    if f.rv < 0 then f else Shift(f.rv, Feed(f.parser, b))
  }

  /** Split invariance: whichever way the input is cut, the parser ends in the same state,
      with the same callbacks, the same count of consumed characters and the same error. */
  lemma {:induction false} SplitInvariance(p: Parser, a: string, b: string)
    requires Wf(p)
    ensures Feed(p, a + b) == FeedTwice(p, a, b)
    decreases |a|
  {
    if p.state.Error? {
    } else if a == [] || p.state.Finish? {
      assert a == [] ==> a + b == b;
    } else {
      StepWf(p, a[0]);
      var (q, code) := Step(p, a[0]);
      if code == 0 {
        assert (a + b)[1..] == a[1..] + b;
        SplitInvariance(q, a[1..], b);
        FeedWf(q, a[1..]);
      }
    }
  }

  /** A sequence of `parseUpdate` calls, stopping at the first error. */
  function FeedAll(p: Parser, pieces: seq<string>): Fed
    decreases |pieces|
  {
    if pieces == [] then Fed(p, 0)
    else
      var f := Feed(p, pieces[0]);
      if f.rv < 0 then f else Shift(f.rv, FeedAll(f.parser, pieces[1..]))
  }

  /** Any number of cuts gives what a single call gives. */
  lemma {:induction false} AnyCutting(p: Parser, pieces: seq<string>)
    requires Wf(p) && !p.state.Error?
    ensures FeedAll(p, pieces) == Feed(p, Flatten(pieces))
    decreases |pieces|
  {
    if pieces != [] {
      SplitInvariance(p, pieces[0], Flatten(pieces[1..]));
      var f := Feed(p, pieces[0]);
      FeedWf(p, pieces[0]);
      if f.rv >= 0 {
        AnyCutting(f.parser, pieces[1..]);
      }
    }
  }

  /** The parsers differ at most in registers that their state will not read again. */
  predicate SameLive(p: Parser, q: Parser) {
    && q == p.(strLength := q.strLength, sign := q.sign, number := q.number, numConsumed := q.numConsumed)
    && (p.state.StringLen? || p.state.String? ==> p.strLength == q.strLength)
    && (p.state.NumberSign? || p.state.Number? || p.state.FloatNumberIgnore? ==>
          p.number == q.number && p.sign == q.sign)
    && (p.state.StringLen? || p.state.NumberSign? || p.state.Number? ==> p.numConsumed == q.numConsumed)
  }

  lemma ValueEndSame(p: Parser, q: Parser)
    requires SameLive(p.(state := Initial), q.(state := Initial))
    requires Top(p) in {Finish, DictKey, DictVal, List}
    ensures SameLive(ValueEnd(p), ValueEnd(q))
  {
  }

  lemma StringEndSame(p: Parser, q: Parser)
    requires SameLive(p.(state := Initial), q.(state := Initial))
    requires Top(p) in {Finish, DictKey, DictVal, List}
    ensures SameLive(StringEnd(p), StringEnd(q))
  {
    var k := if Top(p).DictKey? then DictKeyT else StringT;
    ValueEndSame(Emit(p, End(k)), Emit(q, End(k)));
  }

  lemma StepValueSame(p: Parser, q: Parser, c: char)
    requires SameLive(p.(state := Initial), q.(state := Initial)) && p.state == q.state
    ensures StepValue(p, c).1 == StepValue(q, c).1 && SameLive(StepValue(p, c).0, StepValue(q, c).0)
  {
  }

  lemma StepLengthSame(p: Parser, q: Parser, c: char)
    requires SameLive(p, q) && p.state.StringLen? && Top(p) in {Finish, DictKey, DictVal, List}
    ensures StepStringLen(p, c).1 == StepStringLen(q, c).1
    ensures SameLive(StepStringLen(p, c).0, StepStringLen(q, c).0)
  {
    StringEndSame(Emit(p.(state := String), Chars("")), Emit(q.(state := String), Chars("")));
  }

  lemma StepNumberSame(p: Parser, q: Parser, c: char)
    requires SameLive(p, q) && p.state.Number? && Top(p) in {Finish, DictKey, DictVal, List}
    ensures StepNumber(p, c).1 == StepNumber(q, c).1 && SameLive(StepNumber(p, c).0, StepNumber(q, c).0)
  {
    NumberEndSame(p, q);
  }

  lemma NumberEndSame(p: Parser, q: Parser)
    requires SameLive(p, q) && (p.state.Number? || p.state.FloatNumberIgnore?)
    requires Top(p) in {Finish, DictKey, DictVal, List}
    ensures SameLive(NumberEnd(p), NumberEnd(q))
  {
    var n := Signed(p.sign, p.number);
    ValueEndSame(Emit(Emit(p, Num(n)), End(NumberT)), Emit(Emit(q, Num(n)), End(NumberT)));
  }

  lemma StepStringSame(p: Parser, q: Parser, c: char)
    requires SameLive(p, q) && p.state.String? && Top(p) in {Finish, DictKey, DictVal, List}
    ensures StepString(p, c).1 == StepString(q, c).1 && SameLive(StepString(p, c).0, StepString(q, c).0)
  {
    StringEndSame(Emit(p, Chars([c])).(strLength := p.strLength - 1),
                  Emit(q, Chars([c])).(strLength := q.strLength - 1));
  }

  lemma StepListSame(p: Parser, q: Parser, c: char)
    requires SameLive(p, q) && p.state.List? && Top(p) in {Finish, DictKey, DictVal, List}
    ensures Step(p, c).1 == Step(q, c).1 && SameLive(Step(p, c).0, Step(q, c).0)
  {
    ValueEndSame(Emit(p, End(ArrayT)), Emit(q, End(ArrayT)));
    StepValueSame(Emit(p.(stack := p.stack + [List], state := Value), Begin(ArrayDataT)),
                  Emit(q.(stack := q.stack + [List], state := Value), Begin(ArrayDataT)), c);
  }

  lemma StepDictKeySame(p: Parser, q: Parser, c: char)
    requires SameLive(p, q) && p.state.DictKey? && Top(p) in {Finish, DictKey, DictVal, List}
    ensures Step(p, c).1 == Step(q, c).1 && SameLive(Step(p, c).0, Step(q, c).0)
  {
    ValueEndSame(Emit(p, End(DictT)), Emit(q, End(DictT)));
    StepLengthSame(
      Emit(p.(stack := p.stack + [DictKey], strLength := 0, numConsumed := 0, state := StringLen), Begin(DictKeyT)),
      Emit(q.(stack := q.stack + [DictKey], strLength := 0, numConsumed := 0, state := StringLen), Begin(DictKeyT)),
      c);
  }

  lemma StepSame(p: Parser, q: Parser, c: char)
    requires SameLive(p, q) && Top(p) in {Finish, DictKey, DictVal, List}
    ensures Step(p, c).1 == Step(q, c).1 && SameLive(Step(p, c).0, Step(q, c).0)
  {
    match p.state
    case Initial => StepValueSame(p, q, c);
    case Value => StepValueSame(p, q, c);
    case List => StepListSame(p, q, c);
    case DictKey => StepDictKeySame(p, q, c);
    case StringLen => StepLengthSame(p, q, c);
    case String => StepStringSame(p, q, c);
    case Number => StepNumberSame(p, q, c);
    case FloatNumberIgnore => NumberEndSame(p, q);
    case _ =>
  }

  /** Stale registers never show: neither in the callbacks nor in what is consumed. */
  lemma {:induction false} FeedSame(p: Parser, q: Parser, data: string)
    requires Wf(p) && SameLive(p, q)
    ensures Feed(p, data).rv == Feed(q, data).rv && SameLive(Feed(p, data).parser, Feed(q, data).parser)
    decreases |data|
  {
    if p.state != Error && p.state != Finish && data != [] {
      StepWf(p, data[0]);
      StepSame(p, q, data[0]);
      if Step(p, data[0]).1 == 0 {
        FeedSame(Step(p, data[0]).0, Step(q, data[0]).0, data[1..]);
      }
    }
  }
}
