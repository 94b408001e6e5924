/** How the parser of `src/BencodeParser.cc` refuses input, wherever a value or a key is expected:
    the code returned for each kind of malformed text. */
module BencodeErrors {
  import opened BencodeMachine
  import opened BencodeSpellings
  import opened Integers
  import opened Wrappers

  /** The character behind some text that the parser accepts is the one refused. */
  lemma FailsBehind(p: Parser, text: string, q: Parser, c: char, rest: string, code: int)
    requires Eat(p, text) == Some(q) && q.state != Error && q.state != Finish && Step(q, c).1 == code < 0
    ensures Feed(p, text + [c] + rest).rv == code
  {
    FeedAfter(p, text, q, [c] + rest);
    assert text + [c] + rest == text + ([c] + rest);
  }

  /** No value begins with the character. */
  lemma UnexpectedCharacter(p: Parser, c: char, rest: string)
    requires Reader(p) && c !in "dli0123456789"
    ensures Feed(p, [c] + rest).rv == -1
  {
    EatNothing(p);
    FailsBehind(p, "", p, c, rest, -1);
    assert "" + [c] + rest == [c] + rest;
  }

  lemma OpenNumber(p: Parser, junk: string) returns (q: Parser)
    requires Reader(p) && AllJunk(junk)
    ensures Eat(p, "i" + junk) == Some(q) && AtSign(q)
  {
    q := OpenInt(p);
    SkipJunk(q, junk);
    EatOn(p, "i", q, junk, q);
  }

  /** A sign must be followed by a digit. */
  lemma SignWithoutDigits(p: Parser, junk: string, sign: string, c: char, rest: string)
    requires Reader(p) && AllJunk(junk) && sign in {"+", "-"} && c !in "0123456789"
    ensures Feed(p, "i" + junk + sign + [c] + rest).rv == -2
  {
    var q := OpenNumber(p, junk);
    var r := StepNumberSign(q, sign[0]).0;
    assert sign == [sign[0]];
    EatOne(q, sign[0], r);
    EatOn(p, "i" + junk, q, sign, r);
    FailsBehind(p, "i" + junk + sign, r, c, rest, -2);
  }

  lemma DigitsRead(p: Parser, junk: string, sign: string, digits: string) returns (q: Parser)
    requires Reader(p) && AllJunk(junk) && sign in {"", "+", "-"} && Counts(digits)
    ensures Eat(p, "i" + junk + (sign + digits)) == Some(q) && q.state.Number? && q.numConsumed > 0
  {
    var r := OpenNumber(p, junk);
    SignedDigits(r, sign, digits);
    q := AfterDigits(r, sign, digits);
    EatOn(p, "i" + junk, r, sign + digits, q);
  }

  /** Digits end with an 'e', or else go on as a floating point number. */
  lemma UnexpectedBehindDigits(p: Parser, junk: string, sign: string, digits: string, c: char, rest: string)
    requires Reader(p) && AllJunk(junk) && sign in {"", "+", "-"} && Counts(digits) && c !in "0123456789.E+-e"
    ensures Feed(p, "i" + junk + (sign + digits) + [c] + rest).rv == -2
  {
    var q := DigitsRead(p, junk, sign, digits);
    FailsBehind(p, "i" + junk + (sign + digits), q, c, rest, -2);
  }

  lemma UnexpectedInFraction(p: Parser, junk: string, sign: string, digits: string, fraction: string, c: char,
                             rest: string)
    requires Reader(p) && AllJunk(junk) && sign in {"", "+", "-"} && Counts(digits)
    requires fraction != "" && IsFraction(fraction) && c !in "0123456789.E+-e"
    ensures Feed(p, "i" + junk + (sign + digits) + fraction + [c] + rest).rv == -8
  {
    var q := DigitsRead(p, junk, sign, digits);
    SkipFraction(q, fraction);
    var r := AfterFraction(q, fraction);
    EatOn(p, "i" + junk + (sign + digits), q, fraction, r);
    FailsBehind(p, "i" + junk + (sign + digits) + fraction, r, c, rest, -8);
  }

  /** An integer whose digits leave int64 is out of range, whatever follows them. */
  lemma NumberOutOfRange(p: Parser, junk: string, sign: string, ds: string, rest: string)
    requires Reader(p) && AllJunk(junk) && sign in {"", "+", "-"}
    requires ds != "" && AllDigits(ds) && Accumulate(0, ds) > INT64_MAX
    ensures Feed(p, "i" + junk + (sign + ds + rest)).rv == -3
  {
    var q := OpenNumber(p, junk);
    DigitsTooBig(q, sign, ds, rest);
    FeedAfter(p, "i" + junk, q, sign + ds + rest);
  }

  /** The length of a string is followed by a colon. */
  lemma UnexpectedBehindLength(p: Parser, count: string, c: char, rest: string)
    requires Reader(p) && Counts(count) && c !in "0123456789:"
    ensures Feed(p, count + [c] + rest).rv == -6
  {
    var q := ParseLength(p, count);
    FailsBehind(p, count, q, c, rest, -6);
  }

  /** A key is a string, and has a length. */
  lemma KeyWithoutLength(p: Parser, c: char, rest: string)
    requires p.state.DictKey? && |p.stack| < MAX_STACK && c !in "e0123456789"
    ensures Feed(p, [c] + rest).rv == -6
  {
    EatNothing(p);
    FailsBehind(p, "", p, c, rest, -6);
    assert "" + [c] + rest == [c] + rest;
  }

  /** The first digit that leads outside int64 is the one that is rejected. */
  lemma {:induction false} LengthOverflow(p: Parser, ds: string, rest: string)
    requires p.state.StringLen? && 0 <= p.strLength <= INT64_MAX
    requires AllDigits(ds) && Accumulate(p.strLength, ds) > INT64_MAX
    ensures Feed(p, ds + rest).rv == -7
    decreases |ds|
  {
    var init, c := ds[..|ds| - 1], ds[|ds| - 1];
    assert ds + rest == init + ([c] + rest);
    if Accumulate(p.strLength, init) > INT64_MAX {
      LengthOverflow(p, init, [c] + rest);
    } else {
      var q := p.(strLength := Accumulate(p.strLength, init), numConsumed := p.numConsumed + |init|);
      LengthDigits(p, init);
      GuardIsExact(q.strLength, DigitOf(c));
      FeedAfter(p, init, q, [c] + rest);
    }
  }

  /** A string length that leaves int64 is out of range, whatever follows it. */
  lemma LengthOutOfRange(p: Parser, ds: string, rest: string)
    requires Reader(p) && ds != "" && AllDigits(ds) && Accumulate(0, ds) > INT64_MAX
    ensures Feed(p, ds + rest).rv == -7
  {
    FirstDigit(ds);
    var q := StepValue(p, ds[0]).0;
    EatOne(p, ds[0], q);
    LengthOverflow(q, ds[1..], rest);
    FeedAfter(p, [ds[0]], q, ds[1..] + rest);
    assert ds + rest == [ds[0]] + (ds[1..] + rest);
  }

  /** An error is reported again by every later call, which reads nothing; only a structure that
      is too deep may be tried again. */
  lemma ErrorsStick(p: Parser, data: string, more: string)
    requires Wf(p) && !p.state.Error? && Feed(p, data).rv < 0
    ensures Feed(p, data).rv != -5 ==> Feed(Feed(p, data).parser, more) == Feed(p, data)
    ensures Feed(p, data).rv == -5 ==> !Feed(p, data).parser.state.Error?
  {
    FeedWf(p, data);
    LastErrorKept(p, data);
  }

  lemma {:induction false} LastErrorKept(p: Parser, data: string)
    requires Wf(p) && !p.state.Error? && Feed(p, data).rv < 0
    ensures if Feed(p, data).rv == -5 then !Feed(p, data).parser.state.Error?
            else Feed(p, data).parser.lastError == Feed(p, data).rv
    decreases |data|
  {
    StepWf(p, data[0]);
    if Step(p, data[0]).1 == 0 {
      LastErrorKept(Step(p, data[0]).0, data[1..]);
    } else {
      StepErrors(p, data[0]);
    }
  }

  lemma StepErrors(p: Parser, c: char)
    requires Wf(p) && !p.state.Error? && Step(p, c).1 < 0
    ensures if Step(p, c).1 == -5 then !Step(p, c).0.state.Error? else Step(p, c).0.lastError == Step(p, c).1
  {
  }
}
