/** All the ways of writing a value that the parser of `src/BencodeParser.cc` accepts: more than
    the encoding of BEP 3, because it skips what stands between the 'i' and the digits of an
    integer, takes a sign, reads a floating point number as zero, and takes leading zeros. */
module BencodeSpellings {
  import opened BencodeMachine
  import opened BencodeValues
  import opened Integers
  import opened Sequences
  import opened Wrappers

  datatype SpelledEntry = SpelledEntry(count: string, key: string, value: Spelling)

  datatype Spelling =
    | SpelledInt(junk: string, sign: string, digits: string, fraction: string)
    | SpelledStr(count: string, s: string)
    | SpelledLst(items: seq<Spelling>)
    | SpelledDict(entries: seq<SpelledEntry>)

  // ---------- what is written ----------

  function NumberText(junk: string, sign: string, digits: string, fraction: string): string {
    junk + (sign + digits) + fraction
  }

  function Written(w: Spelling): string
    decreases w, 0
  {
    match w
    case SpelledInt(junk, sign, digits, fraction) => "i" + NumberText(junk, sign, digits, fraction) + "e"
    case SpelledStr(count, s) => count + ":" + s
    case SpelledLst(items) => "l" + WrittenItems(items) + "e"
    case SpelledDict(entries) => "d" + WrittenEntries(entries) + "e"
  }

  function WrittenItems(items: seq<Spelling>): string
    decreases items, 1
  {
    if items == [] then "" else Written(items[0]) + WrittenItems(items[1..])
  }

  function WrittenKey(e: SpelledEntry): string {
    e.count + ":" + e.key
  }

  function WrittenEntries(entries: seq<SpelledEntry>): string
    decreases entries, 1
  {
    if entries == [] then ""
    else WrittenKey(entries[0]) + Written(entries[0].value) + WrittenEntries(entries[1..])
  }

  // ---------- what it stands for ----------

  /** A number with a fraction or an exponent counts as zero. */
  function NumberOf(sign: string, digits: string, fraction: string): int {
    if fraction != "" || !AllDigits(digits) then 0
    else if sign == "-" then -Accumulate(0, digits)
    else Accumulate(0, digits)
  }

  function ValueOf(w: Spelling): BValue
    decreases w, 0
  {
    match w
    case SpelledInt(_, sign, digits, fraction) => Int(NumberOf(sign, digits, fraction))
    case SpelledStr(_, s) => Str(s)
    case SpelledLst(items) => Lst(ValuesOf(items))
    case SpelledDict(entries) => Dict(EntriesOf(entries))
  }

  function ValuesOf(items: seq<Spelling>): seq<BValue>
    decreases items, 1
  {
    if items == [] then [] else [ValueOf(items[0])] + ValuesOf(items[1..])
  }

  function EntriesOf(entries: seq<SpelledEntry>): seq<Entry>
    decreases entries, 1
  {
    if entries == [] then [] else [Entry(entries[0].key, ValueOf(entries[0].value))] + EntriesOf(entries[1..])
  }

  // ---------- what may be written ----------

  predicate AllJunk(junk: string) {
    forall i :: 0 <= i < |junk| ==> !IsDigit(junk[i]) && junk[i] != '+' && junk[i] != '-'
  }

  predicate AllFloat(fraction: string) {
    forall i :: 0 <= i < |fraction| ==> IsFloatChar(fraction[i])
  }

  /** Digits for a number within int64. */
  predicate Counts(digits: string) {
    digits != "" && AllDigits(digits) && Accumulate(0, digits) <= INT64_MAX
  }

  predicate IsFraction(fraction: string) {
    AllFloat(fraction) && (fraction != "" ==> !IsDigit(fraction[0]))
  }

  predicate WellSpelled(w: Spelling)
    decreases w, 0
  {
    match w
    case SpelledInt(junk, sign, digits, fraction) =>
      AllJunk(junk) && sign in {"", "+", "-"} && Counts(digits) && IsFraction(fraction)
    case SpelledStr(count, s) => Counts(count) && Accumulate(0, count) == |s|
    case SpelledLst(items) => WellSpelledItems(items)
    case SpelledDict(entries) => WellSpelledEntries(entries)
  }

  predicate WellSpelledItems(items: seq<Spelling>)
    decreases items, 1
  {
    items == [] || (WellSpelled(items[0]) && WellSpelledItems(items[1..]))
  }

  predicate KeySpelled(e: SpelledEntry) {
    Counts(e.count) && Accumulate(0, e.count) == |e.key|
  }

  predicate WellSpelledEntries(entries: seq<SpelledEntry>)
    decreases entries, 1
  {
    entries == [] || (KeySpelled(entries[0]) && WellSpelled(entries[0].value) && WellSpelledEntries(entries[1..]))
  }

  lemma {:induction false} AccumulateAppend(acc: int, a: string, b: string)
    requires AllDigits(a) && AllDigits(b)
    ensures AllDigits(a + b)
    ensures Accumulate(acc, a + b) == Accumulate(Accumulate(acc, a), b)
    decreases |b|
  {
    if b == [] {
      assert a + b == a;
    } else {
      AccumulateAppend(acc, a, b[..|b| - 1]);
      assert (a + b)[..|a + b| - 1] == a + b[..|b| - 1];
    }
  }

  // ---------- parsing one element ----------

  /** `p` with the registers of `q`, which are dead between elements. */
  function Regs(p: Parser, q: Parser): Parser {
    p.(strLength := q.strLength, sign := q.sign, number := q.number, numConsumed := q.numConsumed)
  }

  /** `p` with the callbacks `t` added. */
  function Grown(p: Parser, t: seq<Event>): Parser {
    p.(trace := p.trace + t)
  }

  /** `p` after a whole value with the callbacks `t`. */
  function Ended(p: Parser, t: seq<Event>): Parser {
    ValueEnd(Grown(p, t))
  }

  lemma GrownTwice(p: Parser, a: seq<Event>, q: Parser, b: seq<Event>, r: Parser, whole: seq<Event>)
    requires q == Regs(Grown(p, a), q) && r == Regs(Grown(q, b), r) && whole == a + b
    ensures r == Regs(Grown(p, whole), r)
  {
    assert p.trace + whole == p.trace + a + b;
  }

  /** The end of a value depends neither on the registers nor on the state before it. */
  lemma EndedAnyState(p: Parser, t: seq<Event>, r: Parser)
    requires r == Regs(p, r).(state := r.state)
    ensures Ended(r, t) == Regs(Ended(p, t), Ended(r, t))
  {
  }

  ghost predicate Reader(p: Parser) {
    && (p.state.Value? || p.state.Initial?)
    && Top(p) != DictKey
  }

  /** A parser that has just read the 'i' of a number. */
  predicate AtSign(p: Parser) {
    p.state.NumberSign? && p.number == 0 && p.sign == 1 && p.numConsumed == 0
  }

  // ---------- numbers ----------

  lemma {:induction false} SkipJunk(p: Parser, junk: string)
    requires p.state.NumberSign? && AllJunk(junk)
    ensures Eat(p, junk) == Some(p)
    decreases |junk|
  {
    if junk == "" {
    } else {
      SkipJunk(p, junk[1..]);
      EatFirst(p, junk, p);
    }
  }

  /** A parser that has read the sign and the digits of a number. */
  function AfterDigits(p: Parser, sign: string, digits: string): Parser
    requires AllDigits(digits)
  {
    p.(state := Number, sign := if sign == "-" then -1 else 1, number := Accumulate(0, digits),
       numConsumed := |digits|)
  }

  lemma PlainDigits(p: Parser, ds: string)
    requires AtSign(p) && Counts(ds)
    ensures Eat(p, ds) == Some(AfterDigits(p, "", ds))
  {
    FirstDigit(ds);
    var p1 := StepNumberSign(p, ds[0]).0;
    EatOne(p, ds[0], p1);
    NumberDigits(p1, ds[1..]);
    EatOn(p, [ds[0]], p1, ds[1..], AfterDigits(p, "", ds));
  }

  lemma FirstDigit(ds: string)
    requires ds != "" && AllDigits(ds)
    ensures ds == [ds[0]] + ds[1..] && AllDigits(ds[1..])
    ensures Accumulate(DigitOf(ds[0]), ds[1..]) == Accumulate(0, ds)
  {
    assert ds == [ds[0]] + ds[1..];
    AccumulateAppend(0, [ds[0]], ds[1..]);
    assert [ds[0]][..0] == [];
  }

  lemma SignedDigits(p: Parser, sign: string, ds: string)
    requires AtSign(p) && sign in {"", "+", "-"} && Counts(ds)
    ensures Eat(p, sign + ds) == Some(AfterDigits(p, sign, ds))
  {
    if sign == "" {
      assert sign + ds == ds;
      PlainDigits(p, ds);
    } else {
      var p1 := StepNumberSign(p, sign[0]).0;
      assert sign == [sign[0]];
      EatOne(p, sign[0], p1);
      NumberDigits(p1, ds);
      EatOn(p, sign, p1, ds, AfterDigits(p, sign, ds));
    }
  }

  lemma {:induction false} SkipFloat(p: Parser, fraction: string)
    requires p.state.FloatNumberIgnore? && AllFloat(fraction)
    ensures Eat(p, fraction) == Some(p)
    decreases |fraction|
  {
    if fraction == "" {
    } else {
      SkipFloat(p, fraction[1..]);
      EatFirst(p, fraction, p);
    }
  }

  function AfterFraction(p: Parser, fraction: string): Parser {
    if fraction == "" then p else p.(number := 0, numConsumed := 0, state := FloatNumberIgnore)
  }

  lemma SkipFraction(p: Parser, fraction: string)
    requires p.state.Number? && p.numConsumed > 0 && IsFraction(fraction)
    ensures Eat(p, fraction) == Some(AfterFraction(p, fraction))
  {
    if fraction == "" {
      EatNothing(p);
    } else {
      SkipFloat(AfterFraction(p, fraction), fraction[1..]);
      EatFirst(p, fraction, AfterFraction(p, fraction));
    }
  }

  lemma EndOfNumber(p: Parser, p2: Parser, n: int) returns (q: Parser)
    requires (p2.state.Number? && p2.numConsumed > 0) || p2.state.FloatNumberIgnore?
    requires Signed(p2.sign, p2.number) == n
    requires p2.stack == p.stack && p2.lastError == p.lastError && p2.trace == p.trace + [Begin(NumberT)]
    ensures Eat(p2, "e") == Some(q) && q == Regs(Ended(p, Trace(Int(n))), q)
  {
    var r := Emit(Emit(p2, Num(n)), End(NumberT));
    q := ValueEnd(r);
    assert r.trace == p.trace + Trace(Int(n));
    EatOne(p2, 'e', q);
  }

  lemma NumberBody(p: Parser, w: Spelling) returns (q: Parser)
    requires AtSign(p) && w.SpelledInt? && WellSpelled(w)
    ensures Eat(p, NumberText(w.junk, w.sign, w.digits, w.fraction)) == Some(q)
    ensures q == AfterFraction(AfterDigits(p, w.sign, w.digits), w.fraction)
  {
    var p1 := AfterDigits(p, w.sign, w.digits);
    q := AfterFraction(p1, w.fraction);
    SkipJunk(p, w.junk);
    SignedDigits(p, w.sign, w.digits);
    SkipFraction(p1, w.fraction);
    EatThrough(p, w.junk, p, w.sign + w.digits, p1, w.fraction, q,
               NumberText(w.junk, w.sign, w.digits, w.fraction));
  }

  lemma EatThrough(p: Parser, a: string, q: Parser, b: string, r: Parser, c: string, s: Parser, whole: string)
    requires Eat(p, a) == Some(q) && Eat(q, b) == Some(r) && Eat(r, c) == Some(s)
    requires whole == a + b + c
    ensures Eat(p, whole) == Some(s)
  {
    EatOn(p, a, q, b, r);
    EatOn(p, a + b, r, c, s);
  }

  lemma OpenInt(p: Parser) returns (q: Parser)
    requires Reader(p)
    ensures Eat(p, "i") == Some(q) && AtSign(q)
    ensures q == Regs(p.(state := NumberSign, trace := p.trace + [Begin(NumberT)]), q)
  {
    q := StepValue(p, 'i').0;
    EatOne(p, 'i', q);
  }

  lemma ParseInt(p: Parser, w: Spelling) returns (q: Parser)
    requires Reader(p) && w.SpelledInt? && WellSpelled(w)
    ensures Eat(p, Written(w)) == Some(q) && q == Regs(Ended(p, Trace(ValueOf(w))), q)
  {
    var p1 := OpenInt(p);
    var p2 := NumberBody(p1, w);
    q := EndOfNumber(p, p2, NumberOf(w.sign, w.digits, w.fraction));
    EatThrough(p, "i", p1, NumberText(w.junk, w.sign, w.digits, w.fraction), p2, "e", q, Written(w));
  }

  // ---------- strings ----------

  /** A string whose last data has been read ends its value. */
  lemma EndOfText(p: Parser, s: string, t: seq<Event>, kind: Kind)
    requires p.trace == t + [Begin(kind)] && kind == (if Top(p).DictKey? then DictKeyT else StringT)
    ensures StringEnd(Emit(p, Chars(s)))
         == Ended(p.(trace := t), [Begin(kind), Chars(s), End(kind)])
  {
    var r := Emit(Emit(p, Chars(s)), End(kind));
    assert r.trace == t + [Begin(kind), Chars(s), End(kind)];
  }

  /** The colon and the data of a string whose length has been read; the string ends the
      element `kind` begun last. */
  lemma ParseText(p: Parser, s: string, t: seq<Event>, kind: Kind) returns (q: Parser)
    requires p.state.StringLen? && p.strLength == |s| && p.numConsumed > 0
    requires p.trace == t + [Begin(kind)] && kind == (if Top(p).DictKey? then DictKeyT else StringT)
    ensures Eat(p, ":" + s) == Some(q)
    ensures q == Ended(p.(trace := t, state := String, strLength := 0), [Begin(kind), Chars(s), End(kind)])
  {
    var p1 := p.(state := String);
    EndOfText(p1.(strLength := 0), s, t, kind);
    if s == "" {
      q := StringEnd(Emit(p1, Chars("")));
      EatOne(p, ':', q);
      assert ":" + s == ":";
    } else {
      EatOne(p, ':', p1);
      q := AfterSlice(p1, s);
      StringSlice(p1, s);
      EatOn(p, ":", p1, s, q);
    }
  }

  lemma ParseStr(p: Parser, w: Spelling) returns (q: Parser)
    requires Reader(p) && w.SpelledStr? && WellSpelled(w)
    ensures Eat(p, Written(w)) == Some(q) && q == Regs(Ended(p, Trace(ValueOf(w))), q)
  {
    var s := w.s;
    var p2 := ParseLength(p, w.count);
    q := ParseText(p2, s, p.trace, StringT);
    EatOn(p, w.count, p2, ":" + s, q);
    assert Written(w) == w.count + (":" + s);
    EndedAnyState(p, Trace(Str(s)), p2.(trace := p.trace, state := String, strLength := 0));
  }

  lemma ParseLength(p: Parser, ds: string) returns (q: Parser)
    requires Reader(p) && Counts(ds)
    ensures Eat(p, ds) == Some(q) && q.numConsumed > 0
    ensures q == p.(state := StringLen, strLength := Accumulate(0, ds), numConsumed := q.numConsumed,
                    trace := p.trace + [Begin(StringT)])
  {
    FirstDigit(ds);
    var p1 := StepValue(p, ds[0]).0;
    EatOne(p, ds[0], p1);
    LengthDigits(p1, ds[1..]);
    q := p1.(strLength := Accumulate(0, ds), numConsumed := p1.numConsumed + |ds[1..]|);
    EatOn(p, [ds[0]], p1, ds[1..], q);
  }

  /** The parser that has just opened an item of a list. */
  function OpenItem(p: Parser): Parser {
    Emit(p.(stack := p.stack + [List], state := Value), Begin(ArrayDataT))
  }

  /** The parser that has just opened a key of a dictionary. */
  function OpenKey(p: Parser): Parser {
    Emit(p.(stack := p.stack + [DictKey], strLength := 0, numConsumed := 0, state := StringLen),
         Begin(DictKeyT))
  }

  lemma WrittenStart(w: Spelling)
    requires WellSpelled(w)
    ensures Written(w) != "" && Written(w)[0] != 'e'
  {
  }

  /** An item is opened in the same step that reads its first character. */
  lemma ItemBegins(p: Parser, data: string)
    requires p.state.List? && |p.stack| < MAX_STACK && data != "" && data[0] != 'e'
    ensures Eat(p, data) == Eat(OpenItem(p), data)
    ensures Feed(p, data) == Feed(OpenItem(p), data)
  {
    assert Step(p, data[0]) == Step(OpenItem(p), data[0]);
  }

  lemma EntryBegins(p: Parser, data: string)
    requires p.state.DictKey? && |p.stack| < MAX_STACK && data != "" && data[0] != 'e'
    ensures Eat(p, data) == Eat(OpenKey(p), data)
    ensures Feed(p, data) == Feed(OpenKey(p), data)
  {
    assert Step(p, data[0]) == Step(OpenKey(p), data[0]);
  }

  /** After a dictionary key the parser reads the value of the entry. */
  lemma ParseKey(p: Parser, e: SpelledEntry) returns (q: Parser)
    requires p.state.DictKey? && |p.stack| < MAX_STACK && KeySpelled(e)
    ensures Eat(p, WrittenKey(e)) == Some(q)
    ensures q.state.Value? && q.stack == p.stack + [DictVal] && q.lastError == p.lastError
    ensures q.trace == p.trace + EntryHead(e.key)
  {
    var ds, key := e.count, e.key;
    var p1 := OpenKey(p);
    LengthDigits(p1, ds);
    var p2 := p1.(strLength := |key|, numConsumed := p1.numConsumed + |ds|);
    q := ParseText(p2, key, p.trace, DictKeyT);
    assert WrittenKey(e) == ds + (":" + key);
    EatOn(p1, ds, p2, ":" + key, q);
    EntryBegins(p, WrittenKey(e));
    assert Pop(p2) == p.stack;
    assert q.trace == p.trace + [Begin(DictKeyT), Chars(key), End(DictKeyT)] + [Begin(DictDataT)];
  }

  // ---------- parsing anything ----------

  /** The 'e' of a list or a dictionary ends the value that `p` began to read. */
  lemma CloseContainer(p: Parser, kind: Kind, t: seq<Event>, r: Parser) returns (q: Parser)
    requires (kind == ArrayT && r.state.List?) || (kind == DictT && r.state.DictKey?)
    requires r.stack == p.stack && r.lastError == p.lastError
    requires r.trace == p.trace + [Begin(kind)] + t
    ensures Eat(r, "e") == Some(q) && q == Regs(Ended(p, [Begin(kind)] + t + [End(kind)]), q)
  {
    q := Step(r, 'e').0;
    EatOne(r, 'e', q);
    assert Emit(r, End(kind)).trace == p.trace + ([Begin(kind)] + t + [End(kind)]);
  }

  /** The parser reads all of a spelling that is not nested too deeply. */
  lemma {:induction false} ParseSpelling(p: Parser, w: Spelling) returns (q: Parser)
    requires Reader(p) && WellSpelled(w) && |p.stack| + Depth(ValueOf(w)) <= MAX_STACK
    ensures Eat(p, Written(w)) == Some(q) && q == Regs(Ended(p, Trace(ValueOf(w))), q)
    decreases w, 0
  {
    match w
    case SpelledInt(_, _, _, _) => q := ParseInt(p, w);
    case SpelledStr(_, _) => q := ParseStr(p, w);
    case SpelledLst(items) =>
      var p1 := StepValue(p, 'l').0;
      EatOne(p, 'l', p1);
      var p2 := ParseItems(p1, items);
      q := CloseContainer(p, ArrayT, TraceItems(ValuesOf(items)), p2);
      EatThrough(p, "l", p1, WrittenItems(items), p2, "e", q, Written(w));
    case SpelledDict(entries) =>
      var p1 := StepValue(p, 'd').0;
      EatOne(p, 'd', p1);
      var p2 := ParseEntries(p1, entries);
      q := CloseContainer(p, DictT, TraceEntries(EntriesOf(entries)), p2);
      EatThrough(p, "d", p1, WrittenEntries(entries), p2, "e", q, Written(w));
  }

  lemma {:induction false} ParseItems(p: Parser, items: seq<Spelling>) returns (q: Parser)
    requires p.state.List? && WellSpelledItems(items)
    requires items == [] || |p.stack| + 1 + DepthItems(ValuesOf(items)) <= MAX_STACK
    ensures Eat(p, WrittenItems(items)) == Some(q) && q == Regs(Grown(p, TraceItems(ValuesOf(items))), q)
    decreases items, 1
  {
    if items == [] {
      q := p;
    } else {
      FirstItem(items);
      var p2 := ParseItem(p, items[0]);
      q := ParseItems(p2, items[1..]);
      EatOn(p, Written(items[0]), p2, WrittenItems(items[1..]), q);
      GrownTwice(p, [Begin(ArrayDataT)] + Trace(ValueOf(items[0])) + [End(ArrayDataT)], p2,
                 TraceItems(ValuesOf(items[1..])), q, TraceItems(ValuesOf(items)));
    }
  }

  /** What the values of a list are, the first one apart. */
  lemma FirstItem(items: seq<Spelling>)
    requires items != []
    ensures ValuesOf(items)[0] == ValueOf(items[0]) && ValuesOf(items)[1..] == ValuesOf(items[1..])
    ensures ValuesOf(items) != []
  {
  }

  lemma FirstEntry(entries: seq<SpelledEntry>)
    requires entries != []
    ensures EntriesOf(entries) != [] && EntriesOf(entries)[1..] == EntriesOf(entries[1..])
    ensures EntriesOf(entries)[0] == Entry(entries[0].key, ValueOf(entries[0].value))
  {
  }

  lemma {:induction false} ParseItem(p: Parser, w: Spelling) returns (q: Parser)
    requires p.state.List? && WellSpelled(w) && |p.stack| + 1 + Depth(ValueOf(w)) <= MAX_STACK
    ensures Eat(p, Written(w)) == Some(q)
    ensures q == Regs(Grown(p, [Begin(ArrayDataT)] + Trace(ValueOf(w)) + [End(ArrayDataT)]), q)
    decreases w, 1
  {
    var p1 := OpenItem(p);
    WrittenStart(w);
    ItemBegins(p, Written(w));
    q := ParseSpelling(p1, w);
    ItemClosed(p, Trace(ValueOf(w)), q);
  }

  lemma ItemClosed(p: Parser, t: seq<Event>, q: Parser)
    requires p.state.List? && q == Regs(Ended(OpenItem(p), t), q)
    ensures q == Regs(Grown(p, [Begin(ArrayDataT)] + t + [End(ArrayDataT)]), q)
  {
    assert Pop(OpenItem(p)) == p.stack;
    assert q.trace == p.trace + ([Begin(ArrayDataT)] + t + [End(ArrayDataT)]);
  }

  lemma {:induction false} ParseEntries(p: Parser, entries: seq<SpelledEntry>) returns (q: Parser)
    requires p.state.DictKey? && WellSpelledEntries(entries)
    requires entries == [] || |p.stack| + 1 + DepthEntries(EntriesOf(entries)) <= MAX_STACK
    ensures Eat(p, WrittenEntries(entries)) == Some(q) && q == Regs(Grown(p, TraceEntries(EntriesOf(entries))), q)
    decreases entries, 1
  {
    if entries == [] {
      q := p;
    } else {
      var e := entries[0];
      FirstEntry(entries);
      var p2 := ParseEntry(p, e);
      q := ParseEntries(p2, entries[1..]);
      EatOn(p, WrittenKey(e) + Written(e.value), p2, WrittenEntries(entries[1..]), q);
      GrownTwice(p, EntryHead(e.key) + Trace(ValueOf(e.value)) + [End(DictDataT)], p2,
                 TraceEntries(EntriesOf(entries[1..])), q, TraceEntries(EntriesOf(entries)));
    }
  }

  lemma {:induction false} ParseEntry(p: Parser, e: SpelledEntry) returns (q: Parser)
    requires p.state.DictKey? && KeySpelled(e) && WellSpelled(e.value)
    requires |p.stack| + 1 + Depth(ValueOf(e.value)) <= MAX_STACK
    ensures Eat(p, WrittenKey(e) + Written(e.value)) == Some(q)
    ensures q == Regs(Grown(p, EntryHead(e.key) + Trace(ValueOf(e.value)) + [End(DictDataT)]), q)
    decreases e, 1
  {
    var p1 := ParseKey(p, e);
    q := ParseSpelling(p1, e.value);
    EatOn(p, WrittenKey(e), p1, Written(e.value), q);
    EntryClosed(p, EntryHead(e.key), p1, Trace(ValueOf(e.value)), q);
  }

  lemma EntryClosed(p: Parser, head: seq<Event>, p1: Parser, t: seq<Event>, q: Parser)
    requires p.state.DictKey? && p1.stack == p.stack + [DictVal] && p1.lastError == p.lastError
    requires p1.trace == p.trace + head && q == Regs(Ended(p1, t), q)
    ensures q == Regs(Grown(p, head + t + [End(DictDataT)]), q)
  {
    assert Pop(p1) == p.stack;
    assert q.trace == p.trace + (head + t + [End(DictDataT)]);
  }

  // ---------- nested too deeply ----------

  /** What is nested too deeply for the parser's stack is rejected as such. */
  lemma {:induction false} TooDeep(p: Parser, w: Spelling, rest: string)
    requires Reader(p) && WellSpelled(w) && |p.stack| <= MAX_STACK < |p.stack| + Depth(ValueOf(w))
    ensures Feed(p, Written(w) + rest).rv == ERR_STRUCTURE_TOO_DEEP
    decreases w, 0
  {
    match w
    case SpelledLst(items) =>
      var p1 := StepValue(p, 'l').0;
      EatOne(p, 'l', p1);
      TooDeepItems(p1, items, "e" + rest);
      assert Written(w) + rest == "l" + (WrittenItems(items) + ("e" + rest));
      FeedAfter(p, "l", p1, WrittenItems(items) + ("e" + rest));
    case SpelledDict(entries) =>
      var p1 := StepValue(p, 'd').0;
      EatOne(p, 'd', p1);
      TooDeepEntries(p1, entries, "e" + rest);
      assert Written(w) + rest == "d" + (WrittenEntries(entries) + ("e" + rest));
      FeedAfter(p, "d", p1, WrittenEntries(entries) + ("e" + rest));
    case _ =>
  }

  lemma {:induction false} TooDeepItems(p: Parser, items: seq<Spelling>, rest: string)
    requires p.state.List? && items != [] && WellSpelledItems(items)
    requires |p.stack| <= MAX_STACK < |p.stack| + 1 + DepthItems(ValuesOf(items))
    ensures Feed(p, WrittenItems(items) + rest).rv == ERR_STRUCTURE_TOO_DEEP
    decreases items, 1
  {
    var w, rest1 := items[0], WrittenItems(items[1..]) + rest;
    WrittenStart(w);
    FirstItem(items);
    assert WrittenItems(items) + rest == Written(w) + rest1;
    if |p.stack| < MAX_STACK {
      if |p.stack| + 1 + Depth(ValueOf(w)) > MAX_STACK {
        ItemBegins(p, Written(w) + rest1);
        TooDeep(OpenItem(p), w, rest1);
      } else {
        var q := ParseItem(p, w);
        FeedAfter(p, Written(w), q, rest1);
        TooDeepItems(q, items[1..], rest);
      }
    }
  }

  lemma {:induction false} TooDeepEntries(p: Parser, entries: seq<SpelledEntry>, rest: string)
    requires p.state.DictKey? && entries != [] && WellSpelledEntries(entries)
    requires |p.stack| <= MAX_STACK < |p.stack| + 1 + DepthEntries(EntriesOf(entries))
    ensures Feed(p, WrittenEntries(entries) + rest).rv == ERR_STRUCTURE_TOO_DEEP
    decreases entries, 1
  {
    var e, rest1 := entries[0], WrittenEntries(entries[1..]) + rest;
    FirstEntry(entries);
    EntriesSplit(entries, rest);
    if |p.stack| < MAX_STACK {
      if |p.stack| + 1 + Depth(ValueOf(e.value)) > MAX_STACK {
        TooDeepEntry(p, e, rest1);
      } else {
        var head := WrittenKey(e) + Written(e.value);
        var q := ParseEntry(p, e);
        FeedAfter(p, head, q, rest1);
        TooDeepEntries(q, entries[1..], rest);
      }
    } else {
      assert (WrittenEntries(entries) + rest)[0] == e.count[0];
      FullStack(p, WrittenEntries(entries) + rest);
    }
  }

  lemma {:induction false} TooDeepEntry(p: Parser, e: SpelledEntry, rest: string)
    requires p.state.DictKey? && KeySpelled(e) && WellSpelled(e.value)
    requires |p.stack| < MAX_STACK < |p.stack| + 1 + Depth(ValueOf(e.value))
    ensures Feed(p, WrittenKey(e) + (Written(e.value) + rest)).rv == ERR_STRUCTURE_TOO_DEEP
    decreases e, 1
  {
    var q := ParseKey(p, e);
    TooDeep(q, e.value, rest);
    FeedAfter(p, WrittenKey(e), q, Written(e.value) + rest);
  }

  lemma FullStack(p: Parser, data: string)
    requires p.state.DictKey? && |p.stack| == MAX_STACK && data != "" && data[0] != 'e'
    ensures Feed(p, data).rv == ERR_STRUCTURE_TOO_DEEP
  {
  }

  lemma EntriesSplit(entries: seq<SpelledEntry>, rest: string)
    requires entries != []
    ensures var e, rest1 := entries[0], WrittenEntries(entries[1..]) + rest;
            && WrittenEntries(entries) + rest == WrittenKey(e) + (Written(e.value) + rest1)
            && WrittenEntries(entries) + rest == WrittenKey(e) + Written(e.value) + rest1
  {
    var e := entries[0];
    FourParts(WrittenKey(e), Written(e.value), WrittenEntries(entries[1..]), rest);
  }

  lemma FourParts(a: string, b: string, c: string, d: string)
    ensures a + b + c + d == a + (b + (c + d)) && a + b + c + d == a + b + (c + d)
  {
  }

  /** The first digit that leads outside int64 is the one that is rejected. */
  lemma {:induction false} NumberOverflow(p: Parser, ds: string, rest: string)
    requires p.state.Number? && 0 <= p.number <= INT64_MAX
    requires AllDigits(ds) && Accumulate(p.number, ds) > INT64_MAX
    ensures Feed(p, ds + rest).rv == ERR_NUMBER_OUT_OF_RANGE
    decreases |ds|
  {
    var init, c := ds[..|ds| - 1], ds[|ds| - 1];
    assert ds + rest == init + ([c] + rest);
    if Accumulate(p.number, init) > INT64_MAX {
      NumberOverflow(p, init, [c] + rest);
    } else {
      var q := p.(number := Accumulate(p.number, init), numConsumed := p.numConsumed + |init|);
      NumberDigits(p, init);
      FeedAfter(p, init, q, [c] + rest);
      GuardIsExact(q.number, DigitOf(c));
      assert Step(q, c) == Fail(q, ERR_NUMBER_OUT_OF_RANGE);
    }
  }

  lemma DigitsTooBig(p: Parser, sign: string, ds: string, rest: string)
    requires AtSign(p) && sign in {"", "+", "-"} && ds != "" && AllDigits(ds) && Accumulate(0, ds) > INT64_MAX
    ensures Feed(p, sign + ds + rest).rv == ERR_NUMBER_OUT_OF_RANGE
  {
    if sign == "" {
      FirstDigit(ds);
      var q := StepNumberSign(p, ds[0]).0;
      EatOne(p, ds[0], q);
      NumberOverflow(q, ds[1..], rest);
      FeedAfter(p, [ds[0]], q, ds[1..] + rest);
      assert sign + ds + rest == [ds[0]] + (ds[1..] + rest);
    } else {
      var q := StepNumberSign(p, sign[0]).0;
      assert sign == [sign[0]];
      EatOne(p, sign[0], q);
      NumberOverflow(q, ds, rest);
      FeedAfter(p, sign, q, ds + rest);
      assert sign + ds + rest == sign + (ds + rest);
    }
  }
}
