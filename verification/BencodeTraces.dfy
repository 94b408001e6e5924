/** Which input the parser of `src/BencodeParser.cc` accepts, and what it takes it for: exactly the
    spellings of `BencodeSpellings`, each for the value it stands for.

    While it reads, the parser is inside some containers (`Context`, one for every entry of its
    stack but the first) and in the middle of one element (`Place`). Every step keeps the
    callbacks made and the characters read in agreement with the two. */
module BencodeTraces {
  import opened BencodeMachine
  import opened BencodeRoundTrip
  import opened BencodeSpellings
  import opened BencodeValues
  import opened Integers
  import opened Wrappers

  /** The containers around the element being read, innermost first, with what each has read. */
  datatype Context =
    | Outermost
    | InList(outer: Context, items: seq<Spelling>)
    | InKey(outer: Context, entries: seq<SpelledEntry>)
    | InValue(outer: Context, entries: seq<SpelledEntry>, count: string, key: string)

  /** How far the parser has come with the element itself. */
  datatype Place =
    | AtStart
    | AtList(items: seq<Spelling>)
    | AtDict(entries: seq<SpelledEntry>)
    | AtLength(count: string)
    | AtText(count: string, read: string)
    | AtNumber(junk: string, sign: string, digits: string, fraction: string)
    | AtEnd(whole: Spelling)

  /** The parser stack inside the containers. */
  function Stack(x: Context): (s: seq<Control>)
    ensures s != []
  {
    match x
    case Outermost => [Finish]
    case InList(outer, _) => Stack(outer) + [List]
    case InKey(outer, _) => Stack(outer) + [DictKey]
    case InValue(outer, _, _, _) => Stack(outer) + [DictVal]
  }

  function Level(x: Context): nat {
    |Stack(x)| - 1
  }

  // ---------- the callbacks ----------

  function ListSoFar(items: seq<Spelling>): seq<Event> {
    [Begin(ArrayT)] + TraceItems(ValuesOf(items))
  }

  function DictSoFar(entries: seq<SpelledEntry>): seq<Event> {
    [Begin(DictT)] + TraceEntries(EntriesOf(entries))
  }

  /** The callbacks made before the element being read. */
  function Before(x: Context): seq<Event> {
    match x
    case Outermost => []
    case InList(outer, items) => Before(outer) + ListSoFar(items) + [Begin(ArrayDataT)]
    case InKey(outer, entries) => Before(outer) + DictSoFar(entries) + [Begin(DictKeyT)]
    case InValue(outer, entries, _, key) => Before(outer) + DictSoFar(entries) + EntryHead(key)
  }

  /** The callbacks made for the element itself. That of a key has begun with its container. */
  function Tail(x: Context, at: Place): seq<Event> {
    match at
    case AtStart => []
    case AtList(items) => ListSoFar(items)
    case AtDict(entries) => DictSoFar(entries)
    case AtLength(_) => TextSoFar(x, "")
    case AtText(_, read) => TextSoFar(x, read)
    case AtNumber(_, _, _, _) => [Begin(NumberT)]
    case AtEnd(w) => Trace(ValueOf(w))
  }

  function TextBegin(x: Context): seq<Event> {
    if x.InKey? then [] else [Begin(StringT)]
  }

  function TextSoFar(x: Context, read: string): seq<Event> {
    TextBegin(x) + if read == "" then [] else [Chars(read)]
  }

  // ---------- the characters ----------

  /** The characters read before the element. */
  function ReadBefore(x: Context): string {
    match x
    case Outermost => ""
    case InList(outer, items) => ReadBefore(outer) + ("l" + WrittenItems(items))
    case InKey(outer, entries) => ReadBefore(outer) + ("d" + WrittenEntries(entries))
    case InValue(outer, entries, count, key) =>
      ReadBefore(outer) + ("d" + WrittenEntries(entries)) + (count + ":" + key)
  }

  /** The characters read of the element itself. */
  function ReadHere(at: Place): string {
    match at
    case AtStart => ""
    case AtList(items) => "l" + WrittenItems(items)
    case AtDict(entries) => "d" + WrittenEntries(entries)
    case AtLength(count) => count
    case AtText(count, read) => count + ":" + read
    case AtNumber(junk, sign, digits, fraction) => "i" + NumberText(junk, sign, digits, fraction)
    case AtEnd(w) => Written(w)
  }

  function Read(x: Context, at: Place): string {
    ReadBefore(x) + ReadHere(at)
  }

  // ---------- the registers ----------

  /** A spelling that fits inside `n` containers. */
  predicate Fits(w: Spelling, n: nat) {
    WellSpelled(w) && Depth(ValueOf(w)) + n <= 49
  }

  /** Every container can still become a spelling of its level; a key contains nothing. */
  predicate ContextFits(x: Context) {
    match x
    case Outermost => true
    case InList(outer, items) => !outer.InKey? && ContextFits(outer) && Fits(SpelledLst(items), Level(outer))
    case InKey(outer, entries) => !outer.InKey? && ContextFits(outer) && Fits(SpelledDict(entries), Level(outer))
    case InValue(outer, entries, count, key) =>
      && !outer.InKey? && ContextFits(outer) && Fits(SpelledDict(entries), Level(outer))
      && Counts(count) && Accumulate(0, count) == |key|
  }

  /** The registers while a number is read. */
  predicate NumberFits(p: Parser, at: Place)
    requires at.AtNumber?
  {
    && AllJunk(at.junk) && at.sign in {"", "+", "-"}
    && AllDigits(at.digits) && Accumulate(0, at.digits) <= INT64_MAX && IsFraction(at.fraction)
    && match p.state
       case NumberSign => AtSign(p) && at.sign == "" && at.digits == "" && at.fraction == ""
       case Number =>
         && p.number == Accumulate(0, at.digits) && p.numConsumed == |at.digits|
         && p.sign == (if at.sign == "-" then -1 else 1) && (at.sign == "" ==> at.digits != "")
         && at.fraction == ""
       case FloatNumberIgnore => p.number == 0 && at.digits != "" && at.fraction != ""
       case _ => false
  }

  /** What the parser's state and registers say about the place. */
  predicate PlaceFits(p: Parser, x: Context, at: Place) {
    match at
    case AtStart => (p.state.Initial? || p.state.Value?) && !x.InKey?
    case AtList(items) => p.state.List? && !x.InKey? && Fits(SpelledLst(items), Level(x))
    case AtDict(entries) => p.state.DictKey? && !x.InKey? && Fits(SpelledDict(entries), Level(x))
    case AtLength(count) =>
      && p.state.StringLen? && AllDigits(count) && (x.InKey? || count != "")
      && p.strLength == Accumulate(0, count) && p.numConsumed == |count|
    case AtText(count, read) => p.state.String? && Counts(count) && |read| + p.strLength == Accumulate(0, count)
    case AtNumber(_, _, _, _) => !x.InKey? && NumberFits(p, at)
    case AtEnd(w) => p.state.Finish? && x.Outermost? && Fits(w, 0)
  }

  predicate Described(p: Parser, x: Context, at: Place) {
    && p.stack == Stack(x)
    && p.trace == Before(x) + Tail(x, at)
    && ContextFits(x)
    && PlaceFits(p, x, at)
  }

  // ---------- one more item, one more entry ----------

  lemma {:induction false} ItemTraced(items: seq<BValue>, v: BValue)
    ensures TraceItems(items + [v]) == TraceItems(items) + ([Begin(ArrayDataT)] + Trace(v) + [End(ArrayDataT)])
  {
    if items == [] {
      assert [v][1..] == [];
    } else {
      assert (items + [v])[1..] == items[1..] + [v];
      ItemTraced(items[1..], v);
    }
  }

  lemma {:induction false} ItemAdded(items: seq<BValue>, v: BValue)
    ensures DepthItems(items + [v]) == Max(DepthItems(items), Depth(v))
    ensures InRangeItems(items + [v]) == (InRangeItems(items) && InRange(v))
  {
    if items == [] {
      assert [v][1..] == [];
    } else {
      assert (items + [v])[1..] == items[1..] + [v];
      ItemAdded(items[1..], v);
    }
  }

  lemma {:induction false} EntryTraced(entries: seq<Entry>, e: Entry)
    ensures TraceEntries(entries + [e])
         == TraceEntries(entries) + (EntryHead(e.key) + Trace(e.value) + [End(DictDataT)])
  {
    if entries == [] {
      assert [e][1..] == [];
    } else {
      assert (entries + [e])[1..] == entries[1..] + [e];
      EntryTraced(entries[1..], e);
    }
  }

  lemma {:induction false} EntryAdded(entries: seq<Entry>, e: Entry)
    ensures DepthEntries(entries + [e]) == Max(DepthEntries(entries), Depth(e.value))
    ensures InRangeEntries(entries + [e])
         == (InRangeEntries(entries) && |e.key| <= INT64_MAX && InRange(e.value))
  {
    if entries == [] {
      assert [e][1..] == [];
    } else {
      assert (entries + [e])[1..] == entries[1..] + [e];
      EntryAdded(entries[1..], e);
    }
  }

  lemma {:induction false} ItemsMore(items: seq<Spelling>, w: Spelling)
    ensures WrittenItems(items + [w]) == WrittenItems(items) + Written(w)
    ensures ValuesOf(items + [w]) == ValuesOf(items) + [ValueOf(w)]
    ensures WellSpelledItems(items + [w]) == (WellSpelledItems(items) && WellSpelled(w))
  {
    if items == [] {
      assert [w][1..] == [];
    } else {
      assert (items + [w])[1..] == items[1..] + [w];
      ItemsMore(items[1..], w);
    }
  }

  lemma {:induction false} EntriesMore(entries: seq<SpelledEntry>, e: SpelledEntry)
    ensures WrittenEntries(entries + [e]) == WrittenEntries(entries) + (WrittenKey(e) + Written(e.value))
    ensures EntriesOf(entries + [e]) == EntriesOf(entries) + [Entry(e.key, ValueOf(e.value))]
    ensures WellSpelledEntries(entries + [e])
         == (WellSpelledEntries(entries) && KeySpelled(e) && WellSpelled(e.value))
  {
    if entries == [] {
      assert [e][1..] == [];
    } else {
      assert (entries + [e])[1..] == entries[1..] + [e];
      EntriesMore(entries[1..], e);
    }
  }

  lemma ListGrows(items: seq<Spelling>, w: Spelling, n: nat)
    requires Fits(SpelledLst(items), n) && Fits(w, n + 1)
    ensures Fits(SpelledLst(items + [w]), n)
  {
    ItemsMore(items, w);
    ItemAdded(ValuesOf(items), ValueOf(w));
  }

  lemma DictGrows(entries: seq<SpelledEntry>, e: SpelledEntry, n: nat)
    requires Fits(SpelledDict(entries), n) && Fits(e.value, n + 1) && KeySpelled(e)
    ensures Fits(SpelledDict(entries + [e]), n)
  {
    EntriesMore(entries, e);
    EntryAdded(EntriesOf(entries), Entry(e.key, ValueOf(e.value)));
  }

  // ---------- the end of an element ----------

  lemma Joined(before: seq<Event>, head: seq<Event>, t: seq<Event>, u: seq<Event>, v: seq<Event>, e: seq<Event>)
    ensures before + (head + t) + u + v + e == before + (head + (t + (u + v + e)))
  {
  }

  lemma ItemEnds(p: Parser, outer: Context, items: seq<Spelling>, w: Spelling)
    requires p.stack == Stack(outer) + [List]
    requires p.trace == Before(outer) + ListSoFar(items) + [Begin(ArrayDataT)] + Trace(ValueOf(w))
    ensures ValueEnd(p) == p.(stack := Stack(outer), state := List,
                              trace := Before(outer) + ListSoFar(items + [w]))
  {
    ListSoFarMore(items, w);
    Joined(Before(outer), [Begin(ArrayT)], TraceItems(ValuesOf(items)), [Begin(ArrayDataT)], Trace(ValueOf(w)),
           [End(ArrayDataT)]);
    ValueEndInList(p, Stack(outer), Before(outer) + ListSoFar(items + [w]));
  }

  lemma ValueEndInList(p: Parser, s: seq<Control>, t: seq<Event>)
    requires p.stack == s + [List] && p.trace + [End(ArrayDataT)] == t
    ensures ValueEnd(p) == p.(stack := s, state := List, trace := t)
  {
  }

  lemma ValueEndInDict(p: Parser, s: seq<Control>, t: seq<Event>)
    requires p.stack == s + [DictVal] && p.trace + [End(DictDataT)] == t
    ensures ValueEnd(p) == p.(stack := s, state := DictKey, trace := t)
  {
  }

  lemma ListSoFarMore(items: seq<Spelling>, w: Spelling)
    ensures ListSoFar(items + [w])
         == [Begin(ArrayT)] + (TraceItems(ValuesOf(items))
                               + ([Begin(ArrayDataT)] + Trace(ValueOf(w)) + [End(ArrayDataT)]))
  {
    ItemsMore(items, w);
    ItemTraced(ValuesOf(items), ValueOf(w));
  }

  lemma DictSoFarMore(entries: seq<SpelledEntry>, e: SpelledEntry)
    ensures DictSoFar(entries + [e])
         == [Begin(DictT)] + (TraceEntries(EntriesOf(entries))
                              + (EntryHead(e.key) + Trace(ValueOf(e.value)) + [End(DictDataT)]))
  {
    EntriesMore(entries, e);
    EntryTraced(EntriesOf(entries), Entry(e.key, ValueOf(e.value)));
  }

  lemma EntryEnds(p: Parser, outer: Context, entries: seq<SpelledEntry>, e: SpelledEntry)
    requires p.stack == Stack(outer) + [DictVal]
    requires p.trace == Before(outer) + DictSoFar(entries) + EntryHead(e.key) + Trace(ValueOf(e.value))
    ensures ValueEnd(p) == p.(stack := Stack(outer), state := DictKey,
                              trace := Before(outer) + DictSoFar(entries + [e]))
  {
    DictSoFarMore(entries, e);
    Joined(Before(outer), [Begin(DictT)], TraceEntries(EntriesOf(entries)), EntryHead(e.key),
           Trace(ValueOf(e.value)), [End(DictDataT)]);
    ValueEndInDict(p, Stack(outer), Before(outer) + DictSoFar(entries + [e]));
  }

  lemma ItemRead(outer: Context, items: seq<Spelling>, w: Spelling)
    ensures Read(outer, AtList(items + [w])) == ReadBefore(InList(outer, items)) + Written(w)
  {
    ItemsMore(items, w);
    Together(ReadBefore(outer), "l" + WrittenItems(items), Written(w));
    Together("l", WrittenItems(items), Written(w));
  }

  lemma EntryRead(outer: Context, entries: seq<SpelledEntry>, e: SpelledEntry)
    ensures Read(outer, AtDict(entries + [e]))
         == ReadBefore(InValue(outer, entries, e.count, e.key)) + Written(e.value)
  {
    EntriesMore(entries, e);
    FourParts(ReadBefore(outer), "d" + WrittenEntries(entries), WrittenKey(e), Written(e.value));
    Together("d", WrittenEntries(entries), WrittenKey(e) + Written(e.value));
  }

  /** What ends outside of all containers is the whole input; within one it is the next item, or
      the value of the next entry. */
  lemma ValueEnds(p: Parser, x: Context, w: Spelling) returns (y: Context, at: Place)
    requires p.stack == Stack(x) && p.trace == Before(x) + Trace(ValueOf(w))
    requires !x.InKey? && ContextFits(x) && Fits(w, Level(x))
    ensures Described(ValueEnd(p), y, at) && Read(y, at) == ReadBefore(x) + Written(w)
  {
    match x
    case Outermost =>
      y, at := x, AtEnd(w);
    case InList(outer, items) =>
      y, at := outer, AtList(items + [w]);
      ItemEnds(p, outer, items, w);
      ListGrows(items, w, Level(outer));
      ItemRead(outer, items, w);
    case InValue(outer, entries, count, key) =>
      var e := SpelledEntry(count, key, w);
      y, at := outer, AtDict(entries + [e]);
      EntryEnds(p, outer, entries, e);
      DictGrows(entries, e, Level(outer));
      EntryRead(outer, entries, e);
  }

  lemma KeyEnds(p: Parser, x: Context, count: string, key: string) returns (y: Context, at: Place)
    requires p.stack == Stack(x) && p.trace == Before(x) + [Chars(key), End(DictKeyT)]
    requires x.InKey? && ContextFits(x) && Counts(count) && Accumulate(0, count) == |key|
    ensures Described(ValueEnd(p), y, at) && Read(y, at) == ReadBefore(x) + (count + ":" + key)
  {
    y, at := InValue(x.outer, x.entries, count, key), AtStart;
  }

  lemma KeyOnTop(p: Parser, x: Context)
    requires p.stack == Stack(x)
    ensures Top(p).DictKey? == x.InKey?
  {
  }

  /** The callback that ends a string, and what comes after it. */
  lemma TextEnds(p: Parser, x: Context, count: string, s: string) returns (y: Context, at: Place)
    requires p.stack == Stack(x) && p.trace == Before(x) + (TextBegin(x) + [Chars(s)])
    requires ContextFits(x) && Level(x) <= 49 && Counts(count) && Accumulate(0, count) == |s|
    ensures Described(StringEnd(p), y, at) && Read(y, at) == ReadBefore(x) + (count + ":" + s)
  {
    KeyOnTop(p, x);
    if x.InKey? {
      var q := Emit(p, End(DictKeyT));
      assert q.trace == Before(x) + [Chars(s), End(DictKeyT)];
      y, at := KeyEnds(q, x, count, s);
    } else {
      var q := Emit(p, End(StringT));
      assert q.trace == Before(x) + Trace(Str(s));
      y, at := ValueEnds(q, x, SpelledStr(count, s));
    }
  }

  lemma FirstChars(t: seq<Event>, k: Kind, s: string)
    ensures Push(t + [Begin(k)], Chars(s)) == t + [Begin(k)] + [Chars(s)]
  {
  }

  lemma MoreChars(t: seq<Event>, a: string, b: string)
    ensures Push(t + [Chars(a)], Chars(b)) == t + [Chars(a + b)]
  {
  }

  lemma Together<T>(a: seq<T>, b: seq<T>, c: seq<T>)
    ensures a + (b + c) == a + b + c
  {
  }

  /** Characters read join those read before. */
  lemma TextGrows(x: Context, read: string, more: string, t: seq<Event>, s: string)
    requires t == Before(x) + TextSoFar(x, read) && s == read + more
    ensures Push(t, Chars(more)) == Before(x) + (TextBegin(x) + [Chars(s)])
  {
    Together(Before(x), TextBegin(x), [Chars(s)]);
    if read != "" {
      Together(Before(x), TextBegin(x), [Chars(read)]);
      MoreChars(Before(x) + TextBegin(x), read, more);
    } else {
      assert s == more;
      Together(Before(x), TextBegin(x), []);
      if x.InKey? {
        FirstChars(Before(x.outer) + DictSoFar(x.entries), DictKeyT, more);
      } else {
        FirstChars(Before(x), StringT, more);
      }
    }
  }

  // ---------- one character ----------

  lemma StartStep(p: Parser, x: Context, c: char) returns (at: Place)
    requires Wf(p.(state := Initial)) && Described(p, x, AtStart) && StepValue(p, c).1 >= 0
    ensures Described(StepValue(p, c).0, x, at) && ReadHere(at) == [c]
  {
    if c == 'd' {
      at := AtDict([]);
      DictStarts(p, x);
    } else if c == 'l' {
      at := AtList([]);
      ListStarts(p, x);
    } else if c == 'i' {
      at := AtNumber("", "", "", "");
    } else {
      at := AtLength([c]);
      LengthStarts(p, x, c);
    }
  }

  lemma DictStarts(p: Parser, x: Context)
    requires Wf(p.(state := Initial)) && Described(p, x, AtStart)
    ensures Described(StepValue(p, 'd').0, x, AtDict([]))
  {
    assert DictSoFar([]) == [Begin(DictT)];
  }

  lemma ListStarts(p: Parser, x: Context)
    requires Wf(p.(state := Initial)) && Described(p, x, AtStart)
    ensures Described(StepValue(p, 'l').0, x, AtList([]))
  {
    assert ListSoFar([]) == [Begin(ArrayT)];
  }

  lemma LengthStarts(p: Parser, x: Context, c: char)
    requires Wf(p.(state := Initial)) && Described(p, x, AtStart) && IsDigit(c)
    ensures Described(StepValue(p, c).0, x, AtLength([c]))
  {
    assert [c][..0] == [];
  }

  lemma DigitAdded(ds: string, c: char)
    requires AllDigits(ds) && IsDigit(c)
    ensures AllDigits(ds + [c]) && Accumulate(0, ds + [c]) == Accumulate(0, ds) * 10 + DigitOf(c)
  {
    assert (ds + [c])[..|ds|] == ds;
  }

  lemma LengthStep(p: Parser, x: Context, count: string, c: char) returns (y: Context, at: Place)
    requires Wf(p) && Described(p, x, AtLength(count)) && StepStringLen(p, c).1 >= 0
    ensures Described(StepStringLen(p, c).0, y, at) && Read(y, at) == ReadBefore(x) + (count + [c])
  {
    if IsDigit(c) {
      DigitAdded(count, c);
      y, at := x, AtLength(count + [c]);
    } else if p.strLength == 0 {
      y, at := EmptyText(p, x, count, Emit(p.(state := String), Chars("")));
      assert count + ":" + "" == count + [c];
    } else {
      y, at := x, AtText(count, "");
      assert count + ":" + "" == count + [c];
    }
  }

  lemma EmptyText(p: Parser, x: Context, count: string, q: Parser) returns (y: Context, at: Place)
    requires Wf(p) && Described(p, x, AtLength(count)) && count != "" && p.strLength == 0
    requires q == Emit(p.(state := String), Chars(""))
    ensures Described(StringEnd(q), y, at) && Read(y, at) == ReadBefore(x) + (count + ":" + "")
  {
    TextGrows(x, "", "", p.trace, "");
    y, at := TextEnds(q, x, count, "");
  }

  lemma TextStep(p: Parser, x: Context, count: string, read: string, c: char) returns (y: Context, at: Place)
    requires Wf(p) && Described(p, x, AtText(count, read))
    ensures Described(StepString(p, c).0, y, at) && Read(y, at) == ReadBefore(x) + (count + ":" + (read + [c]))
  {
    TextGrows(x, read, [c], p.trace, read + [c]);
    var q := Emit(p, Chars([c])).(strLength := p.strLength - 1);
    if q.strLength == 0 {
      y, at := TextEnds(q, x, count, read + [c]);
    } else {
      y, at := x, AtText(count, read + [c]);
    }
  }

  lemma NumberEnds(p: Parser, x: Context, at: Place) returns (y: Context, to: Place)
    requires Wf(p) && at.AtNumber? && Described(p, x, at) && at.digits != "" && !p.state.NumberSign?
    ensures Described(NumberEnd(p), y, to) && Read(y, to) == ReadBefore(x) + (ReadHere(at) + "e")
  {
    var w := SpelledInt(at.junk, at.sign, at.digits, at.fraction);
    var n := Signed(p.sign, p.number);
    var q := Emit(Emit(p, Num(n)), End(NumberT));
    assert q.trace == Before(x) + Trace(Int(n));
    y, to := ValueEnds(q, x, w);
  }

  /** What one more character of a number is. */
  function NumberMore(p: Parser, at: Place, c: char): Place
    requires at.AtNumber?
  {
    if p.state.NumberSign? then
      if c == '+' || c == '-' then at.(sign := [c])
      else if IsDigit(c) then at.(digits := [c])
      else at.(junk := at.junk + [c])
    else if p.state.Number? && IsDigit(c) then at.(digits := at.digits + [c])
    else at.(fraction := at.fraction + [c])
  }

  lemma NumberRead(p: Parser, at: Place, c: char)
    requires at.AtNumber? && NumberFits(p, at)
    ensures ReadHere(NumberMore(p, at, c)) == ReadHere(at) + [c]
  {
    var to := NumberMore(p, at, c);
    NumberTextMore(at.junk, at.sign, at.digits, at.fraction, c);
  }

  lemma NumberTextMore(junk: string, sign: string, digits: string, fraction: string, c: char)
    ensures NumberText(junk, sign, digits, fraction + [c]) == NumberText(junk, sign, digits, fraction) + [c]
    ensures fraction == "" ==>
      NumberText(junk, sign, digits + [c], "") == NumberText(junk, sign, digits, fraction) + [c]
    ensures sign == "" && digits == "" && fraction == "" ==>
      && NumberText(junk, [c], "", "") == NumberText(junk, sign, digits, fraction) + [c]
      && NumberText(junk, "", [c], "") == NumberText(junk, sign, digits, fraction) + [c]
      && NumberText(junk + [c], "", "", "") == NumberText(junk, sign, digits, fraction) + [c]
  {
  }

  lemma NumberGoesOn(p: Parser, x: Context, at: Place, c: char)
    requires Wf(p) && at.AtNumber? && Described(p, x, at) && Step(p, c).1 >= 0
    requires c == 'e' ==> p.state.NumberSign?
    ensures Described(Step(p, c).0, x, NumberMore(p, at, c))
  {
    match p.state
    case NumberSign => SignGoesOn(p, x, at, c);
    case Number => DigitsGoOn(p, x, at, c);
    case FloatNumberIgnore =>
  }

  /** Neither the stack nor the callbacks change while a number is read. */
  lemma StaysAtNumber(p: Parser, q: Parser, x: Context, at: Place, to: Place)
    requires at.AtNumber? && Described(p, x, at)
    requires q.stack == p.stack && q.trace == p.trace && to.AtNumber? && NumberFits(q, to)
    ensures Described(q, x, to)
  {
  }

  lemma SignGoesOn(p: Parser, x: Context, at: Place, c: char)
    requires at.AtNumber? && Described(p, x, at) && p.state.NumberSign?
    ensures Described(StepNumberSign(p, c).0, x, NumberMore(p, at, c))
  {
    if IsDigit(c) {
      FirstDigit(p, at, c);
    } else if c != '+' && c != '-' {
      JunkGoesOn(p, at, c);
    }
    StaysAtNumber(p, StepNumberSign(p, c).0, x, at, NumberMore(p, at, c));
  }

  lemma FirstDigit(p: Parser, at: Place, c: char)
    requires at.AtNumber? && NumberFits(p, at) && p.state.NumberSign? && IsDigit(c)
    ensures NumberFits(StepNumberSign(p, c).0, NumberMore(p, at, c))
  {
    DigitAdded("", c);
    assert "" + [c] == [c];
  }

  lemma JunkGoesOn(p: Parser, at: Place, c: char)
    requires at.AtNumber? && NumberFits(p, at) && p.state.NumberSign?
    requires !IsDigit(c) && c != '+' && c != '-'
    ensures NumberFits(StepNumberSign(p, c).0, NumberMore(p, at, c))
  {
  }

  lemma DigitsGoOn(p: Parser, x: Context, at: Place, c: char)
    requires Wf(p) && at.AtNumber? && Described(p, x, at) && p.state.Number? && c != 'e'
    requires StepNumber(p, c).1 >= 0
    ensures Described(StepNumber(p, c).0, x, NumberMore(p, at, c))
  {
    NextDigit(p, at, c);
    StaysAtNumber(p, StepNumber(p, c).0, x, at, NumberMore(p, at, c));
  }

  lemma NextDigit(p: Parser, at: Place, c: char)
    requires Wf(p) && at.AtNumber? && NumberFits(p, at) && p.state.Number? && c != 'e'
    requires StepNumber(p, c).1 >= 0
    ensures NumberFits(StepNumber(p, c).0, NumberMore(p, at, c))
  {
    if IsDigit(c) {
      DigitAdded(at.digits, c);
      GuardIsExact(p.number, DigitOf(c));
    } else {
      assert "" + [c] == [c];
    }
  }

  lemma NumberStep(p: Parser, x: Context, at: Place, c: char) returns (y: Context, to: Place)
    requires Wf(p) && at.AtNumber? && Described(p, x, at) && Step(p, c).1 >= 0
    ensures Described(Step(p, c).0, y, to) && Read(y, to) == ReadBefore(x) + (ReadHere(at) + [c])
  {
    if !p.state.NumberSign? && c == 'e' {
      y, to := NumberEnds(p, x, at);
    } else {
      y, to := x, NumberMore(p, at, c);
      NumberGoesOn(p, x, at, c);
      NumberRead(p, at, c);
    }
  }

  lemma ListStep(p: Parser, x: Context, items: seq<Spelling>, c: char) returns (y: Context, at: Place)
    requires Wf(p) && Described(p, x, AtList(items)) && Step(p, c).1 >= 0
    ensures Described(Step(p, c).0, y, at) && Read(y, at) == ReadBefore(x) + ("l" + WrittenItems(items) + [c])
  {
    if c == 'e' {
      var q := Emit(p, End(ArrayT));
      assert q.trace == Before(x) + Trace(Lst(ValuesOf(items)));
      y, at := ValueEnds(q, x, SpelledLst(items));
    } else {
      y := InList(x, items);
      at := StartStep(OpenItem(p), y, c);
      Together(ReadBefore(x), "l" + WrittenItems(items), [c]);
    }
  }

  lemma DictStep(p: Parser, x: Context, entries: seq<SpelledEntry>, c: char) returns (y: Context, at: Place)
    requires Wf(p) && Described(p, x, AtDict(entries)) && Step(p, c).1 >= 0
    ensures Described(Step(p, c).0, y, at) && Read(y, at) == ReadBefore(x) + ("d" + WrittenEntries(entries) + [c])
  {
    if c == 'e' {
      var q := Emit(p, End(DictT));
      assert q.trace == Before(x) + Trace(Dict(EntriesOf(entries)));
      y, at := ValueEnds(q, x, SpelledDict(entries));
    } else {
      y, at := LengthStep(OpenKey(p), InKey(x, entries), "", c);
      Together(ReadBefore(x), "d" + WrittenEntries(entries), [c]);
      assert "" + [c] == [c];
    }
  }

  /** Every character that the parser accepts leaves it with the callbacks of what it has read. */
  lemma StepDescribed(p: Parser, x: Context, at: Place, c: char) returns (y: Context, to: Place)
    requires Wf(p) && Described(p, x, at) && Step(p, c).1 >= 0 && !at.AtEnd?
    ensures Described(Step(p, c).0, y, to) && Read(y, to) == Read(x, at) + [c]
  {
    Together(ReadBefore(x), ReadHere(at), [c]);
    match at
    case AtStart =>
      y := x;
      to := StartStep(p, x, c);
      assert "" + [c] == [c];
    case AtList(items) => y, to := ListStep(p, x, items, c);
    case AtDict(entries) => y, to := DictStep(p, x, entries, c);
    case AtLength(count) => y, to := LengthStep(p, x, count, c);
    case AtText(count, read) =>
      y, to := TextStep(p, x, count, read, c);
      Together(count + ":", read, [c]);
    case AtNumber(_, _, _, _) => y, to := NumberStep(p, x, at, c);
  }

  // ---------- main results ----------

  lemma {:induction false} FeedDescribed(p: Parser, x: Context, at: Place, data: string) returns (w: Spelling)
    requires Wf(p) && Described(p, x, at) && Feed(p, data).parser.state.Finish?
    ensures Fits(w, 0) && Feed(p, data).parser.trace == Trace(ValueOf(w))
    ensures Written(w) <= Read(x, at) + data
    decreases |data|
  {
    if p.state.Finish? {
      w := at.whole;
    } else {
      StepWf(p, data[0]);
      var y, to := StepDescribed(p, x, at, data[0]);
      w := FeedDescribed(Step(p, data[0]).0, y, to, data[1..]);
      Together(Read(x, at), [data[0]], data[1..]);
      assert data == [data[0]] + data[1..];
    }
  }

  /** The parser finishes on exactly the inputs that begin with a spelling of at most 49
      containers one inside the other, and then it has consumed that spelling and made the
      callbacks of the value that it stands for. */
  lemma AcceptsExactlySpellings(data: string)
    ensures Feed(FRESH, data).parser.state.Finish?
       <==> exists w :: WellSpelled(w) && Depth(ValueOf(w)) <= 49 && Written(w) <= data
    ensures forall w :: WellSpelled(w) && Depth(ValueOf(w)) <= 49 && Written(w) <= data ==>
              Feed(FRESH, data).rv == |Written(w)| && Feed(FRESH, data).parser.trace == Trace(ValueOf(w))
  {
    forall w | WellSpelled(w) && Depth(ValueOf(w)) <= 49 && Written(w) <= data
      ensures Feed(FRESH, data).parser.state.Finish?
      ensures Feed(FRESH, data).rv == |Written(w)| && Feed(FRESH, data).parser.trace == Trace(ValueOf(w))
    {
      SpellingRead(w, data[|Written(w)|..]);
      assert data == Written(w) + data[|Written(w)|..];
    }
    if Feed(FRESH, data).parser.state.Finish? {
      var w := FeedDescribed(FRESH, Outermost, AtStart, data);
      assert Read(Outermost, AtStart) + data == data;
    }
  }

  /** Whatever input makes the parser finish, its callbacks are those of one value within the
      bounds on integers, lengths and nesting. */
  lemma FinishedMeansValue(data: string)
    requires Feed(FRESH, data).parser.state.Finish?
    ensures exists v :: InRange(v) && Depth(v) <= 49 && Feed(FRESH, data).parser.trace == Trace(v)
  {
    var w := FeedDescribed(FRESH, Outermost, AtStart, data);
    SpelledInRange(w);
  }

  lemma {:induction false} SpelledInRange(w: Spelling)
    requires WellSpelled(w)
    ensures InRange(ValueOf(w))
    decreases w, 0
  {
    match w
    case SpelledLst(items) => ItemsInRange(items);
    case SpelledDict(entries) => EntriesInRange(entries);
    case _ =>
  }

  lemma {:induction false} ItemsInRange(items: seq<Spelling>)
    requires WellSpelledItems(items)
    ensures InRangeItems(ValuesOf(items))
    decreases items, 1
  {
    if items == [] {
    } else {
      FirstItem(items);
      SpelledInRange(items[0]);
      ItemsInRange(items[1..]);
    }
  }

  lemma {:induction false} EntriesInRange(entries: seq<SpelledEntry>)
    requires WellSpelledEntries(entries)
    ensures InRangeEntries(EntriesOf(entries))
    decreases entries, 1
  {
    if entries == [] {
    } else {
      FirstEntry(entries);
      SpelledInRange(entries[0].value);
      EntriesInRange(entries[1..]);
    }
  }

  predicate Finishes(data: string, t: seq<Event>) {
    var p := Feed(FRESH, data).parser;
    p.state.Finish? && p.trace == t
  }

  /** The callbacks with which the parser can finish are exactly those of the values within the
      bounds. */
  lemma FinishedExactlyValues(t: seq<Event>)
    ensures (exists data :: Finishes(data, t)) <==> (exists v :: InRange(v) && Depth(v) <= 49 && Trace(v) == t)
  {
    if data :| Finishes(data, t) {
      FinishedMeansValue(data);
    }
    if v :| InRange(v) && Depth(v) <= 49 && Trace(v) == t {
      RoundTrip(v, "");
      assert Finishes(Encode(v) + "", t);
    }
  }
}
