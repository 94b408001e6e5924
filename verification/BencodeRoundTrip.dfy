/** The encoding of a value (BEP 3), and what the parser of `src/BencodeParser.cc` makes of it. */
module BencodeRoundTrip {
  import opened BencodeErrors
  import opened BencodeMachine
  import opened BencodeSpellings
  import opened BencodeValues
  import opened Integers
  import opened Sequences
  import opened Wrappers

  // ---------- the encoding ----------

  function Digit(d: int): char
    requires 0 <= d <= 9
    ensures IsDigit(Digit(d)) && DigitOf(Digit(d)) == d
  {
    ('0' as int + d) as char
  }

  function Decimal(n: nat): (ds: string)
    ensures |ds| > 0 && AllDigits(ds)
  {
    if n < 10 then [Digit(n)] else Decimal(n / 10) + [Digit(n % 10)]
  }

  function EncodeString(s: string): string {
    Decimal(|s|) + ":" + s
  }

  function Encode(v: BValue): (e: string)
    decreases v, 0
  {
    match v
    case Int(n) => "i" + (if n < 0 then "-" + Decimal(-n) else Decimal(n)) + "e"
    case Str(s) => EncodeString(s)
    case Lst(items) => "l" + EncodeItems(items) + "e"
    case Dict(entries) => "d" + EncodeEntries(entries) + "e"
  }

  function EncodeItems(items: seq<BValue>): string
    decreases items, 1
  {
    if items == [] then "" else Encode(items[0]) + EncodeItems(items[1..])
  }

  function EncodeEntries(entries: seq<Entry>): string
    decreases entries, 1
  {
    if entries == [] then ""
    else EncodeString(entries[0].key) + Encode(entries[0].value) + EncodeEntries(entries[1..])
  }

  /** Decimal notation and accumulation are inverse. */
  lemma {:induction false} DecimalValue(n: nat)
    ensures Accumulate(0, Decimal(n)) == n
    decreases n
  {
    if n < 10 {
      assert Decimal(n) == [Digit(n)];
    } else {
      DecimalValue(n / 10);
      assert Decimal(n)[..|Decimal(n)| - 1] == Decimal(n / 10);
    }
  }

  // ---------- the encoding as a spelling ----------

  function Spelled(v: BValue): Spelling
    decreases v, 0
  {
    match v
    case Int(n) => if n < 0 then SpelledInt("", "-", Decimal(-n), "") else SpelledInt("", "", Decimal(n), "")
    case Str(s) => SpelledStr(Decimal(|s|), s)
    case Lst(items) => SpelledLst(SpelledItems(items))
    case Dict(entries) => SpelledDict(SpelledEntries(entries))
  }

  function SpelledItems(items: seq<BValue>): seq<Spelling>
    decreases items, 1
  {
    if items == [] then [] else [Spelled(items[0])] + SpelledItems(items[1..])
  }

  function SpelledEntries(entries: seq<Entry>): seq<SpelledEntry>
    decreases entries, 1
  {
    if entries == [] then []
    else
      [SpelledEntry(Decimal(|entries[0].key|), entries[0].key, Spelled(entries[0].value))]
      + SpelledEntries(entries[1..])
  }

  lemma {:induction false} SpelledMeans(v: BValue)
    requires InRange(v)
    ensures WellSpelled(Spelled(v)) && ValueOf(Spelled(v)) == v && Written(Spelled(v)) == Encode(v)
    decreases v, 0
  {
    match v
    case Int(n) => SpelledIntMeans(n);
    case Str(s) => DecimalValue(|s|);
    case Lst(items) => SpelledItemsMean(items);
    case Dict(entries) => SpelledEntriesMean(entries);
  }

  lemma SpelledIntMeans(n: int)
    requires -INT64_MAX <= n <= INT64_MAX
    ensures WellSpelled(Spelled(Int(n))) && ValueOf(Spelled(Int(n))) == Int(n)
    ensures Written(Spelled(Int(n))) == Encode(Int(n))
  {
    var m: nat, sign := if n < 0 then -n else n, if n < 0 then "-" else "";
    DecimalValue(m);
    NumberWritten(sign, Decimal(m));
    assert n >= 0 ==> sign + Decimal(m) == Decimal(m);
  }

  lemma NumberWritten(sign: string, digits: string)
    ensures "i" + NumberText("", sign, digits, "") + "e" == "i" + (sign + digits) + "e"
  {
  }

  lemma {:induction false} SpelledItemsMean(items: seq<BValue>)
    requires InRangeItems(items)
    ensures var w := SpelledItems(items);
      WellSpelledItems(w) && ValuesOf(w) == items && WrittenItems(w) == EncodeItems(items)
    decreases items, 1
  {
    if items == [] {
    } else {
      SpelledMeans(items[0]);
      SpelledItemsMean(items[1..]);
      assert SpelledItems(items)[1..] == SpelledItems(items[1..]);
      assert items == [items[0]] + items[1..];
    }
  }

  lemma {:induction false} SpelledEntriesMean(entries: seq<Entry>)
    requires InRangeEntries(entries)
    ensures var w := SpelledEntries(entries);
      WellSpelledEntries(w) && EntriesOf(w) == entries && WrittenEntries(w) == EncodeEntries(entries)
    decreases entries, 1
  {
    if entries == [] {
    } else {
      DecimalValue(|entries[0].key|);
      SpelledMeans(entries[0].value);
      SpelledEntriesMean(entries[1..]);
      assert SpelledEntries(entries)[1..] == SpelledEntries(entries[1..]);
      assert entries == [entries[0]] + entries[1..];
    }
  }

  // ---------- main results ----------

  /** A spelling that is not nested too deeply is consumed, for the callbacks of its value. */
  lemma SpellingRead(w: Spelling, rest: string)
    requires WellSpelled(w) && Depth(ValueOf(w)) <= 49
    ensures var f := Feed(FRESH, Written(w) + rest);
      && f.rv == |Written(w)| && f.parser.state.Finish? && f.parser.stack == [Finish]
      && f.parser.trace == Trace(ValueOf(w))
  {
    var q := ParseSpelling(FRESH, w);
    FeedAfter(FRESH, Written(w), q, rest);
    assert FRESH.trace + Trace(ValueOf(w)) == Trace(ValueOf(w));
  }

  /** Parsing the encoding of a value followed by anything consumes exactly the encoding and
      makes exactly the callbacks of the value, if its elements have at most 49 containers
      around them; any deeper nesting is reported as such. */
  lemma RoundTrip(v: BValue, rest: string)
    requires InRange(v)
    ensures var f := Feed(FRESH, Encode(v) + rest);
            if Depth(v) <= 49 then
              f.rv == |Encode(v)| && f.parser.state.Finish? && f.parser.stack == [Finish]
              && f.parser.trace == Trace(v)
            else f.rv == -5
  {
    SpelledMeans(v);
    if Depth(v) <= 49 {
      SpellingRead(Spelled(v), rest);
    } else {
      TooDeep(FRESH, Spelled(v), rest);
    }
  }

  /** For every integer: it is parsed exactly when its magnitude is at most INT64_MAX. */
  lemma IntegerBounds(n: int, rest: string)
    ensures Feed(FRESH, Encode(Int(n)) + rest).rv
         == if -INT64_MAX <= n <= INT64_MAX then |Encode(Int(n))| else ERR_NUMBER_OUT_OF_RANGE
  {
    if -INT64_MAX <= n <= INT64_MAX {
      RoundTrip(Int(n), rest);
    } else {
      var m: nat, sign := if n < 0 then -n else n, if n < 0 then "-" else "";
      DecimalValue(m);
      NumberOutOfRange(FRESH, "", sign, Decimal(m), "e" + rest);
      IntegerWritten(n, m, sign, rest);
    }
  }

  lemma IntegerWritten(n: int, m: nat, sign: string, rest: string)
    requires if n < 0 then m == -n && sign == "-" else m == n && sign == ""
    ensures Encode(Int(n)) + rest == "i" + "" + (sign + Decimal(m) + ("e" + rest))
  {
  }

  /** What a number means in all the forms that are accepted: characters in front of it are
      skipped, a sign counts, and a floating point number is zero. */
  lemma NumberMeans(junk: string, sign: string, n: nat, fraction: string, rest: string)
    requires n <= INT64_MAX && sign in {"", "+", "-"}
    requires (forall c :: c in junk ==> c !in "0123456789+-") && (forall c :: c in fraction ==> c in "0123456789.E+-")
    requires fraction != "" ==> fraction[0] !in "0123456789"
    ensures var text := "i" + (junk + (sign + Decimal(n)) + fraction) + "e";
            var f := Feed(FRESH, text + rest);
      && f.parser.state.Finish? && f.rv == |text|
      && f.parser.trace == [Begin(NumberT),
                            Num(if fraction != "" then 0 else if sign == "-" then 0 - n else n),
                            End(NumberT)]
  {
    DecimalValue(n);
    IsJunk(junk);
    ReadAsFraction(fraction);
    SpellingRead(SpelledInt(junk, sign, Decimal(n), fraction), rest);
  }

  lemma IsJunk(junk: string)
    requires forall c :: c in junk ==> c !in "0123456789+-"
    ensures AllJunk(junk)
  {
    forall i | 0 <= i < |junk|
      ensures !IsDigit(junk[i]) && junk[i] != '+' && junk[i] != '-'
    {
      assert junk[i] in junk;
      if IsDigit(junk[i]) {
        DigitsInOrder(junk[i]);
      }
    }
  }

  lemma ReadAsFraction(fraction: string)
    requires forall c :: c in fraction ==> c in "0123456789.E+-"
    requires fraction != "" ==> fraction[0] !in "0123456789"
    ensures IsFraction(fraction)
  {
    forall i | 0 <= i < |fraction|
      ensures IsFloatChar(fraction[i])
    {
      assert fraction[i] in fraction;
    }
    if fraction != "" && IsDigit(fraction[0]) {
      DigitsInOrder(fraction[0]);
    }
  }

  /** Every callback that begins an element is matched by the one that ends it. */
  function Balanced(t: seq<Event>, open: seq<Kind>): bool
    decreases |t|
  {
    if t == [] then open == []
    else
      match t[0]
      case Begin(k) => Balanced(t[1..], open + [k])
      case End(k) => open != [] && open[|open| - 1] == k && Balanced(t[1..], open[..|open| - 1])
      case _ => open != [] && Balanced(t[1..], open)
  }

  lemma BalancedBegin(k: Kind, t: seq<Event>, open: seq<Kind>)
    ensures Balanced([Begin(k)] + t, open) == Balanced(t, open + [k])
  {
    assert ([Begin(k)] + t)[1..] == t;
  }

  lemma BalancedEnd(k: Kind, t: seq<Event>, open: seq<Kind>)
    ensures Balanced([End(k)] + t, open + [k]) == Balanced(t, open)
  {
    assert ([End(k)] + t)[1..] == t;
    assert (open + [k])[..|open|] == open;
  }

  lemma BalancedLeaf(e: Event, t: seq<Event>, open: seq<Kind>, k: Kind)
    requires e.Chars? || e.Num?
    ensures Balanced([Begin(k), e, End(k)] + t, open) == Balanced(t, open)
  {
    assert [Begin(k), e, End(k)] + t == [Begin(k)] + ([e] + ([End(k)] + t));
    BalancedBegin(k, [e] + ([End(k)] + t), open);
    assert ([e] + ([End(k)] + t))[1..] == [End(k)] + t;
    BalancedEnd(k, t, open);
  }

  lemma Regrouped(a: seq<Event>, s: seq<Event>, b: seq<Event>, t: seq<Event>)
    ensures a + s + b + t == a + (s + (b + t))
  {
  }

  /** The callbacks of a value leave the open elements as they found them. */
  lemma {:induction false} TraceBalanced(v: BValue, t: seq<Event>, open: seq<Kind>)
    ensures Balanced(Trace(v) + t, open) == Balanced(t, open)
    decreases v, 0
  {
    match v
    case Int(n) => BalancedLeaf(Num(n), t, open, NumberT);
    case Str(s) => BalancedLeaf(Chars(s), t, open, StringT);
    case Lst(items) =>
      Regrouped([Begin(ArrayT)], TraceItems(items), [End(ArrayT)], t);
      BalancedBegin(ArrayT, TraceItems(items) + ([End(ArrayT)] + t), open);
      ItemsBalanced(items, [End(ArrayT)] + t, open + [ArrayT]);
      BalancedEnd(ArrayT, t, open);
    case Dict(entries) =>
      Regrouped([Begin(DictT)], TraceEntries(entries), [End(DictT)], t);
      BalancedBegin(DictT, TraceEntries(entries) + ([End(DictT)] + t), open);
      EntriesBalanced(entries, [End(DictT)] + t, open + [DictT]);
      BalancedEnd(DictT, t, open);
  }

  lemma {:induction false} ItemsBalanced(items: seq<BValue>, t: seq<Event>, open: seq<Kind>)
    ensures Balanced(TraceItems(items) + t, open) == Balanced(t, open)
    decreases items, 1
  {
    if items == [] {
      assert TraceItems(items) + t == t;
    } else {
      var t1 := TraceItems(items[1..]) + t;
      assert TraceItems(items) + t == [Begin(ArrayDataT)] + (Trace(items[0]) + ([End(ArrayDataT)] + t1));
      BalancedBegin(ArrayDataT, Trace(items[0]) + ([End(ArrayDataT)] + t1), open);
      TraceBalanced(items[0], [End(ArrayDataT)] + t1, open + [ArrayDataT]);
      BalancedEnd(ArrayDataT, t1, open);
      ItemsBalanced(items[1..], t, open);
    }
  }

  lemma {:induction false} EntriesBalanced(entries: seq<Entry>, t: seq<Event>, open: seq<Kind>)
    ensures Balanced(TraceEntries(entries) + t, open) == Balanced(t, open)
    decreases entries, 1
  {
    if entries == [] {
      assert TraceEntries(entries) + t == t;
    } else {
      var e, t1 := entries[0], TraceEntries(entries[1..]) + t;
      var t2 := Trace(e.value) + ([End(DictDataT)] + t1);
      assert TraceEntries(entries) + t
          == [Begin(DictKeyT), Chars(e.key), End(DictKeyT)] + ([Begin(DictDataT)] + t2);
      BalancedLeaf(Chars(e.key), [Begin(DictDataT)] + t2, open, DictKeyT);
      BalancedBegin(DictDataT, t2, open);
      TraceBalanced(e.value, [End(DictDataT)] + t1, open + [DictDataT]);
      BalancedEnd(DictDataT, t1, open);
      EntriesBalanced(entries[1..], t, open);
    }
  }

  lemma PrefixEq(a: seq<Event>, s: seq<Event>, b: seq<Event>, t: seq<Event>)
    requires |a| == |b| && a + s == b + t
    ensures a == b && s == t
  {
    assert a == (a + s)[..|a|] && b == (b + t)[..|b|];
    assert s == (a + s)[|a|..] && t == (b + t)[|b|..];
  }

  /** The callbacks determine the value, and where it ends. */
  lemma {:induction false} TraceDetermines(v: BValue, w: BValue, a: seq<Event>, b: seq<Event>)
    requires Trace(v) + a == Trace(w) + b
    ensures v == w && a == b
    decreases v, 0
  {
    assert (Trace(v) + a)[0] == Trace(v)[0] && (Trace(w) + b)[0] == Trace(w)[0];
    match v
    case Int(n) => PrefixEq(Trace(v), a, Trace(w), b);
    case Str(s) => PrefixEq(Trace(v), a, Trace(w), b);
    case Lst(items) =>
      Regrouped([Begin(ArrayT)], TraceItems(items), [End(ArrayT)], a);
      Regrouped([Begin(ArrayT)], TraceItems(w.items), [End(ArrayT)], b);
      PrefixEq([Begin(ArrayT)], TraceItems(items) + ([End(ArrayT)] + a),
               [Begin(ArrayT)], TraceItems(w.items) + ([End(ArrayT)] + b));
      ItemsDetermine(items, w.items, a, b);
    case Dict(entries) =>
      Regrouped([Begin(DictT)], TraceEntries(entries), [End(DictT)], a);
      Regrouped([Begin(DictT)], TraceEntries(w.entries), [End(DictT)], b);
      PrefixEq([Begin(DictT)], TraceEntries(entries) + ([End(DictT)] + a),
               [Begin(DictT)], TraceEntries(w.entries) + ([End(DictT)] + b));
      EntriesDetermine(entries, w.entries, a, b);
  }

  /** The callbacks of a list begin with an item, or with the end of the list. */
  lemma ItemsHead(xs: seq<BValue>, a: seq<Event>)
    ensures var s := TraceItems(xs) + ([End(ArrayT)] + a);
            if xs == [] then s == [End(ArrayT)] + a
            else s == [Begin(ArrayDataT)]
                      + (Trace(xs[0]) + ([End(ArrayDataT)] + (TraceItems(xs[1..]) + ([End(ArrayT)] + a))))
  {
  }

  lemma {:induction false} ItemsDetermine(xs: seq<BValue>, ys: seq<BValue>, a: seq<Event>, b: seq<Event>)
    requires TraceItems(xs) + ([End(ArrayT)] + a) == TraceItems(ys) + ([End(ArrayT)] + b)
    ensures xs == ys && a == b
    decreases xs, 1
  {
    ItemsHead(xs, a);
    ItemsHead(ys, b);
    var s, t := TraceItems(xs) + ([End(ArrayT)] + a), TraceItems(ys) + ([End(ArrayT)] + b);
    assert s[0] == t[0];
    if xs == [] || ys == [] {
      PrefixEq([End(ArrayT)], a, [End(ArrayT)], b);
    } else {
      var a1, b1 := TraceItems(xs[1..]) + ([End(ArrayT)] + a), TraceItems(ys[1..]) + ([End(ArrayT)] + b);
      PrefixEq([s[0]], Trace(xs[0]) + ([End(ArrayDataT)] + a1), [t[0]], Trace(ys[0]) + ([End(ArrayDataT)] + b1));
      TraceDetermines(xs[0], ys[0], [End(ArrayDataT)] + a1, [End(ArrayDataT)] + b1);
      PrefixEq([End(ArrayDataT)], a1, [End(ArrayDataT)], b1);
      ItemsDetermine(xs[1..], ys[1..], a, b);
      assert xs == [xs[0]] + xs[1..] && ys == [ys[0]] + ys[1..];
    }
  }

  lemma EntriesHead(xs: seq<Entry>, a: seq<Event>)
    ensures var s := TraceEntries(xs) + ([End(DictT)] + a);
            if xs == [] then s == [End(DictT)] + a
            else s == EntryHead(xs[0].key)
                      + (Trace(xs[0].value) + ([End(DictDataT)] + (TraceEntries(xs[1..]) + ([End(DictT)] + a))))
  {
  }

  lemma {:induction false} EntriesDetermine(xs: seq<Entry>, ys: seq<Entry>, a: seq<Event>, b: seq<Event>)
    requires TraceEntries(xs) + ([End(DictT)] + a) == TraceEntries(ys) + ([End(DictT)] + b)
    ensures xs == ys && a == b
    decreases xs, 1
  {
    EntriesHead(xs, a);
    EntriesHead(ys, b);
    var s, t := TraceEntries(xs) + ([End(DictT)] + a), TraceEntries(ys) + ([End(DictT)] + b);
    assert s[0] == t[0];
    if xs == [] || ys == [] {
      PrefixEq([End(DictT)], a, [End(DictT)], b);
    } else {
      var a1, b1 := TraceEntries(xs[1..]) + ([End(DictT)] + a), TraceEntries(ys[1..]) + ([End(DictT)] + b);
      PrefixEq(EntryHead(xs[0].key), Trace(xs[0].value) + ([End(DictDataT)] + a1),
               EntryHead(ys[0].key), Trace(ys[0].value) + ([End(DictDataT)] + b1));
      assert EntryHead(xs[0].key)[1] == EntryHead(ys[0].key)[1];
      TraceDetermines(xs[0].value, ys[0].value, [End(DictDataT)] + a1, [End(DictDataT)] + b1);
      PrefixEq([End(DictDataT)], a1, [End(DictDataT)], b1);
      EntriesDetermine(xs[1..], ys[1..], a, b);
      assert xs == [xs[0]] + xs[1..] && ys == [ys[0]] + ys[1..];
    }
  }

  /** Unique decoding: an input begins with the encoding of at most one value. */
  lemma UniqueDecoding(v: BValue, w: BValue, a: string, b: string)
    requires InRange(v) && InRange(w) && Depth(v) <= 49 && Depth(w) <= 49
    requires Encode(v) + a == Encode(w) + b
    ensures v == w && a == b
  {
    RoundTrip(v, a);
    RoundTrip(w, b);
    assert Trace(v) + [] == Trace(w) + [];
    TraceDetermines(v, w, [], []);
    assert a == (Encode(v) + a)[|Encode(v)|..];
    assert b == (Encode(w) + b)[|Encode(w)|..];
  }

  /** Parsing, however the input is cut, ends with balanced callbacks. */
  lemma RoundTripInPieces(v: BValue, rest: string, pieces: seq<string>)
    requires InRange(v) && Depth(v) <= 49 && Flatten(pieces) == Encode(v) + rest
    ensures var f := FeedAll(FRESH, pieces);
            && f.rv == |Encode(v)|
            && f.parser.trace == Trace(v)
            && Balanced(f.parser.trace, [])
  {
    AnyCutting(FRESH, pieces);
    RoundTrip(v, rest);
    TraceBalanced(v, [], []);
    assert Trace(v) + [] == Trace(v);
  }
}
