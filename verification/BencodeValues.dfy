/** Values in bencoding (BEP 3): the callbacks that `src/BencodeParser.cc` should make for them,
    how deeply they are nested, and which of them fit the registers of the parser. */
module BencodeValues {
  import opened BencodeMachine
  import opened Integers

  datatype Entry = Entry(key: string, value: BValue)

  datatype BValue =
    | Int(n: int)
    | Str(s: string)
    | Lst(items: seq<BValue>)
    | Dict(entries: seq<Entry>)

  // ---------- the callbacks ----------

  function Trace(v: BValue): seq<Event>
    decreases v, 0
  {
    match v
    case Int(n) => [Begin(NumberT), Num(n), End(NumberT)]
    case Str(s) => [Begin(StringT), Chars(s), End(StringT)]
    case Lst(items) => [Begin(ArrayT)] + TraceItems(items) + [End(ArrayT)]
    case Dict(entries) => [Begin(DictT)] + TraceEntries(entries) + [End(DictT)]
  }

  function TraceItems(items: seq<BValue>): seq<Event>
    decreases items, 1
  {
    if items == [] then []
    else [Begin(ArrayDataT)] + Trace(items[0]) + [End(ArrayDataT)] + TraceItems(items[1..])
  }

  function EntryHead(key: string): seq<Event> {
    [Begin(DictKeyT), Chars(key), End(DictKeyT), Begin(DictDataT)]
  }

  function TraceEntries(entries: seq<Entry>): seq<Event>
    decreases entries, 1
  {
    if entries == [] then []
    else
      EntryHead(entries[0].key) + Trace(entries[0].value) + [End(DictDataT)] + TraceEntries(entries[1..])
  }

  // ---------- nesting ----------

  /** The largest number of containers around any element or key of the value. */
  function Depth(v: BValue): nat
    decreases v, 0
  {
    match v
    case Int(_) => 0
    case Str(_) => 0
    case Lst(items) => if items == [] then 0 else 1 + DepthItems(items)
    case Dict(entries) => if entries == [] then 0 else 1 + DepthEntries(entries)
  }

  function DepthItems(items: seq<BValue>): nat
    decreases items, 1
  {
    if items == [] then 0 else Max(Depth(items[0]), DepthItems(items[1..]))
  }

  function DepthEntries(entries: seq<Entry>): nat
    decreases entries, 1
  {
    if entries == [] then 0 else Max(Depth(entries[0].value), DepthEntries(entries[1..]))
  }

  /** Integers and string lengths that fit the parser's int64 accumulators. */
  predicate InRange(v: BValue)
    decreases v, 0
  {
    match v
    case Int(n) => -INT64_MAX <= n <= INT64_MAX
    case Str(s) => |s| <= INT64_MAX
    case Lst(items) => InRangeItems(items)
    case Dict(entries) => InRangeEntries(entries)
  }

  predicate InRangeItems(items: seq<BValue>)
    decreases items, 1
  {
    items == [] || (InRange(items[0]) && InRangeItems(items[1..]))
  }

  predicate InRangeEntries(entries: seq<Entry>)
    decreases entries, 1
  {
    entries == []
    || (|entries[0].key| <= INT64_MAX && InRange(entries[0].value) && InRangeEntries(entries[1..]))
  }
}
