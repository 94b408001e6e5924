/** The persistent transfer statistics of `src/BtStatisticsManager.cc`. The file is a sequence of
    bytes, or missing. */
module BtStatistics {
  import opened Crc32
  import opened Integers
  import opened Wrappers

  const STORAGE_VERSION: uint32 := 1

  const MAX_SAFE_UINT64: uint64 := TWO64 - 1 - 1_000_000_000

  datatype Statistics = Statistics(
    downloadBytes: uint64,
    uploadBytes: uint64,
    seedTimeSeconds: uint64,
    maxPeers: uint32)

  const NOTHING: Statistics := Statistics(0, 0, 0, 0)

  // ---------- the record ----------

  /** The lowest `n` bytes of a number, the lowest first. */
  function LittleEndian(v: nat, n: nat): (r: seq<uint8>)
    ensures |r| == n
  {
    if n == 0 then [] else [v % 0x100] + LittleEndian(v / 0x100, n - 1)
  }

  function Number(d: seq<uint8>): nat {
    if d == [] then 0 else d[0] + 0x100 * Number(d[1..])
  }

  function Pow256(n: nat): nat {
    if n == 0 then 1 else 0x100 * Pow256(n - 1)
  }

  lemma {:induction false} NumberOfLittleEndian(v: nat, n: nat)
    requires v < Pow256(n)
    ensures Number(LittleEndian(v, n)) == v
  {
    if n > 0 {
      NumberOfLittleEndian(v / 0x100, n - 1);
    }
  }

  lemma {:induction false} NumberInjective(d: seq<uint8>, e: seq<uint8>)
    requires |d| == |e| && Number(d) == Number(e)
    ensures d == e
  {
    if d != [] {
      NumberInjective(d[1..], e[1..]);
      assert d == [d[0]] + d[1..] && e == [e[0]] + e[1..];
    }
  }

  lemma {:induction false} NumberBound(d: seq<uint8>)
    ensures Number(d) < Pow256(|d|)
  {
    if d != [] {
      NumberBound(d[1..]);
    }
  }

  lemma Sizes()
    ensures Pow256(4) == 0x1_0000_0000 && Pow256(8) == TWO64
  {
    assert Pow256(2) == 0x1_0000;
    assert Pow256(6) == 0x1_0000_0000_0000;
  }

  /** The fields ahead of the checksum, packed. */
  function Payload(s: Statistics): (r: seq<uint8>)
    ensures |r| == 32
  {
    LittleEndian(STORAGE_VERSION, 4) + LittleEndian(s.downloadBytes, 8) + LittleEndian(s.uploadBytes, 8)
    + LittleEndian(s.seedTimeSeconds, 8) + LittleEndian(s.maxPeers, 4)
  }

  /** What `saveInternal` writes. */
  function Record(s: Statistics): (r: seq<uint8>)
    ensures |r| == 36
  {
    Payload(s) + LittleEndian(Checksum(Payload(s)), 4)
  }

  function Field32(d: seq<uint8>, at: nat): uint32
    requires at + 4 <= |d|
  {
    NumberBound(d[at..at + 4]);
    Sizes();
    Number(d[at..at + 4])
  }

  function Field64(d: seq<uint8>, at: nat): uint64
    requires at + 8 <= |d|
  {
    NumberBound(d[at..at + 8]);
    Sizes();
    Number(d[at..at + 8])
  }

  function Fields(d: seq<uint8>): Statistics
    requires |d| == 32
  {
    Statistics(Field64(d, 4), Field64(d, 12), Field64(d, 20), Field32(d, 28))
  }

  /** What `load` takes from a file: nothing if it is missing, short, damaged or of another
      version. Bytes behind the record are not read. */
  function Loaded(file: Option<seq<uint8>>): Statistics {
    if file.None? || |file.value| < 36 then NOTHING
    else
      var data := file.value[..32];
      if Checksum(data) != Field32(file.value, 32) then NOTHING
      else if Field32(data, 0) != STORAGE_VERSION then NOTHING
      else Fields(data)
  }

  lemma PayloadFields(s: Statistics)
    ensures Field32(Payload(s), 0) == STORAGE_VERSION && Fields(Payload(s)) == s
  {
    var d := Payload(s);
    assert d[0..4] == LittleEndian(STORAGE_VERSION, 4);
    assert d[4..12] == LittleEndian(s.downloadBytes, 8);
    assert d[12..20] == LittleEndian(s.uploadBytes, 8);
    assert d[20..28] == LittleEndian(s.seedTimeSeconds, 8);
    assert d[28..32] == LittleEndian(s.maxPeers, 4);
    Sizes();
    NumberOfLittleEndian(STORAGE_VERSION, 4);
    NumberOfLittleEndian(s.downloadBytes, 8);
    NumberOfLittleEndian(s.uploadBytes, 8);
    NumberOfLittleEndian(s.seedTimeSeconds, 8);
    NumberOfLittleEndian(s.maxPeers, 4);
  }

  lemma RecordParts(s: Statistics, rest: seq<uint8>)
    ensures (Record(s) + rest)[..32] == Payload(s)
    ensures Field32(Record(s) + rest, 32) == Checksum(Payload(s))
  {
    assert (Record(s) + rest)[32..36] == LittleEndian(Checksum(Payload(s)), 4);
    Sizes();
    NumberOfLittleEndian(Checksum(Payload(s)), 4);
  }

  /** A saved record restores the statistics, whatever follows it in the file. */
  lemma SavedIsRestored(s: Statistics, rest: seq<uint8>)
    ensures Loaded(Some(Record(s) + rest)) == s
  {
    RecordParts(s, rest);
    PayloadFields(s);
  }

  lemma StoredChecksum(s: Statistics)
    ensures |Record(s)| >= 36 && Field32(Record(s), 32) == Checksum(Payload(s))
  {
    RecordParts(s, []);
    assert Record(s) + [] == Record(s);
  }

  lemma SameField(a: seq<uint8>, b: seq<uint8>)
    requires |a| >= 36 && |b| >= 36 && a[32..36] == b[32..36]
    ensures Field32(a, 32) == Field32(b, 32)
  {
  }

  lemma OtherField(a: seq<uint8>, b: seq<uint8>)
    requires |a| >= 36 && |b| >= 36 && a[32..36] != b[32..36]
    ensures Field32(a, 32) != Field32(b, 32)
  {
    if Field32(a, 32) == Field32(b, 32) {
      NumberInjective(a[32..36], b[32..36]);
    }
  }

  lemma Unbelieved(file: seq<uint8>)
    requires |file| >= 36 && Checksum(file[..32]) != Field32(file, 32)
    ensures Loaded(Some(file)) == NOTHING
  {
  }

  lemma LowByte(b: uint8, n: nat)
    ensures (b + 0x100 * n) % 0x100 == b && (b + 0x100 * n) / 0x100 == n
  {
  }

  lemma {:induction false} LittleEndianOfNumber(d: seq<uint8>)
    ensures LittleEndian(Number(d), |d|) == d
  {
    if d != [] {
      LittleEndianOfNumber(d[1..]);
      LowByte(d[0], Number(d[1..]));
      assert d == [d[0]] + d[1..];
    }
  }

  /** The bytes of fields that are taken over are those of the record of these fields. */
  lemma PayloadOfFields(d: seq<uint8>)
    requires |d| == 32 && Field32(d, 0) == STORAGE_VERSION
    ensures Payload(Fields(d)) == d
  {
    LittleEndianOfNumber(d[0..4]);
    LittleEndianOfNumber(d[4..12]);
    LittleEndianOfNumber(d[12..20]);
    LittleEndianOfNumber(d[20..28]);
    LittleEndianOfNumber(d[28..32]);
    FiveParts(d);
  }

  lemma FiveParts(d: seq<uint8>)
    requires |d| == 32
    ensures d[0..4] + d[4..12] + d[12..20] + d[20..28] + d[28..32] == d
  {
  }

  lemma BelievedIsRecord(file: seq<uint8>)
    requires |file| >= 36 && Checksum(file[..32]) == Field32(file, 32) && Field32(file[..32], 0) == STORAGE_VERSION
    ensures Record(Fields(file[..32])) <= file
  {
    PayloadOfFields(file[..32]);
    LittleEndianOfNumber(file[32..36]);
    assert file[..36] == file[..32] + file[32..36];
  }

  lemma NothingOrRecord(file: seq<uint8>)
    ensures Loaded(Some(file)) == Statistics(0, 0, 0, 0)
         || (|file| >= 36 && Record(Fields(file[..32])) <= file)
  {
    if |file| >= 36 && Checksum(file[..32]) == Field32(file, 32) && Field32(file[..32], 0) == STORAGE_VERSION {
      BelievedIsRecord(file);
    }
  }

  lemma PrefixAndRest(record: seq<uint8>, file: seq<uint8>)
    requires record <= file
    ensures file == record + file[|record|..]
  {
  }

  lemma RecordAhead(s: Statistics, file: seq<uint8>)
    requires Record(s) <= file
    ensures Loaded(Some(file)) == s
  {
    PrefixAndRest(Record(s), file);
    SavedIsRestored(s, file[|Record(s)|..]);
  }

  /** For every file: it is loaded for what it is the record of, and as nothing if it is none. */
  lemma LoadsExactlyRecords(file: seq<uint8>)
    ensures forall s :: Record(s) <= file ==> Loaded(Some(file)) == s
    ensures (forall s :: !(Record(s) <= file)) ==> Loaded(Some(file)) == Statistics(0, 0, 0, 0)
  {
    forall s | Record(s) <= file
      ensures Loaded(Some(file)) == s
    {
      RecordAhead(s, file);
    }
    NothingOrRecord(file);
  }

  /** Byte `i` of a number, the lowest one being byte 0. */
  function ByteOf(v: nat, i: nat): uint8 {
    if i == 0 then v % 0x100 else ByteOf(v / 0x100, i - 1)
  }

  lemma {:induction false} LittleEndianAt(v: nat, n: nat, i: nat)
    requires i < n
    ensures LittleEndian(v, n)[i] == ByteOf(v, i)
  {
    if i > 0 {
      LittleEndianAt(v / 0x100, n - 1, i - 1);
    }
  }

  /** Where the fields are in a record: the version, four counters and the checksum of the rest,
      packed and the lowest byte first. */
  lemma RecordLayout(s: Statistics, i: nat)
    requires i < 36
    ensures Record(s)[i] ==
      if i < 4 then [1, 0, 0, 0][i]
      else if i < 12 then ByteOf(s.downloadBytes, i - 4)
      else if i < 20 then ByteOf(s.uploadBytes, i - 12)
      else if i < 28 then ByteOf(s.seedTimeSeconds, i - 20)
      else if i < 32 then ByteOf(s.maxPeers, i - 28)
      else ByteOf(Checksum(Record(s)[..32]), i - 32)
  {
    PayloadLayout(s, if i < 32 then i else 0);
    assert Record(s)[..32] == Payload(s);
    if i >= 32 {
      LittleEndianAt(Checksum(Payload(s)), 4, i - 32);
    }
  }

  lemma PayloadLayout(s: Statistics, i: nat)
    requires i < 32
    ensures Payload(s)[i] ==
      if i < 4 then [1, 0, 0, 0][i]
      else if i < 12 then ByteOf(s.downloadBytes, i - 4)
      else if i < 20 then ByteOf(s.uploadBytes, i - 12)
      else if i < 28 then ByteOf(s.seedTimeSeconds, i - 20)
      else ByteOf(s.maxPeers, i - 28)
  {
    if i < 4 {
      VersionBytes();
    } else if i < 12 {
      LittleEndianAt(s.downloadBytes, 8, i - 4);
    } else if i < 20 {
      LittleEndianAt(s.uploadBytes, 8, i - 12);
    } else if i < 28 {
      LittleEndianAt(s.seedTimeSeconds, 8, i - 20);
    } else {
      LittleEndianAt(s.maxPeers, 4, i - 28);
    }
  }

  lemma VersionBytes()
    ensures LittleEndian(STORAGE_VERSION, 4) == [1, 0, 0, 0]
  {
    assert LittleEndian(0, 3) == [0, 0, 0];
  }

  /** A record whose payload was changed within 32 consecutive bits is not believed. */
  lemma DamagedPayloadIsRejected(s: Statistics, file: seq<uint8>, lo: nat, hi: nat)
    requires |file| >= 36 && file[32..36] == Record(s)[32..36] && file[..32] != Payload(s)
    requires AgreeOutside(Payload(s), file[..32], lo, hi) && hi - lo <= 32
    ensures Loaded(Some(file)) == NOTHING
  {
    BurstDetected(Payload(s), file[..32], lo, hi);
    StoredChecksum(s);
    SameField(file, Record(s));
    Unbelieved(file);
  }

  /** A record whose checksum was changed in any way is not believed. */
  lemma DamagedChecksumIsRejected(s: Statistics, file: seq<uint8>)
    requires |file| >= 36 && file[..32] == Payload(s) && file[32..36] != Record(s)[32..36]
    ensures Loaded(Some(file)) == NOTHING
  {
    StoredChecksum(s);
    OtherField(file, Record(s));
    Unbelieved(file);
  }

  // ---------- the counters ----------

  /** Addition with the test for overflow, both in 64-bit arithmetic. */
  function AddCapped(total: uint64, bytes: uint64): uint64 {
    if total > (MAX_SAFE_UINT64 - bytes) % TWO64 then MAX_SAFE_UINT64
    else (total + bytes) % TWO64
  }

  /** The sum is capped as intended exactly if the increment is not above the cap or the test
      for overflow, which then wraps around, happens to hold or to be met with equality. */
  lemma CapsExactly(total: uint64, bytes: uint64)
    ensures AddCapped(total, bytes) == Min(total + bytes, MAX_SAFE_UINT64)
       <==> bytes <= MAX_SAFE_UINT64 || total >= TWO64 + MAX_SAFE_UINT64 - bytes
  {
  }

  /** An increment above the cap can make a total fall. */
  lemma LargeIncrementWraps()
    ensures AddCapped(5, TWO64 - 1) == 4
  {
  }

  function AddAll(total: uint64, increments: seq<uint64>): uint64
    decreases |increments|
  {
    if increments == [] then total else AddAll(AddCapped(total, increments[0]), increments[1..])
  }

  function Sum(increments: seq<uint64>): nat {
    if increments == [] then 0 else increments[0] + Sum(increments[1..])
  }

  /** Over any run of increments up to the cap, the counter is the capped sum. */
  lemma {:induction false} RunIsCappedSum(total: uint64, increments: seq<uint64>)
    requires total <= MAX_SAFE_UINT64 && forall i :: 0 <= i < |increments| ==> increments[i] <= MAX_SAFE_UINT64
    ensures AddAll(total, increments) == Min(total + Sum(increments), 18_446_744_072_709_551_615)
    decreases |increments|
  {
    if increments != [] {
      CapsExactly(total, increments[0]);
      RunIsCappedSum(AddCapped(total, increments[0]), increments[1..]);
    }
  }

  class BtStatisticsManager {
    var downloadBytes: uint64
    var uploadBytes: uint64
    var seedTimeSeconds: uint64
    var maxPeers: uint32
    var initialized: bool

    function Current(): Statistics
      reads this
    {
      Statistics(downloadBytes, uploadBytes, seedTimeSeconds, maxPeers)
    }

    constructor ()
      ensures Current() == NOTHING && !initialized
    {
      downloadBytes, uploadBytes, seedTimeSeconds, maxPeers := 0, 0, 0, 0;
      initialized := false;
    }

    method InitializeDefaults()
      modifies this
      ensures Current() == NOTHING && initialized
    {
      downloadBytes, uploadBytes, seedTimeSeconds, maxPeers := 0, 0, 0, 0;
      initialized := true;
    }

    method Load(file: Option<seq<uint8>>)
      modifies this
      ensures Current() == Loaded(file) && initialized
    {
      if file.None? || |file.value| < 36 {
        InitializeDefaults();
        return;
      }
      var data := file.value[..32];
      var computed := CalculateChecksum(data);
      if computed != Field32(file.value, 32) {
        InitializeDefaults();
        return;
      }
      if Field32(data, 0) != STORAGE_VERSION {
        InitializeDefaults();
        return;
      }
      downloadBytes := Field64(data, 4);
      uploadBytes := Field64(data, 12);
      seedTimeSeconds := Field64(data, 20);
      maxPeers := Field32(data, 28);
      initialized := true;
    }

    method SaveInternal() returns (file: seq<uint8>)
      ensures file == Record(Current())
    {
      var data := LittleEndian(STORAGE_VERSION, 4) + LittleEndian(downloadBytes, 8) + LittleEndian(uploadBytes, 8)
        + LittleEndian(seedTimeSeconds, 8) + LittleEndian(maxPeers, 4);
      var checksum := CalculateChecksum(data);
      file := data + LittleEndian(checksum, 4);
    }

    method AddDownloadBytes(bytes: uint64)
      modifies `downloadBytes
      ensures downloadBytes == AddCapped(old(downloadBytes), bytes)
    {
      if downloadBytes > (MAX_SAFE_UINT64 - bytes) % TWO64 {
        downloadBytes := MAX_SAFE_UINT64;
      } else {
        downloadBytes := (downloadBytes + bytes) % TWO64;
      }
    }

    method AddUploadBytes(bytes: uint64)
      modifies `uploadBytes
      ensures uploadBytes == AddCapped(old(uploadBytes), bytes)
    {
      if uploadBytes > (MAX_SAFE_UINT64 - bytes) % TWO64 {
        uploadBytes := MAX_SAFE_UINT64;
      } else {
        uploadBytes := (uploadBytes + bytes) % TWO64;
      }
    }

    /** Seconds are a 32-bit number, so the sum is always capped as intended. */
    method AddSeedTime(seconds: uint32)
      modifies `seedTimeSeconds
      ensures seedTimeSeconds == Min(old(seedTimeSeconds) + seconds, MAX_SAFE_UINT64)
    {
      CapsExactly(seedTimeSeconds, seconds);
      if seedTimeSeconds > (MAX_SAFE_UINT64 - seconds) % TWO64 {
        seedTimeSeconds := MAX_SAFE_UINT64;
      } else {
        seedTimeSeconds := (seedTimeSeconds + seconds) % TWO64;
      }
    }

    method UpdateMaxPeers(currentPeers: uint32)
      modifies `maxPeers
      ensures maxPeers >= currentPeers && maxPeers >= old(maxPeers)
      ensures maxPeers == currentPeers || maxPeers == old(maxPeers)
    {
      if currentPeers > maxPeers {
        maxPeers := currentPeers;
      }
    }

    method SetStatistics(dlBytes: uint64, ulBytes: uint64, seedSec: uint64, peers: uint32)
      modifies this
      ensures initialized
      ensures Current() == Statistics(Min(dlBytes, MAX_SAFE_UINT64), Min(ulBytes, MAX_SAFE_UINT64),
                                      Min(seedSec, MAX_SAFE_UINT64), peers)
    {
      downloadBytes := Min(dlBytes, MAX_SAFE_UINT64);
      uploadBytes := Min(ulBytes, MAX_SAFE_UINT64);
      seedTimeSeconds := Min(seedSec, MAX_SAFE_UINT64);
      maxPeers := peers;
      initialized := true;
    }
  }
}
