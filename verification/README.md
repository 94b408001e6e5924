# Verified model of aria2's stateful cores

aria2 is a download utility. This project models the parts of it whose correctness rests on state
that lives across calls, and proves what those parts are for.

- **Block allocation** (`Bits`, `BlockLengths`, `BlockSearch`, `OrderedSearch`, `BlockCounters`,
  `BitfieldMan`): the three bitmaps of a download, the three piece selections, the cached
  counters, the fast population count, and the byte accounting over blocks with a short last one.
- **Bencode parsing** (`BencodeMachine`, `BencodeParser`, `BencodeValues`, `BencodeSpellings`,
  `BencodeRoundTrip`, `BencodeTraces`, `BencodeErrors`): the incremental push parser, against a
  machine that reads one character at a time, the encoding of BEP 3, the exact language of the
  spellings it accepts with the values they stand for, and the code for each kind of malformed text.
- **Chunked decoding** (`ChunkedMachine`, `ChunkedDecoder`, `ChunkedMessage`): the byte-fed
  decoder against the message format of section 7.1 of RFC 9112.
- **Cookies** (`Cookie`, `DomainNode`, `CookieTree`, `CookieStorage`): the tree of domain labels
  with its tracker, against a flat set of cookies (sections 5.1.3, 5.3 and 5.4 of RFC 6265).
- **Credentials** (`AuthConfigFactory`): longest-prefix lookup in an ordered set.
- **Persistent statistics** (`Crc32`, `BtStatistics`): the CRC-32 guard and the capped counters.
- **BitTorrent** (`BtAnswers`, `BtReplies`, `AnnounceTiers`, `AnnounceList`, `ChokeRounds`,
  `BtSeederStateChoke`, `BtLeecherStateChoke`, `ChokeRuns`): one answer for each block request
  (BEP 6) and which one it is, the rotation of trackers (BEP 12), and the choke rounds.
- **Write cache** (`WriteCache`): merging contiguous cells into single writes.

What the source updates in place is a class with the same fields, and each method is proved
against functions on values; the lemmas then state what those functions achieve for every input,
every state or every run. `dafny verify dfyconfig.toml` checks the whole project.

Four statements of the source or its comments turned out not to hold for all inputs. Each is
stated with the exact condition under which it holds, and with an input on which it fails:

- The search hint of `BitfieldMan` is said never to skip a range. It does when it lies inside a
  free run whose rest hides the better ones (`HintIsCompleteExactly`, `HintLosesARun`).
- `updateBasicCred` is said to replace an equal credential. It compares owning pointers and keeps
  the old one (`UpdateStoresExactly`, `UpdateKeepsOldPassword`).
- The overflow test of the statistics wraps for increments above the cap (`CapsExactly`,
  `LargeIncrementWraps`).
- The walk along domain labels misses a matching cookie whose domain is a numeric name with a dot
  (`MatchingDomainOnPath`, `WayHoldsMatches`, `NumericDomainOffPath`).

## Model

| member | source | states |
|---|---|---|
| Bits.CountSetBit | src/bitfield.h:98-121 | the count by words of four bytes and a masked last byte is the number of set bits below the limit |
| Bits.CountSetBitSlow | src/bitfield.h:125-142 | the count byte by byte is the same number |
| Bits.ViewSet | src/BitfieldMan.cc:582-595 | setting or clearing a bit by its mask changes that bit of the view and no other |
| Bits.HighestBitFirst | src/bitfield.h:68-75 | the bits of a byte are numbered from the highest one down |
| Bits.TestAllBitSet | src/bitfield.h:52-68 | the byte-wise test holds exactly if all bits are set and no spare bit is |
| BlockLengths.CountGivesLength | src/BitfieldMan.cc:803-847 | the length computed from a count is the sum over the set blocks, the short last one counted as such |
| BlockLengths.LastLengthBounds | src/BitfieldMan.cc:137-161 | the last block is longer than zero and no longer than the others |
| BlockLengths.LengthComplement | src/BitfieldMan.cc:824-847 | the lengths of a set of blocks and of its complement add up to the total length |
| BlockLengths.CompleteExactly | src/BitfieldMan.cc:824-863 | the completed length reaches the total exactly if every block is there |
| BlockLengths.RangesAdd | src/BitfieldMan.cc:927-961 | the bytes in two adjacent ranges add up to those in the joined range |
| BlockLengths.WholeRange | src/BitfieldMan.cc:927-961 | the range sum over the whole download is the completed length |
| BlockLengths.ClipRange | src/BitfieldMan.cc:933-937 | clipping the range to the total length changes nothing |
| BlockLengths.TouchedOverlaps | src/BitfieldMan.cc:735-746 | the blocks from first to last of a range are exactly those that overlap it |
| BlockSearch.GetStartIndex | src/BitfieldMan.cc:224-237 | skips to the first free block |
| BlockSearch.GetEndIndex | src/BitfieldMan.cc:239-249 | skips to the end of the run |
| BlockSearch.ScanPass | src/BitfieldMan.cc:261-300 | one pass keeps the best of the runs it meets: the longest range, then one behind retrieved data, then the first |
| BlockSearch.SelectInPass | src/BitfieldMan.cc:301-313 | a pass selects its best run, provided it is acceptable, and nothing otherwise |
| BlockSearch.GetSparseMissingUnusedIndex | src/BitfieldMan.cc:251-316 | for any hint the result is the block at which one of the two passes should begin: the first of a free run, or, if the block before the run is in use, the middle of the run; it fails only if neither pass has such a block |
| BlockSearch.PicksMean | src/BitfieldMan.cc:261-313 | a pass picks exactly the run that is preferred to all others it meets, by the length left behind the cut, then by what lies before it, then by position, and is long enough or lies behind retrieved data |
| BlockSearch.FoundIsSelected | src/BitfieldMan.cc:251-316 | what is found is selected by the first pass, or by the second one if the first selects nothing |
| BlockSearch.ExactlyOneBest | src/BitfieldMan.cc:275-299 | of the runs a pass meets, the tie-break leaves exactly one as the best |
| BlockSearch.HintIsCompleteExactly | src/BitfieldMan.h:60-65 | when the plain scan finds a run, the hinted scan finds one if and only if the hint does not hide every run behind the rest of its own |
| BlockSearch.HintIsComplete | src/BitfieldMan.cc:253-316 | a hint outside a free run, or inside one that follows a block not in use, loses nothing |
| BlockSearch.HintLosesARun | src/BitfieldMan.h:60-65 | twelve blocks on which the hinted scan loses what the plain scan finds |
| OrderedSearch.GetInorderMissingUnusedIndex | src/BitfieldMan.cc:402-444 | the start block if free, or else what the first run that offers a block offers, or nothing if none does |
| OrderedSearch.InorderSucceedsExactly | src/BitfieldMan.cc:402-444 | succeeds exactly if some run follows a block not in use or is long enough |
| OrderedSearch.OfferMeans | src/BitfieldMan.cc:412-440 | a run offers its first block if it follows a block not in use, or else the block at which the minimum size is reached, and nothing if it is too short |
| OrderedSearch.FirstLongExactly | src/BitfieldMan.cc:425-437 | the block at which the minimum size is reached, if the run is that long |
| OrderedSearch.GetGeomMissingUnusedIndex | src/BitfieldMan.cc:343-377 | for every base above 1 it ends, and selects in the first window that has something, or falls back to the plain scan |
| OrderedSearch.WindowsEnd | src/BitfieldMan.cc:349-372 | the windows outgrow every bitmap after a bounded number of steps |
| OrderedSearch.WindowPickIsFree | src/BitfieldMan.cc:352-369 | what a window offers is free |
| OrderedSearch.WindowPickNone | src/BitfieldMan.cc:352-369 | a window offers nothing exactly if every free block in it has a block in use before it in the window |
| OrderedSearch.WindowsCover | src/BitfieldMan.cc:349-372 | the windows leave no block between them out |
| OrderedSearch.AllWindowsEmpty | src/BitfieldMan.cc:343-377 | if no window offers anything, every free block behind the offset has a block in use before it |
| BlockCounters.MissingByCount | src/BitfieldMan.cc:560-570 | the difference of the counts is the number of wanted blocks not retrieved |
| BlockCounters.CountMissingBlockNow | src/BitfieldMan.cc:560-570 | counts the wanted blocks not retrieved |
| BlockCounters.CountFilteredBlockNow | src/BitfieldMan.cc:572-580 | counts the blocks of an enabled filter |
| BlockCounters.ComputeCompletedLength | src/BitfieldMan.cc:824-847 | the length of the retrieved, wanted blocks |
| BlockCounters.GetFilteredTotalLengthNow | src/BitfieldMan.cc:803-820 | the length of the blocks in the filter, enabled or not |
| BlockCounters.CountNow | src/BitfieldMan.cc:871-878 | all five counters agree with the per-block sums |
| BitfieldManager.BitfieldMan.constructor | src/BitfieldMan.cc:47-72 | nothing retrieved, nothing in use, no filter, counters right |
| BitfieldManager.BitfieldMan.Copy | src/BitfieldMan.cc:74-101 | a copy has the same retrieved and used bits and the same enabled filter with its counters; a disabled filter is dropped and no longer counted |
| BitfieldManager.BitfieldMan.UpdateCache | src/BitfieldMan.cc:871-878 | makes the counters agree with the bits |
| BitfieldManager.BitfieldMan.SetBit | src/BitfieldMan.cc:607-612 | sets the one bit if it exists, and keeps the counters right |
| BitfieldManager.BitfieldMan.UnsetBit | src/BitfieldMan.cc:614-619 | clears the one bit if it exists, and keeps the counters right |
| BitfieldManager.BitfieldMan.SetUseBit | src/BitfieldMan.cc:597-600 | marks the one block as in use and nothing else |
| BitfieldManager.BitfieldMan.UnsetUseBit | src/BitfieldMan.cc:602-605 | takes the one mark back and nothing else |
| BitfieldManager.BitfieldMan.SetBitfield | src/BitfieldMan.cc:684-693 | takes over a bitfield of the right length and clears the marks in use |
| BitfieldManager.BitfieldMan.ClearAllBit | src/BitfieldMan.cc:695-699 | nothing is retrieved |
| BitfieldManager.BitfieldMan.SetAllBit | src/BitfieldMan.cc:701-707 | everything is retrieved |
| BitfieldManager.BitfieldMan.SetBitRange | src/BitfieldMan.cc:898-904 | the blocks of the inclusive range are retrieved, the others as before |
| BitfieldManager.BitfieldMan.UnsetBitRange | src/BitfieldMan.cc:890-896 | the blocks of the inclusive range are not retrieved, the others as before |
| BitfieldManager.BitfieldMan.AddFilter | src/BitfieldMan.cc:735-746 | adds exactly the blocks that the byte range touches |
| BitfieldManager.BitfieldMan.RemoveFilter | src/BitfieldMan.cc:748-759 | removes exactly the blocks that the byte range touches |
| BitfieldManager.BitfieldMan.AddNotFilter | src/BitfieldMan.cc:761-778 | adds exactly the blocks before and behind those of the byte range |
| BitfieldManager.BitfieldMan.EnableFilter | src/BitfieldMan.cc:780-785 | enables the filter and keeps its blocks |
| BitfieldManager.BitfieldMan.DisableFilter | src/BitfieldMan.cc:787-791 | disables the filter and keeps its blocks |
| BitfieldManager.BitfieldMan.ClearFilter | src/BitfieldMan.cc:793-801 | no filter is left |
| BitfieldManager.BitfieldMan.IsAllBitSet | src/BitfieldMan.cc:651-654 | true exactly if every block is retrieved and no spare bit is set |
| BitfieldManager.BitfieldMan.IsFilteredAllBitSet | src/BitfieldMan.cc:621-649 | true exactly if the cached missing count is zero and, without a filter, no spare bit is set |
| BitfieldManager.BitfieldMan.GetOffsetCompletedLength | src/BitfieldMan.cc:927-961 | the sum over the retrieved blocks of their overlap with the byte range |
| BitfieldManager.BitfieldMan.GetSparseMissingUnusedIndex | src/BitfieldMan.cc:318-340 | what it finds is not retrieved, in use, ignored or filtered out, is the answer of the search in two passes over the combined bitmap, and becomes the hint |
| BitfieldManager.BitfieldMan.GetGeomMissingUnusedIndex | src/BitfieldMan.cc:379-398 | the geometric selection over the combined bitmap, sound for every base above 1 and every offset |
| BitfieldManager.BitfieldMan.GetInorderMissingUnusedIndex | src/BitfieldMan.cc:466-484 | the in-order selection over the combined bitmap, sound and complete |
| BencodeMachine.GuardIsExact | src/BencodeParser.cc:154-154 | the guard in front of the multiplication holds exactly if the next value would leave int64 |
| BencodeMachine.DigitsInOrder | src/BencodeParser.cc:123-160 | the digits are worth their place in "0123456789" |
| BencodeMachine.StepWf | src/BencodeParser.cc:86-268 | every character keeps the stack between 1 and 50 entries and the registers in int64, and the push behind a dictionary key never fails |
| BencodeMachine.FeedWf | src/BencodeParser.cc:77-270 | the same for every input; only errors other than the depth error are sticky |
| BencodeMachine.SplitInvariance | src/BencodeParser.cc:77-270 | two calls on the parts end like one call on the whole: state, callbacks, consumed count and error |
| BencodeMachine.AnyCutting | src/BencodeParser.cc:77-270 | the same for any number of parts |
| BencodeMachine.FeedSame | src/BencodeParser.cc:284-293 | registers that a state does not read again do not matter, so a reset parser behaves as a new one |
| BencodePushParser.BencodeParser.ParseUpdate | src/BencodeParser.cc:77-270 | the parser with its bulk reads does what reading one character at a time does |
| BencodePushParser.BencodeParser.ParseFinal | src/BencodeParser.cc:272-282 | a value neither finished nor unstarted at the end is premature |
| BencodePushParser.BencodeParser.Reset | src/BencodeParser.cc:284-293 | afterwards the parser agrees with a new one in all that matters |
| BencodePushParser.BencodeParser.OnValueEnd | src/BencodeParser.cc:321-345 | pops the state of the container and goes on in it |
| BencodePushParser.BencodeParser.PushState | src/BencodeParser.cc:347-356 | refuses exactly when the stack is full |
| BencodePushParser.BencodeParser.ReadDictKey | src/BencodeParser.cc:136-178 | the end of a dictionary, or a key and the fall-through into its length |
| BencodePushParser.BencodeParser.ReadSlice | src/BencodeParser.cc:179-188 | takes as much of a string as there is at once |
| BencodePushParser.BencodeParser.ReadNumber | src/BencodeParser.cc:208-252 | takes all digits at once, and then the end of the number |
| BencodeRoundTrip.NumberMeans | src/BencodeParser.cc:189-266 | for every number up to INT64_MAX, whatever junk stands ahead of it, the callbacks are those of the number with the sign "" or "+" and of its negative with "-", or of zero if a fraction follows the digits |
| BencodeRoundTrip.SpellingRead | src/BencodeParser.cc:77-356 | every spelling within the bounds, with anything behind it, is consumed exactly, for the callbacks of the value it stands for |
| BencodeRoundTrip.RoundTrip | src/BencodeParser.cc:77-356 | an encoding with anything behind it is consumed exactly, with exactly the callbacks of the value, if no element has more than 49 containers around it; deeper ones give the depth error |
| BencodeRoundTrip.RoundTripInPieces | src/BencodeParser.cc:77-356 | the same for every way of cutting the input, with balanced callbacks |
| BencodeRoundTrip.IntegerBounds | src/BencodeParser.cc:208-217 | an integer is parsed exactly if its magnitude is at most INT64_MAX |
| BencodeRoundTrip.TraceDetermines | src/BencodeParser.cc:367-447 | the callbacks determine the value |
| BencodeRoundTrip.UniqueDecoding | src/BencodeParser.cc:77-356 | an input begins with the encoding of at most one value |
| BencodeTraces.FinishedMeansValue | src/BencodeParser.cc:77-356 | whatever input is accepted begins with a spelling of one value within the bounds on integers, lengths and nesting, and the callbacks are those of that value |
| BencodeTraces.AcceptsExactlySpellings | src/BencodeParser.cc:77-356 | the parser finishes on exactly the inputs that begin with a spelling of at most 49 nested containers, and consumes that spelling for the callbacks of its value |
| BencodeTraces.FinishedExactlyValues | src/BencodeParser.cc:77-356 | the callbacks of accepted inputs are exactly those of the values within the bounds |
| BencodeTraces.StepDescribed | src/BencodeParser.cc:77-345 | after every accepted character the callbacks so far and the text read so far are those of the open containers and the element being read |
| BencodeRoundTrip.TraceBalanced | src/BencodeParser.cc:295-345 | begin and end callbacks of a value match each other |
| BencodeErrors.UnexpectedCharacter | src/BencodeParser.cc:103-134 | where a value is expected any character but d, l, i and the digits is refused with code -1 |
| BencodeErrors.SignWithoutDigits | src/BencodeParser.cc:189-223 | a sign that no digit follows is refused with code -2 |
| BencodeErrors.UnexpectedBehindDigits | src/BencodeParser.cc:219-242 | digits that neither end nor go on as a fraction are refused with code -2 |
| BencodeErrors.UnexpectedInFraction | src/BencodeParser.cc:253-262 | a fraction that neither goes on nor ends is refused with code -8 |
| BencodeErrors.NumberOutOfRange | src/BencodeParser.cc:208-217 | digits that leave int64 are refused with code -3, whatever follows |
| BencodeErrors.UnexpectedBehindLength | src/BencodeParser.cc:162-166 | a length that no colon follows is refused with code -6 |
| BencodeErrors.KeyWithoutLength | src/BencodeParser.cc:136-166 | a key that does not begin with a digit is refused with code -6 |
| BencodeErrors.LengthOutOfRange | src/BencodeParser.cc:151-161 | a length that leaves int64 is refused with code -7, whatever follows |
| BencodeErrors.ErrorsStick | src/BencodeParser.cc:83-85 | every error but the depth error is returned by all later calls, which read nothing |
| ChunkedMachine.GuardIsExact | src/ChunkedDecodingStreamFilter.cc:103-103 | the test of the top bits holds exactly if the next size leaves int64 |
| ChunkedMachine.HexDigitsInOrder | src/util.cc:499-515 | the hexadecimal digits are worth their place in the row of digits, in lower and in upper case |
| ChunkedMachine.FeedWf | src/ChunkedDecodingStreamFilter.cc:158-175 | the size stays in int64, and behind the data of a chunk it is never zero, so that branch is unreachable |
| ChunkedMachine.SplitInvariance | src/ChunkedDecodingStreamFilter.cc:81-216 | two calls on the parts end like one call on the whole |
| ChunkedMachine.AnyCutting | src/ChunkedDecodingStreamFilter.cc:81-216 | the same for any number of parts |
| ChunkedDecoder.ChunkedDecodingStreamFilter.Transform | src/ChunkedDecodingStreamFilter.cc:81-216 | the filter with its bulk copies does what reading one character at a time does |
| ChunkedDecoder.ChunkedDecodingStreamFilter.Finished | src/ChunkedDecodingStreamFilter.cc:218-221 | finished exactly if the last chunk is complete and so is the delegate |
| ChunkedMessage.DecodesEncoding | src/ChunkedDecodingStreamFilter.cc:81-216 | every message is decoded to its data, and nothing behind it is consumed |
| ChunkedMessage.DecodesPieces | src/ChunkedDecodingStreamFilter.cc:81-216 | the same for every way of cutting the stream |
| ChunkedMessage.DecodesHexadecimal | src/ChunkedDecodingStreamFilter.cc:81-216 | any data sent as one chunk, its length in hexadecimal of either case, is delivered as it is, and nothing behind the message is consumed |
| ChunkedMessage.SizeBounds | src/ChunkedDecodingStreamFilter.cc:99-114 | a size is refused exactly if it leaves int64 |
| ChunkedMessage.BadSizes | src/ChunkedDecodingStreamFilter.cc:92-118 | a size without digits, or with a character behind it that begins neither an extension nor the line end, is refused |
| ChunkedMessage.NoLfAfterSize | src/ChunkedDecodingStreamFilter.cc:124-138 | so is a size line that a line feed does not end |
| ChunkedMessage.NoLineAfterChunk | src/ChunkedDecodingStreamFilter.cc:150-173 | so is a chunk that a line end does not follow, when its data has been delivered |
| ChunkedMessage.NoLineAfterTrailer | src/ChunkedDecodingStreamFilter.cc:174-205 | so is a trailer, or the end of the message, without its line feed |
| ChunkedMessage.AcceptsExactlyMessages | src/ChunkedDecodingStreamFilter.cc:81-221 | the decoder completes exactly on streams that begin with a message |
| Cookies.MatchingDomainOnPath | src/cookie_helper.cc:407-413 | a matching domain lies on the label path of the host exactly if it is the host, not numeric, or without a dot |
| Cookies.MatchMeans | src/Cookie.cc:82-96 | a cookie matches exactly if it has not expired, is not kept from an insecure request, its path is a prefix up to a slash of that of the request, and its domain is the host or, unless bound to the host, a parent of a host that is not numeric |
| Cookies.DepthCountsSegments | src/CookieStorage.cc:322-335 | the depth of a path is the number of its non-empty parts between slashes |
| Cookies.OrderedMeans | src/CookieStorage.cc:357-373 | of two answers the earlier has at least as many path segments, and with equally many it was created no later |
| Cookies.BeforeIsWeakOrder | src/CookieStorage.cc:357-374 | deeper paths first and then earlier creation is a strict weak order |
| Cookies.Sort | src/CookieStorage.cc:417-424 | a sort by that order, of which only the order is relied on |
| DomainNodes.AddedContents | src/CookieStorage.cc:83-139 | a cookie is stored exactly if it has not expired, exactly the displaced ones go, and the list stays without duplicates and within 50 |
| DomainNodes.KeptWithKey | src/CookieStorage.cc:83-139 | of the cookies with one name, domain and path only the added one is held afterwards, unless it has expired; it has the creation time of the one it replaces |
| DomainNodes.KeptOthers | src/CookieStorage.cc:83-124 | other cookies are lost only to a new one behind fifty: those that have expired, or if there are none, one that was used least recently |
| DomainNodes.PushedContents | src/CookieStorage.cc:103-124 | a full list loses its expired cookies, or else its oldest one |
| DomainNodes.RemoveExpired | src/CookieStorage.cc:104-107 | keeps exactly the cookies that have not expired |
| DomainNodes.Oldest | src/CookieStorage.cc:109-113 | the first cookie with the least access time |
| DomainNodes.FindCookie | src/CookieStorage.cc:68-81 | collects the matching cookies in order and marks exactly those as accessed |
| DomainNodes.HitsOnce | src/CookieStorage.cc:68-81 | a list without duplicates gives each of its matching cookies once |
| CookieTrees.EvictAllSound | src/CookieStorage.cc:250-270 | after any eviction the tracker holds exactly the flagged nodes under their own times, and every node with cookies is tracked |
| CookieTrees.EvictAllLoss | src/CookieStorage.cc:250-270 | exactly the picked nodes lose cookies, and none of them had been accessed later than a node still tracked |
| CookieTrees.EvictAllShrinks | src/CookieStorage.cc:250-270 | the tracker loses an entry for each pick |
| CookieTrees.EvictAllTidy | src/CookieStorage.cc:256-268 | the cascade leaves no empty leaf behind that it has made |
| CookieTrees.PruneSound | src/CookieStorage.cc:256-268 | the cascade keeps the tree closed under parents and the tracker exact |
| CookieTrees.PruneLoss | src/CookieStorage.cc:256-268 | the cascade removes nodes without cookies only |
| CookieTrees.MovedTracks | src/CookieStorage.cc:298-308 | moving a node in the tracker keeps one entry for it |
| CookieTrees.StoreSound | src/CookieStorage.cc:280-296 | storing keeps the tree and the tracker sound |
| CookieTrees.StoreFlat | src/CookieStorage.cc:274-296 | on the flat set of cookies a call of store takes away the picked domains and the displaced cookies and adds the new one |
| CookieTrees.StoreByKey | src/CookieStorage.cc:274-296 | after a whole call of store the tree holds of the cookies with the key of the new one exactly that one, with the creation time of the cookie it replaces, or none if it has expired |
| CookieTrees.StoreOthers | src/CookieStorage.cc:274-296 | of the cookies that an eviction spares, the call loses only those of a full domain that the new cookie displaces |
| CookieTrees.VisitAlongSound | src/CookieStorage.cc:403-416 | a search changes access times on the way only, and keeps the tracker exact |
| CookieTrees.GatheredOnce | src/CookieStorage.cc:403-416 | the walk gives each matching cookie on the way exactly once |
| Cookies.NumericDomainOffPath | src/cookie_helper.cc:407-413 | a host and a numeric domain that match, although the domain lies off the label path of the host |
| CookieTrees.WayIsFlatFilter | src/CookieStorage.cc:394-424 | the hits on the way are those of a flat filter of the cookies whose domain is the host, not numeric, or without a dot |
| CookieTrees.WayHoldsMatches | src/CookieStorage.cc:394-424 | against a flat filter the walk misses exactly the cookies with a numeric domain that has a dot and is not the host |
| CookieTrees.LookedCookies | src/CookieStorage.cc:73-78 | a search leaves the flat set as it was but for the access times of the cookies it gives |
| CookieTrees.LookedTimes | src/CookieStorage.cc:403-416 | a search gives the time of the request to the tracked nodes on the way, and to no other |
| CookieTrees.AnswerIsHits | src/CookieStorage.cc:394-424 | the hits are, over the flat set, the due cookies whose domain is the host, not numeric, or without a dot, each with the time of the request |
| CookieStorages.CookieStorage.constructor | src/CookieStorage.cc:222-224 | an empty, sound storage |
| CookieStorages.CookieStorage.UpdateLru | src/CookieStorage.cc:298-308 | replaces the entry of the node in the tracker |
| CookieStorages.CookieStorage.Prune | src/CookieStorage.cc:256-268 | the loop of the cascade is the recursive removal of bare nodes |
| CookieStorages.CookieStorage.EvictNode | src/CookieStorage.cc:250-270 | evicts in the order of least recent access, as many as asked for or until none is left |
| CookieStorages.CookieStorage.Store | src/CookieStorage.cc:274-296 | a sound storage stays one; below 2000 tracked nodes nothing is evicted, from there on a tenth of them; the cookie takes the place of the one with its key, and its node is tracked under the present time; the result says whether it was stored |
| CookieStorages.CookieStorage.Contains | src/CookieStorage.cc:388-392 | true exactly if a cookie with the key is stored anywhere |
| CookieStorages.CookieStorage.CriteriaFind | src/CookieStorage.cc:394-424 | exactly the due cookies of a flat filter, each once with its access time updated; those with more path segments first, and with equally many those created earlier |
| CookieStorages.CookieStorage.Size | src/CookieStorage.cc:426-433 | the number of all cookies in the tree |
| AuthConfigFactories.LessTotal | src/AuthConfigFactory.cc:220-230 | the order on credentials is total on keys |
| AuthConfigFactories.LessTransitive | src/AuthConfigFactory.cc:225-230 | the order on credentials is transitive |
| AuthConfigFactories.InsertContents | src/AuthConfigFactory.cc:167-176 | an insertion adds the credential unless its key is there, and changes nothing else |
| AuthConfigFactories.UpdateStoresExactly | src/AuthConfigFactory.h:120-125 | the documented replacement takes place exactly if no other credential has the key |
| AuthConfigFactories.UpdateKeepsOldPassword | src/AuthConfigFactory.cc:167-176 | a new password for a known place is dropped |
| AuthConfigFactories.LongerFirst | src/AuthConfigFactory.cc:225-230 | of two prefixes of one path the longer comes first |
| AuthConfigFactories.FindsOne | src/AuthConfigFactory.cc:232-246 | a lookup has at most one result |
| AuthConfigFactories.AuthConfigFactory.FindBasicCred | src/AuthConfigFactory.cc:232-246 | finds the credential of the host and port with the longest path that is a prefix of the path with a slash at its end, and none only if there is none |
| AuthConfigFactories.AuthConfigFactory.UpdateBasicCred | src/AuthConfigFactory.cc:167-176 | keeps the set in order and its paths normalised |
| AuthConfigFactories.AuthConfigFactory.ActivateBasicCred | src/AuthConfigFactory.cc:178-200 | after a success the next lookup finds an active credential; a failure changes nothing |
| Crc32.CalculateChecksum | src/BtStatisticsManager.cc:71-82 | the loops compute the checksum of the data |
| Crc32.RunIsRunBits | src/BtStatisticsManager.cc:75-80 | the byte loop takes in the bits of the data one by one |
| Crc32.ChecksumIsDivision | src/BtStatisticsManager.cc:71-82 | bit by bit the checksum is the complement of the remainder of a division by the CRC-32 polynomial, written out by its exponents |
| Crc32.StepBack | src/BtStatisticsManager.cc:77-79 | a step of the register can be undone |
| Crc32.WindowInjective | src/BtStatisticsManager.cc:75-80 | from one register different windows of up to 32 bits lead to different registers |
| Crc32.BurstDetected | src/BtStatisticsManager.cc:71-82 | a change within 32 consecutive bits changes the checksum, whatever the length of the data |
| Crc32.ByteBurstDetected | src/BtStatisticsManager.cc:71-82 | a change within four consecutive bytes changes the checksum |
| BtStatistics.SavedIsRestored | src/BtStatisticsManager.cc:84-208 | a saved record restores the statistics |
| BtStatistics.RecordLayout | src/BtStatisticsManager.h:155-162 | byte by byte where each field of a record lies, behind the version 1 |
| BtStatistics.LoadsExactlyRecords | src/BtStatisticsManager.cc:84-156 | a file is loaded exactly if it begins with a record, and every other file gives zeros |
| BtStatistics.DamagedPayloadIsRejected | src/BtStatisticsManager.cc:117-129 | a payload changed within 32 consecutive bits under an intact checksum loads as nothing |
| BtStatistics.DamagedChecksumIsRejected | src/BtStatisticsManager.cc:117-129 | a changed checksum over an intact payload loads as nothing |
| BtStatistics.CapsExactly | src/BtStatisticsManager.cc:216-227 | the sum is capped as intended exactly under a condition on the increment and the total |
| BtStatistics.LargeIncrementWraps | src/BtStatisticsManager.cc:216-227 | an increment above the cap makes a total fall |
| BtStatistics.RunIsCappedSum | src/BtStatisticsManager.cc:216-240 | over any run of increments up to the cap the counter is the capped sum |
| BtStatistics.BtStatisticsManager.Load | src/BtStatisticsManager.cc:84-156 | takes what the file is worth, and nothing if it is missing, short, damaged or of another version |
| BtStatistics.BtStatisticsManager.SaveInternal | src/BtStatisticsManager.cc:158-175 | writes the record of the current statistics |
| BtStatistics.BtStatisticsManager.AddDownloadBytes | src/BtStatisticsManager.cc:216-227 | adds with the test for overflow as written |
| BtStatistics.BtStatisticsManager.AddSeedTime | src/BtStatisticsManager.cc:242-253 | seconds are always added and capped as intended |
| BtStatistics.BtStatisticsManager.UpdateMaxPeers | src/BtStatisticsManager.cc:255-262 | the larger of both counts |
| BtStatistics.BtStatisticsManager.SetStatistics | src/BtStatisticsManager.cc:288-304 | takes the values over, the totals capped |
| BtAnswers.EachRequestOneAnswer | src/BtRequestMessage.cc:60-79 | with the fast extension, after any run, the requests are those answered on the connection and those answered in the queue, each once |
| BtAnswers.DrainedQueueAnsweredAll | src/BtPieceMessage.cc:201-213 | with the queue drained, the answers sent are exactly the requests received |
| BtReplies.AccountBalances | src/BtRequestMessage.cc:60-79 | after any run the pieces in the queue or sent, with those taken back, are the requests granted; the rejects are the requests refused and the pieces taken back, or none without the fast extension |
| BtReplies.PieceWasRequested | src/BtRequestMessage.cc:65-72 | in any run a piece in the queue or sent has the block of a request that was made when the piece was there |
| BtReplies.AnsweredByPiece | src/BtRequestMessage.cc:65-72 | a request for a piece that is there, from an unchoked peer or for an allowed index, is answered by one more piece, unless a cancel, or a choke that concerns it, comes before it is sent |
| BtReplies.AnsweredByReject | src/BtRequestMessage.cc:73-79 | with the fast extension every other request, and every piece taken back, adds a reject that is never lost |
| BtReplies.RejectStandsFor | src/BtPieceMessage.cc:295-323 | a reject stands for one of these, and there are none without the fast extension |
| BtReplies.ChokingIsLastDecision | src/DefaultBtInteractive.cc:248-264 | the peer is choked unless the last decision was to unchoke it |
| BtReplies.AllowedExactly | src/BtAllowedFastMessage.cc:69-79 | the allowed indexes are exactly those whose offer has been sent completely |
| BtReplies.ToldInTurn | src/DefaultBtInteractive.cc:248-264 | in any run the peer is told of unchoking and choking in turn, and the last of these messages is its state |
| BtAnswers.AllowedWasOffered | src/BtAllowedFastMessage.cc:69-79 | in any run, the peer may always ask only for indexes that have been offered to it in a sent message |
| BtAnswers.ChokedPeerGetsOnlyAllowed | src/BtPieceMessage.cc:295-307 | in any run, a piece sent to a choked peer has an index it may always ask for |
| BtAnswers.EventAnswers | src/BtPieceMessage.cc:295-323 | a revoked piece is answered by its reject |
| BtAnswers.EventRevokes | src/BtPieceMessage.cc:295-323 | an event leaves exactly the valid pieces that it does not concern |
| BtReplies.EventMeans | src/BtPieceMessage.cc:295-323 | a cancel invalidates the pieces of its block, a choke those whose index is not allowed; everything else stays in place, and only rejects are added behind |
| BtReplies.RejectsInOrder | src/BtPieceMessage.cc:295-323 | the rejects name the pieces taken back, in the order of the queue |
| BtAnswers.CancelLeavesNone | src/BtPieceMessage.cc:309-323 | after a cancel no valid piece for the block is left |
| BtAnswers.SendingAnswers | src/DefaultBtMessageDispatcher.cc:86-106 | sending under an upload limit neither loses nor repeats an answer |
| BtAnswers.AllThrough | src/DefaultBtMessageDispatcher.cc:86-106 | without a limit nothing stays behind |
| BtReplies.HeldBackInOrder | src/DefaultBtMessageDispatcher.cc:86-106 | exactly the pieces whose turn comes while the limit is exceeded are held back, in order |
| BtReplies.ThroughInOrder | src/DefaultBtMessageDispatcher.cc:86-106 | exactly the other messages go out, in order, but for the pieces that have been invalidated |
| BtAnswers.ToldAll | src/DefaultBtMessageDispatcher.cc:205-213 | telling the messages of the queue one by one is the event on the whole queue |
| BtAnswers.Session.DoReceivedRequest | src/BtRequestMessage.cc:60-79 | queues the piece if it is there and the peer is unchoked or the index allowed; otherwise a reject with the fast extension, and nothing without |
| BtAnswers.Session.AddAllowedFastMessageToQueue | src/DefaultBtInteractive.cc:234-247 | queues the offer of one index |
| BtAnswers.Session.OnAllowedFastSent | src/BtAllowedFastMessage.cc:69-79 | an offer that has been sent allows its index |
| BtAnswers.Session.DoReceivedCancel | src/BtCancelMessage.cc:53-60 | takes exactly the pieces for the block back |
| BtAnswers.Session.DoChokingAction | src/DefaultBtMessageDispatcher.cc:205-213 | tells every message in the queue that the peer is choked |
| BtAnswers.Session.DecideChoking | src/DefaultBtInteractive.cc:248-264 | a change of the decision queues its message last; choking takes back exactly the pieces whose index is not allowed |
| BtAnswers.Session.SendMessagesInternal | src/DefaultBtMessageDispatcher.cc:86-106 | sends in order, and puts held back uploads to the front in order |
| AnnounceTiers.RoundSoFar | src/AnnounceList.cc:318-340 | during a round the trackers come up in list order, and only the last failure reports exhaustion |
| AnnounceTiers.RoundDone | src/AnnounceList.cc:318-340 | after as many failures as trackers the order and the count are as at the start |
| AnnounceTiers.EventTold | src/AnnounceTier.cc:46-65 | what a success makes of each event |
| AnnounceTiers.EventNotTold | src/AnnounceTier.cc:67-78 | a failure of the last tracker gives up on a stopped or completed event, and no failure on any other |
| AnnounceTiers.ToldOnce | src/AnnounceTier.cc:46-78 | an event that a tracker has been told of is not told again in any run |
| AnnounceTiers.StartNotLost | src/AnnounceTier.cc:67-78 | a start is still to be told however many trackers have failed |
| AnnounceTiers.TiersAreIndependent | src/AnnounceList.cc:305-340 | a tier after any run is the tier after its own steps |
| AnnounceTiers.RunKeepsTrackers | src/AnnounceList.cc:305-340 | in every run each tier keeps its trackers, and its count stays below their number |
| AnnounceTiers.RoundInAnyRun | src/AnnounceList.cc:318-340 | a round goes the same way whatever the other tiers do meanwhile |
| AnnounceLists.AnnounceList.constructor | src/AnnounceList.cc:63-76 | the non-empty groups become tiers, which hold all trackers in order; nothing has been tried |
| AnnounceLists.TiersHoldGroups | src/AnnounceList.cc:63-76 | the trackers of all tiers are those of all groups, one behind the other |
| AnnounceLists.TiersAreGroups | src/AnnounceList.cc:63-76 | the tiers are exactly the non-empty groups, in their order |
| AnnounceLists.AnnounceList.ResetIterator | src/AnnounceList.cc:85-97 | back to the first tracker with all counts zero |
| AnnounceLists.AnnounceList.GetAnnounceOfTier | src/AnnounceList.cc:281-287 | the front of the tier |
| AnnounceLists.AnnounceList.AnnounceSuccessOfTier | src/AnnounceList.cc:305-316 | zeroes the count of the tier and advances its event, in the per-tier model |
| AnnounceLists.AnnounceList.AnnounceFailureOfTier | src/AnnounceList.cc:318-340 | rotates the tier as in the per-tier model |
| AnnounceLists.AnnounceList.GetAnnounce | src/AnnounceList.cc:99-107 | the tracker at the cursor, counted over all tiers |
| AnnounceLists.AnnounceList.AnnounceFailure | src/AnnounceList.cc:121-137 | goes on to the next of all trackers, and ends behind the last |
| AnnounceLists.AnnounceList.AnnounceSuccess | src/AnnounceList.cc:109-119 | moves the tracker to the front of its tier, keeps the others in order, and starts over |
| WriteCaches.MergedMeansPerCell | src/AbstractSingleDiskAdaptor.cc:101-140 | for any cells in any order the merged writes leave the file as writing each cell does |
| WriteCaches.PerCellHolds | src/AbstractSingleDiskAdaptor.cc:101-140 | afterwards each byte is that of the last cell that caches it, or else as before |
| WriteCaches.MergedAsFarAsPossible | src/AbstractSingleDiskAdaptor.cc:111-116 | no write begins where the one before it ends |
| WriteCaches.MergedWritesEachByteOnce | src/AbstractSingleDiskAdaptor.cc:117-138 | the writes carry every cached byte once, in order |
| WriteCaches.SingleDiskAdaptor.WriteCache | src/AbstractSingleDiskAdaptor.cc:101-140 | afterwards each byte is that of the last cell that caches it, or else as before, with one write for each run |
| ChokeRounds.Sort | src/BtSeederStateChoke.cc:125-125 | any ordered arrangement of the entries |
| ChokeRounds.Partition | src/BtLeecherStateChoke.cc:146-147 | any arrangement with the passing entries first |
| ChokeRounds.Shuffle | src/BtLeecherStateChoke.cc:149-149 | any arrangement of the entries |
| BtSeederStateChokes.BeforeIsStrictWeak | src/BtSeederStateChoke.cc:95-113 | for entries noted at one moment the comparison is a strict weak order |
| BtSeederStateChokes.BeforeNeedsOneClock | src/BtSeederStateChoke.cc:95-113 | without one clock it would not be transitive |
| BtSeederStateChokes.NotBeforeMeans | src/BtSeederStateChoke.cc:95-113 | one peer gives way to another exactly by outstanding uploads, then by an unchoke within 20 seconds and its time, then by speed |
| BtSeederStateChokes.OutcomeMeans | src/BtSeederStateChoke.cc:117-178 | how many of the active, interested peers are released, that those left out give way to them, and which are unchoked optimistically |
| BtSeederStateChokes.FirstAreChosen | src/BtSeederStateChoke.cc:120-134 | no candidate left out comes before a released one, and as many are released as there are slots for |
| BtSeederStateChokes.BtSeederStateChoke.ExecuteChoke | src/BtSeederStateChoke.cc:153-178 | the flags of every peer after a round, for every outcome of the sort and the shuffle |
| BtSeederStateChokes.RoundKeepsOneOptimistic | src/BtSeederStateChoke.cc:136-149 | a round keeps the optimistic unchokes at one or below |
| BtLeecherStateChokes.FirstAreFreed | src/BtLeecherStateChoke.cc:161-194 | the first three entries, or all if there are fewer, are rightly chosen, and the interested ones of them are released |
| BtLeecherStateChokes.OutcomeMeans | src/BtLeecherStateChoke.cc:140-239 | which three of the active peers that are not snubbed come first, that the interested ones of them are released, and where the optimistic unchoke goes |
| BtLeecherStateChokes.PlannedOptimisticUnchoke | src/BtLeecherStateChoke.cc:140-159 | one of the waiting peers, if there are any, and no other |
| BtLeecherStateChokes.RegularUnchoke | src/BtLeecherStateChoke.cc:161-207 | an optimistic unchoke of a released peer passes to the first of the ranking that is released |
| BtLeecherStateChokes.BtLeecherStateChoke.ExecuteChoke | src/BtLeecherStateChoke.cc:209-239 | the flags of every peer after a round, for every outcome of partition, sort and shuffle |
| BtLeecherStateChokes.RoundKeepsOneOptimistic | src/BtLeecherStateChoke.cc:161-239 | a round keeps the optimistic unchokes at one or below |
| ChokeRuns.AtMostOneOptimistic | src/BtLeecherStateChoke.cc:209-239 | in every run of seeder and leecher rounds there is never a second optimistic unchoke |
| ChokeRuns.FewAreUnchoked | src/PeerSessionResource.cc:88-94 | after every round of a run at most one peer more than those released is unchoked |
| ChokeRuns.UnchokedExactly | src/PeerSessionResource.cc:88-94 | after a round the active peers not to be choked are those released and those unchoked optimistically |

## Left out

- Integer widths: counts, offsets and lengths are unbounded integers where the source has `size_t`,
  `int32_t` or `int64_t`, except for the int64 bounds of both parsers, the 32-bit register of the
  checksum and the 64-bit counters of the statistics.
- Bytes of the bencode and the chunked input are characters; no encoding is involved.
- BencodePushParser.BencodeParser.ReadNumber: the count of consumed digits does not wrap at
  `size_t`, because no input is that long.
- BitfieldManager.BitfieldMan.GetGeomMissingUnusedIndex: the window bounds are real numbers where
  the source has doubles; rounding is not modelled.
- BitfieldManager.BitfieldMan.GetOffsetCompletedLength: requires a positive block length when the
  range is not empty, as the source divides by it.
- `BitfieldMan`: assignment, the first-missing and all-missing listings, and the tests against a
  peer's bitfield; they are simple scans of the same bitmaps.
- CookieStorages.CookieStorage.Store: requires a domain with at least one label, because a cookie on
  the root would later make the eviction dereference the parent of the root.
- CookieStorages.CookieStorage.EvictNode: nodes with the same time are ordered by address in the
  source; the model leaves open which of them comes first.
- The nodes of the cookie tree are values in a map from label paths; pointers, parents and ownership
  are not modelled, and neither are loading and saving of cookie files.
- Whether a host name is numeric is a parameter, as it asks the system resolver.
- An empty cookie path makes the source read in front of the string; the model takes it as a path
  without a final slash.
- AuthConfigFactories.AuthConfigFactory.FindBasicCred: the ordered set is a sequence in its order,
  and ports are unbounded.
- `createAuthConfig` and the resolvers for netrc files and options; the resolver's answer is a
  parameter of the activation.
- BtStatistics.BtStatisticsManager.Load: the file is a byte sequence in little-endian order; temporary
  files, renaming and locks are not modelled.
- BtAnswers.Session.SendMessagesInternal: a failing read of piece data ends the connection in the
  source and is not modelled; messages that answer no request are the choke, unchoke and
  allowed-fast ones only.
- BtAnswers.EachRequestOneAnswer: without the fast extension refused requests are dropped in
  silence, as the protocol has it, so they have no answer to count.
- `AnnounceList`: shuffling, and the moves to tiers that accept a stopped or completed event.
- Peers are values in a sequence for the choke rounds, the wall clock is a parameter, and the speed
  counters are given numbers.
- Network commands, disk writers, the DHT, Metalink and the user interface are not part of this
  model.
